/**
 A full-stripe RAID5F write from the end of the parity computation to its completion, with the
 chunk buffers, the deliberate bit flip and the disks: raid/raid5f.c.
 */
module Raid5Write {
  import opened Options
  import opened FanOut
  import opened Layout
  import A = Raid5Array

  /** A stripe request of type write and the strips of its stripe on the disks. */
  datatype Write = Write(
    io: Io,
    released: nat,              // times the request went back to the free list
    poisoned: Option<nat>,      // chunk whose buffer was flipped
    flips: nat,                 // number of flips
    bufs: seq<A.Strip>,
    disks: seq<A.Strip>)

  function FlipStrip(s: A.Strip): A.Strip
    requires |s| > 0 && |s[0]| > 0
  {
    s[0 := A.FlipLow(s[0])]
  }

  ghost predicate Shape(w: Write)
  {
    && Counts(w.io) && |w.bufs| == |w.disks| == w.io.N()
    && forall d :: 0 <= d < w.io.N() ==> |w.bufs[d]| > 0 && |w.bufs[d][0]| > 0
  }

  /** The flip, decided before the chunk at `submitted` is handed to its disk. */
  function Poison(w: Write, flip: bool): (w': Write)
    requires Shape(w) && w.io.submitted < w.io.N()
    ensures Shape(w') && w'.io == w.io && w'.disks == w.disks && w'.released == w.released
  {
    var i := w.io.submitted;
    if w.poisoned.None? && flip
    then w.(poisoned := Some(i), flips := w.flips + 1, bufs := w.bufs[i := FlipStrip(w.bufs[i])])
    else w
  }

  /** raid5f_chunk_submit for the chunk at `submitted`: the result of crediting a skipped chunk is ignored. */
  function ChunkSubmit(w: Write, ret: Ret, flip: bool): (w': Write)
    requires Shape(w) && !Stopped(w.io) && w.io.submitted < w.io.N()
    ensures Shape(w') && w'.io == SubmitOne(w.io, ret) && w'.disks == w.disks
  {
    var io' := SubmitOne(w.io, ret);
    if !w.io.present[w.io.submitted] then w.(io := io')
    else
      Poison(w, flip).(io := io',
                       released := w.released + if io'.abandoned && io'.remaining == 0 then 1 else 0)
  }

  /** raid5f_stripe_request_submit_chunks */
  function SubmitChunks(w: Write, rets: seq<Ret>, flips: seq<bool>): (w': Write)
    requires Shape(w) && |rets| == |flips| == w.io.N()
    ensures Shape(w') && w'.io == Pass(w.io, rets) && w'.disks == w.disks
    decreases w.io.N() - w.io.submitted
  {
    if Stopped(w.io) || w.io.submitted == w.io.N() then w
    else
      var w' := ChunkSubmit(w, rets[w.io.submitted], flips[w.io.submitted]);
      if Stopped(w'.io) then w' else SubmitChunks(w', rets, flips)
  }

  datatype WriteEvent =
    | Resubmit(rets: seq<Ret>, flips: seq<bool>)
    | ChunkDone(chunk: nat, ok: bool)

  function IoEvent(e: WriteEvent): Event
  {
    match e
    case Resubmit(rets, _) => Retry(rets)
    case ChunkDone(i, ok) => Done(i, ok)
  }

  ghost predicate CanHappen(w: Write, e: WriteEvent)
  {
    Enabled(w.io, IoEvent(e)) && (e.Resubmit? ==> |e.flips| == w.io.N())
  }

  /** A retry of the submit loop, or a child completion: a successful one has put its buffer on the disk. */
  function WriteStep(w: Write, e: WriteEvent): (w': Write)
    requires Shape(w) && Inv(w.io) && CanHappen(w, e)
    ensures Shape(w') && w'.io == Step(w.io, Preset, IoEvent(e))
  {
    match e
    case Resubmit(rets, flips) => SubmitChunks(w.(io := w.io.(waiting := false)), rets, flips)
    case ChunkDone(i, ok) =>
      var io' := Step(w.io, Preset, Done(i, ok));
      w.(io := io', released := w.released + |io'.completed|,
         disks := if ok then w.disks[i := w.bufs[i]] else w.disks)
  }

  // ---- invariant ----

  /** The image of a stripe with at most one flipped chunk. */
  function Flipped(image: seq<A.Strip>, poisoned: Option<nat>, d: nat): A.Strip
    requires d < |image| && |image[d]| > 0 && |image[d][0]| > 0
  {
    if poisoned == Some(d) then FlipStrip(image[d]) else image[d]
  }

  /** Buffers and disks, given the image the buffers held and the disks before the write. */
  ghost predicate DataInv(w: Write, image: seq<A.Strip>, before: seq<A.Strip>)
  {
    && Shape(w) && |image| == |before| == w.io.N()
    && (forall d :: 0 <= d < |image| ==> |image[d]| > 0 && |image[d][0]| > 0)
    && w.flips == (if w.poisoned.Some? then 1 else 0)
    && (w.poisoned.Some? ==> w.poisoned.value < w.io.N() && w.io.present[w.poisoned.value])
    && (forall d :: 0 <= d < w.io.N() ==> w.bufs[d] == Flipped(image, w.poisoned, d))
    && (forall d :: 0 <= d < w.io.N() && !w.io.present[d] ==> w.disks[d] == before[d])
    && (!w.io.childFailed ==> forall d :: 0 <= d < w.io.submitted && w.io.present[d] && d !in w.io.inFlight ==>
          w.disks[d] == w.bufs[d])
  }

  ghost predicate SomePresent(io: Io)
  {
    exists d :: 0 <= d < io.N() && io.present[d]
  }

  ghost predicate WriteInv(w: Write, image: seq<A.Strip>, before: seq<A.Strip>)
  {
    && Inv(w.io) && DataInv(w, image, before) && SomePresent(w.io)
    && w.released == |w.io.completed|
  }

  lemma {:induction false} PoisonData(w: Write, flip: bool, image: seq<A.Strip>, before: seq<A.Strip>)
    requires DataInv(w, image, before) && w.io.submitted < w.io.N() && w.io.present[w.io.submitted]
    ensures DataInv(Poison(w, flip), image, before)
  {
    var p := Poison(w, flip);
    assert forall d :: 0 <= d < w.io.N() ==> p.bufs[d] == Flipped(image, p.poisoned, d);
    assert forall d :: 0 <= d < w.io.submitted ==> p.bufs[d] == w.bufs[d];
  }

  lemma {:induction false} GrowData(w: Write, io': Io, released: nat, image: seq<A.Strip>, before: seq<A.Strip>)
    requires DataInv(w, image, before) && Counts(io') && Grows(w.io, io')
    ensures DataInv(w.(io := io', released := released), image, before)
  {
  }

  lemma {:induction false} ChunkSubmitData(w: Write, ret: Ret, flip: bool, image: seq<A.Strip>, before: seq<A.Strip>)
    requires DataInv(w, image, before) && !Stopped(w.io) && w.io.submitted < w.io.N()
    ensures DataInv(ChunkSubmit(w, ret, flip), image, before)
  {
    SubmitOneGrows(w.io, ret);
    var w' := ChunkSubmit(w, ret, flip);
    if w.io.present[w.io.submitted] {
      PoisonData(w, flip, image, before);
      GrowData(Poison(w, flip), w'.io, w'.released, image, before);
    } else {
      GrowData(w, w'.io, w'.released, image, before);
    }
  }

  lemma {:induction false} SubmitChunksData(
    w: Write, rets: seq<Ret>, flips: seq<bool>, image: seq<A.Strip>, before: seq<A.Strip>)
    requires DataInv(w, image, before) && |rets| == |flips| == w.io.N()
    ensures DataInv(SubmitChunks(w, rets, flips), image, before)
    decreases w.io.N() - w.io.submitted
  {
    if !Stopped(w.io) && w.io.submitted < w.io.N() {
      ChunkSubmitData(w, rets[w.io.submitted], flips[w.io.submitted], image, before);
      var w' := ChunkSubmit(w, rets[w.io.submitted], flips[w.io.submitted]);
      if !Stopped(w'.io) {
        SubmitChunksData(w', rets, flips, image, before);
      }
    }
  }

  lemma {:induction false} ChunkSubmitReleases(w: Write, ret: Ret, flip: bool)
    requires Shape(w) && !Stopped(w.io) && w.io.submitted < w.io.N() && w.io.completed == [] && Pending(w.io)
    ensures var w' := ChunkSubmit(w, ret, flip);
            && w'.released == w.released + |w'.io.completed|
            && (!Stopped(w'.io) ==> w'.io.completed == [] && Pending(w'.io))
  {
    var i, w' := w.io.submitted, ChunkSubmit(w, ret, flip);
    if !Stopped(w'.io) {
      if w.io.present[i] {
        assert i in w'.io.inFlight;
      } else if w.io.inFlight == {} {
        var d :| i <= d < w.io.N() && w.io.present[d];
        assert w'.io.submitted <= d < w'.io.N() && w'.io.present[d];
      }
    }
  }

  /** A pass releases the request exactly when it is the one to complete the parent. */
  lemma {:induction false} SubmitChunksReleases(w: Write, rets: seq<Ret>, flips: seq<bool>)
    requires Shape(w) && !Stopped(w.io) && |rets| == |flips| == w.io.N() && w.io.completed == [] && Pending(w.io)
    ensures var w' := SubmitChunks(w, rets, flips); w'.released == w.released + |w'.io.completed|
    decreases w.io.N() - w.io.submitted
  {
    if w.io.submitted < w.io.N() {
      ChunkSubmitReleases(w, rets[w.io.submitted], flips[w.io.submitted]);
      var w' := ChunkSubmit(w, rets[w.io.submitted], flips[w.io.submitted]);
      if !Stopped(w'.io) {
        SubmitChunksReleases(w', rets, flips);
      }
    }
  }

  /** The request as map_iovecs and the parity computation leave it. */
  function NewWrite(present: seq<bool>, image: seq<A.Strip>, before: seq<A.Strip>): Write
  {
    Write(Fresh(present).(remaining := |present|), 0, None, 0, image, before)
  }

  ghost predicate Ready(present: seq<bool>, image: seq<A.Strip>, before: seq<A.Strip>)
  {
    && |present| == |image| == |before| > 0
    && (exists d :: 0 <= d < |present| && present[d])
    && (forall d :: 0 <= d < |image| ==> |image[d]| > 0 && |image[d][0]| > 0)
  }

  /** raid5f_stripe_write_request_xor_done */
  function XorDone(w: Write, ok: bool, rets: seq<Ret>, flips: seq<bool>): Write
    requires Shape(w) && |rets| == |flips| == w.io.N()
  {
    if !ok then w.(released := w.released + 1, io := w.io.(completed := w.io.completed + [false]))
    else SubmitChunks(w, rets, flips)
  }

  /** A failed parity computation ends the write there and then: nothing has reached a disk, and nothing is to come. */
  lemma {:induction false} ParityFailureEnds(
    present: seq<bool>, image: seq<A.Strip>, before: seq<A.Strip>, rets: seq<Ret>, flips: seq<bool>)
    requires Ready(present, image, before) && |rets| == |flips| == |present|
    ensures var w := XorDone(NewWrite(present, image, before), false, rets, flips);
            && w.io.completed == [false] && w.released == 1 && w.io.issued == [] && w.io.inFlight == {}
            && w.disks == before && w.flips == 0 && forall e :: !CanHappen(w, e)
  {
  }

  lemma {:induction false} StartInv(
    present: seq<bool>, image: seq<A.Strip>, before: seq<A.Strip>, rets: seq<Ret>, flips: seq<bool>)
    requires Ready(present, image, before) && |rets| == |flips| == |present|
    ensures WriteInv(XorDone(NewWrite(present, image, before), true, rets, flips), image, before)
  {
    var w := NewWrite(present, image, before);
    SubmitChunksData(w, rets, flips, image, before);
    SubmitChunksReleases(w, rets, flips);
  }

  lemma {:induction false} ResubmitInv(
    w: Write, rets: seq<Ret>, flips: seq<bool>, image: seq<A.Strip>, before: seq<A.Strip>)
    requires WriteInv(w, image, before) && CanHappen(w, Resubmit(rets, flips))
    ensures WriteInv(WriteStep(w, Resubmit(rets, flips)), image, before)
  {
    var w0 := w.(io := w.io.(waiting := false));
    assert DataInv(w0, image, before) && Pending(w0.io);
    SubmitChunksData(w0, rets, flips, image, before);
    SubmitChunksReleases(w0, rets, flips);
  }

  lemma {:induction false} ChunkDoneInv(w: Write, i: nat, ok: bool, image: seq<A.Strip>, before: seq<A.Strip>)
    requires WriteInv(w, image, before) && CanHappen(w, ChunkDone(i, ok))
    ensures WriteInv(WriteStep(w, ChunkDone(i, ok)), image, before)
  {
    ChunkDoneData(w, i, ok, image, before);
    assert w.io.completed == [];
  }

  lemma {:induction false} ChunkDoneData(w: Write, i: nat, ok: bool, image: seq<A.Strip>, before: seq<A.Strip>)
    requires DataInv(w, image, before) && Inv(w.io) && CanHappen(w, ChunkDone(i, ok))
    ensures DataInv(WriteStep(w, ChunkDone(i, ok)), image, before)
  {
    assert w.io.present[i];
  }

  lemma {:induction false} StepInv(w: Write, e: WriteEvent, image: seq<A.Strip>, before: seq<A.Strip>)
    requires WriteInv(w, image, before) && CanHappen(w, e)
    ensures WriteInv(WriteStep(w, e), image, before)
  {
    match e
    case Resubmit(rets, flips) => ResubmitInv(w, rets, flips, image, before);
    case ChunkDone(i, ok) => ChunkDoneInv(w, i, ok, image, before);
  }

  // ---- runs ----

  ghost predicate LegalRun(present: seq<bool>, image: seq<A.Strip>, before: seq<A.Strip>, events: seq<WriteEvent>)
    decreases |events|, 0
  {
    && Ready(present, image, before) && events != []
    && events[0].Resubmit? && |events[0].rets| == |events[0].flips| == |present|
    && (|events| > 1 ==>
          var prior := events[..|events| - 1];
          LegalRun(present, image, before, prior) &&
              CanHappen(Run(present, image, before, prior), events[|events| - 1]))
  }

  /** The first event carries the answers to the first submit pass. */
  ghost function Run(present: seq<bool>, image: seq<A.Strip>, before: seq<A.Strip>, events: seq<WriteEvent>): (w: Write)
    requires LegalRun(present, image, before, events)
    ensures WriteInv(w, image, before) && w.io.present == present
    decreases |events|, 1
  {
    if |events| == 1 then
      StartInv(present, image, before, events[0].rets, events[0].flips);
      XorDone(NewWrite(present, image, before), true, events[0].rets, events[0].flips)
    else
      var w := Run(present, image, before, events[..|events| - 1]);
      StepInv(w, events[|events| - 1], image, before);
      WriteStep(w, events[|events| - 1])
  }

  // ---- main results ----

  /**
   Every interleaving: the parent completes at most once, exactly when no child is in flight and
   none is still to be submitted; the stripe request is released exactly then; success means no
   child failed and none was abandoned; at most one bit is flipped.
   */
  lemma {:induction false} WriteCompletesOnce(
    present: seq<bool>, image: seq<A.Strip>, before: seq<A.Strip>, events: seq<WriteEvent>)
    requires LegalRun(present, image, before, events)
    ensures var w := Run(present, image, before, events);
            && |w.io.completed| <= 1 && w.released == |w.io.completed| && w.flips <= 1
            && (w.io.completed != [] <==> w.io.inFlight == {} && !w.io.waiting)
            && (w.io.completed != [] ==> (w.io.completed[0] <==> !w.io.childFailed && !w.io.abandoned))
  {
    var w := Run(present, image, before, events);
    assert w.io.inFlight == {} <==> |w.io.inFlight| == 0;
  }

  /** Until the parent completes, a child is in flight or the wait queue will call back. */
  lemma {:induction false} WriteNeverStuck(
    present: seq<bool>, image: seq<A.Strip>, before: seq<A.Strip>, events: seq<WriteEvent>)
    requires LegalRun(present, image, before, events) && Run(present, image, before, events).io.completed == []
    ensures exists e :: CanHappen(Run(present, image, before, events), e)
  {
    var w := Run(present, image, before, events);
    if w.io.waiting {
      assert CanHappen(w, Resubmit(seq(w.io.N(), _ => Accepted), seq(w.io.N(), _ => false)));
    } else {
      var i :| i in w.io.inFlight;
      assert CanHappen(w, ChunkDone(i, true));
    }
  }

  /** What the counters of a write see of its events after the first. */
  function Seen(events: seq<WriteEvent>): (seen: seq<Event>)
    requires events != []
    ensures |seen| == |events| - 1
  {
    seq(|events| - 1, i requires 0 <= i < |events| - 1 => IoEvent(events[i + 1]))
  }

  lemma {:induction false} SeenNext(events: seq<WriteEvent>)
    requires |events| > 1
    ensures Seen(events) == Seen(events[..|events| - 1]) + [IoEvent(events[|events| - 1])]
  {
  }

  lemma {:induction false} FanOutNext(
    present: seq<bool>, first: seq<Ret>, before: seq<Event>, e: Event, all: seq<Event>)
    requires FanOut.LegalRun(present, Preset, first, before) && all == before + [e]
    requires Enabled(FanOut.Run(present, Preset, first, before), e)
    ensures FanOut.LegalRun(present, Preset, first, all)
    ensures FanOut.Run(present, Preset, first, all) == Step(FanOut.Run(present, Preset, first, before), Preset, e)
  {
    assert all[..|all| - 1] == before;
  }

  /** A write is a run of the shared protocol. */
  lemma {:induction false} RunOfFanOut(
    present: seq<bool>, image: seq<A.Strip>, before: seq<A.Strip>, events: seq<WriteEvent>)
    requires LegalRun(present, image, before, events)
    ensures FanOut.LegalRun(present, Preset, events[0].rets, Seen(events))
    ensures Run(present, image, before, events).io == FanOut.Run(present, Preset, events[0].rets, Seen(events))
    decreases |events|
  {
    if |events| > 1 {
      var prior, e := events[..|events| - 1], events[|events| - 1];
      RunOfFanOut(present, image, before, prior);
      SeenNext(events);
      FanOutNext(present, events[0].rets, Seen(prior), IoEvent(e), Seen(events));
    }
  }

  /**
   A write is completed with success if and only if it is completed, no child of it failed and no pass of submissions
   met a hard error before a lack of resources; a pass that meets one with nothing in flight completes it at once.
   */
  lemma {:induction false} WriteSucceedsIff(
    present: seq<bool>, image: seq<A.Strip>, before: seq<A.Strip>, events: seq<WriteEvent>)
    requires LegalRun(present, image, before, events)
    ensures FanOut.LegalRun(present, Preset, events[0].rets, Seen(events))
    ensures var io, hard := Run(present, image, before, events).io,
                            MetHardError(present, Preset, events[0].rets, Seen(events));
            && (io.abandoned <==> hard)
            && (io.completed == [true] <==> io.completed != [] && !SomeChildFailed(Seen(events)) && !hard)
            && (hard && io.inFlight == {} ==> io.completed == [false])
  {
    RunOfFanOut(present, image, before, events);
    RunOutcome(present, Preset, events[0].rets, Seen(events));
    SucceedsIff(present, Preset, events[0].rets, Seen(events));
  }

  /**
   A chunk is flipped just before it is handed to its disk, accepted or not, if and only if none of the request
   was before and the draw says so; nothing else of the request's buffers changes.
   */
  lemma {:induction false} FlipsIffDrawn(w: Write, ret: Ret, flip: bool)
    requires Shape(w) && !Stopped(w.io) && w.io.submitted < w.io.N()
    ensures var i, w' := w.io.submitted, ChunkSubmit(w, ret, flip);
            var now := w.poisoned.None? && w.io.present[i] && flip;
            && w'.poisoned == (if now then Some(i) else w.poisoned)
            && w'.flips == w.flips + (if now then 1 else 0)
            && w'.bufs == if now then w.bufs[i := FlipStrip(w.bufs[i])] else w.bufs
  {
  }

  lemma {:induction false} FlippedIsStored(
    g: Geometry, s: nat, chunks: seq<A.Strip>, image: seq<A.Strip>, c: Option<nat>, d: nat)
    requires A.ChunksOk(g, chunks) && d < g.n == |image| && image[d] == A.StoredStrip(g, s, chunks, None, d)
    ensures Flipped(image, c, d) == A.StoredStrip(g, s, chunks, c, d)
  {
    var strip := A.StoredStrip(g, s, chunks, c, d);
    assert forall o :: 0 <= o < g.strip ==> Flipped(image, c, d)[o] == strip[o];
  }

  /** The disks after success: the image with its flip on the present ones, the others as they were. */
  lemma {:induction false} SuccessStores(
    g: Geometry, s: nat, chunks: seq<A.Strip>, w: Write, image: seq<A.Strip>, before: seq<A.Strip>)
    requires A.ChunksOk(g, chunks) && WriteInv(w, image, before) && w.io.N() == g.n && w.io.completed == [true]
    requires forall d :: 0 <= d < g.n && w.io.present[d] ==> image[d] == A.StoredStrip(g, s, chunks, None, d)
    ensures w.poisoned.Some? ==> w.poisoned.value < g.n && w.io.present[w.poisoned.value]
    ensures forall d :: 0 <= d < g.n ==>
      w.disks[d] == if w.io.present[d] then A.StoredStrip(g, s, chunks, w.poisoned, d) else before[d]
  {
    assert |w.io.inFlight| == 0 && !w.io.childFailed;
    forall d | 0 <= d < g.n && w.io.present[d]
      ensures w.disks[d] == A.StoredStrip(g, s, chunks, w.poisoned, d)
    {
      assert w.disks[d] == Flipped(image, w.poisoned, d);
      FlippedIsStored(g, s, chunks, image, w.poisoned, d);
    }
  }

  /**
   A write that completes successfully has done to the disks of the array exactly what the
   one-step model of module Raid5Array does, with the chunk it flipped, if any.
   */
  lemma {:induction false} SuccessfulWriteIsWriteStripe(
    g: Geometry, a: A.Array, s: nat, chunks: seq<A.Strip>, image: seq<A.Strip>, before: seq<A.Strip>,
    present: seq<bool>, events: seq<WriteEvent>)
    requires A.WellFormed(g, a) && A.ChunksOk(g, chunks) && s < g.stripes && |present| == g.n
    requires forall d :: 0 <= d < g.n ==> present[d] == A.Present(a, d)
    requires LegalRun(present, image, before, events)
    requires forall d :: 0 <= d < g.n && present[d] ==> image[d] == A.StoredStrip(g, s, chunks, None, d)
    requires forall d :: 0 <= d < g.n ==> before[d] == a.disks[d][s]
    requires Run(present, image, before, events).io.completed == [true]
    ensures var w := Run(present, image, before, events);
            && (w.poisoned.Some? ==> w.poisoned.value < g.n && A.Present(a, w.poisoned.value))
            && forall d :: 0 <= d < g.n ==> w.disks[d] == A.WriteStripe(g, a, s, chunks, w.poisoned).disks[d][s]
  {
    var w := Run(present, image, before, events);
    SuccessStores(g, s, chunks, w, image, before);
    WrittenAs(g, a, s, chunks, w.poisoned, present, before, w.disks);
  }

  lemma {:induction false} WrittenAs(
    g: Geometry, a: A.Array, s: nat, chunks: seq<A.Strip>, c: Option<nat>, present: seq<bool>, before: seq<A.Strip>,
    disks: seq<A.Strip>)
    requires A.WellFormed(g, a) && A.ChunksOk(g, chunks) && s < g.stripes && |present| == |before| == |disks| == g.n
    requires forall d :: 0 <= d < g.n ==> present[d] == A.Present(a, d) && before[d] == a.disks[d][s]
    requires forall d :: 0 <= d < g.n ==>
      disks[d] == if present[d] then A.StoredStrip(g, s, chunks, c, d) else before[d]
    ensures forall d :: 0 <= d < g.n ==> disks[d] == A.WriteStripe(g, a, s, chunks, c).disks[d][s]
  {
  }
}
