/**
 One array behind a channel: writes and reads in progress at once, each by its own protocol, on disks they
 share (raid/raid5f.c). Callers keep requests that overlap apart; everything else may interleave.
 */
module SharedArray {
  import opened Options
  import opened Bytes
  import opened Layout
  import opened Iovecs
  import opened RequestPool
  import FanOut
  import C = StripePool
  import W = Raid5Write
  import R = Reconstruct
  import A = Raid5Array
  import F = FlatDevice
  import P = ReadPath
  import E = EndToEnd

  // A write has `started` once its parity has been computed and its chunks are submitted.
  datatype WriteTask = WriteTask(stripe: nat, data: seq<Bytes>, started: bool)
  datatype ReadTask = ReadTask(off: nat, num: nat, lists: seq<seq<Iovec>>, mem: seq<byte>)

  // `asked`: the reads with a direct read in flight or queued, by parent. `ops`: the writes that succeeded and the
  // disk that was lost, in order; `authors`: the parents of those writes. `torn`: the stripes whose last write failed
  // after it had started. `writers`: the writes submitted, by parent. `returned`: the parents whose reconstruct read
  // has ended well.
  datatype Shared = Shared(
    ch: C.Channel,
    a: A.Array,
    writing: map<nat, WriteTask>,
    reading: map<nat, ReadTask>,
    asked: map<nat, ReadTask>,
    ops: seq<A.Op>,
    authors: seq<Option<nat>>,
    torn: set<nat>,
    writers: map<nat, WriteTask>,
    returned: set<nat>)

  // ---- the disks ----

  /** A stripe as all disks store it. */
  function Column(g: Geometry, a: A.Array, s: nat): (strips: seq<A.Strip>)
    requires A.WellFormed(g, a) && s < g.stripes
    ensures |strips| == g.n && forall d :: 0 <= d < g.n ==> strips[d] == a.disks[d][s]
  {
    seq(g.n, d requires 0 <= d < g.n => a.disks[d][s])
  }

  /** A disk takes one strip. */
  function Put(g: Geometry, a: A.Array, d: nat, s: nat, strip: A.Strip): (a': A.Array)
    requires A.WellFormed(g, a) && d < g.n && s < g.stripes && A.StripOk(g, strip)
    ensures A.WellFormed(g, a') && OnlyStripe(g, a, a', s)
    ensures Column(g, a', s) == Column(g, a, s)[d := strip]
  {
    var a' := a.(disks := a.disks[d := a.disks[d][s := strip]]);
    assert Column(g, a', s) == Column(g, a, s)[d := strip];
    a'
  }

  /** Two arrays differ in one stripe at most. */
  ghost predicate OnlyStripe(g: Geometry, a: A.Array, a': A.Array, s: nat)
    requires A.WellFormed(g, a) && A.WellFormed(g, a')
  {
    && a'.missing == a.missing
    && forall d, t :: 0 <= d < g.n && 0 <= t < g.stripes && t != s ==> a'.disks[d][t] == a.disks[d][t]
  }

  // ---- requests and their parts of the array ----

  /** What a write puts on a disk. */
  function Stored(g: Geometry, t: WriteTask, d: nat): A.Strip
    requires A.StripeData(g, t.data) && d < g.n
  {
    A.StoredStrip(g, t.stripe, A.Chunks(g, t.data), None, d)
  }

  /** The data chunks' buffers are the caller's data, on every disk present. */
  ghost predicate DataOk(g: Geometry, present: seq<bool>, image: seq<A.Strip>, t: WriteTask)
  {
    && A.StripeData(g, t.data) && t.stripe < g.stripes && |image| == |present| == g.n
    && forall d :: 0 <= d < g.n && present[d] && d != ParityDisk(g.n, t.stripe) ==> image[d] == Stored(g, t, d)
  }

  /** The buffers to be written are the stripe image of the caller's data, on every disk present. */
  ghost predicate ImageOk(g: Geometry, present: seq<bool>, image: seq<A.Strip>, t: WriteTask)
  {
    && DataOk(g, present, image, t)
    && var parity := ParityDisk(g.n, t.stripe);
       present[parity] ==> image[parity] == Stored(g, t, parity)
  }

  /**
   What the parity computation may leave in the buffers: the data as it was, and if it went well the parity. It fails
   only when there is a parity disk to compute for.
   */
  ghost predicate ParityLeaves(g: Geometry, job: C.WriteJob, t: WriteTask, ok: bool, image: seq<A.Strip>)
    requires DataOk(g, job.w.io.present, job.image, t)
  {
    var parity := ParityDisk(g.n, t.stripe);
    && |image| == g.n && (forall d :: 0 <= d < g.n && d != parity ==> image[d] == job.image[d])
    && (job.w.io.present[parity] ==> ok ==> image[parity] == Stored(g, t, parity))
    && (!ok ==> job.w.io.present[parity])
  }

  /** A write in progress knows its part of the array as it is. */
  ghost predicate WriteFits(g: Geometry, a: A.Array, job: C.WriteJob, t: WriteTask)
    requires A.WellFormed(g, a)
  {
    && DataOk(g, job.w.io.present, job.image, t) && (job.xoring <==> !t.started)
    && (t.started ==> ImageOk(g, job.w.io.present, job.image, t))
    && job.w.io.present == C.Presence(g.n, a.missing)
    && job.w.disks == Column(g, a, t.stripe)
  }

  /** A read that can be served, with lists in memory that do not overlap. */
  ghost predicate AskFits(g: Geometry, a: A.Array, t: ReadTask)
    requires A.WellFormed(g, a)
  {
    && F.InStrip(g, t.off, t.num) && |t.lists| == g.n && F.Served(g, a, t.off)
    && P.ListsOk(Req(g, a, t), |t.mem|)
  }

  ghost function Req(g: Geometry, a: A.Array, t: ReadTask): (x: P.Request)
    requires A.WellFormed(g, a) && F.InStrip(g, t.off, t.num) && |t.lists| == g.n
    ensures x.Valid()
  {
    E.RequestFor(g, a, t.off, t.num, t.lists)
  }

  /** A reconstruct read in progress has in its buffers what the array holds. */
  ghost predicate ReadFits(g: Geometry, a: A.Array, r: R.Read, t: ReadTask)
    requires A.WellFormed(g, a)
  {
    AskFits(g, a, t) && r.completed == [] && P.Inv(Req(g, a, t), P.State(r, t.mem))
  }

  function StripeOf(g: Geometry, t: ReadTask): nat
    requires g.Valid()
  {
    At(g, t.off).stripe
  }

  ghost predicate WritesFit(g: Geometry, a: A.Array, busy: map<nat, Used<C.WriteJob>>, writing: map<nat, WriteTask>)
    requires A.WellFormed(g, a)
  {
    busy.Keys == writing.Keys && forall id :: id in busy ==> WriteFits(g, a, busy[id].job, writing[id])
  }

  ghost predicate ReadsFit(g: Geometry, a: A.Array, busy: map<nat, Used<R.Read>>, reading: map<nat, ReadTask>)
    requires A.WellFormed(g, a)
  {
    busy.Keys == reading.Keys && forall id :: id in busy ==> ReadFits(g, a, busy[id].job, reading[id])
  }

  ghost predicate AsksFit(g: Geometry, a: A.Array, place: map<nat, Place>, asked: map<nat, ReadTask>)
    requires A.WellFormed(g, a)
  {
    && (forall p :: p in asked <==> Waits(place, p))
    && forall p :: p in asked ==> AskFits(g, a, asked[p]) && place[p].target == F.HomeDisk(g, asked[p].off)
  }

  predicate Waits(place: map<nat, Place>, p: nat)
  {
    p in place && (place[p].DirectRead? || place[p].Queued?)
  }

  /** No stripe is written by two requests, or written and read. */
  ghost predicate Apart(
    g: Geometry, writing: map<nat, WriteTask>, reading: map<nat, ReadTask>, asked: map<nat, ReadTask>)
    requires g.Valid()
  {
    && (forall i, j :: i in writing && j in writing && i != j ==> writing[i].stripe != writing[j].stripe)
    && (forall i, j :: i in writing && j in reading ==> writing[i].stripe != StripeOf(g, reading[j]))
    && (forall i, p :: i in writing && p in asked ==> writing[i].stripe != StripeOf(g, asked[p]))
  }

  /** Where no write has started and the last one did not fail, the disks present store what the model does. */
  ghost predicate Settled(g: Geometry, a: A.Array, m: A.Array, writing: map<nat, WriteTask>, torn: set<nat>)
    requires A.WellFormed(g, a) && A.WellFormed(g, m)
  {
    forall s :: 0 <= s < g.stripes && s !in torn && NotStarted(writing, s) ==> SameStripe(g, a, m, s)
  }

  ghost predicate NotWritten(writing: map<nat, WriteTask>, s: nat)
  {
    forall id :: id in writing ==> writing[id].stripe != s
  }

  ghost predicate NotStarted(writing: map<nat, WriteTask>, s: nat)
  {
    forall id :: id in writing && writing[id].stripe == s ==> !writing[id].started
  }

  ghost predicate SameStripe(g: Geometry, a: A.Array, m: A.Array, s: nat)
    requires A.WellFormed(g, a) && A.WellFormed(g, m) && s < g.stripes
  {
    forall d :: 0 <= d < g.n && A.Present(a, d) ==> a.disks[d][s] == m.disks[d][s]
  }

  /** The channel's requests and the array fit together. */
  ghost predicate Coherent(
    g: Geometry, a: A.Array, ch: C.Channel, writing: map<nat, WriteTask>, reading: map<nat, ReadTask>,
    asked: map<nat, ReadTask>)
  {
    && A.WellFormed(g, a) && ch.n == g.n && ch.missing == a.missing
    && WritesFit(g, a, ch.writes.busy, writing) && ReadsFit(g, a, ch.readers.busy, reading)
    && AsksFit(g, a, ch.place, asked) && Apart(g, writing, reading, asked)
  }

  ghost predicate Coheres(g: Geometry, sh: Shared)
  {
    Coherent(g, sh.a, sh.ch, sh.writing, sh.reading, sh.asked)
  }

  /** The array model, run on the operations so far, agrees with the disks. */
  ghost predicate Follows(
    g: Geometry, a0: A.Array, a: A.Array, ops: seq<A.Op>, writing: map<nat, WriteTask>, torn: set<nat>)
    requires A.WellFormed(g, a)
  {
    && A.WellFormed(g, a0) && A.LegalRun(g, a0, ops) && A.Run(g, a0, ops).missing == a.missing
    && Settled(g, a, A.Run(g, a0, ops), writing, torn)
  }

  ghost predicate Inv(g: Geometry, a0: A.Array, sh: Shared)
  {
    C.Inv(sh.ch) && Coheres(g, sh) && Follows(g, a0, sh.a, sh.ops, sh.writing, sh.torn)
  }

  // ---- events ----

  // NewWrite, NewRead, NewMissing: a parent is submitted. Again: a queued read is. DirectDone: the direct read has
  // ended and left anything in memory. OnRead carries the memory the event leaves.
  datatype Event =
    | NewWrite(parent: nat, w: WriteTask, mapped: bool, noMem: bool, image: seq<A.Strip>)
    | ParityDone(id: nat, ok: bool, image: seq<A.Strip>, rets: seq<FanOut.Ret>, flips: seq<bool>)
    | OnWrite(id: nat, we: W.WriteEvent)
    | NewRead(parent: nat, r: ReadTask, ret: FanOut.Ret)
    | Again(parent: nat, ret: FanOut.Ret)
    | DirectDone(parent: nat, ok: bool, mapped: bool, rets: seq<FanOut.Ret>, after: seq<byte>)
    | NewMissing(parent: nat, r: ReadTask, mapped: bool, rets: seq<FanOut.Ret>)
    | OnRead(id: nat, pe: P.Event)
    | LoseDisk(disk: nat)

  /**
   What can happen. The caller's side of it: full stripes, reads inside a strip, requests that overlap kept apart;
   the rest is the channel's.
   */
  ghost predicate Enabled(g: Geometry, sh: Shared, e: Event)
    requires Coheres(g, sh)
  {
    match e
    case NewWrite(p, t, mapped, noMem, image) =>
      && DataOk(g, C.Presence(g.n, sh.a.missing), image, t) && !t.started && Unused(g, sh, t.stripe)
      && C.Enabled(sh.ch, C.SubmitWrite(p, mapped, noMem, image, Column(g, sh.a, t.stripe)))
    case ParityDone(id, ok, image, rets, flips) =>
      && C.Enabled(sh.ch, C.ParityDone(id, ok, image, rets, flips))
      && ParityLeaves(g, sh.ch.writes.busy[id].job, sh.writing[id], ok, image)
    case OnWrite(id, we) => C.Enabled(sh.ch, C.OnWrite(id, we))
    case NewRead(p, t, ret) =>
      && AskFits(g, sh.a, t) && NotWritten(sh.writing, StripeOf(g, t)) && p !in sh.ch.place
      && C.Enabled(sh.ch, C.SubmitRead(p, F.HomeDisk(g, t.off), ret))
    case Again(p, ret) => p in sh.asked && C.Enabled(sh.ch, C.SubmitRead(p, F.HomeDisk(g, sh.asked[p].off), ret))
    case DirectDone(p, ok, mapped, rets, after) =>
      p in sh.asked && |after| == |sh.asked[p].mem| && C.Enabled(sh.ch, C.DirectDone(p, ok, mapped, rets))
    case NewMissing(p, t, mapped, rets) =>
      && AskFits(g, sh.a, t) && NotWritten(sh.writing, StripeOf(g, t))
      && C.Enabled(sh.ch, C.SubmitMissing(p, F.HomeDisk(g, t.off), mapped, rets))
    case OnRead(id, pe) =>
      && id in sh.reading && P.Effect(Req(g, sh.a, sh.reading[id]), sh.reading[id].mem, pe)
      && C.Enabled(sh.ch, C.OnRead(id, pe.re))
    case LoseDisk(d) => C.Enabled(sh.ch, C.LoseDisk(d))
  }

  /** No request uses the stripe. */
  ghost predicate Unused(g: Geometry, sh: Shared, s: nat)
    requires g.Valid()
  {
    && NotWritten(sh.writing, s)
    && (forall id :: id in sh.reading ==> StripeOf(g, sh.reading[id]) != s)
    && forall p :: p in sh.asked ==> StripeOf(g, sh.asked[p]) != s
  }

  /** What the channel sees. */
  ghost function ChannelEvent(g: Geometry, sh: Shared, e: Event): C.Event
    requires Coheres(g, sh) && Enabled(g, sh, e)
  {
    match e
    case NewWrite(p, t, mapped, noMem, image) => C.SubmitWrite(p, mapped, noMem, image, Column(g, sh.a, t.stripe))
    case ParityDone(id, ok, image, rets, flips) => C.ParityDone(id, ok, image, rets, flips)
    case OnWrite(id, we) => C.OnWrite(id, we)
    case NewRead(p, t, ret) => C.SubmitRead(p, F.HomeDisk(g, t.off), ret)
    case Again(p, ret) => C.SubmitRead(p, F.HomeDisk(g, sh.asked[p].off), ret)
    case DirectDone(p, ok, mapped, rets, _) => C.DirectDone(p, ok, mapped, rets)
    case NewMissing(p, t, mapped, rets) => C.SubmitMissing(p, F.HomeDisk(g, t.off), mapped, rets)
    case OnRead(id, pe) => C.OnRead(id, pe.re)
    case LoseDisk(d) => C.LoseDisk(d)
  }

  // ---- steps ----

  /** What a write event does to the disks: a child that ends well has put its buffer on its own. */
  ghost function DisksAfter(g: Geometry, a: A.Array, job: C.WriteJob, t: WriteTask, we: W.WriteEvent): (a': A.Array)
    requires A.WellFormed(g, a) && WriteFits(g, a, job, t) && C.LiveWrite(job) && C.CanMove(job, we)
    ensures A.WellFormed(g, a') && OnlyStripe(g, a, a', t.stripe)
    ensures WriteFits(g, a', C.JobAfter(job, we), t)
  {
    if we.ChunkDone? && we.ok then
      BufferOk(g, job, t, we.chunk);
      Put(g, a, we.chunk, t.stripe, job.w.bufs[we.chunk])
    else a
  }

  lemma {:induction false} BufferOk(g: Geometry, job: C.WriteJob, t: WriteTask, i: nat)
    requires ImageOk(g, job.w.io.present, job.image, t) && W.WriteInv(job.w, job.image, job.before)
    requires i in job.w.io.inFlight
    ensures i < g.n && A.StripOk(g, job.w.bufs[i])
  {
    W.FlippedIsStored(g, t.stripe, A.Chunks(g, t.data), job.image, job.w.poisoned, i);
  }

  /** A write request has moved on to task `t`, and when it has ended, its stripe is written, torn, or as it was. */
  function Written(sh: Shared, id: nat, job: C.WriteJob, t: WriteTask, a: A.Array): Shared
    requires id in sh.writing && id in sh.ch.writes.busy
  {
    var ch := C.MoveWrite(sh.ch, id, job);
    if job.w.released == 0 then sh.(ch := ch, a := a, writing := sh.writing[id := t])
    else if job.w.io.completed == [true] then
      sh.(ch := ch, a := a, writing := sh.writing - {id},
          ops := sh.ops + [A.Write(t.stripe, t.data, job.w.poisoned)],
          authors := sh.authors + [Some(sh.ch.writes.busy[id].parent)], torn := sh.torn - {t.stripe})
    else
      sh.(ch := ch, a := a, writing := sh.writing - {id}, torn := if t.started then sh.torn + {t.stripe} else sh.torn)
  }

  lemma {:induction false} WrittenIs(sh: Shared, id: nat, job: C.WriteJob, t: WriteTask, a: A.Array)
    requires id in sh.writing && id in sh.ch.writes.busy
    ensures var sh' := Written(sh, id, job, t, a);
            && sh'.a == a && sh'.ch == C.MoveWrite(sh.ch, id, job) && sh'.reading == sh.reading && sh'.asked == sh.asked
            && sh'.writing == if job.w.released == 0 then sh.writing[id := t] else sh.writing - {id}
  {
  }

  /** A reconstruct request has moved on. */
  function ReadOn(sh: Shared, id: nat, r: R.Read, mem: seq<byte>): Shared
    requires id in sh.reading && id in sh.ch.readers.busy
  {
    sh.(ch := C.MoveRead(sh.ch, id, r),
        reading := if r.released > 0 then sh.reading - {id} else sh.reading[id := sh.reading[id].(mem := mem)],
        returned := if r.completed == [true] then sh.returned + {sh.ch.readers.busy[id].parent} else sh.returned)
  }

  function NewWriteStep(g: Geometry, sh: Shared, p: nat, t: WriteTask, mapped: bool, noMem: bool, image: seq<A.Strip>)
    : Shared
    requires A.WellFormed(g, sh.a) && t.stripe < g.stripes
  {
    sh.(ch := C.SubmitWriteStep(sh.ch, p, mapped, noMem, image, Column(g, sh.a, t.stripe)),
        writing := if sh.ch.writes.free == [] || !mapped then sh.writing else sh.writing[sh.ch.writes.free[0] := t],
        writers := sh.writers[p := t])
  }

  /** A direct read is submitted, for the first time or again. */
  function AskStep(sh: Shared, p: nat, target: nat, t: ReadTask, ret: FanOut.Ret): Shared
  {
    sh.(ch := C.SubmitReadStep(sh.ch, p, target, ret),
        asked := if ret.Error? then sh.asked - {p} else sh.asked[p := t])
  }

  function DirectDoneStep(
    sh: Shared, p: nat, target: nat, t: ReadTask, ok: bool, mapped: bool, rets: seq<FanOut.Ret>): Shared
    requires C.ReadArgs(sh.ch, target, rets)
  {
    sh.(ch := C.DirectDoneStep(sh.ch, p, ok, mapped, target, rets), asked := sh.asked - {p},
        reading := if ok && C.CanReconstruct(sh.ch, mapped) then sh.reading[sh.ch.readers.free[0] := t] else sh.reading)
  }

  function NewMissingStep(sh: Shared, p: nat, target: nat, t: ReadTask, mapped: bool, rets: seq<FanOut.Ret>): Shared
    requires C.ReadArgs(sh.ch, target, rets)
  {
    sh.(ch := C.SubmitMissingStep(sh.ch, p, target, mapped, rets), asked := sh.asked - {p},
        reading := if C.CanReconstruct(sh.ch, mapped) then sh.reading[sh.ch.readers.free[0] := t] else sh.reading)
  }

  function LoseDiskStep(sh: Shared, d: nat): Shared
  {
    sh.(ch := sh.ch.(missing := Some(d)), a := sh.a.(missing := Some(d)), ops := sh.ops + [A.Fail(d)],
        authors := sh.authors + [None])
  }

  lemma {:induction false} Home(g: Geometry, a: A.Array, t: ReadTask)
    requires A.WellFormed(g, a) && AskFits(g, a, t)
    ensures F.HomeDisk(g, t.off) < g.n
  {
  }

  lemma {:induction false} ReadFitsAt(g: Geometry, sh: Shared, id: nat)
    requires A.WellFormed(g, sh.a) && ReadsFit(g, sh.a, sh.ch.readers.busy, sh.reading) && id in sh.reading
    ensures id in sh.ch.readers.busy && ReadFits(g, sh.a, sh.ch.readers.busy[id].job, sh.reading[id])
    ensures R.Inv(sh.ch.readers.busy[id].job)
  {
  }

  lemma {:induction false} CanRead(g: Geometry, sh: Shared, id: nat, re: R.Event)
    requires A.WellFormed(g, sh.a) && ReadsFit(g, sh.a, sh.ch.readers.busy, sh.reading) && id in sh.reading
    requires C.Enabled(sh.ch, C.OnRead(id, re))
    ensures id in sh.ch.readers.busy && Moves(sh, id, re)
  {
    ReadFitsAt(g, sh, id);
  }

  ghost predicate Moves(sh: Shared, id: nat, re: R.Event)
    requires id in sh.ch.readers.busy
  {
    R.Inv(sh.ch.readers.busy[id].job) && R.Enabled(sh.ch.readers.busy[id].job, re)
  }

  ghost function OnReadStep(sh: Shared, id: nat, pe: P.Event): Shared
    requires id in sh.reading && id in sh.ch.readers.busy && Moves(sh, id, pe.re)
  {
    ReadOn(sh, id, R.Step(sh.ch.readers.busy[id].job, pe.re), pe.after)
  }

  function ParityStep(
    sh: Shared, id: nat, ok: bool, image: seq<A.Strip>, rets: seq<FanOut.Ret>, flips: seq<bool>): Shared
    requires C.LiveWrites(sh.ch.writes.busy) && sh.ch.writes.busy.Keys == sh.writing.Keys
    requires C.Enabled(sh.ch, C.ParityDone(id, ok, image, rets, flips))
  {
    Written(sh, id, C.JobAfterParity(sh.ch.writes.busy[id].job, ok, image, rets, flips),
            sh.writing[id].(started := ok), sh.a)
  }

  ghost function OnWriteStep(g: Geometry, sh: Shared, id: nat, we: W.WriteEvent): Shared
    requires A.WellFormed(g, sh.a) && WritesFit(g, sh.a, sh.ch.writes.busy, sh.writing)
    requires C.LiveWrites(sh.ch.writes.busy) && C.Enabled(sh.ch, C.OnWrite(id, we))
  {
    var job, t := sh.ch.writes.busy[id].job, sh.writing[id];
    Written(sh, id, C.JobAfter(job, we), t, DisksAfter(g, sh.a, job, t, we))
  }

  /** Parents are submitted, for the first time or again, and direct reads end. */
  predicate OfParent(e: Event)
  {
    e.NewWrite? || e.NewRead? || e.Again? || e.DirectDone? || e.NewMissing?
  }

  ghost function ParentStep(g: Geometry, sh: Shared, e: Event): Shared
    requires Coheres(g, sh) && Enabled(g, sh, e) && OfParent(e)
  {
    match e
    case NewWrite(p, t, mapped, noMem, image) => NewWriteStep(g, sh, p, t, mapped, noMem, image)
    case NewRead(p, t, ret) => AskStep(sh, p, F.HomeDisk(g, t.off), t, ret)
    case Again(p, ret) => AskStep(sh, p, F.HomeDisk(g, sh.asked[p].off), sh.asked[p], ret)
    case DirectDone(p, ok, mapped, rets, after) =>
      Home(g, sh.a, sh.asked[p]);
      DirectDoneStep(sh, p, F.HomeDisk(g, sh.asked[p].off), sh.asked[p].(mem := after), ok, mapped, rets)
    case NewMissing(p, t, mapped, rets) =>
      Home(g, sh.a, t);
      NewMissingStep(sh, p, F.HomeDisk(g, t.off), t, mapped, rets)
  }

  ghost function RequestStep(g: Geometry, sh: Shared, e: Event): Shared
    requires Coheres(g, sh) && C.LiveWrites(sh.ch.writes.busy) && Enabled(g, sh, e) && !OfParent(e)
  {
    match e
    case ParityDone(id, ok, image, rets, flips) => ParityStep(sh, id, ok, image, rets, flips)
    case OnWrite(id, we) => OnWriteStep(g, sh, id, we)
    case OnRead(id, pe) =>
      CanRead(g, sh, id, pe.re);
      OnReadStep(sh, id, pe)
    case LoseDisk(d) => LoseDiskStep(sh, d)
  }

  ghost function Step(g: Geometry, sh: Shared, e: Event): Shared
    requires Coheres(g, sh) && C.LiveWrites(sh.ch.writes.busy) && Enabled(g, sh, e)
  {
    if OfParent(e) then ParentStep(g, sh, e) else RequestStep(g, sh, e)
  }
}
