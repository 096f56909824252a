/**
 A reconstruct read from its submission to its completion: raid/raid5f.c. The n-1 other chunks are
 read, the target chunk is credited, and the read that finds one part left starts the XOR.
 A hard submit error counts against n-1 although the counter was set to n, so the model keeps that
 branch and states what becomes of the parent.
 */
module Reconstruct {
  import opened FanOut

  datatype Read = Read(
    n: nat,
    target: nat,
    submitted: nat,
    remaining: nat,
    failed: bool,
    inFlight: set<nat>,
    good: set<nat>,          // chunks read successfully
    bad: set<nat>,           // chunks whose read failed
    waiting: bool,
    refused: bool,           // a submission failed hard
    xorRunning: bool,
    xorStarts: nat,
    released: nat,
    completed: seq<bool>)

  /** raid_bdev_io_complete_part */
  function CompletePart(r: Read, parts: nat, ok: bool): Read
    requires parts <= r.remaining
  {
    var r' := r.(remaining := r.remaining - parts, failed := r.failed || !ok);
    if r'.remaining == 0 then r'.(completed := r'.completed + [!r'.failed]) else r'
  }

  /** Parts outstanding at any point of the submit loop. */
  ghost predicate Tally(r: Read)
  {
    && r.target < r.n && r.n >= 2 && r.submitted <= r.n
    && r.remaining == (if r.refused then 1 else (r.n - r.submitted) + (if r.xorRunning then 1 else 0)) + |r.inFlight|
    && r.completed == (if r.remaining == 0 then [!r.failed] else [])
    && r.released == |r.completed|
    && (r.waiting ==> !r.refused)
  }

  /** Every submitted read is in flight, good or bad. */
  ghost predicate Chunks(r: Read)
  {
    && (forall i :: 0 <= i < r.submitted && i != r.target && i !in r.inFlight ==> i in r.good || i in r.bad)
    && (forall i :: i in r.inFlight ==> i < r.submitted && i != r.target)
    && (forall i :: i in r.good ==> i < r.submitted && i != r.target && i !in r.inFlight && i !in r.bad)
    && (forall i :: i in r.bad ==> i < r.submitted && i != r.target && i !in r.inFlight)
  }

  ghost predicate Outcome(r: Read)
  {
    && r.xorStarts <= 1
    && (r.xorStarts == 0 ==> !r.xorRunning && (r.failed <==> r.bad != {} || r.refused) && r.completed != [true])
    && (r.xorStarts == 1 ==> AllGood(r) && r.submitted == r.n && r.inFlight == {} && !Stopped(r)
                             && (r.xorRunning <==> r.completed == []) && (r.xorRunning ==> !r.failed))
  }

  ghost predicate Counts(r: Read)
  {
    Tally(r) && Chunks(r) && Outcome(r)
  }

  /** Every chunk but the target has been read. */
  ghost predicate AllGood(r: Read)
  {
    forall i :: 0 <= i < r.n && i != r.target ==> i in r.good
  }

  /** The target's part is credited with a read still in flight, or is not the last to be submitted. */
  ghost predicate Lead(r: Read)
  {
    r.submitted < r.n ==> r.inFlight != {} || r.submitted != r.target || r.submitted < r.n - 1
  }

  predicate Stopped(r: Read)
  {
    r.waiting || r.refused
  }

  /** raid5f_chunk_submit for the chunk at `submitted`. */
  function ChunkSubmit(r: Read, ret: Ret): (r': Read)
    requires Counts(r) && !Stopped(r) && r.submitted < r.n && !r.xorRunning && r.xorStarts == 0 && Lead(r)
    ensures Counts(r') && r'.n == r.n && r'.target == r.target && !r'.xorRunning && r'.xorStarts == 0
    ensures Stopped(r') || (r'.submitted == r.submitted + 1 && Lead(r'))
    ensures r'.waiting ==> r'.submitted == r.submitted != r.target
    ensures r'.good == r.good
  {
    var i := r.submitted;
    if i == r.target then CompletePart(r.(submitted := i + 1), 1, true)
    else match ret
      case Accepted => r.(submitted := i + 1, inFlight := r.inFlight + {i})
      case NoMem => r.(waiting := true)
      case Error => CompletePart(r.(refused := true), (r.n - 1) - i, false)
  }

  /**
   Of the answers to the chunks from `from` on, the target's aside, the first that is not acceptance is
   a hard error.
   */
  predicate HardFirst(rets: seq<Ret>, target: nat, from: nat)
    decreases |rets| - from
  {
    from < |rets| &&
    if from == target then HardFirst(rets, target, from + 1)
    else rets[from] == Error || (rets[from] == Accepted && HardFirst(rets, target, from + 1))
  }

  lemma {:induction false} HardStep(rets: seq<Ret>, target: nat, from: nat)
    requires from < |rets|
    ensures from == target || rets[from] == Accepted ==>
        HardFirst(rets, target, from) == HardFirst(rets, target, from + 1)
    ensures from != target && rets[from] != Accepted ==> HardFirst(rets, target, from) == (rets[from] == Error)
  {
  }

  lemma {:induction false} OneRefused(r: Read, ret: Ret)
    requires Counts(r) && !Stopped(r) && r.submitted < r.n && !r.xorRunning && r.xorStarts == 0 && Lead(r)
    ensures ChunkSubmit(r, ret).refused <==> r.submitted != r.target && ret == Error
    ensures ChunkSubmit(r, ret).waiting <==> r.submitted != r.target && ret == NoMem
  {
  }

  function SubmitChunks(r: Read, rets: seq<Ret>): (r': Read)
    requires Counts(r) && |rets| == r.n && !r.xorRunning && r.xorStarts == 0 && (Stopped(r) || Lead(r))
    ensures Counts(r') && r'.n == r.n && r'.target == r.target && !r'.xorRunning && r'.xorStarts == 0
    ensures Stopped(r') || r'.submitted == r.n
    ensures r'.waiting && !r.waiting ==> r'.submitted < r.n && r'.submitted != r.target
    ensures r'.good == r.good
    ensures !Stopped(r) ==> (r'.refused <==> HardFirst(rets, r.target, r.submitted))
    decreases r.n - r.submitted
  {
    if Stopped(r) || r.submitted == r.n then r
    else
      OneRefused(r, rets[r.submitted]);
      HardStep(rets, r.target, r.submitted);
      var r' := ChunkSubmit(r, rets[r.submitted]);
      if Stopped(r') then r' else SubmitChunks(r', rets)
  }

  /** A pass whose reads are all accepted goes through. */
  lemma {:induction false} AcceptedGoesOn(r: Read, rets: seq<Ret>)
    requires Counts(r) && |rets| == r.n && !r.xorRunning && r.xorStarts == 0 && !Stopped(r) && Lead(r)
    requires forall i :: 0 <= i < |rets| ==> rets[i] == Accepted
    ensures !Stopped(SubmitChunks(r, rets)) && SubmitChunks(r, rets).bad == r.bad
    decreases r.n - r.submitted
  {
    if r.submitted < r.n {
      OneRefused(r, rets[r.submitted]);
      AcceptedGoesOn(ChunkSubmit(r, rets[r.submitted]), rets);
    }
  }

  datatype Event =
    | Retry(rets: seq<Ret>)
    | ReadDone(chunk: nat, ok: bool)
    | XorDone(ok: bool)

  predicate Enabled(r: Read, e: Event)
  {
    match e
    case Retry(rets) => r.waiting && |rets| == r.n
    case ReadDone(i, _) => i in r.inFlight
    case XorDone(_) => r.xorRunning
  }

  ghost predicate Inv(r: Read)
  {
    && Counts(r)
    && (r.waiting ==> r.submitted < r.n && r.submitted != r.target && r.xorStarts == 0)
    && (Stopped(r) || r.submitted == r.n)
  }

  /** A read leaves the set of those in flight. */
  function Landed(r: Read, i: nat, ok: bool): Read
  {
    r.(inFlight := r.inFlight - {i},
       good := if ok then r.good + {i} else r.good,
       bad := if ok then r.bad else r.bad + {i})
  }

  /** raid5f_stripe_request_chunk_read_complete */
  function ChunkReadComplete(r: Read, i: nat, ok: bool): Read
    requires r.remaining > 0
  {
    var r1 := Landed(r, i, ok);
    if r.remaining == 1 && !r.failed && ok then r1.(xorRunning := true, xorStarts := r.xorStarts + 1)
    else
      var r2 := if r.remaining == 1 then r1.(released := r1.released + 1) else r1;
      CompletePart(r2, 1, ok)
  }

  /** raid5f_stripe_request_reconstruct_xor_done */
  function ReconstructDone(r: Read, ok: bool): Read
    requires r.remaining == 1
  {
    CompletePart(r.(xorRunning := false, released := r.released + 1), 1, ok)
  }

  function Step(r: Read, e: Event): (r': Read)
    requires Inv(r) && Enabled(r, e)
    ensures Inv(r') && r'.n == r.n && r'.target == r.target
  {
    match e
    case Retry(rets) => SubmitChunks(r.(waiting := false), rets)
    case ReadDone(i, ok) =>
      ReadDoneInv(r, i, ok);
      ChunkReadComplete(r, i, ok)
    case XorDone(ok) => ReconstructDone(r, ok)
  }

  lemma {:induction false} LandedChunks(r: Read, i: nat, ok: bool)
    requires Chunks(r) && i in r.inFlight
    ensures Chunks(Landed(r, i, ok)) && |Landed(r, i, ok).inFlight| == |r.inFlight| - 1
    ensures !ok ==> Landed(r, i, ok).bad != {}
  {
    assert !ok ==> i in Landed(r, i, ok).bad;
  }

  lemma {:induction false} ReadDoneInv(r: Read, i: nat, ok: bool)
    requires Inv(r) && i in r.inFlight
    ensures r.remaining > 0 && Inv(ChunkReadComplete(r, i, ok))
  {
    LandedChunks(r, i, ok);
    if r.remaining == 1 {
      LastReadOutcome(r, i, ok);
      assert Chunks(ChunkReadComplete(r, i, ok));
    } else {
      assert Chunks(ChunkReadComplete(r, i, ok));
    }
  }

  /** The read that finds one part left. */
  lemma {:induction false} LastReadOutcome(r: Read, i: nat, ok: bool)
    requires Inv(r) && i in r.inFlight && r.remaining == 1
    requires Chunks(Landed(r, i, ok)) && |Landed(r, i, ok).inFlight| == |r.inFlight| - 1
    requires !ok ==> Landed(r, i, ok).bad != {}
    ensures Tally(ChunkReadComplete(r, i, ok)) && Outcome(ChunkReadComplete(r, i, ok))
  {
    assert r.xorStarts == 0 && Landed(r, i, ok).inFlight == {};
    if !r.failed && ok {
      assert AllGood(Landed(r, i, ok));
    }
  }

  function Start(n: nat, target: nat, rets: seq<Ret>): (r: Read)
    requires 2 <= n == |rets| && target < n
    ensures Inv(r) && r.n == n && r.target == target
  {
    SubmitChunks(Read(n, target, 0, n, false, {}, {}, {}, false, false, false, 0, 0, []), rets)
  }

  /** A submit loop that has a read in flight, or one still to submit, ends with one in flight or stops. */
  lemma {:induction false} PassIsLive(r: Read, rets: seq<Ret>)
    requires Counts(r) && |rets| == r.n && !Stopped(r) && !r.xorRunning && r.xorStarts == 0 && Lead(r)
    requires r.inFlight != {} || r.submitted == 0 || r.submitted < r.n - 1
             || (r.submitted == r.n - 1 && r.target != r.n - 1)
    ensures SubmitChunks(r, rets).completed == []
    decreases r.n - r.submitted
  {
    assert r.inFlight != {} ==> |r.inFlight| > 0;
    if r.submitted < r.n {
      var r' := ChunkSubmit(r, rets[r.submitted]);
      if !Stopped(r') {
        assert r.submitted in r'.inFlight || r.submitted == r.target;
        PassIsLive(r', rets);
      }
    }
  }

  /** A reconstruct read never completes inside its own submission. */
  lemma {:induction false} StartIsLive(n: nat, target: nat, rets: seq<Ret>)
    requires 2 <= n == |rets| && target < n
    ensures Start(n, target, rets).completed == []
  {
    PassIsLive(Read(n, target, 0, n, false, {}, {}, {}, false, false, false, 0, 0, []), rets);
  }

  lemma {:induction false} RetryOutcome(r: Read, rets: seq<Ret>)
    requires Inv(r) && Enabled(r, Event.Retry(rets))
    ensures Step(r, Event.Retry(rets)).good == r.good && Step(r, Event.Retry(rets)).completed != [true]
  {
  }

  lemma {:induction false} NoSuccessYet(r: Read)
    requires Outcome(r) && (r.xorStarts == 0 || r.xorRunning)
    ensures r.completed != [true]
  {
  }

  lemma {:induction false} ReadGood(r: Read, i: nat, ok: bool)
    requires Chunks(r) && i in r.inFlight && r.remaining > 0 && r.submitted <= r.n
    ensures i < r.n && i !in r.good
    ensures ChunkReadComplete(r, i, ok).good == if ok then r.good + {i} else r.good
  {
  }

  lemma {:induction false} ReadOutcome(r: Read, i: nat, ok: bool)
    requires Inv(r) && i in r.inFlight
    ensures i < r.n && i !in r.good && r.remaining > 0
    ensures ChunkReadComplete(r, i, ok).good == if ok then r.good + {i} else r.good
    ensures ChunkReadComplete(r, i, ok).completed != [true]
  {
    ReadDoneInv(r, i, ok);
    ReadGood(r, i, ok);
    assert r.xorStarts == 0;
    NoSuccessYet(ChunkReadComplete(r, i, ok));
  }

  lemma {:induction false} XorOutcome(r: Read, ok: bool)
    requires Inv(r) && r.xorRunning
    ensures AllGood(r) && r.remaining == 1
    ensures ReconstructDone(r, ok).good == r.good && (ReconstructDone(r, ok).completed == [true] <==> ok)
  {
    assert |r.inFlight| == 0;
    assert ReconstructDone(r, ok).completed[0] == ok;
  }

  lemma {:induction false} StartOutcome(n: nat, target: nat, rets: seq<Ret>)
    requires 2 <= n == |rets| && target < n
    ensures Start(n, target, rets).good == {} && Start(n, target, rets).completed != [true]
  {
  }

  /** What a step does to the chunks read, and when it completes the parent with success. */
  lemma {:induction false} StepOutcome(r: Read, e: Event)
    requires Inv(r) && Enabled(r, e)
    ensures Step(r, e).good == if e.ReadDone? && e.ok then r.good + {e.chunk} else r.good
    ensures e.ReadDone? ==> e.chunk < r.n && e.chunk !in r.good
    ensures Step(r, e).completed == [true] <==> e.XorDone? && e.ok
    ensures e.XorDone? ==> AllGood(r)
  {
    match e
    case Retry(rets) => RetryOutcome(r, rets);
    case ReadDone(i, ok) => ReadOutcome(r, i, ok);
    case XorDone(ok) => XorOutcome(r, ok);
  }

  // ---- runs ----

  ghost predicate LegalRun(n: nat, target: nat, first: seq<Ret>, events: seq<Event>)
    decreases |events|, 0
  {
    if events == [] then 2 <= n == |first| && target < n
    else
      var before := events[..|events| - 1];
      LegalRun(n, target, first, before) && Enabled(Run(n, target, first, before), events[|events| - 1])
  }

  ghost function Run(n: nat, target: nat, first: seq<Ret>, events: seq<Event>): (r: Read)
    requires LegalRun(n, target, first, events)
    ensures Inv(r) && r.n == n && r.target == target
    decreases |events|, 1
  {
    if events == [] then Start(n, target, first)
    else Step(Run(n, target, first, events[..|events| - 1]), events[|events| - 1])
  }

  // ---- main results ----

  /**
   The XOR starts at most once, and then every other chunk has been read, the target has been
   credited and no read is in flight; if a read fails it never starts.
   */
  lemma {:induction false} XorStartsOnce(n: nat, target: nat, first: seq<Ret>, events: seq<Event>)
    requires LegalRun(n, target, first, events)
    ensures var r := Run(n, target, first, events);
            && r.xorStarts <= 1
            && (r.xorStarts == 1 ==> AllGood(r) && r.submitted == n && r.inFlight == {} && r.bad == {})
            && (r.bad != {} ==> r.xorStarts == 0)
  {
    var r := Run(n, target, first, events);
    if r.xorStarts == 1 {
      assert forall i :: i in r.bad ==> i in r.good;
    }
  }

  /**
   The parent completes at most once, never with a read or the XOR outstanding, and the request is
   released exactly then.
   */
  lemma {:induction false} CompletesAtMostOnce(n: nat, target: nat, first: seq<Ret>, events: seq<Event>)
    requires LegalRun(n, target, first, events)
    ensures var r := Run(n, target, first, events);
            && |r.completed| <= 1 && r.released == |r.completed|
            && (r.completed != [] ==> r.inFlight == {} && !r.waiting && !r.xorRunning)
            && (r.completed == [true] ==> AllGood(r) && r.xorStarts == 1)
  {
    var r := Run(n, target, first, events);
    if r.completed != [] {
      assert |r.inFlight| == 0;
    }
  }

  /** Nothing can happen any more. */
  ghost predicate Quiet(r: Read)
  {
    !r.waiting && r.inFlight == {} && !r.xorRunning
  }

  /** When nothing can happen any more, the parent has completed if and only if no submission failed hard. */
  lemma {:induction false} CompletesIffNotRefused(n: nat, target: nat, first: seq<Ret>, events: seq<Event>)
    requires LegalRun(n, target, first, events) && Quiet(Run(n, target, first, events))
    ensures var r := Run(n, target, first, events); r.completed != [] <==> !r.refused
  {
    var r := Run(n, target, first, events);
    assert |r.inFlight| == 0;
  }

  /** A run without hard submit errors is quiet only when it has completed; one with such an error leaks the parent. */
  lemma {:induction false} RefusedLeaks(n: nat, target: nat, first: seq<Ret>, events: seq<Event>)
    requires LegalRun(n, target, first, events)
    ensures var r := Run(n, target, first, events);
            if r.refused then r.completed == [] && r.released == 0 && r.remaining == |r.inFlight| + 1
            else r.completed != [] <==> Quiet(r)
  {
    var r := Run(n, target, first, events);
    assert |r.inFlight| == 0 <==> r.inFlight == {};
  }

  /** Quiet and enabled are complements: `Quiet` is what an observer sees when the run is over. */
  lemma {:induction false} QuietIsFinal(r: Read)
    requires Inv(r)
    ensures Quiet(r) <==> forall e :: !Enabled(r, e)
  {
    if r.waiting {
      assert Enabled(r, Event.Retry(seq(r.n, _ => Accepted)));
    } else if r.xorRunning {
      assert Enabled(r, XorDone(true));
    } else if r.inFlight != {} {
      var i :| i in r.inFlight;
      assert Enabled(r, ReadDone(i, true));
    }
  }

  lemma {:induction false} StepReleases(r: Read, e: Event)
    requires Inv(r) && Enabled(r, e)
    ensures Step(r, e).released == |Step(r, e).completed|
  {
  }

  /** With every submission accepted, the disks asked are all but the target's. */
  lemma {:induction false} AsksOthers(n: nat, target: nat, rets: seq<Ret>)
    requires 2 <= n == |rets| && target < n && forall i :: 0 <= i < n ==> rets[i] == Accepted
    ensures forall d :: d in Start(n, target, rets).inFlight <==> 0 <= d < n && d != target
  {
    AcceptedGoesOn(Read(n, target, 0, n, false, {}, {}, {}, false, false, false, 0, 0, []), rets);
    StartOutcome(n, target, rets);
  }

  /** A read becomes refused exactly by a retry that meets a hard error, and stays so. */
  lemma {:induction false} StepRefusedIff(r: Read, e: Event)
    requires Inv(r) && Enabled(r, e)
    ensures Step(r, e).refused <==> r.refused || (e.Retry? && HardFirst(e.rets, r.target, r.submitted))
    ensures Step(r, e).refused ==> Step(r, e).completed == [] && Step(r, e).released == 0
  {
    if e.Retry? {
      assert Step(r, e) == SubmitChunks(r.(waiting := false), e.rets);
    }
  }

  lemma {:induction false} StartRefusedIff(n: nat, target: nat, rets: seq<Ret>)
    requires 2 <= n == |rets| && target < n
    ensures Start(n, target, rets).refused <==> HardFirst(rets, target, 0)
  {
    assert Start(n, target, rets)
        == SubmitChunks(Read(n, target, 0, n, false, {}, {}, {}, false, false, false, 0, 0, []), rets);
  }

  /** Such a leak happens: the first read of a three-disk array is refused. */
  lemma {:induction false} LeakExample()
    ensures LegalRun(3, 2, [Error, Accepted, Accepted], [])
    ensures var r := Run(3, 2, [Error, Accepted, Accepted], []); Quiet(r) && r.completed == [] && r.released == 0
  {
  }
}
