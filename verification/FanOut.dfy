/**
 Scatter/gather of one parent I/O over the base bdevs: the counters of raid_bdev_io, the resumable
 submit loops of the RAID levels, and the child completions, interleaved in any order.
 A child completion never runs inside the submit call that created the child.
 */
module FanOut {

  /** What the bdev layer answers to the submission of a child. */
  datatype Ret = Accepted | NoMem | Error

  /**
   The parent's counters and what the layers around it have seen: the children in flight, whether
   the parent waits for a free child, the children issued so far and the completions delivered.
   */
  datatype Io = Io(
    present: seq<bool>,        // base_channel[i] != NULL
    submitted: nat,            // base_bdev_io_submitted
    remaining: nat,            // base_bdev_io_remaining
    failed: bool,              // base_bdev_io_status
    inFlight: set<nat>,
    waiting: bool,
    issued: seq<nat>,
    completed: seq<bool>,      // one entry a completion of the parent: its success
    childFailed: bool,
    abandoned: bool)
  {
    function N(): nat { |present| }
  }

  /** What a flush or unmap asks of one base bdev. */
  datatype Piece = Piece(disk: nat, block: int, blocks: int)

  /** raid_bdev_submit_request's reset of the counters. */
  function Fresh(present: seq<bool>): Io
  {
    Io(present, 0, 0, false, {}, false, [], [], false, false)
  }

  /** raid_bdev_io_complete_part */
  function CompletePart(io: Io, parts: nat, ok: bool): Io
    requires parts <= io.remaining
  {
    var io' := io.(remaining := io.remaining - parts, failed := io.failed || !ok);
    if io'.remaining == 0 then io'.(completed := io'.completed + [!io'.failed]) else io'
  }

  /** When a submit handler sets `remaining`: reset and raid0 look at it, raid1 at `submitted`, raid5f sets it once. */
  datatype Init = WhenNoneRemaining | WhenNoneSubmitted | Preset

  function Enter(io: Io, init: Init): Io
  {
    if (init.WhenNoneRemaining? && io.remaining == 0) || (init.WhenNoneSubmitted? && io.submitted == 0)
    then io.(remaining := io.N()) else io
  }

  /** Parts still expected at any point of a submit loop. */
  ghost predicate Counts(io: Io)
  {
    && io.submitted <= io.N()
    && io.remaining == (if io.abandoned then 0 else io.N() - io.submitted) + |io.inFlight|
    && (forall i :: i in io.inFlight ==> i < io.submitted && io.present[i])
    && io.completed == (if io.remaining == 0 then [!io.failed] else [])
    && (io.failed <==> io.childFailed || io.abandoned)
    && io.issued == PresentBelow(io.present, io.submitted)
  }

  /** The present base bdevs below `k`, in ascending order. */
  function PresentBelow(present: seq<bool>, k: nat): (r: seq<nat>)
    requires k <= |present|
    ensures forall i :: i in r <==> 0 <= i < k && present[i]
  {
    if k == 0 then []
    else if present[k - 1] then PresentBelow(present, k - 1) + [k - 1]
    else PresentBelow(present, k - 1)
  }

  lemma {:induction false} PresentAscending(present: seq<bool>, k: nat, i: nat, j: nat)
    requires k <= |present| && i < j < |PresentBelow(present, k)|
    ensures PresentBelow(present, k)[i] < PresentBelow(present, k)[j]
  {
    var below := PresentBelow(present, k - 1);
    if j < |below| {
      PresentAscending(present, k - 1, i, j);
    } else {
      assert below[i] in below;
    }
  }

  lemma {:induction false} CreditCounts(io: Io)
    requires Counts(io) && !io.abandoned && io.submitted < io.N() && !io.present[io.submitted]
    ensures Counts(CompletePart(io.(submitted := io.submitted + 1), 1, true))
  {
    assert io.completed == [];
  }

  lemma {:induction false} IssueCounts(io: Io)
    requires Counts(io) && !io.abandoned && io.submitted < io.N() && io.present[io.submitted]
    ensures Counts(Issue(io))
  {
    assert io.submitted !in io.inFlight;
    assert |Issue(io).inFlight| == |io.inFlight| + 1;
  }

  lemma {:induction false} AbandonCounts(io: Io)
    requires Counts(io) && !io.abandoned && io.submitted < io.N()
    ensures Counts(CompletePart(io.(abandoned := true), io.N() - io.submitted, false))
  {
    assert io.completed == [];
  }

  function Issue(io: Io): Io
  {
    var i := io.submitted;
    io.(submitted := i + 1, inFlight := io.inFlight + {i}, issued := io.issued + [i])
  }

  /** One round of a submit loop: a missing base bdev is credited, a present one gets a child. */
  function SubmitOne(io: Io, ret: Ret): (io': Io)
    requires Counts(io) && !io.abandoned && !io.waiting && io.submitted < io.N()
    ensures Counts(io') && io'.present == io.present && io'.childFailed == io.childFailed
    ensures Stopped(io') || io'.submitted == io.submitted + 1
    ensures io'.waiting ==> !io'.abandoned && io'.submitted == io.submitted && io.present[io.submitted]
  {
    if !io.present[io.submitted] then
      CreditCounts(io);
      CompletePart(io.(submitted := io.submitted + 1), 1, true)
    else match ret
      case Accepted =>
        IssueCounts(io);
        Issue(io)
      case NoMem => io.(waiting := true)
      case Error =>
        AbandonCounts(io);
        CompletePart(io.(abandoned := true), io.N() - io.submitted, false)
  }

  /** The loop does not go on: refused, or failed. */
  predicate Stopped(io: Io)
  {
    io.waiting || io.abandoned
  }

  /** One run of a submit loop: from the first base bdev not yet submitted, until done, refused or failed. */
  function Pass(io: Io, rets: seq<Ret>): (io': Io)
    requires Counts(io) && |rets| == io.N()
    ensures Counts(io') && io'.present == io.present && io'.childFailed == io.childFailed
    ensures Stopped(io') || io'.submitted == io.N()
    ensures io'.waiting && !io.waiting ==> !io'.abandoned && io'.submitted < io.N() && io.present[io'.submitted]
    decreases io.N() - io.submitted
  {
    if Stopped(io) || io.submitted == io.N() then io
    else
      var io' := SubmitOne(io, rets[io.submitted]);
      if Stopped(io') then io' else Pass(io', rets)
  }

  /** A pass whose children are all accepted goes through. */
  lemma {:induction false} AcceptedPass(io: Io, rets: seq<Ret>)
    requires Counts(io) && |rets| == io.N() && !Stopped(io) && forall i :: 0 <= i < |rets| ==> rets[i] == Accepted
    ensures !Stopped(Pass(io, rets))
    decreases io.N() - io.submitted
  {
    if io.submitted < io.N() {
      AcceptedPass(SubmitOne(io, rets[io.submitted]), rets);
    }
  }

  /** A pass only adds children in flight. */
  ghost predicate Grows(io: Io, io': Io)
  {
    && io'.present == io.present && io'.childFailed == io.childFailed && io.submitted <= io'.submitted
    && io.inFlight <= io'.inFlight && (forall i :: i in io'.inFlight ==> i in io.inFlight || i >= io.submitted)
    && forall i :: io.submitted <= i < io'.submitted && i < io.N() && io.present[i] ==> i in io'.inFlight
  }

  lemma {:induction false} SubmitOneGrows(io: Io, ret: Ret)
    requires Counts(io) && !Stopped(io) && io.submitted < io.N()
    ensures Grows(io, SubmitOne(io, ret))
  {
  }

  lemma {:induction false} GrowsOn(io: Io, io': Io, io'': Io)
    requires Grows(io, io') && Grows(io', io'')
    ensures Grows(io, io'')
  {
  }

  lemma {:induction false} PassGrows(io: Io, rets: seq<Ret>)
    requires Counts(io) && |rets| == io.N()
    ensures Grows(io, Pass(io, rets))
    decreases io.N() - io.submitted
  {
    if !Stopped(io) && io.submitted < io.N() {
      var io' := SubmitOne(io, rets[io.submitted]);
      SubmitOneGrows(io, rets[io.submitted]);
      if !Stopped(io') {
        PassGrows(io', rets);
        GrowsOn(io, io', Pass(io', rets));
      }
    }
  }

  // ---- what the answers to a pass lead to ----

  /** The first present target from `from` on whose child was not accepted; N if there is none. */
  function FirstRefused(present: seq<bool>, rets: seq<Ret>, from: nat): (k: nat)
    requires from <= |present| == |rets|
    ensures from <= k <= |present|
    ensures k < |present| ==> present[k] && rets[k] != Accepted
    ensures forall i :: from <= i < k && present[i] ==> rets[i] == Accepted
    decreases |present| - from
  {
    if from == |present| || (present[from] && rets[from] != Accepted) then from
    else FirstRefused(present, rets, from + 1)
  }

  /** The first refusal a pass meets is a hard error. */
  predicate HardFirst(present: seq<bool>, rets: seq<Ret>, from: nat)
    requires from <= |present| == |rets|
  {
    var k := FirstRefused(present, rets, from);
    k < |present| && rets[k] == Error
  }

  /** The first refusal a pass meets is for lack of resources. */
  predicate BusyFirst(present: seq<bool>, rets: seq<Ret>, from: nat)
    requires from <= |present| == |rets|
  {
    var k := FirstRefused(present, rets, from);
    k < |present| && rets[k] == NoMem
  }

  lemma {:induction false} OneOutcome(io: Io, ret: Ret)
    requires Counts(io) && !Stopped(io) && io.submitted < io.N()
    ensures var i, io' := io.submitted, SubmitOne(io, ret);
            && (io'.abandoned <==> io.present[i] && ret == Error)
            && (io'.waiting <==> io.present[i] && ret == NoMem)
            && (Stopped(io') ==> io'.submitted == i && io'.inFlight == io.inFlight)
            && (!Stopped(io') ==> io'.inFlight == if io.present[i] then io.inFlight + {i} else io.inFlight)
  {
  }

  /**
   A pass submits to the present targets before the first refusal and to no other; it abandons the parent if and only
   if that refusal is a hard error, and waits if and only if it is for lack of resources.
   */
  lemma {:induction false} PassOutcome(io: Io, rets: seq<Ret>)
    requires Counts(io) && !Stopped(io) && |rets| == io.N()
    ensures var k, io' := FirstRefused(io.present, rets, io.submitted), Pass(io, rets);
            && io'.submitted == k
            && (io'.abandoned <==> HardFirst(io.present, rets, io.submitted))
            && (io'.waiting <==> BusyFirst(io.present, rets, io.submitted))
            && forall i :: i in io'.inFlight <==> i in io.inFlight || (io.submitted <= i < k && io.present[i])
    decreases io.N() - io.submitted
  {
    if io.submitted < io.N() {
      OneOutcome(io, rets[io.submitted]);
      var io' := SubmitOne(io, rets[io.submitted]);
      if !Stopped(io') {
        PassOutcome(io', rets);
      }
    }
  }

  datatype Event =
    | Retry(rets: seq<Ret>)           // the wait queue calls the submit handler again
    | Done(child: nat, ok: bool)      // a child completes

  predicate Enabled(io: Io, e: Event)
  {
    match e
    case Retry(rets) => io.waiting && |rets| == io.N()
    case Done(i, _) => i in io.inFlight
  }

  /** Between events: the loop has stopped for one of its three reasons. */
  ghost predicate Inv(io: Io)
  {
    && io.N() > 0
    && Counts(io)
    && (io.waiting ==> !io.abandoned && io.submitted < io.N() && io.present[io.submitted])
    && (Stopped(io) || io.submitted == io.N())
  }

  /** The submit handler may be called: for a new parent, or by the wait queue. */
  ghost predicate Callable(io: Io, init: Init)
  {
    && io.N() > 0
    && ((Inv(io) && io.waiting)
        || io == Fresh(io.present).(remaining := if init.Preset? then io.N() else 0))
  }

  /** Re-entering a submit handler never touches the counter of outstanding parts. */
  lemma {:induction false} NeverReinitialised(io: Io, init: Init)
    requires Inv(io) && io.waiting
    ensures Enter(io.(waiting := false), init) == io.(waiting := false)
  {
  }

  /** One call of the submit handler. */
  function Submit(io: Io, init: Init, rets: seq<Ret>): (io': Io)
    requires Callable(io, init) && |rets| == io.N()
    ensures Inv(io') && io'.present == io.present
  {
    if io.waiting then NeverReinitialised(io, init); Pass(Enter(io.(waiting := false), init), rets)
    else Pass(Enter(io, init), rets)
  }

  /** The first call of the submit handler. */
  function Start(present: seq<bool>, init: Init, rets: seq<Ret>): (io: Io)
    requires |rets| == |present| > 0
    ensures Inv(io) && io.present == present
  {
    Submit(Fresh(present).(remaining := if init.Preset? then |present| else 0), init, rets)
  }

  function Step(io: Io, init: Init, e: Event): (io': Io)
    requires Inv(io) && Enabled(io, e)
    ensures Inv(io') && io'.present == io.present
  {
    match e
    case Retry(rets) => Submit(io, init, rets)
    case Done(i, ok) =>
      CompletePart(io.(inFlight := io.inFlight - {i}, childFailed := io.childFailed || !ok), 1, ok)
  }

  // ---- runs: a first call and any events after it ----

  ghost predicate LegalRun(present: seq<bool>, init: Init, first: seq<Ret>, events: seq<Event>)
    decreases |events|, 0
  {
    if events == [] then |present| == |first| > 0
    else
      var before := events[..|events| - 1];
      LegalRun(present, init, first, before) && Enabled(Run(present, init, first, before), events[|events| - 1])
  }

  ghost function Run(present: seq<bool>, init: Init, first: seq<Ret>, events: seq<Event>): (io: Io)
    requires LegalRun(present, init, first, events)
    ensures Inv(io) && io.present == present
    decreases |events|, 1
  {
    if events == [] then Start(present, init, first)
    else Step(Run(present, init, first, events[..|events| - 1]), init, events[|events| - 1])
  }

  // ---- main results, for every order of submissions, refusals, failures and completions ----

  /**
   The parent completes at most once, exactly when nothing is in flight and nothing is left to
   submit, and successfully exactly when no child failed and submission was not abandoned.
   */
  lemma {:induction false} CompletesOnce(present: seq<bool>, init: Init, first: seq<Ret>, events: seq<Event>)
    requires LegalRun(present, init, first, events)
    ensures var io := Run(present, init, first, events);
            && |io.completed| <= 1
            && (|io.completed| == 1 <==> io.inFlight == {} && !io.waiting)
            && (|io.completed| == 1 ==> (io.completed[0] <==> !io.childFailed && !io.abandoned))
  {
    var io := Run(present, init, first, events);
    assert io.inFlight == {} <==> |io.inFlight| == 0;
  }

  /** An uncompleted parent always has something to wait for. */
  lemma {:induction false} NeverStuck(present: seq<bool>, init: Init, first: seq<Ret>, events: seq<Event>)
    requires LegalRun(present, init, first, events) && Run(present, init, first, events).completed == []
    ensures exists e :: Enabled(Run(present, init, first, events), e)
  {
    var io := Run(present, init, first, events);
    if io.waiting {
      assert Enabled(io, Retry(seq(io.N(), _ => Accepted)));
    } else {
      var i :| i in io.inFlight;
      assert Enabled(io, Done(i, true));
    }
  }

  /**
   Children go out in ascending order, one each, to present base bdevs only; unless submission was
   abandoned, a completed parent has reached all of them.
   */
  lemma {:induction false} IssuesEachOnce(present: seq<bool>, init: Init, first: seq<Ret>, events: seq<Event>)
    requires LegalRun(present, init, first, events)
    ensures var io := Run(present, init, first, events);
            && (forall i, j :: 0 <= i < j < |io.issued| ==> io.issued[i] < io.issued[j])
            && (forall i :: i in io.issued ==> 0 <= i < |present| && present[i])
            && (io.completed != [] && !io.abandoned ==> forall i :: 0 <= i < |present| && present[i] ==> i in io.issued)
  {
    var io := Run(present, init, first, events);
    forall i, j | 0 <= i < j < |io.issued| ensures io.issued[i] < io.issued[j] {
      PresentAscending(present, io.submitted, i, j);
    }
  }

  /** A child is in flight, or a present base bdev is still to come. */
  ghost predicate Pending(io: Io)
  {
    io.inFlight != {} || exists i :: io.submitted <= i < io.N() && io.present[i]
  }

  lemma {:induction false} SkipOne(io: Io, ret: Ret)
    requires Counts(io) && !Stopped(io) && io.submitted < io.N() && io.completed == [] && Pending(io)
    ensures var io' := SubmitOne(io, ret);
            if Stopped(io') then io'.completed != [] ==> io'.abandoned else io'.completed == [] && Pending(io')
  {
    var io' := SubmitOne(io, ret);
    if !Stopped(io') && io.inFlight == {} {
      var d :| io.submitted <= d < io.N() && io.present[d];
      assert if d == io.submitted then d in io'.inFlight else io'.submitted <= d < io'.N() && io'.present[d];
    }
    assert io'.inFlight != {} ==> |io'.inFlight| > 0;
  }

  /**
   As long as a present base bdev is in flight or still to come, crediting a missing one never
   delivers the last part: only an abandoned pass completes the parent.
   */
  lemma {:induction false} SkipIsNeverLast(io: Io, rets: seq<Ret>)
    requires Counts(io) && !Stopped(io) && |rets| == io.N() && io.completed == [] && Pending(io)
    ensures Pass(io, rets).completed != [] ==> Pass(io, rets).abandoned
    decreases io.N() - io.submitted
  {
    if io.submitted < io.N() {
      SkipOne(io, rets[io.submitted]);
      var io' := SubmitOne(io, rets[io.submitted]);
      if !Stopped(io') {
        SkipIsNeverLast(io', rets);
      }
    }
  }

  // ---- the status of a parent, by the answers and outcomes of the run ----

  /** Some call of the run met a hard error before any lack of resources. */
  ghost predicate MetHardError(present: seq<bool>, init: Init, first: seq<Ret>, events: seq<Event>)
    requires LegalRun(present, init, first, events)
    decreases |events|
  {
    if events == [] then HardFirst(present, first, 0)
    else
      var before, e := events[..|events| - 1], events[|events| - 1];
      MetHardError(present, init, first, before)
      || (e.Retry? && HardFirst(present, e.rets, Run(present, init, first, before).submitted))
  }

  /** Some child of the run failed. */
  predicate SomeChildFailed(events: seq<Event>)
  {
    exists i :: 0 <= i < |events| && events[i].Done? && !events[i].ok
  }

  /** The last call of the run was refused for lack of resources, and nothing has called again. */
  ghost predicate LastCallBusy(present: seq<bool>, init: Init, first: seq<Ret>, events: seq<Event>)
    requires LegalRun(present, init, first, events)
    decreases |events|
  {
    if events == [] then BusyFirst(present, first, 0)
    else
      var before, e := events[..|events| - 1], events[|events| - 1];
      if e.Retry? then BusyFirst(present, e.rets, Run(present, init, first, before).submitted)
      else LastCallBusy(present, init, first, before)
  }

  lemma {:induction false} StartOutcome(present: seq<bool>, init: Init, rets: seq<Ret>)
    requires |rets| == |present| > 0
    ensures var io := Start(present, init, rets);
            && (io.abandoned <==> HardFirst(present, rets, 0)) && (io.waiting <==> BusyFirst(present, rets, 0))
            && !io.childFailed
  {
    PassOutcome(Enter(Fresh(present).(remaining := if init.Preset? then |present| else 0), init), rets);
  }

  lemma {:induction false} StepOutcome(io: Io, init: Init, e: Event)
    requires Inv(io) && Enabled(io, e)
    ensures var io' := Step(io, init, e);
            && (io'.abandoned <==> io.abandoned || (e.Retry? && HardFirst(io.present, e.rets, io.submitted)))
            && (io'.waiting <==> if e.Retry? then BusyFirst(io.present, e.rets, io.submitted) else io.waiting)
            && (io'.childFailed <==> io.childFailed || (e.Done? && !e.ok))
  {
    if e.Retry? {
      NeverReinitialised(io, init);
      PassOutcome(io.(waiting := false), e.rets);
    }
  }

  lemma {:induction false} AbandonedIff(present: seq<bool>, init: Init, first: seq<Ret>, events: seq<Event>)
    requires LegalRun(present, init, first, events)
    ensures Run(present, init, first, events).abandoned <==> MetHardError(present, init, first, events)
    decreases |events|
  {
    if events == [] {
      StartOutcome(present, init, first);
    } else {
      var before, e := events[..|events| - 1], events[|events| - 1];
      AbandonedIff(present, init, first, before);
      StepOutcome(Run(present, init, first, before), init, e);
    }
  }

  lemma {:induction false} WaitingIff(present: seq<bool>, init: Init, first: seq<Ret>, events: seq<Event>)
    requires LegalRun(present, init, first, events)
    ensures Run(present, init, first, events).waiting <==> LastCallBusy(present, init, first, events)
    decreases |events|
  {
    if events == [] {
      StartOutcome(present, init, first);
    } else {
      var before, e := events[..|events| - 1], events[|events| - 1];
      WaitingIff(present, init, first, before);
      StepOutcome(Run(present, init, first, before), init, e);
    }
  }

  lemma {:induction false} ChildFailedIff(present: seq<bool>, init: Init, first: seq<Ret>, events: seq<Event>)
    requires LegalRun(present, init, first, events)
    ensures Run(present, init, first, events).childFailed <==> SomeChildFailed(events)
    decreases |events|
  {
    if events == [] {
      StartOutcome(present, init, first);
    } else {
      var before, e := events[..|events| - 1], events[|events| - 1];
      ChildFailedIff(present, init, first, before);
      StepOutcome(Run(present, init, first, before), init, e);
      FailedLast(events);
    }
  }

  /**
   A parent is abandoned if and only if some call met a hard error first, and waits if and only if the last call met a
   lack of resources first.
   */
  lemma {:induction false} RunOutcome(present: seq<bool>, init: Init, first: seq<Ret>, events: seq<Event>)
    requires LegalRun(present, init, first, events)
    ensures var io := Run(present, init, first, events);
            && (io.abandoned <==> MetHardError(present, init, first, events))
            && (io.waiting <==> LastCallBusy(present, init, first, events))
            && (io.childFailed <==> SomeChildFailed(events))
  {
    AbandonedIff(present, init, first, events);
    WaitingIff(present, init, first, events);
    ChildFailedIff(present, init, first, events);
  }

  lemma {:induction false} FailedLast(events: seq<Event>)
    requires events != []
    ensures var before, e := events[..|events| - 1], events[|events| - 1];
            SomeChildFailed(events) <==> SomeChildFailed(before) || (e.Done? && !e.ok)
  {
    var before, e := events[..|events| - 1], events[|events| - 1];
    if SomeChildFailed(before) {
      var i :| 0 <= i < |before| && before[i].Done? && !before[i].ok;
      assert events[i].Done? && !events[i].ok;
    }
    if SomeChildFailed(events) && !(e.Done? && !e.ok) {
      var i :| 0 <= i < |events| && events[i].Done? && !events[i].ok;
      assert before[i].Done? && !before[i].ok;
    }
  }

  /**
   A completed parent was completed with success if and only if no child of the run failed and no call met a hard error
   first; it is completed at once when a call meets one with nothing in flight.
   */
  lemma {:induction false} SucceedsIff(present: seq<bool>, init: Init, first: seq<Ret>, events: seq<Event>)
    requires LegalRun(present, init, first, events)
    ensures var io := Run(present, init, first, events);
            && (io.completed == [true] <==>
                  && io.completed != [] && !SomeChildFailed(events) && !MetHardError(present, init, first, events))
            && (MetHardError(present, init, first, events) && io.inFlight == {} ==> io.completed == [false])
  {
    RunOutcome(present, init, first, events);
    CompletesOnce(present, init, first, events);
  }

  // ---- runs without hard errors ----

  /** No submission of the run is answered with a hard error. */
  ghost predicate NoErrors(first: seq<Ret>, events: seq<Event>)
  {
    Error !in first && forall i :: 0 <= i < |events| && events[i].Retry? ==> Error !in events[i].rets
  }

  lemma {:induction false} NotAbandoned(present: seq<bool>, init: Init, first: seq<Ret>, events: seq<Event>)
    requires LegalRun(present, init, first, events) && NoErrors(first, events)
    ensures !MetHardError(present, init, first, events)
    decreases |events|
  {
    if events == [] {
      var k := FirstRefused(present, first, 0);
      assert k < |present| ==> first[k] in first;
    } else {
      var before, e := events[..|events| - 1], events[|events| - 1];
      assert NoErrors(first, before);
      NotAbandoned(present, init, first, before);
      if e.Retry? {
        var k := FirstRefused(present, e.rets, Run(present, init, first, before).submitted);
        assert k < |present| ==> e.rets[k] in e.rets;
      }
    }
  }

  /** A parent completed without hard errors has had all its parts submitted. */
  lemma {:induction false} CompletedHasSubmitted(
    present: seq<bool>, init: Init, first: seq<Ret>, events: seq<Event>)
    requires LegalRun(present, init, first, events) && NoErrors(first, events)
    requires Run(present, init, first, events).completed != []
    ensures Run(present, init, first, events).submitted == |present|
  {
    NotAbandoned(present, init, first, events);
    RunOutcome(present, init, first, events);
    CompletesOnce(present, init, first, events);
  }
}
