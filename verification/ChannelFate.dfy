/** Which parents of a RAID5F channel are never completed, exactly: raid/raid5f.c. */
module ChannelFate {
  import opened Options
  import FanOut
  import opened RequestPool
  import opened StripePool
  import W = Raid5Write
  import R = Reconstruct
  import A = Raid5Array

  /** A parent whose reconstruct read had a submission refused, or was not started after its direct read. */
  ghost predicate Doomed(ch: Channel, p: nat)
  {
    p in ch.place && (ch.place[p] == Stranded || RefusedRead(ch, ch.place[p]))
  }

  predicate RefusedRead(ch: Channel, at: Place)
  {
    at.Served? && at.kind == ForRead && at.id in ch.readers.busy && ch.readers.busy[at.id].job.refused
  }

  /** A retry of a reconstruct read's submissions in which a hard error comes before any lack of resources. */
  predicate Refuses(r: R.Read, re: R.Event)
  {
    re.Retry? && R.HardFirst(re.rets, r.target, r.submitted)
  }

  /** What dooms a parent, in terms of what can be seen before the step. */
  ghost predicate Dooms(ch: Channel, e: Event, p: nat)
    requires Enabled(ch, e)
  {
    match e
    case DirectDone(q, ok, mapped, rets) =>
      q == p && ok && (!CanReconstruct(ch, mapped) || R.HardFirst(rets, ch.place[q].target, 0))
    case SubmitMissing(q, target, mapped, rets) =>
      q == p && CanReconstruct(ch, mapped) && R.HardFirst(rets, target, 0)
    case OnRead(id, re) =>
      ch.readers.busy[id].parent == p && Refuses(ch.readers.busy[id].job, re)
    case _ => false
  }

  // ---- each kind of step ----

  lemma {:induction false} ParkFate(ch: Channel, q: nat, to: Place, p: nat)
    requires !to.Served?
    ensures Doomed(ch.(place := ch.place[q := to]), p) <==> if p == q then to == Stranded else Doomed(ch, p)
  {
  }

  lemma {:induction false} TakeReadFate(ch: Channel, q: nat, r: R.Read, p: nat)
    requires ch.readers.free != [] && ch.readers.free[0] !in ch.readers.busy && Linked(ch.readers, ForRead, ch.place)
    ensures Doomed(TakeRead(ch, q, r), p) <==> if p == q then r.refused else Doomed(ch, p)
  {
  }

  lemma {:induction false} TakeWriteFate(ch: Channel, q: nat, job: WriteJob, p: nat)
    requires ch.writes.free != []
    ensures Doomed(TakeWrite(ch, q, job), p) <==> p != q && Doomed(ch, p)
  {
  }

  lemma {:induction false} MoveWriteFate(ch: Channel, id: nat, job: WriteJob, p: nat)
    requires id in ch.writes.busy && Linked(ch.writes, ForWrite, ch.place)
    ensures Doomed(MoveWrite(ch, id, job), p) <==> Doomed(ch, p)
  {
    var q := ch.writes.busy[id].parent;
    assert ch.place[q] == Served(ForWrite, id);
  }

  lemma {:induction false} MoveReadFate(ch: Channel, id: nat, r: R.Read, p: nat)
    requires id in ch.readers.busy && Linked(ch.readers, ForRead, ch.place)
    requires r.refused ==> r.released == 0
    ensures Doomed(MoveRead(ch, id, r), p) <==> if p == ch.readers.busy[id].parent then r.refused else Doomed(ch, p)
  {
    var q := ch.readers.busy[id].parent;
    assert ch.place[q] == Served(ForRead, id);
  }

  lemma {:induction false} ServedDoomed(ch: Channel, id: nat)
    requires id in ch.readers.busy && Linked(ch.readers, ForRead, ch.place)
    ensures Doomed(ch, ch.readers.busy[id].parent) <==> ch.readers.busy[id].job.refused
  {
    assert ch.place[ch.readers.busy[id].parent] == Served(ForRead, id);
  }

  lemma {:induction false} OnReadFate(ch: Channel, id: nat, re: R.Event, p: nat)
    requires LiveReads(ch.readers.busy) && Linked(ch.readers, ForRead, ch.place)
    requires id in ch.readers.busy && R.Enabled(ch.readers.busy[id].job, re)
    ensures Doomed(OnReadStep(ch, id, re), p)
            <==> Doomed(ch, p) || (p == ch.readers.busy[id].parent && Refuses(ch.readers.busy[id].job, re))
  {
    var job := ch.readers.busy[id].job;
    LiveJob(ch.readers.busy, id);
    R.StepRefusedIff(job, re);
    MoveReadFate(ch, id, R.Step(job, re), p);
    ServedDoomed(ch, id);
  }

  lemma {:induction false} LiveJob(busy: map<nat, Used<R.Read>>, id: nat)
    requires LiveReads(busy) && id in busy
    ensures LiveRead(busy[id].job)
  {
  }

  lemma {:induction false} DirectDoneFate(ch: Channel, q: nat, ok: bool, mapped: bool, rets: seq<FanOut.Ret>, p: nat)
    requires Inv(ch) && Enabled(ch, DirectDone(q, ok, mapped, rets))
    ensures Doomed(Step(ch, DirectDone(q, ok, mapped, rets)), p)
            <==> Doomed(ch, p) || Dooms(ch, DirectDone(q, ok, mapped, rets), p)
  {
    if !ok {
      ParkFate(ch, q, Completed(Failed), p);
    } else if CanReconstruct(ch, mapped) {
      R.StartRefusedIff(ch.n, ch.place[q].target, rets);
      TakeReadFate(ch, q, R.Start(ch.n, ch.place[q].target, rets), p);
    } else {
      ParkFate(ch, q, Stranded, p);
    }
  }

  lemma {:induction false} SubmitMissingFate(
    ch: Channel, q: nat, target: nat, mapped: bool, rets: seq<FanOut.Ret>, p: nat)
    requires Conserved(ch.readers) && Linked(ch.readers, ForRead, ch.place) && ReadArgs(ch, target, rets)
    requires q !in ch.place
    ensures Doomed(SubmitMissingStep(ch, q, target, mapped, rets), p)
            <==> Doomed(ch, p) || (q == p && CanReconstruct(ch, mapped) && R.HardFirst(rets, target, 0))
  {
    if CanReconstruct(ch, mapped) {
      R.StartRefusedIff(ch.n, target, rets);
      TakeReadFate(ch, q, R.Start(ch.n, target, rets), p);
    } else {
      ParkFate(ch, q, Completed(NoMemory), p);
    }
  }

  lemma {:induction false} CompleteFate(ch: Channel, q: nat, s: Status, p: nat)
    ensures Doomed(Complete(ch, q, s), p) <==> p != q && Doomed(ch, p)
  {
  }

  // ---- main results ----

  /**
   A step dooms a parent if and only if it ends its successful direct read when no reconstruct
   request is free, or its list cannot be stored, or it submits reads for it and a hard error comes
   before any lack of resources.
   */
  lemma {:induction false} DoomsIff(ch: Channel, e: Event, p: nat)
    requires Inv(ch) && Enabled(ch, e)
    ensures Doomed(Step(ch, e), p) <==> Doomed(ch, p) || Dooms(ch, e, p)
  {
    match e
    case SubmitWrite(q, mapped, noMem, image, before) =>
      if ch.writes.free == [] {
        CompleteFate(ch, q, NoMemory, p);
      } else if !mapped {
        CompleteFate(ch, q, if noMem then NoMemory else Failed, p);
      } else {
        TakeWriteFate(ch, q, NewJob(ch, image, before), p);
      }
    case SubmitRead(q, target, ret) =>
      match ret {
        case Accepted => ParkFate(ch, q, DirectRead(target), p);
        case NoMem => ParkFate(ch, q, Queued(target), p);
        case Error => CompleteFate(ch, q, Failed, p);
      }
    case DirectDone(q, ok, mapped, rets) => DirectDoneFate(ch, q, ok, mapped, rets, p);
    case SubmitMissing(q, target, mapped, rets) => SubmitMissingFate(ch, q, target, mapped, rets, p);
    case LoseDisk(_) =>
    case ParityDone(id, ok, image, rets, flips) =>
      MoveWriteFate(ch, id, JobAfterParity(ch.writes.busy[id].job, ok, image, rets, flips), p);
    case OnWrite(id, we) => MoveWriteFate(ch, id, JobAfter(ch.writes.busy[id].job, we), p);
    case OnRead(id, re) => OnReadFate(ch, id, re, p);
  }

  lemma {:induction false} InvOnce(ch: Channel)
    requires Inv(ch)
    ensures Once(ch.place, ch.completions)
  {
  }

  lemma {:induction false} DoomedUncompleted(ch: Channel, p: nat)
    requires Once(ch.place, ch.completions) && Doomed(ch, p)
    ensures Times(ch.completions, p) == 0 && forall d :: !Enabled(ch, LoseDisk(d))
  {
  }

  lemma {:induction false} DoomedAfter(ch: Channel, more: seq<Event>, p: nat)
    requires Inv(ch) && LegalFrom(ch, more) && Doomed(ch, p)
    ensures Doomed(After(ch, more), p)
    decreases |more|
  {
    if more != [] {
      DoomsIff(ch, more[0], p);
      StepInv(ch, more[0]);
      DoomedAfter(Step(ch, more[0]), more[1..], p);
    }
  }

  lemma {:induction false} FirstOf<T>(all: seq<T>, more: seq<T>)
    requires all != []
    ensures all + more == [all[0]] + (all[1..] + more)
    ensures (all + more)[0] == all[0] && (all + more)[1..] == all[1..] + more
  {
  }

  lemma {:induction false} Unfolds(ch: Channel, all: seq<Event>)
    requires Inv(ch) && LegalFrom(ch, all) && all != []
    ensures Enabled(ch, all[0]) && Inv(Step(ch, all[0])) && LegalFrom(Step(ch, all[0]), all[1..])
    ensures After(ch, all) == After(Step(ch, all[0]), all[1..])
  {
    StepInv(ch, all[0]);
  }

  lemma {:induction false} Folds(ch: Channel, all: seq<Event>)
    requires Inv(ch) && all != [] && Enabled(ch, all[0]) && Inv(Step(ch, all[0]))
    requires LegalFrom(Step(ch, all[0]), all[1..])
    ensures LegalFrom(ch, all) && After(ch, all) == After(Step(ch, all[0]), all[1..])
  {
  }

  lemma {:induction false} AfterSplits(ch: Channel, events: seq<Event>, more: seq<Event>)
    requires Inv(ch) && LegalFrom(ch, events + more)
    ensures LegalFrom(ch, events) && Inv(After(ch, events)) && LegalFrom(After(ch, events), more)
    ensures Inv(After(ch, events + more)) && After(ch, events + more) == After(After(ch, events), more)
    decreases |events|
  {
    if events == [] {
      assert events + more == more;
      AfterInv(ch, more);
    } else {
      FirstOf(events, more);
      Unfolds(ch, events + more);
      AfterSplits(Step(ch, events[0]), events[1..], more);
      Folds(ch, events);
    }
  }

  /**
   A doomed parent is not completed, now or after any extension of the run; and since a base channel is put only when
   no parent is outstanding, no disk can be removed from the array any more.
   */
  lemma {:induction false} DoomedForever(n: nat, missing: Option<nat>, events: seq<Event>, more: seq<Event>, p: nat)
    requires LegalRun(n, missing, events) && LegalRun(n, missing, events + more) && Doomed(Run(n, missing, events), p)
    ensures Doomed(Run(n, missing, events + more), p)
    ensures Times(Run(n, missing, events).completions, p) == Times(Run(n, missing, events + more).completions, p) == 0
    ensures forall d :: !Enabled(Run(n, missing, events + more), LoseDisk(d))
  {
    var ch := Run(n, missing, events);
    AfterSplits(NewChannel(n, missing), events, more);
    DoomedAfter(ch, more, p);
    InvOnce(ch);
    InvOnce(After(ch, more));
    DoomedUncompleted(ch, p);
    DoomedUncompleted(After(ch, more), p);
  }

  // ---- what still can happen ----

  /** The parents an event may move on: its own, or the one its request serves. */
  ghost predicate Concerns(ch: Channel, e: Event, p: nat)
  {
    match e
    case SubmitWrite(q, _, _, _, _) => p == q
    case SubmitRead(q, _, _) => p == q
    case DirectDone(q, _, _, _) => p == q
    case SubmitMissing(q, _, _, _) => p == q
    case LoseDisk(_) => false
    case ParityDone(id, _, _, _, _) => id in ch.writes.busy && p == ch.writes.busy[id].parent
    case OnWrite(id, _) => id in ch.writes.busy && p == ch.writes.busy[id].parent
    case OnRead(id, _) => id in ch.readers.busy && p == ch.readers.busy[id].parent
  }

  /** A doomed parent with nothing in flight any more. */
  ghost predicate Lost(ch: Channel, p: nat)
  {
    Doomed(ch, p) && (ch.place[p].Served? ==> R.Quiet(ch.readers.busy[ch.place[p].id].job))
  }

  lemma {:induction false} QuietIsRefused(r: R.Read)
    requires LiveRead(r)
    ensures R.Quiet(r) ==> r.refused
  {
    assert r.inFlight == {} ==> |r.inFlight| == 0;
  }

  lemma {:induction false} LiveReadEvent(r: R.Read)
    requires LiveRead(r) && !(R.Quiet(r) && r.refused)
    ensures exists re :: R.Enabled(r, re)
  {
    QuietIsRefused(r);
    R.QuietIsFinal(r);
  }

  lemma {:induction false} LiveWriteEvent(w: W.Write, image: seq<A.Strip>, before: seq<A.Strip>)
    requires W.WriteInv(w, image, before) && w.io.completed == []
    ensures exists we :: W.CanHappen(w, we)
  {
    if w.io.waiting {
      assert W.CanHappen(w, W.Resubmit(seq(w.io.N(), _ => FanOut.Accepted), seq(w.io.N(), _ => false)));
    } else {
      assert |w.io.inFlight| > 0;
      var i :| i in w.io.inFlight;
      assert W.CanHappen(w, W.ChunkDone(i, true));
    }
  }

  lemma {:induction false} WriteMovesOn(ch: Channel, id: nat)
    requires LiveWrites(ch.writes.busy) && id in ch.writes.busy
    ensures exists e :: Enabled(ch, e) && Concerns(ch, e, ch.writes.busy[id].parent)
  {
    var u := ch.writes.busy[id];
    assert LiveWrite(u.job);
    if u.job.xoring {
      var n := u.job.w.io.N();
      var e := ParityDone(id, true, u.job.image, seq(n, _ => FanOut.Accepted), seq(n, _ => false));
      assert Enabled(ch, e) && Concerns(ch, e, u.parent);
    } else {
      LiveWriteEvent(u.job.w, u.job.image, u.job.before);
      var we :| W.CanHappen(u.job.w, we);
      assert Enabled(ch, OnWrite(id, we)) && Concerns(ch, OnWrite(id, we), u.parent);
    }
  }

  lemma {:induction false} ReadMovesOn(ch: Channel, id: nat)
    requires LiveReads(ch.readers.busy) && id in ch.readers.busy
    requires var r := ch.readers.busy[id].job; !(R.Quiet(r) && r.refused)
    ensures exists e :: Enabled(ch, e) && Concerns(ch, e, ch.readers.busy[id].parent)
  {
    var u := ch.readers.busy[id];
    LiveReadEvent(u.job);
    var re :| R.Enabled(u.job, re);
    assert Enabled(ch, OnRead(id, re)) && Concerns(ch, OnRead(id, re), u.parent);
  }

  /** An event that ends a read not yet, or only directly, submitted. */
  function GiveUp(ch: Channel, p: nat): Event
    requires p in ch.place && (ch.place[p].Queued? || ch.place[p].DirectRead?)
  {
    if ch.place[p].Queued? then SubmitRead(p, ch.place[p].target, FanOut.Error)
    else DirectDone(p, false, false, seq(ch.n, _ => FanOut.Accepted))
  }

  lemma {:induction false} WaitingMovesOn(ch: Channel, p: nat)
    requires Disks(ch.n, ch.missing, ch.place) && p in ch.place && (ch.place[p].Queued? || ch.place[p].DirectRead?)
    ensures Enabled(ch, GiveUp(ch, p)) && Concerns(ch, GiveUp(ch, p), p)
  {
  }

  lemma {:induction false} GivenUp(ch: Channel, p: nat)
    requires Inv(ch) && p in ch.place && (ch.place[p].Queued? || ch.place[p].DirectRead?)
    requires Enabled(ch, GiveUp(ch, p))
    ensures Step(ch, GiveUp(ch, p)) == Complete(ch, p, Failed)
  {
  }

  lemma {:induction false} LostIsStill(ch: Channel, e: Event, p: nat)
    requires Linked(ch.writes, ForWrite, ch.place) && Linked(ch.readers, ForRead, ch.place)
    requires Enabled(ch, e) && Concerns(ch, e, p)
    ensures !Lost(ch, p)
  {
    match e
    case OnRead(id, _) => assert ch.place[p] == Served(ForRead, id);
    case OnWrite(id, _) => assert ch.place[p] == Served(ForWrite, id);
    case ParityDone(id, _, _, _, _) => assert ch.place[p] == Served(ForWrite, id);
    case _ =>
  }

  lemma {:induction false} MovesOn(ch: Channel, p: nat)
    requires Inv(ch) && p in ch.place && !ch.place[p].Completed? && !Lost(ch, p)
    ensures exists e :: Enabled(ch, e) && Concerns(ch, e, p)
  {
    match ch.place[p]
    case Served(ForWrite, id) => WriteMovesOn(ch, id);
    case Served(ForRead, id) => ReadMovesOn(ch, id);
    case _ => WaitingMovesOn(ch, p);
  }

  /** Over every run, something can still happen to a parent not yet completed if and only if it is not lost. */
  lemma {:induction false} MovesOnIff(n: nat, missing: Option<nat>, events: seq<Event>, p: nat)
    requires LegalRun(n, missing, events) && p in Run(n, missing, events).place
    requires Times(Run(n, missing, events).completions, p) == 0
    ensures var ch := Run(n, missing, events); (exists e :: Enabled(ch, e) && Concerns(ch, e, p)) <==> !Lost(ch, p)
  {
    AfterInv(NewChannel(n, missing), events);
    var ch := Run(n, missing, events);
    assert Once(ch.place, ch.completions);
    if !Lost(ch, p) {
      MovesOn(ch, p);
    }
    forall e | Enabled(ch, e) && Concerns(ch, e, p) ensures !Lost(ch, p) {
      LostIsStill(ch, e, p);
    }
  }

  // ---- what can still be completed ----

  lemma {:induction false} FirstStep(ch: Channel, e: Event, rest: seq<Event>)
    requires Inv(ch) && Enabled(ch, e) && Inv(Step(ch, e)) && LegalFrom(Step(ch, e), rest)
    ensures LegalFrom(ch, [e] + rest) && After(ch, [e] + rest) == After(Step(ch, e), rest)
  {
    assert ([e] + rest)[1..] == rest;
  }

  lemma {:induction false} OneStep(ch: Channel, e: Event)
    requires Inv(ch) && Enabled(ch, e)
    ensures LegalFrom(ch, [e]) && After(ch, [e]) == Step(ch, e)
  {
    StepInv(ch, e);
    FirstStep(ch, e, []);
    assert [e] + [] == [e];
  }

  /** A read none of whose submissions was refused can be completed, or gets closer to it. */
  lemma {:induction false} ReadGetsOn(r: R.Read) returns (re: R.Event)
    requires LiveRead(r) && !r.refused
    ensures R.Enabled(r, re)
    ensures var r' := R.Step(r, re);
            r'.released > 0 || (!r'.refused && !r'.waiting && (r.waiting || |r'.inFlight| < |r.inFlight|))
  {
    if r.waiting {
      re := R.Event.Retry(seq(r.n, _ => FanOut.Accepted));
      R.AcceptedGoesOn(r.(waiting := false), re.rets);
    } else if r.xorRunning {
      re := R.XorDone(true);
    } else {
      QuietIsRefused(r);
      var i :| i in r.inFlight;
      re := R.ReadDone(i, true);
      R.LandedChunks(r, i, true);
    }
  }

  lemma {:induction false} WriteGetsOn(w: W.Write, image: seq<A.Strip>, before: seq<A.Strip>)
    returns (we: W.WriteEvent)
    requires W.WriteInv(w, image, before) && w.io.completed == []
    ensures W.CanHappen(w, we)
    ensures var w' := W.WriteStep(w, we);
            !w'.io.waiting && (w.io.waiting || |w'.io.inFlight| < |w.io.inFlight|)
  {
    if w.io.waiting {
      we := W.Resubmit(seq(w.io.N(), _ => FanOut.Accepted), seq(w.io.N(), _ => false));
      FanOut.AcceptedPass(w.io.(waiting := false), we.rets);
    } else {
      assert |w.io.inFlight| > 0;
      var i :| i in w.io.inFlight;
      we := W.ChunkDone(i, true);
    }
  }

  /** A step that completes a request's parent is the end; otherwise the request goes on. */
  lemma {:induction false} ReadStepEffect(ch: Channel, id: nat, r: R.Read)
    requires id in ch.readers.busy
    ensures var ch', u := MoveRead(ch, id, r), ch.readers.busy[id];
            if r.released > 0 then u.parent in ch'.place && ch'.place[u.parent].Completed?
            else id in ch'.readers.busy && ch'.readers.busy[id] == Used(u.parent, r)
  {
  }

  lemma {:induction false} WriteStepEffect(ch: Channel, id: nat, job: WriteJob)
    requires id in ch.writes.busy
    ensures var ch', u := MoveWrite(ch, id, job), ch.writes.busy[id];
            if job.w.released > 0 then u.parent in ch'.place && ch'.place[u.parent].Completed?
            else id in ch'.writes.busy && ch'.writes.busy[id] == Used(u.parent, job)
  {
  }

  lemma {:induction false} CompletedTimes(ch: Channel, p: nat)
    requires Inv(ch) && p in ch.place && ch.place[p].Completed?
    ensures Times(ch.completions, p) == 1
  {
  }

  lemma {:induction false} FinishRead(ch: Channel, id: nat) returns (more: seq<Event>)
    requires Inv(ch) && id in ch.readers.busy && !ch.readers.busy[id].job.refused
    ensures LegalFrom(ch, more) && Times(After(ch, more).completions, ch.readers.busy[id].parent) == 1
    decreases ch.readers.busy[id].job.waiting, |ch.readers.busy[id].job.inFlight|
  {
    var re := ReadGetsOn(ch.readers.busy[id].job);
    var e := OnRead(id, re);
    StepInv(ch, e);
    ReadStepEffect(ch, id, R.Step(ch.readers.busy[id].job, re));
    if R.Step(ch.readers.busy[id].job, re).released > 0 {
      OneStep(ch, e);
      CompletedTimes(Step(ch, e), ch.readers.busy[id].parent);
      more := [e];
    } else {
      var rest := FinishRead(Step(ch, e), id);
      FirstStep(ch, e, rest);
      more := [e] + rest;
    }
  }

  lemma {:induction false} FinishWrite(ch: Channel, id: nat) returns (more: seq<Event>)
    requires Inv(ch) && id in ch.writes.busy && !ch.writes.busy[id].job.xoring
    ensures LegalFrom(ch, more) && Times(After(ch, more).completions, ch.writes.busy[id].parent) == 1
    decreases ch.writes.busy[id].job.w.io.waiting, |ch.writes.busy[id].job.w.io.inFlight|
  {
    var job := ch.writes.busy[id].job;
    assert LiveWrite(job);
    var we := WriteGetsOn(job.w, job.image, job.before);
    var e := OnWrite(id, we);
    StepInv(ch, e);
    WriteStepEffect(ch, id, JobAfter(job, we));
    if JobAfter(job, we).w.released > 0 {
      OneStep(ch, e);
      CompletedTimes(Step(ch, e), ch.writes.busy[id].parent);
      more := [e];
    } else {
      var rest := FinishWrite(Step(ch, e), id);
      FirstStep(ch, e, rest);
      more := [e] + rest;
    }
  }

  /** A parity computation that fails ends its write; one that does not is followed by the submissions. */
  lemma {:induction false} FinishParity(ch: Channel, id: nat) returns (more: seq<Event>)
    requires Inv(ch) && id in ch.writes.busy && ch.writes.busy[id].job.xoring
    ensures LegalFrom(ch, more) && Times(After(ch, more).completions, ch.writes.busy[id].parent) == 1
  {
    var job := ch.writes.busy[id].job;
    assert LiveWrite(job);
    var n := job.w.io.N();
    var rets, flips := seq(n, _ => FanOut.Accepted), seq(n, _ => false);
    var e := ParityDone(id, true, job.image, rets, flips);
    StepInv(ch, e);
    WriteStepEffect(ch, id, JobAfterParity(job, true, job.image, rets, flips));
    if JobAfterParity(job, true, job.image, rets, flips).w.released > 0 {
      OneStep(ch, e);
      CompletedTimes(Step(ch, e), ch.writes.busy[id].parent);
      more := [e];
    } else {
      var rest := FinishWrite(Step(ch, e), id);
      FirstStep(ch, e, rest);
      more := [e] + rest;
    }
  }

  lemma {:induction false} Finish(ch: Channel, p: nat) returns (more: seq<Event>)
    requires Inv(ch) && p in ch.place && !ch.place[p].Completed? && !Doomed(ch, p)
    ensures LegalFrom(ch, more) && Times(After(ch, more).completions, p) == 1
  {
    if ch.place[p].Queued? || ch.place[p].DirectRead? {
      var e := GiveUp(ch, p);
      WaitingMovesOn(ch, p);
      GivenUp(ch, p);
      StepInv(ch, e);
      OneStep(ch, e);
      CompletedTimes(Step(ch, e), p);
      more := [e];
    } else if ch.place[p].kind == ForRead {
      more := FinishRead(ch, ch.place[p].id);
    } else if ch.writes.busy[ch.place[p].id].job.xoring {
      more := FinishParity(ch, ch.place[p].id);
    } else {
      more := FinishWrite(ch, ch.place[p].id);
    }
  }

  lemma {:induction false} AfterJoins(ch: Channel, events: seq<Event>, more: seq<Event>)
    requires Inv(ch) && LegalFrom(ch, events) && Inv(After(ch, events)) && LegalFrom(After(ch, events), more)
    ensures LegalFrom(ch, events + more) && After(ch, events + more) == After(After(ch, events), more)
    decreases |events|
  {
    if events == [] {
      assert events + more == more;
    } else {
      var e, rest := events[0], events[1..];
      StepInv(ch, e);
      var ch' := Step(ch, e);
      assert LegalFrom(ch', rest) && After(ch, events) == After(ch', rest);
      AfterJoins(ch', rest, more);
      FirstStep(ch, e, rest + more);
      FirstOf(events, more);
    }
  }

  /** Over every run, a parent not yet completed can still be completed if and only if it is not doomed. */
  lemma {:induction false} CompletableIff(n: nat, missing: Option<nat>, events: seq<Event>, p: nat)
    requires LegalRun(n, missing, events) && p in Run(n, missing, events).place
    requires Times(Run(n, missing, events).completions, p) == 0
    ensures (exists more :: LegalRun(n, missing, events + more)
                            && Times(Run(n, missing, events + more).completions, p) == 1)
            <==> !Doomed(Run(n, missing, events), p)
  {
    AfterInv(NewChannel(n, missing), events);
    var ch := Run(n, missing, events);
    if Doomed(ch, p) {
      forall more | LegalRun(n, missing, events + more)
        ensures Times(Run(n, missing, events + more).completions, p) == 0
      {
        DoomedForever(n, missing, events, more, p);
      }
    } else {
      var more := Finish(ch, p);
      AfterJoins(NewChannel(n, missing), events, more);
      assert LegalRun(n, missing, events + more);
    }
  }

  // ---- runs that lose a parent ----

  const ALL_ACCEPTED := [FanOut.Accepted, FanOut.Accepted, FanOut.Accepted]

  /** A request is free and the list is stored, but the first of the reads is refused. */
  lemma {:induction false} RefusedRun() returns (events: seq<Event>)
    ensures LegalRun(3, None, events) && Doomed(Run(3, None, events), 0) && Run(3, None, events).place[0] != Stranded
  {
    var ch := NewChannel(3, None);
    var read := SubmitRead(0, 2, FanOut.Accepted);
    var done := DirectDone(0, true, true, [FanOut.Error, FanOut.Accepted, FanOut.Accepted]);
    StepInv(ch, read);
    OneStep(Step(ch, read), done);
    FirstStep(ch, read, [done]);
    assert [read] + [done] == [read, done];
    DoomsIff(Step(ch, read), done, 0);
    events := [read, done];
  }

  /** The two events of a read of a healthy array whose direct read goes well. */
  function Direct(k: nat): Event
  {
    SubmitRead(k, 0, FanOut.Accepted)
  }

  function Done(k: nat): Event
  {
    DirectDone(k, true, true, ALL_ACCEPTED)
  }

  /** `k` reads of a healthy array are being reconstructed. */
  ghost predicate Occupied(ch: Channel, k: nat)
  {
    ch.n == 3 && ch.missing.None? && |ch.readers.free| + k == MAX_STRIPES && forall p :: p in ch.place ==> p < k
  }

  lemma {:induction false} OccupyDirect(ch: Channel, k: nat)
    requires Inv(ch) && Occupied(ch, k)
    ensures Enabled(ch, Direct(k)) && Step(ch, Direct(k)) == Park(ch, k, DirectRead(0))
  {
    assert k !in ch.place;
  }

  lemma {:induction false} OccupyDone(ch: Channel, k: nat)
    requires Inv(ch) && ch.n == 3 && k in ch.place && ch.place[k] == DirectRead(0)
    ensures Enabled(ch, Done(k))
    ensures Step(ch, Done(k))
            == if ch.readers.free != [] then TakeRead(ch, k, R.Start(3, 0, ALL_ACCEPTED)) else Park(ch, k, Stranded)
  {
    assert Step(ch, Done(k)) == DirectDoneStep(ch, k, true, true, 0, ALL_ACCEPTED);
  }

  lemma {:induction false} OccupyOne(ch: Channel, k: nat, r: R.Read)
    requires Occupied(ch, k)
    ensures ch.readers.free != [] ==> Occupied(TakeRead(Park(ch, k, DirectRead(0)), k, r), k + 1)
  {
  }

  lemma {:induction false} StrandFrom(ch: Channel, k: nat) returns (events: seq<Event>)
    requires Inv(ch) && Occupied(ch, k) && k <= MAX_STRIPES
    ensures LegalFrom(ch, events)
    ensures MAX_STRIPES in After(ch, events).place && After(ch, events).place[MAX_STRIPES] == Stranded
    decreases MAX_STRIPES - k
  {
    OccupyDirect(ch, k);
    StepInv(ch, Direct(k));
    var ch' := Step(ch, Direct(k));
    OccupyDone(ch', k);
    OccupyOne(ch, k, R.Start(3, 0, ALL_ACCEPTED));
    StepInv(ch', Done(k));
    if k == MAX_STRIPES {
      OneStep(ch', Done(k));
      FirstStep(ch, Direct(k), [Done(k)]);
      events := [Direct(k)] + [Done(k)];
    } else {
      var rest := StrandFrom(Step(ch', Done(k)), k + 1);
      FirstStep(ch', Done(k), rest);
      FirstStep(ch, Direct(k), [Done(k)] + rest);
      events := [Direct(k)] + ([Done(k)] + rest);
    }
  }

  /** With every reconstruct request in use, a healthy read is stranded by its own success. */
  lemma {:induction false} StrandedRun() returns (events: seq<Event>)
    ensures LegalRun(3, None, events)
    ensures MAX_STRIPES in Run(3, None, events).place && Run(3, None, events).place[MAX_STRIPES] == Stranded
  {
    events := StrandFrom(NewChannel(3, None), 0);
  }
}
