/** The status a RAID5F channel reports for each parent, and when: raid/raid5f.c. */
module ChannelStatus {
  import FanOut
  import opened RequestPool
  import opened StripePool
  import W = Raid5Write
  import R = Reconstruct
  import A = Raid5Array

  /** The event ends the write of parent `p`, with success or not. */
  ghost predicate WriteEnds(ch: Channel, e: Event, p: nat, ok: bool)
    requires LiveWrites(ch.writes.busy) && Enabled(ch, e)
  {
    match e
    case ParityDone(id, good, image, rets, flips) =>
      && ch.writes.busy[id].parent == p
      && JobAfterParity(ch.writes.busy[id].job, good, image, rets, flips).w.io.completed == [ok]
    case OnWrite(id, we) =>
      ch.writes.busy[id].parent == p && JobAfter(ch.writes.busy[id].job, we).w.io.completed == [ok]
    case _ => false
  }

  /** The event ends the reconstruct read of parent `p`, with success or not. */
  ghost predicate ReadEnds(ch: Channel, e: Event, p: nat, ok: bool)
    requires LiveReads(ch.readers.busy) && Enabled(ch, e)
  {
    match e
    case OnRead(id, re) => ch.readers.busy[id].parent == p && R.Step(ch.readers.busy[id].job, re).completed == [ok]
    case _ => false
  }

  /** What ends a parent with a status. */
  ghost predicate Ends(ch: Channel, e: Event, p: nat, s: Status)
    requires LiveWrites(ch.writes.busy) && LiveReads(ch.readers.busy) && Enabled(ch, e)
  {
    match s
    case NoMemory =>
      || (e.SubmitWrite? && e.parent == p && (ch.writes.free == [] || (!e.mapped && e.noMem)))
      || (e.SubmitMissing? && e.parent == p && (ch.readers.free == [] || !e.mapped))
    case Failed =>
      || (e.SubmitWrite? && e.parent == p && ch.writes.free != [] && !e.mapped && !e.noMem)
      || (e.SubmitRead? && e.parent == p && e.ret == FanOut.Error)
      || (e.DirectDone? && e.parent == p && !e.ok)
      || WriteEnds(ch, e, p, false) || ReadEnds(ch, e, p, false)
    case Success => WriteEnds(ch, e, p, true) || ReadEnds(ch, e, p, true)
  }

  /** The parent is completed with the status. */
  predicate Has(place: map<nat, Place>, p: nat, s: Status)
  {
    p in place && place[p] == Completed(s)
  }

  lemma {:induction false} NoneOrOne(completed: seq<bool>)
    requires |completed| <= 1
    ensures completed == [] || completed == [true] || completed == [false]
  {
    if |completed| == 0 {
      assert completed == [];
    } else if completed[0] {
      assert completed == [true];
    } else {
      assert completed == [false];
    }
  }

  lemma {:induction false} WriteMoved(ch: Channel, id: nat, job: WriteJob, p: nat, s: Status)
    requires id in ch.writes.busy && job.w.released == |job.w.io.completed| <= 1 && !Has(ch.place, p, s)
    ensures Has(MoveWrite(ch, id, job).place, p, s)
            <==> p == ch.writes.busy[id].parent
                 && ((s == Success && job.w.io.completed == [true]) || (s == Failed && job.w.io.completed == [false]))
  {
    NoneOrOne(job.w.io.completed);
  }

  lemma {:induction false} ReadMoved(ch: Channel, id: nat, r: R.Read, p: nat, s: Status)
    requires id in ch.readers.busy && r.released == |r.completed| <= 1 && !Has(ch.place, p, s)
    ensures Has(MoveRead(ch, id, r).place, p, s)
            <==> p == ch.readers.busy[id].parent
                 && ((s == Success && r.completed == [true]) || (s == Failed && r.completed == [false]))
  {
    NoneOrOne(r.completed);
  }

  lemma {:induction false} ParityReleases(
    job: WriteJob, ok: bool, image: seq<A.Strip>, rets: seq<FanOut.Ret>, flips: seq<bool>)
    requires CanEndParity(job, image, rets, flips) && LiveWrite(job)
    ensures var w := JobAfterParity(job, ok, image, rets, flips).w; w.released == |w.io.completed| <= 1
  {
    if ok {
      W.StartInv(job.w.io.present, image, job.before, rets, flips);
    } else {
      W.ParityFailureEnds(job.w.io.present, image, job.before, rets, flips);
    }
  }

  lemma {:induction false} WriteReleases(job: WriteJob, we: W.WriteEvent)
    requires CanMove(job, we) && LiveWrite(job)
    ensures var w := JobAfter(job, we).w; w.released == |w.io.completed| <= 1
  {
    W.StepInv(job.w, we, job.image, job.before);
  }

  lemma {:induction false} ReadReleases(r: R.Read, re: R.Event)
    requires R.Inv(r) && R.Enabled(r, re)
    ensures R.Step(r, re).released == |R.Step(r, re).completed| <= 1
  {
    R.StepReleases(r, re);
  }

  lemma {:induction false} WriteRequestEnds(ch: Channel, e: Event, p: nat, s: Status)
    requires LiveWrites(ch.writes.busy) && LiveReads(ch.readers.busy) && Disks(ch.n, ch.missing, ch.place)
    requires Enabled(ch, e) && !Has(ch.place, p, s) && (e.ParityDone? || e.OnWrite?)
    ensures Has(Step(ch, e).place, p, s) <==> Ends(ch, e, p, s)
  {
    var job := ch.writes.busy[e.id].job;
    if e.ParityDone? {
      ParityReleases(job, e.ok, e.image, e.rets, e.flips);
      WriteMoved(ch, e.id, JobAfterParity(job, e.ok, e.image, e.rets, e.flips), p, s);
    } else {
      WriteReleases(job, e.we);
      WriteMoved(ch, e.id, JobAfter(job, e.we), p, s);
    }
  }

  lemma {:induction false} ReadRequestEnds(ch: Channel, e: Event, p: nat, s: Status)
    requires LiveWrites(ch.writes.busy) && LiveReads(ch.readers.busy) && Disks(ch.n, ch.missing, ch.place)
    requires Enabled(ch, e) && !Has(ch.place, p, s) && e.OnRead?
    ensures Has(Step(ch, e).place, p, s) <==> Ends(ch, e, p, s)
  {
    ReadReleases(ch.readers.busy[e.id].job, e.re);
    ReadMoved(ch, e.id, R.Step(ch.readers.busy[e.id].job, e.re), p, s);
  }

  lemma {:induction false} SubmissionEnds(ch: Channel, e: Event, p: nat, s: Status)
    requires LiveWrites(ch.writes.busy) && LiveReads(ch.readers.busy) && Disks(ch.n, ch.missing, ch.place)
    requires Enabled(ch, e) && !Has(ch.place, p, s) && !(e.ParityDone? || e.OnWrite? || e.OnRead?)
    ensures Has(Step(ch, e).place, p, s) <==> Ends(ch, e, p, s)
  {
  }

  /**
   A step completes a parent with NoMemory exactly if its submission finds no request free or is refused memory; with
   Failed exactly if too few bytes were supplied, its direct read was refused or failed, or its request ended badly;
   with Success exactly if its request ended well.
   */
  lemma {:induction false} EndsIff(ch: Channel, e: Event, p: nat, s: Status)
    requires Inv(ch) && Enabled(ch, e) && !Has(ch.place, p, s)
    ensures Has(Step(ch, e).place, p, s) <==> Ends(ch, e, p, s)
  {
    if e.ParityDone? || e.OnWrite? {
      WriteRequestEnds(ch, e, p, s);
    } else if e.OnRead? {
      ReadRequestEnds(ch, e, p, s);
    } else {
      SubmissionEnds(ch, e, p, s);
    }
  }

  // ---- where a parent that is not completed is put ----

  /** What puts a parent in a place: the answer of its base bdev, a request taken for it, or none to be had. */
  ghost predicate Puts(ch: Channel, e: Event, p: nat, to: Place)
    requires Enabled(ch, e)
  {
    match to
    case DirectRead(target) => e == SubmitRead(p, target, FanOut.Accepted)
    case Queued(target) => e == SubmitRead(p, target, FanOut.NoMem)
    case Stranded => e.DirectDone? && e.parent == p && e.ok && !(ch.readers.free != [] && e.mapped)
    case Served(ForWrite, id) =>
      e.SubmitWrite? && e.parent == p && e.mapped && ch.writes.free != [] && id == ch.writes.free[0]
    case Served(ForRead, id) =>
      && ((e.DirectDone? && e.parent == p && e.ok && e.mapped) || (e.SubmitMissing? && e.parent == p && e.mapped))
      && ch.readers.free != [] && id == ch.readers.free[0]
    case Completed(s) => false
  }

  predicate At(place: map<nat, Place>, p: nat, to: Place)
  {
    p in place && place[p] == to
  }

  lemma {:induction false} MovesOnlyEnd(ch: Channel, id: nat, p: nat, to: Place)
    requires !to.Completed? && !At(ch.place, p, to)
    ensures forall job :: id in ch.writes.busy ==> !At(MoveWrite(ch, id, job).place, p, to)
    ensures forall r :: id in ch.readers.busy ==> !At(MoveRead(ch, id, r).place, p, to)
  {
  }

  lemma {:induction false} RequestPutsNone(ch: Channel, e: Event, p: nat, to: Place)
    requires LiveWrites(ch.writes.busy) && LiveReads(ch.readers.busy) && Disks(ch.n, ch.missing, ch.place)
    requires Enabled(ch, e) && (e.ParityDone? || e.OnWrite? || e.OnRead?) && !to.Completed? && !At(ch.place, p, to)
    ensures !At(Step(ch, e).place, p, to)
  {
    MovesOnlyEnd(ch, e.id, p, to);
  }

  lemma {:induction false} SubmissionPuts(ch: Channel, e: Event, p: nat, to: Place)
    requires LiveWrites(ch.writes.busy) && LiveReads(ch.readers.busy) && Disks(ch.n, ch.missing, ch.place)
    requires Enabled(ch, e) && (e.SubmitWrite? || e.SubmitRead? || e.LoseDisk?)
    requires !to.Completed? && !At(ch.place, p, to)
    ensures At(Step(ch, e).place, p, to) <==> Puts(ch, e, p, to)
  {
  }

  lemma {:induction false} ReconstructPuts(ch: Channel, e: Event, p: nat, to: Place)
    requires LiveWrites(ch.writes.busy) && LiveReads(ch.readers.busy) && Disks(ch.n, ch.missing, ch.place)
    requires Enabled(ch, e) && (e.DirectDone? || e.SubmitMissing?) && !to.Completed? && !At(ch.place, p, to)
    ensures At(Step(ch, e).place, p, to) <==> Puts(ch, e, p, to)
  {
  }

  /** A step puts a parent in a place other than completion exactly in these cases. */
  lemma {:induction false} PutsIff(ch: Channel, e: Event, p: nat, to: Place)
    requires LiveWrites(ch.writes.busy) && LiveReads(ch.readers.busy) && Disks(ch.n, ch.missing, ch.place)
    requires Enabled(ch, e) && !to.Completed? && !At(ch.place, p, to)
    ensures At(Step(ch, e).place, p, to) <==> Puts(ch, e, p, to)
  {
    if e.ParityDone? || e.OnWrite? || e.OnRead? {
      RequestPutsNone(ch, e, p, to);
    } else if e.DirectDone? || e.SubmitMissing? {
      ReconstructPuts(ch, e, p, to);
    } else {
      SubmissionPuts(ch, e, p, to);
    }
  }

  // ---- what stays ----

  lemma {:induction false} WriteStays(ch: Channel, id: nat, job: WriteJob, p: nat)
    requires Linked(ch.writes, ForWrite, ch.place) && id in ch.writes.busy && p in ch.place && ch.place[p].Completed?
    ensures p in MoveWrite(ch, id, job).place && MoveWrite(ch, id, job).place[p] == ch.place[p]
  {
    assert ch.place[ch.writes.busy[id].parent] == Served(ForWrite, id);
  }

  lemma {:induction false} ReadStays(ch: Channel, id: nat, r: R.Read, p: nat)
    requires Linked(ch.readers, ForRead, ch.place) && id in ch.readers.busy && p in ch.place && ch.place[p].Completed?
    ensures p in MoveRead(ch, id, r).place && MoveRead(ch, id, r).place[p] == ch.place[p]
  {
    assert ch.place[ch.readers.busy[id].parent] == Served(ForRead, id);
  }

  lemma {:induction false} SubmissionStays(ch: Channel, e: Event, p: nat)
    requires LiveWrites(ch.writes.busy) && LiveReads(ch.readers.busy) && Disks(ch.n, ch.missing, ch.place)
    requires Enabled(ch, e) && !(e.ParityDone? || e.OnWrite? || e.OnRead?) && p in ch.place && ch.place[p].Completed?
    ensures p in Step(ch, e).place && Step(ch, e).place[p] == ch.place[p]
  {
  }

  /** A status once reported stays. */
  lemma {:induction false} StatusStays(ch: Channel, e: Event, p: nat)
    requires LiveWrites(ch.writes.busy) && LiveReads(ch.readers.busy) && Disks(ch.n, ch.missing, ch.place)
    requires Linked(ch.writes, ForWrite, ch.place) && Linked(ch.readers, ForRead, ch.place)
    requires Enabled(ch, e) && p in ch.place && ch.place[p].Completed?
    ensures p in Step(ch, e).place && Step(ch, e).place[p] == ch.place[p]
  {
    match e
    case ParityDone(id, ok, image, rets, flips) =>
      WriteStays(ch, id, JobAfterParity(ch.writes.busy[id].job, ok, image, rets, flips), p);
    case OnWrite(id, we) => WriteStays(ch, id, JobAfter(ch.writes.busy[id].job, we), p);
    case OnRead(id, re) => ReadStays(ch, id, R.Step(ch.readers.busy[id].job, re), p);
    case _ => SubmissionStays(ch, e, p);
  }

  lemma {:induction false} FailedParity(
    job: WriteJob, image: seq<A.Strip>, rets: seq<FanOut.Ret>, flips: seq<bool>)
    requires CanEndParity(job, image, rets, flips) && LiveWrite(job)
    ensures var w := JobAfterParity(job, false, image, rets, flips).w;
            && w.released == 1 && w.io.completed == [false] && w.io.issued == [] && w.io.inFlight == {}
            && w.disks == job.w.disks
  {
    W.ParityFailureEnds(job.w.io.present, image, job.before, rets, flips);
  }

  /**
   A failed parity computation: the parent has failed, its request is free, no chunk went out, and everything else is as
   it was.
   */
  lemma {:induction false} ParityFails(
    ch: Channel, id: nat, image: seq<A.Strip>, rets: seq<FanOut.Ret>, flips: seq<bool>)
    requires LiveWrites(ch.writes.busy) && LiveReads(ch.readers.busy) && Disks(ch.n, ch.missing, ch.place)
    requires Enabled(ch, ParityDone(id, false, image, rets, flips))
    ensures var job, p := ch.writes.busy[id].job, ch.writes.busy[id].parent;
            var ch', w := Step(ch, ParityDone(id, false, image, rets, flips)),
                          JobAfterParity(job, false, image, rets, flips).w;
            && ch'.place == ch.place[p := Completed(Failed)]
            && ch'.writes == Pool([id] + ch.writes.free, ch.writes.busy - {id}) && ch'.readers == ch.readers
            && w.io.issued == [] && w.io.inFlight == {} && w.disks == job.w.disks
  {
    FailedParity(ch.writes.busy[id].job, image, rets, flips);
  }
}
