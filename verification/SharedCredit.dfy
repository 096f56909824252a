/**
 Who is told that a request went well: over the runs of a shared array, the parents completed with success are those
 whose write reached the disks, or whose read was rebuilt (raid/raid5f.c).
 */
module SharedCredit {
  import opened Options
  import opened Bytes
  import opened Layout
  import opened RequestPool
  import opened SharedArray
  import opened SharedRuns
  import FanOut
  import C = StripePool
  import R = Reconstruct
  import A = Raid5Array
  import F = FlatDevice

  /** Each logged write has an author, who submitted just that write, and nobody is the author of two. */
  ghost predicate Authored(ops: seq<A.Op>, authors: seq<Option<nat>>, writers: map<nat, WriteTask>)
  {
    && |authors| == |ops|
    && (forall k :: 0 <= k < |ops| ==> (ops[k].Write? <==> authors[k].Some?))
    && (forall k :: 0 <= k < |ops| && ops[k].Write? ==> AuthorOf(ops[k], authors[k], writers))
    && (forall j, k :: 0 <= j < k < |ops| && authors[j].Some? ==> authors[j] != authors[k])
  }

  predicate AuthorOf(op: A.Op, author: Option<nat>, writers: map<nat, WriteTask>)
    requires op.Write?
  {
    && author.Some? && author.value in writers
    && op.stripe == writers[author.value].stripe && op.data == writers[author.value].data
  }

  ghost predicate IsAuthor(authors: seq<Option<nat>>, p: nat)
  {
    exists k :: 0 <= k < |authors| && authors[k] == Some(p)
  }

  /** A parent is completed with success exactly if it is the author of a logged write or its read was rebuilt. */
  ghost predicate Rewarded(place: map<nat, Place>, authors: seq<Option<nat>>, returned: set<nat>)
  {
    forall p :: (p in place && place[p] == Completed(Success)) <==> IsAuthor(authors, p) || p in returned
  }

  /** Writes are served as writes, and only reads are rebuilt. */
  ghost predicate Sorted(place: map<nat, Place>, writers: map<nat, WriteTask>, returned: set<nat>)
  {
    && (forall p :: p in writers ==> p in place && WriterAt(place[p]))
    && forall p :: p in returned ==> p !in writers
  }

  predicate WriterAt(at: Place)
  {
    at.Completed? || (at.Served? && at.kind == ForWrite)
  }

  ghost predicate Books(
    place: map<nat, Place>, writers: map<nat, WriteTask>, ops: seq<A.Op>, authors: seq<Option<nat>>, returned: set<nat>)
  {
    Authored(ops, authors, writers) && Rewarded(place, authors, returned) && Sorted(place, writers, returned)
  }

  /** The requests in use for writes carry what their parents submitted. */
  ghost predicate Serving(
    busy: map<nat, Used<C.WriteJob>>, writing: map<nat, WriteTask>, writers: map<nat, WriteTask>)
  {
    forall id :: id in busy ==>
      && id in writing && busy[id].parent in writers
      && writing[id].stripe == writers[busy[id].parent].stripe && writing[id].data == writers[busy[id].parent].data
  }

  ghost predicate Credited(sh: Shared)
  {
    && Books(sh.ch.place, sh.writers, sh.ops, sh.authors, sh.returned)
    && Serving(sh.ch.writes.busy, sh.writing, sh.writers)
  }

  // ---- one parent moves ----

  lemma {:induction false} AuthorsWrite(ops: seq<A.Op>, authors: seq<Option<nat>>, writers: map<nat, WriteTask>, p: nat)
    requires Authored(ops, authors, writers) && IsAuthor(authors, p)
    ensures p in writers
  {
    var k :| 0 <= k < |authors| && authors[k] == Some(p);
    assert ops[k].Write?;
  }

  /** A parent that is not a write moves on without success. */
  lemma {:induction false} Elsewhere(
    place: map<nat, Place>, writers: map<nat, WriteTask>, ops: seq<A.Op>, authors: seq<Option<nat>>, returned: set<nat>,
    p: nat, to: Place)
    requires Books(place, writers, ops, authors, returned) && p !in writers && to != Completed(Success)
    requires p in place ==> place[p] != Completed(Success)
    ensures Books(place[p := to], writers, ops, authors, returned)
  {
  }

  /** A new write is served or fails. */
  lemma {:induction false} NewWriter(
    place: map<nat, Place>, writers: map<nat, WriteTask>, ops: seq<A.Op>, authors: seq<Option<nat>>, returned: set<nat>,
    p: nat, to: Place, t: WriteTask)
    requires Books(place, writers, ops, authors, returned) && p !in place && WriterAt(to) && to != Completed(Success)
    ensures Books(place[p := to], writers[p := t], ops, authors, returned)
  {
    forall k | 0 <= k < |ops| && ops[k].Write? ensures AuthorOf(ops[k], authors[k], writers[p := t]) {
      assert AuthorOf(ops[k], authors[k], writers);
    }
  }

  /** A write ends without success. */
  lemma {:induction false} WriterFails(
    place: map<nat, Place>, writers: map<nat, WriteTask>, ops: seq<A.Op>, authors: seq<Option<nat>>, returned: set<nat>,
    p: nat)
    requires Books(place, writers, ops, authors, returned) && p in place && place[p].Served?
    ensures Books(place[p := Completed(Failed)], writers, ops, authors, returned)
  {
  }

  lemma {:induction false} AuthorsMore(authors: seq<Option<nat>>, last: Option<nat>, p: nat)
    ensures IsAuthor(authors + [last], p) <==> IsAuthor(authors, p) || last == Some(p)
  {
    var all := authors + [last];
    if IsAuthor(authors, p) {
      var k :| 0 <= k < |authors| && authors[k] == Some(p);
      assert all[k] == Some(p);
    }
    if last == Some(p) {
      assert all[|authors|] == Some(p);
    }
  }

  lemma {:induction false} LoggedMore(
    ops: seq<A.Op>, authors: seq<Option<nat>>, writers: map<nat, WriteTask>, op: A.Op, author: Option<nat>)
    requires Authored(ops, authors, writers) && (op.Write? <==> author.Some?)
    requires op.Write? ==> AuthorOf(op, author, writers) && !IsAuthor(authors, author.value)
    ensures Authored(ops + [op], authors + [author], writers)
  {
  }

  /** A write ends with success, and is logged. */
  lemma {:induction false} WriterSucceeds(
    place: map<nat, Place>, writers: map<nat, WriteTask>, ops: seq<A.Op>, authors: seq<Option<nat>>, returned: set<nat>,
    p: nat, op: A.Op)
    requires Books(place, writers, ops, authors, returned) && p in place && place[p].Served?
    requires op.Write? && AuthorOf(op, Some(p), writers)
    ensures Books(place[p := Completed(Success)], writers, ops + [op], authors + [Some(p)], returned)
  {
    LoggedMore(ops, authors, writers, op, Some(p));
    forall q ensures IsAuthor(authors + [Some(p)], q) <==> IsAuthor(authors, q) || q == p {
      AuthorsMore(authors, Some(p), q);
    }
  }

  /** A read ends with success, and is recorded. */
  lemma {:induction false} ReaderSucceeds(
    place: map<nat, Place>, writers: map<nat, WriteTask>, ops: seq<A.Op>, authors: seq<Option<nat>>, returned: set<nat>,
    p: nat)
    requires Books(place, writers, ops, authors, returned) && p in place && place[p].Served? && place[p].kind == ForRead
    ensures Books(place[p := Completed(Success)], writers, ops, authors, returned + {p})
  {
  }

  lemma {:induction false} DiskLost(
    place: map<nat, Place>, writers: map<nat, WriteTask>, ops: seq<A.Op>, authors: seq<Option<nat>>, returned: set<nat>,
    d: nat)
    requires Books(place, writers, ops, authors, returned)
    ensures Books(place, writers, ops + [A.Fail(d)], authors + [None], returned)
  {
    LoggedMore(ops, authors, writers, A.Fail(d), None);
    forall q ensures IsAuthor(authors + [None], q) <==> IsAuthor(authors, q) {
      AuthorsMore(authors, None, q);
    }
  }

  // ---- each kind of step ----

  lemma {:induction false} WrittenCredits(sh: Shared, id: nat, job: C.WriteJob, t: WriteTask, a: A.Array)
    requires Credited(sh) && Linked(sh.ch.writes, ForWrite, sh.ch.place) && id in sh.ch.writes.busy
    requires id in sh.writing && t.stripe == sh.writing[id].stripe && t.data == sh.writing[id].data
    ensures Credited(Written(sh, id, job, t, a))
  {
    var p := sh.ch.writes.busy[id].parent;
    assert sh.ch.place[p] == Served(ForWrite, id);
    if job.w.released > 0 && job.w.io.completed == [true] {
      var op := A.Write(t.stripe, t.data, job.w.poisoned);
      WriterSucceeds(sh.ch.place, sh.writers, sh.ops, sh.authors, sh.returned, p, op);
    } else if job.w.released > 0 {
      WriterFails(sh.ch.place, sh.writers, sh.ops, sh.authors, sh.returned, p);
    }
  }

  lemma {:induction false} ReadOnCredits(sh: Shared, id: nat, r: R.Read, mem: seq<byte>)
    requires Credited(sh) && Linked(sh.ch.readers, ForRead, sh.ch.place) && id in sh.ch.readers.busy
    requires id in sh.reading && r.released == |r.completed|
    ensures Credited(ReadOn(sh, id, r, mem))
  {
    var p := sh.ch.readers.busy[id].parent;
    assert sh.ch.place[p] == Served(ForRead, id);
    if r.completed == [true] {
      ReaderSucceeds(sh.ch.place, sh.writers, sh.ops, sh.authors, sh.returned, p);
    } else if r.released > 0 {
      Elsewhere(sh.ch.place, sh.writers, sh.ops, sh.authors, sh.returned, p, Completed(Failed));
    }
  }

  lemma {:induction false} NewWriteCredits(
    g: Geometry, sh: Shared, p: nat, t: WriteTask, mapped: bool, noMem: bool, image: seq<A.Strip>)
    requires Credited(sh) && A.WellFormed(g, sh.a) && t.stripe < g.stripes && p !in sh.ch.place
    requires sh.ch.writes.busy.Keys == sh.writing.Keys
    ensures Credited(NewWriteStep(g, sh, p, t, mapped, noMem, image))
  {
    var to := if sh.ch.writes.free == [] then Completed(NoMemory)
              else if !mapped then Completed(if noMem then NoMemory else Failed)
              else Served(ForWrite, sh.ch.writes.free[0]);
    NewWriter(sh.ch.place, sh.writers, sh.ops, sh.authors, sh.returned, p, to, t);
    ServingOn(sh.ch.writes.busy, sh.writing, sh.ch.place, sh.writers, sh.returned, p, t);
    if sh.ch.writes.free != [] && mapped {
      var job := C.NewJob(sh.ch, image, Column(g, sh.a, t.stripe));
      ServingMore(sh.ch.writes.busy, sh.writing, sh.writers[p := t], sh.ch.writes.free[0], p, job, t);
    }
  }

  lemma {:induction false} ServingOn(
    busy: map<nat, Used<C.WriteJob>>, writing: map<nat, WriteTask>, place: map<nat, Place>,
    writers: map<nat, WriteTask>, returned: set<nat>, p: nat, t: WriteTask)
    requires Serving(busy, writing, writers) && Sorted(place, writers, returned) && p !in place
    ensures Serving(busy, writing, writers[p := t])
  {
  }

  lemma {:induction false} ServingMore(
    busy: map<nat, Used<C.WriteJob>>, writing: map<nat, WriteTask>, writers: map<nat, WriteTask>, id: nat, p: nat,
    job: C.WriteJob, t: WriteTask)
    requires Serving(busy, writing, writers) && p in writers && writers[p] == t
    ensures Serving(busy[id := Used(p, job)], writing[id := t], writers)
  {
  }

  lemma {:induction false} AskCredits(sh: Shared, p: nat, target: nat, t: ReadTask, ret: FanOut.Ret)
    requires Credited(sh) && (p in sh.ch.place ==> sh.ch.place[p].Queued?)
    ensures Credited(AskStep(sh, p, target, t, ret))
  {
    var to := match ret
      case Accepted => DirectRead(target)
      case NoMem => Queued(target)
      case Error => Completed(Failed);
    Elsewhere(sh.ch.place, sh.writers, sh.ops, sh.authors, sh.returned, p, to);
  }

  lemma {:induction false} StartCredits(
    sh: Shared, p: nat, target: nat, t: ReadTask, ok: bool, mapped: bool, rets: seq<FanOut.Ret>)
    requires Credited(sh) && C.ReadArgs(sh.ch, target, rets) && (p in sh.ch.place ==> sh.ch.place[p].DirectRead?)
    ensures Credited(DirectDoneStep(sh, p, target, t, ok, mapped, rets))
    ensures Credited(NewMissingStep(sh, p, target, t, mapped, rets))
  {
    Elsewhere(sh.ch.place, sh.writers, sh.ops, sh.authors, sh.returned, p, Completed(Failed));
    Elsewhere(sh.ch.place, sh.writers, sh.ops, sh.authors, sh.returned, p, Completed(NoMemory));
    Elsewhere(sh.ch.place, sh.writers, sh.ops, sh.authors, sh.returned, p, Stranded);
    if sh.ch.readers.free != [] {
      Elsewhere(sh.ch.place, sh.writers, sh.ops, sh.authors, sh.returned, p, Served(ForRead, sh.ch.readers.free[0]));
    }
  }

  lemma {:induction false} AskedCredits(g: Geometry, sh: Shared, e: Event)
    requires Coheres(g, sh) && Enabled(g, sh, e) && (e.NewRead? || e.Again?) && Credited(sh)
    ensures Credited(ParentStep(g, sh, e))
  {
    if e.NewRead? {
      AskCredits(sh, e.parent, F.HomeDisk(g, e.r.off), e.r, e.ret);
    } else {
      AskCredits(sh, e.parent, F.HomeDisk(g, sh.asked[e.parent].off), sh.asked[e.parent], e.ret);
    }
  }

  lemma {:induction false} DirectCredits(g: Geometry, sh: Shared, e: Event)
    requires Coheres(g, sh) && Enabled(g, sh, e) && e.DirectDone? && Credited(sh)
    ensures Credited(ParentStep(g, sh, e))
  {
    var t := sh.asked[e.parent];
    Home(g, sh.a, t);
    StartCredits(sh, e.parent, F.HomeDisk(g, t.off), t.(mem := e.after), e.ok, e.mapped, e.rets);
  }

  lemma {:induction false} MissingCredits(g: Geometry, sh: Shared, e: Event)
    requires Coheres(g, sh) && Enabled(g, sh, e) && e.NewMissing? && Credited(sh)
    ensures Credited(ParentStep(g, sh, e))
  {
    Home(g, sh.a, e.r);
    StartCredits(sh, e.parent, F.HomeDisk(g, e.r.off), e.r, true, e.mapped, e.rets);
  }

  lemma {:induction false} ParentCredits(g: Geometry, sh: Shared, e: Event)
    requires Coheres(g, sh) && Enabled(g, sh, e) && OfParent(e) && Credited(sh)
    ensures Credited(ParentStep(g, sh, e))
  {
    if e.NewWrite? {
      NewWriteCredits(g, sh, e.parent, e.w, e.mapped, e.noMem, e.image);
    } else if e.NewRead? || e.Again? {
      AskedCredits(g, sh, e);
    } else if e.DirectDone? {
      DirectCredits(g, sh, e);
    } else {
      MissingCredits(g, sh, e);
    }
  }

  lemma {:induction false} WriteCredits(g: Geometry, sh: Shared, e: Event)
    requires Coheres(g, sh) && C.LiveWrites(sh.ch.writes.busy) && Enabled(g, sh, e) && Credited(sh)
    requires Linked(sh.ch.writes, ForWrite, sh.ch.place) && (e.ParityDone? || e.OnWrite?)
    ensures Credited(RequestStep(g, sh, e))
  {
    var job, t := sh.ch.writes.busy[e.id].job, sh.writing[e.id];
    if e.ParityDone? {
      WrittenCredits(sh, e.id, C.JobAfterParity(job, e.ok, e.image, e.rets, e.flips), t.(started := e.ok), sh.a);
    } else {
      WrittenCredits(sh, e.id, C.JobAfter(job, e.we), t, DisksAfter(g, sh.a, job, t, e.we));
    }
  }

  lemma {:induction false} OnReadCredits(g: Geometry, sh: Shared, e: Event)
    requires Coheres(g, sh) && C.LiveWrites(sh.ch.writes.busy) && Enabled(g, sh, e) && e.OnRead? && Credited(sh)
    requires Linked(sh.ch.readers, ForRead, sh.ch.place)
    ensures Credited(RequestStep(g, sh, e))
  {
    CanRead(g, sh, e.id, e.pe.re);
    R.StepReleases(sh.ch.readers.busy[e.id].job, e.pe.re);
    ReadOnCredits(sh, e.id, R.Step(sh.ch.readers.busy[e.id].job, e.pe.re), e.pe.after);
  }

  lemma {:induction false} LossCredits(g: Geometry, sh: Shared, e: Event)
    requires Coheres(g, sh) && C.LiveWrites(sh.ch.writes.busy) && Enabled(g, sh, e) && e.LoseDisk? && Credited(sh)
    ensures Credited(RequestStep(g, sh, e))
  {
    DiskLost(sh.ch.place, sh.writers, sh.ops, sh.authors, sh.returned, e.disk);
  }

  lemma {:induction false} RequestCredits(g: Geometry, sh: Shared, e: Event)
    requires Coheres(g, sh) && C.LiveWrites(sh.ch.writes.busy) && Enabled(g, sh, e) && !OfParent(e) && Credited(sh)
    requires Linked(sh.ch.writes, ForWrite, sh.ch.place) && Linked(sh.ch.readers, ForRead, sh.ch.place)
    ensures Credited(RequestStep(g, sh, e))
  {
    if e.ParityDone? || e.OnWrite? {
      WriteCredits(g, sh, e);
    } else if e.OnRead? {
      OnReadCredits(g, sh, e);
    } else {
      LossCredits(g, sh, e);
    }
  }

  lemma {:induction false} StepCredits(g: Geometry, sh: Shared, e: Event)
    requires Coheres(g, sh) && C.LiveWrites(sh.ch.writes.busy) && Enabled(g, sh, e) && Credited(sh)
    requires Linked(sh.ch.writes, ForWrite, sh.ch.place) && Linked(sh.ch.readers, ForRead, sh.ch.place)
    ensures Credited(Step(g, sh, e))
  {
    if OfParent(e) {
      ParentCredits(g, sh, e);
    } else {
      RequestCredits(g, sh, e);
    }
  }

  // ---- torn stripes ----

  /** A stripe is torn from when a write that had started on it ends without success until one succeeds on it. */
  lemma {:induction false} TornIff(sh: Shared, id: nat, job: C.WriteJob, t: WriteTask, a: A.Array, s: nat)
    requires id in sh.writing && id in sh.ch.writes.busy && (job.w.released == 0 ==> job.w.io.completed == [])
    ensures s in Written(sh, id, job, t, a).torn
            <==> if t.stripe == s && job.w.io.completed == [true] then false
                 else if t.stripe == s && job.w.released > 0 && t.started then true
                 else s in sh.torn
  {
  }

  // ---- over runs ----

  lemma {:induction false} RunCredits(g: Geometry, a0: A.Array, sh: Shared, events: seq<Event>)
    requires Inv(g, a0, sh) && LegalFrom(g, a0, sh, events) && Credited(sh)
    ensures Credited(After(g, a0, sh, events))
    decreases |events|
  {
    if events != [] {
      LiveBooks(sh);
      StepInv(g, a0, sh, events[0]);
      StepCredits(g, sh, events[0]);
      RunCredits(g, a0, Step(g, sh, events[0]), events[1..]);
    }
  }

  lemma {:induction false} LiveBooks(sh: Shared)
    requires C.Inv(sh.ch)
    ensures Linked(sh.ch.writes, ForWrite, sh.ch.place) && Linked(sh.ch.readers, ForRead, sh.ch.place)
    ensures C.LiveWrites(sh.ch.writes.busy)
  {
  }

  /**
   Whatever interleaves: the parent of a write stands completed with success if and only if its own write is among
   those the array model is run on, and then it is there once.
   */
  lemma {:induction false} WriteSucceedsIff(g: Geometry, a0: A.Array, events: seq<Event>, p: nat)
    requires A.WellFormed(g, a0) && LegalFrom(g, a0, Open(g, a0), events)
    requires p in After(g, a0, Open(g, a0), events).writers
    ensures var sh := After(g, a0, Open(g, a0), events);
            && p in sh.ch.place && |sh.authors| == |sh.ops|
            && (sh.ch.place[p] == Completed(Success) <==> exists k :: 0 <= k < |sh.ops| && sh.authors[k] == Some(p))
            && (forall k :: 0 <= k < |sh.ops| && sh.authors[k] == Some(p) ==>
                  && sh.ops[k].Write? && sh.ops[k].stripe == sh.writers[p].stripe
                  && sh.ops[k].data == sh.writers[p].data)
            && (forall j, k :: 0 <= j < k < |sh.ops| && sh.authors[j] == Some(p) ==> sh.authors[k] != Some(p))
            && (forall k :: 0 <= k < |sh.ops| && sh.ops[k].Write? ==>
                  sh.authors[k].Some? && sh.authors[k].value in sh.writers)
  {
    RunCredits(g, a0, Open(g, a0), events);
    var sh := After(g, a0, Open(g, a0), events);
    assert IsAuthor(sh.authors, p) || p in sh.returned <==> sh.ch.place[p] == Completed(Success);
    forall k | 0 <= k < |sh.ops| && sh.ops[k].Write?
      ensures AuthorOf(sh.ops[k], sh.authors[k], sh.writers)
    {
    }
  }

  /** The parent of a read stands completed with success if and only if its reconstruct read has ended well. */
  lemma {:induction false} ReadSucceedsIff(g: Geometry, a0: A.Array, events: seq<Event>, p: nat)
    requires A.WellFormed(g, a0) && LegalFrom(g, a0, Open(g, a0), events)
    requires var sh := After(g, a0, Open(g, a0), events); p in sh.ch.place && p !in sh.writers
    ensures var sh := After(g, a0, Open(g, a0), events); sh.ch.place[p] == Completed(Success) <==> p in sh.returned
  {
    RunCredits(g, a0, Open(g, a0), events);
    var sh := After(g, a0, Open(g, a0), events);
    if IsAuthor(sh.authors, p) {
      AuthorsWrite(sh.ops, sh.authors, sh.writers, p);
    }
  }
}
