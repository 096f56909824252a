/**
 One of the two free lists of stripe requests of a RAID5F I/O channel, and the requests taken from it:
 raid/raid5f.c.
 */
module RequestPool {

  /** RAID5F_MAX_STRIPES */
  const MAX_STRIPES := 32

  /** A request in use: the parent I/O it serves and how far its protocol has come. */
  datatype Used<T> = Used(parent: nat, job: T)

  datatype Pool<T> = Pool(free: seq<nat>, busy: map<nat, Used<T>>)

  /** Takes the first free request for a parent. */
  function Take<T>(pool: Pool<T>, parent: nat, job: T): Pool<T>
    requires pool.free != []
  {
    Pool(pool.free[1..], pool.busy[pool.free[0] := Used(parent, job)])
  }

  /** raid5f_stripe_request_release */
  function Release<T>(pool: Pool<T>, id: nat): Pool<T>
  {
    Pool([id] + pool.free, pool.busy - {id})
  }

  /** The request's protocol makes a step. */
  function Move<T>(pool: Pool<T>, id: nat, job: T): Pool<T>
    requires id in pool.busy
  {
    pool.(busy := pool.busy[id := pool.busy[id].(job := job)])
  }

  /** Where a parent handed to the channel is. */
  datatype Kind = ForWrite | ForRead
  datatype Status = Success | Failed | NoMemory
  datatype Place =
    | Served(kind: Kind, id: nat)
    | DirectRead(target: nat)
    | Queued(target: nat)
    | Completed(status: Status)
    | Stranded

  /** Every request is free or in use, never both, never lost. */
  ghost predicate Conserved<T>(pool: Pool<T>)
  {
    && (forall i, j :: 0 <= i < j < |pool.free| ==> pool.free[i] != pool.free[j])
    && (forall i :: 0 <= i < |pool.free| ==> pool.free[i] !in pool.busy)
    && |pool.free| + |pool.busy.Keys| == MAX_STRIPES
  }

  /** Requests in use and the parents being served by this pool correspond one to one. */
  ghost predicate Linked<T>(pool: Pool<T>, kind: Kind, place: map<nat, Place>)
  {
    && (forall id :: id in pool.busy ==>
          pool.busy[id].parent in place && place[pool.busy[id].parent] == Served(kind, id))
    && (forall p :: p in place && place[p].Served? && place[p].kind == kind ==>
          place[p].id in pool.busy && pool.busy[place[p].id].parent == p)
  }

  lemma {:induction false} TakeConserves<T>(pool: Pool<T>, parent: nat, job: T)
    requires Conserved(pool) && pool.free != []
    ensures Conserved(Take(pool, parent, job))
  {
    assert Take(pool, parent, job).busy.Keys == pool.busy.Keys + {pool.free[0]};
  }

  lemma {:induction false} ReleaseConserves<T>(pool: Pool<T>, id: nat)
    requires Conserved(pool) && id in pool.busy
    ensures Conserved(Release(pool, id))
  {
    assert Release(pool, id).busy.Keys == pool.busy.Keys - {id};
  }

  lemma {:induction false} MoveConserves<T>(pool: Pool<T>, id: nat, job: T)
    requires Conserved(pool) && id in pool.busy
    ensures Conserved(Move(pool, id, job))
  {
    assert Move(pool, id, job).busy.Keys == pool.busy.Keys;
  }

  lemma {:induction false} TakeLinks<T>(pool: Pool<T>, kind: Kind, place: map<nat, Place>, parent: nat, job: T)
    requires Linked(pool, kind, place) && pool.free != [] && pool.free[0] !in pool.busy
    requires parent in place ==> !place[parent].Served?
    ensures Linked(Take(pool, parent, job), kind, place[parent := Served(kind, pool.free[0])])
  {
  }

  lemma {:induction false} ReleaseLinks<T>(pool: Pool<T>, kind: Kind, place: map<nat, Place>, id: nat, s: Status)
    requires Linked(pool, kind, place) && id in pool.busy
    ensures Linked(Release(pool, id), kind, place[pool.busy[id].parent := Completed(s)])
  {
  }

  lemma {:induction false} MoveLinks<T>(pool: Pool<T>, kind: Kind, place: map<nat, Place>, id: nat, job: T)
    requires Linked(pool, kind, place) && id in pool.busy
    ensures Linked(Move(pool, id, job), kind, place)
  {
  }

  /** A parent this pool does not serve moves to a place outside it. */
  lemma {:induction false} OthersLink<T>(pool: Pool<T>, kind: Kind, place: map<nat, Place>, p: nat, to: Place)
    requires Linked(pool, kind, place)
    requires p in place && place[p].Served? ==> place[p].kind != kind
    requires to.Served? ==> to.kind != kind
    ensures Linked(pool, kind, place[p := to])
  {
  }

  /** The free list as the queue head it is, with the requests in use recorded beside it. */
  class RequestList<T> {
    var free: seq<nat>
    ghost var busy: map<nat, Used<T>>

    ghost function Model(): Pool<T>
      reads this
    {
      Pool(free, busy)
    }

    /** raid5f_ioch_create: MAX_STRIPES requests, inserted at the head one by one. */
    constructor ()
      ensures Conserved(Model()) && busy == map[]
      ensures forall id :: id in free <==> 0 <= id < MAX_STRIPES
    {
      free, busy := [], map[];
      new;
      for i := 0 to MAX_STRIPES
        invariant busy == map[] && |free| == i
        invariant forall k :: 0 <= k < |free| ==> free[k] == i - 1 - k
      {
        free := [i] + free;
      }
      forall id | 0 <= id < MAX_STRIPES
        ensures id in free
      {
        assert free[MAX_STRIPES - 1 - id] == id;
      }
    }

    /** TAILQ_FIRST: the request to be taken next stays in the list. */
    method First() returns (id: nat)
      requires free != []
      ensures id == free[0]
    {
      id := free[0];
    }

    /** TAILQ_REMOVE of that request, once it has been set up for a parent. */
    method TakeFirst(parent: nat, ghost job: T)
      requires Conserved(Model()) && free != []
      modifies this
      ensures Conserved(Model()) && Model() == Take(old(Model()), parent, job)
    {
      TakeConserves(Model(), parent, job);
      free, busy := free[1..], busy[free[0] := Used(parent, job)];
    }

    /** raid5f_stripe_request_release */
    method Put(id: nat)
      requires Conserved(Model()) && id in busy
      modifies this
      ensures Conserved(Model()) && Model() == Release(old(Model()), id)
    {
      ReleaseConserves(Model(), id);
      free, busy := [id] + free, busy - {id};
    }
  }
}

/**
 A RAID5F I/O channel: its two pools and the parents it is given, any number of writes and reads at
 once, each by its own protocol (modules Raid5Write and Reconstruct).
 */
module StripePool {
  import opened Options
  import opened FanOut
  import opened RequestPool
  import W = Raid5Write
  import R = Reconstruct
  import A = Raid5Array

  /** A write in progress; `xoring` until the parity computation has called back. */
  datatype WriteJob = WriteJob(xoring: bool, w: W.Write, image: seq<A.Strip>, before: seq<A.Strip>)

  // `n` and `missing` are the base channels: one for every disk but the missing one.
  datatype Channel = Channel(
    n: nat,
    missing: Option<nat>,
    writes: Pool<WriteJob>,
    readers: Pool<R.Read>,
    place: map<nat, Place>,
    completions: map<nat, nat>)    // calls of raid_bdev_io_complete, by parent

  // SubmitWrite: `mapped` tells whether the iovec mapping succeeded, `noMem` how it failed otherwise.
  // SubmitRead: the read of a chunk of a healthy array, answered by its base bdev. DirectDone: that read ends.
  // SubmitMissing: the read of a chunk of the missing disk. LoseDisk: a base channel is put, which waits until no
  // parent is outstanding.
  datatype Event =
    | SubmitWrite(parent: nat, mapped: bool, noMem: bool, image: seq<A.Strip>, before: seq<A.Strip>)
    | ParityDone(id: nat, ok: bool, image: seq<A.Strip>, rets: seq<Ret>, flips: seq<bool>)
    | OnWrite(id: nat, we: W.WriteEvent)
    | SubmitRead(parent: nat, target: nat, ret: Ret)
    | DirectDone(parent: nat, ok: bool, mapped: bool, rets: seq<Ret>)
    | SubmitMissing(parent: nat, target: nat, mapped: bool, rets: seq<Ret>)
    | OnRead(id: nat, re: R.Event)
    | LoseDisk(disk: nat)

  ghost predicate Enabled(ch: Channel, e: Event)
  {
    match e
    case SubmitWrite(p, _, _, image, before) => p !in ch.place && W.Ready(Presence(ch.n, ch.missing), image, before)
    case ParityDone(id, _, image, rets, flips) =>
      id in ch.writes.busy && CanEndParity(ch.writes.busy[id].job, image, rets, flips)
    case OnWrite(id, we) => id in ch.writes.busy && CanMove(ch.writes.busy[id].job, we)
    case SubmitRead(p, target, _) =>
      target < ch.n && ch.missing.None? && (p !in ch.place || ch.place[p] == Queued(target))
    case DirectDone(p, _, _, rets) => p in ch.place && ch.place[p].DirectRead? && |rets| == ch.n
    case SubmitMissing(p, target, _, rets) =>
      target < ch.n && ch.missing == Some(target) && p !in ch.place && |rets| == ch.n
    case OnRead(id, re) => id in ch.readers.busy && R.Enabled(ch.readers.busy[id].job, re)
    case LoseDisk(d) => d < ch.n && ch.missing.None? && forall p :: p in ch.place ==> ch.place[p].Completed?
  }

  /** Which disks have a base channel. */
  function Presence(n: nat, missing: Option<nat>): (present: seq<bool>)
    ensures |present| == n
  {
    seq(n, d => missing != Some(d))
  }

  /** The parity computation may call back, with the chunks' buffers as it leaves them. */
  ghost predicate CanEndParity(job: WriteJob, image: seq<A.Strip>, rets: seq<Ret>, flips: seq<bool>)
  {
    job.xoring && |rets| == |flips| == job.w.io.N() && W.Ready(job.w.io.present, image, job.before)
  }

  ghost predicate CanMove(job: WriteJob, we: W.WriteEvent)
  {
    !job.xoring && W.CanHappen(job.w, we)
  }

  function Result(ok: bool): Status
  {
    if ok then Success else Failed
  }

  function Times(completions: map<nat, nat>, p: nat): nat
  {
    if p in completions then completions[p] else 0
  }

  /** raid_bdev_io_complete */
  function Complete(ch: Channel, parent: nat, s: Status): Channel
  {
    ch.(place := ch.place[parent := Completed(s)],
        completions := ch.completions[parent := Times(ch.completions, parent) + 1])
  }

  function Park(ch: Channel, parent: nat, to: Place): Channel
  {
    ch.(place := ch.place[parent := to])
  }

  /** A write request has moved on; its protocol says whether it has released itself and completed its parent. */
  function MoveWrite(ch: Channel, id: nat, job: WriteJob): Channel
    requires id in ch.writes.busy
  {
    if job.w.released > 0
    then
      Complete(ch.(writes := Release(ch.writes, id)), ch.writes.busy[id].parent, Result(job.w.io.completed == [true]))
    else ch.(writes := Move(ch.writes, id, job))
  }

  function MoveRead(ch: Channel, id: nat, r: R.Read): Channel
    requires id in ch.readers.busy
  {
    if r.released > 0
    then Complete(ch.(readers := Release(ch.readers, id)), ch.readers.busy[id].parent, Result(r.completed == [true]))
    else ch.(readers := Move(ch.readers, id, r))
  }

  // ---- invariant ----

  /** A live write request: its protocol's invariant holds and its parent has not completed. */
  ghost predicate LiveWrite(job: WriteJob)
  {
    if job.xoring then
      W.Ready(job.w.io.present, job.image, job.before)
      && job.w == W.NewWrite(job.w.io.present, job.image, job.before)
    else W.WriteInv(job.w, job.image, job.before) && job.w.io.completed == []
  }

  ghost predicate LiveRead(r: R.Read)
  {
    R.Inv(r) && r.completed == []
  }

  ghost predicate LiveWrites(busy: map<nat, Used<WriteJob>>)
  {
    forall id :: id in busy ==> LiveWrite(busy[id].job)
  }

  ghost predicate LiveReads(busy: map<nat, Used<R.Read>>)
  {
    forall id :: id in busy ==> LiveRead(busy[id].job)
  }

  /** A parent has been completed once if its place says so, and never otherwise. */
  ghost predicate Once(place: map<nat, Place>, completions: map<nat, nat>)
  {
    forall p :: Times(completions, p) == if p in place && place[p].Completed? then 1 else 0
  }

  /** Three disks at least, and direct reads only of theirs and when all are there. */
  ghost predicate Disks(n: nat, missing: Option<nat>, place: map<nat, Place>)
  {
    && CanCreate(n, missing)
    && forall p :: p in place && (place[p].DirectRead? || place[p].Queued?) ==> place[p].target < n && missing.None?
  }

  ghost predicate Bookkeeping(ch: Channel)
  {
    && Disks(ch.n, ch.missing, ch.place)
    && Conserved(ch.writes) && Conserved(ch.readers)
    && Linked(ch.writes, ForWrite, ch.place) && Linked(ch.readers, ForRead, ch.place)
    && Once(ch.place, ch.completions)
  }

  ghost predicate Inv(ch: Channel)
  {
    LiveWrites(ch.writes.busy) && LiveReads(ch.readers.busy) && Bookkeeping(ch)
  }

  /** A parent that no request serves and that has not completed. */
  ghost predicate Loose(ch: Channel, p: nat)
  {
    p in ch.place ==> !ch.place[p].Served? && !ch.place[p].Completed?
  }

  lemma {:induction false} CompleteOnce(place: map<nat, Place>, completions: map<nat, nat>, p: nat, s: Status)
    requires Once(place, completions) && (p in place ==> !place[p].Completed?)
    ensures Once(place[p := Completed(s)], completions[p := Times(completions, p) + 1])
  {
  }

  lemma {:induction false} ParkOnce(place: map<nat, Place>, completions: map<nat, nat>, p: nat, to: Place)
    requires Once(place, completions) && (p in place ==> !place[p].Completed?) && !to.Completed?
    ensures Once(place[p := to], completions)
  {
  }

  lemma {:induction false} ServedDisks(n: nat, missing: Option<nat>, place: map<nat, Place>, p: nat, to: Place)
    requires Disks(n, missing, place) && !to.DirectRead? && !to.Queued?
    ensures Disks(n, missing, place[p := to])
  {
  }

  lemma {:induction false} CompleteInv(ch: Channel, p: nat, s: Status)
    requires Inv(ch) && Loose(ch, p)
    ensures Inv(Complete(ch, p, s))
  {
    CompleteOnce(ch.place, ch.completions, p, s);
    OthersLink(ch.writes, ForWrite, ch.place, p, Completed(s));
    OthersLink(ch.readers, ForRead, ch.place, p, Completed(s));
  }

  lemma {:induction false} ParkInv(ch: Channel, p: nat, to: Place)
    requires Inv(ch) && Loose(ch, p) && !to.Completed? && !to.Served?
    requires to.DirectRead? || to.Queued? ==> to.target < ch.n && ch.missing.None?
    ensures Inv(Park(ch, p, to))
  {
    ParkOnce(ch.place, ch.completions, p, to);
    OthersLink(ch.writes, ForWrite, ch.place, p, to);
    OthersLink(ch.readers, ForRead, ch.place, p, to);
  }

  function TakeWrite(ch: Channel, p: nat, job: WriteJob): Channel
    requires ch.writes.free != []
  {
    Park(ch, p, Served(ForWrite, ch.writes.free[0])).(writes := Take(ch.writes, p, job))
  }

  function TakeRead(ch: Channel, p: nat, r: R.Read): Channel
    requires ch.readers.free != []
  {
    Park(ch, p, Served(ForRead, ch.readers.free[0])).(readers := Take(ch.readers, p, r))
  }

  lemma {:induction false} TakeWriteBooks(ch: Channel, p: nat, job: WriteJob)
    requires Bookkeeping(ch) && ch.writes.free != [] && Loose(ch, p)
    ensures Bookkeeping(TakeWrite(ch, p, job))
  {
    var to := Served(ForWrite, ch.writes.free[0]);
    ParkOnce(ch.place, ch.completions, p, to);
    ServedDisks(ch.n, ch.missing, ch.place, p, to);
    TakeConserves(ch.writes, p, job);
    TakeLinks(ch.writes, ForWrite, ch.place, p, job);
    OthersLink(ch.readers, ForRead, ch.place, p, to);
  }

  lemma {:induction false} TakeReadBooks(ch: Channel, p: nat, r: R.Read)
    requires Bookkeeping(ch) && ch.readers.free != [] && Loose(ch, p)
    ensures Bookkeeping(TakeRead(ch, p, r))
  {
    var to := Served(ForRead, ch.readers.free[0]);
    ParkOnce(ch.place, ch.completions, p, to);
    ServedDisks(ch.n, ch.missing, ch.place, p, to);
    TakeConserves(ch.readers, p, r);
    TakeLinks(ch.readers, ForRead, ch.place, p, r);
    OthersLink(ch.writes, ForWrite, ch.place, p, to);
  }

  lemma {:induction false} MoveWriteBooks(ch: Channel, id: nat, job: WriteJob)
    requires Bookkeeping(ch) && id in ch.writes.busy
    ensures Bookkeeping(MoveWrite(ch, id, job))
  {
    if job.w.released > 0 {
      var s, p := Result(job.w.io.completed == [true]), ch.writes.busy[id].parent;
      CompleteOnce(ch.place, ch.completions, p, s);
      ServedDisks(ch.n, ch.missing, ch.place, p, Completed(s));
      ReleaseConserves(ch.writes, id);
      ReleaseLinks(ch.writes, ForWrite, ch.place, id, s);
      OthersLink(ch.readers, ForRead, ch.place, p, Completed(s));
    } else {
      MoveConserves(ch.writes, id, job);
      MoveLinks(ch.writes, ForWrite, ch.place, id, job);
    }
  }

  lemma {:induction false} MoveReadBooks(ch: Channel, id: nat, r: R.Read)
    requires Bookkeeping(ch) && id in ch.readers.busy
    ensures Bookkeeping(MoveRead(ch, id, r))
  {
    if r.released > 0 {
      var s, p := Result(r.completed == [true]), ch.readers.busy[id].parent;
      CompleteOnce(ch.place, ch.completions, p, s);
      ServedDisks(ch.n, ch.missing, ch.place, p, Completed(s));
      ReleaseConserves(ch.readers, id);
      ReleaseLinks(ch.readers, ForRead, ch.place, id, s);
      OthersLink(ch.writes, ForWrite, ch.place, p, Completed(s));
    } else {
      MoveConserves(ch.readers, id, r);
      MoveLinks(ch.readers, ForRead, ch.place, id, r);
    }
  }

  // ---- steps ----

  /** A channel may be created on any array of three disks or more, healthy or not. */
  predicate CanCreate(n: nat, missing: Option<nat>)
  {
    3 <= n && (missing.Some? ==> missing.value < n)
  }

  /** raid5f_ioch_create */
  function NewChannel(n: nat, missing: Option<nat>): (ch: Channel)
    requires CanCreate(n, missing)
    ensures Inv(ch)
  {
    var ids := seq(MAX_STRIPES, i requires 0 <= i < MAX_STRIPES => MAX_STRIPES - 1 - i);
    Channel(n, missing, Pool(ids, map[]), Pool(ids, map[]), map[], map[])
  }

  function NewJob(ch: Channel, image: seq<A.Strip>, before: seq<A.Strip>): WriteJob
  {
    WriteJob(true, W.NewWrite(Presence(ch.n, ch.missing), image, before), image, before)
  }

  /** raid5f_submit_write_request, with the status its caller derives from the result. */
  function SubmitWriteStep(
    ch: Channel, p: nat, mapped: bool, noMem: bool, image: seq<A.Strip>, before: seq<A.Strip>): Channel
  {
    if ch.writes.free == [] then Complete(ch, p, NoMemory)
    else if !mapped then Complete(ch, p, if noMem then NoMemory else Failed)
    else TakeWrite(ch, p, NewJob(ch, image, before))
  }

  lemma {:induction false} SubmitWriteInv(
    ch: Channel, p: nat, mapped: bool, noMem: bool, image: seq<A.Strip>, before: seq<A.Strip>)
    requires Inv(ch) && p !in ch.place && W.Ready(Presence(ch.n, ch.missing), image, before)
    ensures Inv(SubmitWriteStep(ch, p, mapped, noMem, image, before))
  {
    if ch.writes.free == [] {
      CompleteInv(ch, p, NoMemory);
    } else if !mapped {
      CompleteInv(ch, p, if noMem then NoMemory else Failed);
    } else {
      TakeWriteBooks(ch, p, NewJob(ch, image, before));
    }
  }

  /** A live request stays live unless it has just been released. */
  ghost predicate StillLive(job: WriteJob)
  {
    job.w.released == 0 ==> LiveWrite(job)
  }

  /** raid5f_stripe_write_request_xor_done */
  function JobAfterParity(
    job: WriteJob, ok: bool, image: seq<A.Strip>, rets: seq<Ret>, flips: seq<bool>): WriteJob
    requires CanEndParity(job, image, rets, flips) && LiveWrite(job)
  {
    job.(xoring := false, image := image,
         w := W.XorDone(W.NewWrite(job.w.io.present, image, job.before), ok, rets, flips))
  }

  function JobAfter(job: WriteJob, we: W.WriteEvent): WriteJob
    requires CanMove(job, we) && LiveWrite(job)
  {
    job.(w := W.WriteStep(job.w, we))
  }

  lemma {:induction false} JobAfterParityLive(
    job: WriteJob, ok: bool, image: seq<A.Strip>, rets: seq<Ret>, flips: seq<bool>)
    requires CanEndParity(job, image, rets, flips) && LiveWrite(job)
    ensures StillLive(JobAfterParity(job, ok, image, rets, flips))
  {
    if ok {
      W.StartInv(job.w.io.present, image, job.before, rets, flips);
    }
  }

  lemma {:induction false} JobAfterLive(job: WriteJob, we: W.WriteEvent)
    requires CanMove(job, we) && LiveWrite(job)
    ensures StillLive(JobAfter(job, we))
  {
    W.StepInv(job.w, we, job.image, job.before);
  }

  lemma {:induction false} MoveWriteInv(ch: Channel, id: nat, job: WriteJob)
    requires Inv(ch) && id in ch.writes.busy && StillLive(job)
    ensures Inv(MoveWrite(ch, id, job))
  {
    MoveWriteBooks(ch, id, job);
    MoveWriteLive(ch, id, job);
  }

  lemma {:induction false} MoveWriteLive(ch: Channel, id: nat, job: WriteJob)
    requires LiveWrites(ch.writes.busy) && id in ch.writes.busy && StillLive(job)
    ensures LiveWrites(MoveWrite(ch, id, job).writes.busy)
  {
  }

  lemma {:induction false} MoveReadInv(ch: Channel, id: nat, r: R.Read)
    requires Inv(ch) && id in ch.readers.busy && R.Inv(r)
    ensures Inv(MoveRead(ch, id, r))
  {
    MoveReadBooks(ch, id, r);
    MoveReadLive(ch, id, r);
  }

  lemma {:induction false} MoveReadLive(ch: Channel, id: nat, r: R.Read)
    requires LiveReads(ch.readers.busy) && id in ch.readers.busy && R.Inv(r)
    ensures LiveReads(MoveRead(ch, id, r).readers.busy)
  {
  }

  /** raid5f_submit_read_request for a present chunk: its base bdev takes the read, is busy, or refuses. */
  function SubmitReadStep(ch: Channel, p: nat, target: nat, ret: Ret): Channel
  {
    match ret
    case Accepted => Park(ch, p, DirectRead(target))
    case NoMem => Park(ch, p, Queued(target))
    case Error => Complete(ch, p, Failed)
  }

  /** raid5f_submit_reconstruct_read succeeds only with a free request and room for the caller's iovecs. */
  predicate CanReconstruct(ch: Channel, mapped: bool)
  {
    ch.readers.free != [] && mapped
  }

  /** The chunk of a reconstruct read and the answers to its first submissions. */
  predicate ReadArgs(ch: Channel, target: nat, rets: seq<Ret>)
  {
    3 <= ch.n == |rets| && target < ch.n
  }

  /** raid5f_chunk_read_complete: what becomes of the reconstruct read is not looked at. */
  function DirectDoneStep(ch: Channel, p: nat, ok: bool, mapped: bool, target: nat, rets: seq<Ret>): Channel
    requires ReadArgs(ch, target, rets)
  {
    if !ok then Complete(ch, p, Failed)
    else if CanReconstruct(ch, mapped) then TakeRead(ch, p, R.Start(ch.n, target, rets))
    else Park(ch, p, Stranded)
  }

  /** raid5f_submit_read_request for a chunk whose disk is missing. */
  function SubmitMissingStep(ch: Channel, p: nat, target: nat, mapped: bool, rets: seq<Ret>): Channel
    requires ReadArgs(ch, target, rets)
  {
    if CanReconstruct(ch, mapped) then TakeRead(ch, p, R.Start(ch.n, target, rets))
    else Complete(ch, p, NoMemory)
  }

  lemma {:induction false} ReconstructInv(ch: Channel, p: nat, target: nat, rets: seq<Ret>)
    requires Inv(ch) && Loose(ch, p) && ch.readers.free != [] && ReadArgs(ch, target, rets)
    ensures Inv(TakeRead(ch, p, R.Start(ch.n, target, rets)))
  {
    R.StartIsLive(ch.n, target, rets);
    TakeReadBooks(ch, p, R.Start(ch.n, target, rets));
  }

  lemma {:induction false} DirectDoneInv(ch: Channel, p: nat, ok: bool, mapped: bool, target: nat, rets: seq<Ret>)
    requires Inv(ch) && Loose(ch, p) && ReadArgs(ch, target, rets)
    ensures Inv(DirectDoneStep(ch, p, ok, mapped, target, rets))
  {
    if !ok {
      CompleteInv(ch, p, Failed);
    } else if CanReconstruct(ch, mapped) {
      ReconstructInv(ch, p, target, rets);
    } else {
      ParkInv(ch, p, Stranded);
    }
  }

  lemma {:induction false} SubmitMissingInv(ch: Channel, p: nat, target: nat, mapped: bool, rets: seq<Ret>)
    requires Inv(ch) && Loose(ch, p) && ReadArgs(ch, target, rets)
    ensures Inv(SubmitMissingStep(ch, p, target, mapped, rets))
  {
    if CanReconstruct(ch, mapped) {
      ReconstructInv(ch, p, target, rets);
    } else {
      CompleteInv(ch, p, NoMemory);
    }
  }

  lemma {:induction false} SubmitReadInv(ch: Channel, p: nat, target: nat, ret: Ret)
    requires Inv(ch) && Loose(ch, p) && target < ch.n && ch.missing.None?
    ensures Inv(SubmitReadStep(ch, p, target, ret))
  {
    match ret
    case Accepted => ParkInv(ch, p, DirectRead(target));
    case NoMem => ParkInv(ch, p, Queued(target));
    case Error => CompleteInv(ch, p, Failed);
  }

  function ParityDoneStep(
    ch: Channel, id: nat, ok: bool, image: seq<A.Strip>, rets: seq<Ret>, flips: seq<bool>): Channel
    requires LiveWrites(ch.writes.busy) && id in ch.writes.busy
    requires CanEndParity(ch.writes.busy[id].job, image, rets, flips)
  {
    MoveWrite(ch, id, JobAfterParity(ch.writes.busy[id].job, ok, image, rets, flips))
  }

  function OnWriteStep(ch: Channel, id: nat, we: W.WriteEvent): Channel
    requires LiveWrites(ch.writes.busy) && id in ch.writes.busy && CanMove(ch.writes.busy[id].job, we)
  {
    MoveWrite(ch, id, JobAfter(ch.writes.busy[id].job, we))
  }

  function OnReadStep(ch: Channel, id: nat, re: R.Event): Channel
    requires LiveReads(ch.readers.busy) && id in ch.readers.busy && R.Enabled(ch.readers.busy[id].job, re)
  {
    MoveRead(ch, id, R.Step(ch.readers.busy[id].job, re))
  }

  function Step(ch: Channel, e: Event): Channel
    requires LiveWrites(ch.writes.busy) && LiveReads(ch.readers.busy) && Disks(ch.n, ch.missing, ch.place)
    requires Enabled(ch, e)
  {
    match e
    case SubmitWrite(p, mapped, noMem, image, before) => SubmitWriteStep(ch, p, mapped, noMem, image, before)
    case SubmitRead(p, target, ret) => SubmitReadStep(ch, p, target, ret)
    case DirectDone(p, ok, mapped, rets) => DirectDoneStep(ch, p, ok, mapped, ch.place[p].target, rets)
    case SubmitMissing(p, target, mapped, rets) => SubmitMissingStep(ch, p, target, mapped, rets)
    case LoseDisk(d) => ch.(missing := Some(d))
    case ParityDone(id, ok, image, rets, flips) => ParityDoneStep(ch, id, ok, image, rets, flips)
    case OnWrite(id, we) => OnWriteStep(ch, id, we)
    case OnRead(id, re) => OnReadStep(ch, id, re)
  }

  lemma {:induction false} StepInv(ch: Channel, e: Event)
    requires Inv(ch) && Enabled(ch, e)
    ensures Inv(Step(ch, e))
  {
    match e
    case SubmitWrite(p, mapped, noMem, image, before) => SubmitWriteInv(ch, p, mapped, noMem, image, before);
    case SubmitRead(p, target, ret) => SubmitReadInv(ch, p, target, ret);
    case DirectDone(p, ok, mapped, rets) => DirectDoneInv(ch, p, ok, mapped, ch.place[p].target, rets);
    case SubmitMissing(p, target, mapped, rets) => SubmitMissingInv(ch, p, target, mapped, rets);
    case LoseDisk(d) =>
    case ParityDone(id, ok, image, rets, flips) =>
      JobAfterParityLive(ch.writes.busy[id].job, ok, image, rets, flips);
      MoveWriteInv(ch, id, JobAfterParity(ch.writes.busy[id].job, ok, image, rets, flips));
    case OnWrite(id, we) =>
      JobAfterLive(ch.writes.busy[id].job, we);
      MoveWriteInv(ch, id, JobAfter(ch.writes.busy[id].job, we));
    case OnRead(id, re) =>
      MoveReadInv(ch, id, R.Step(ch.readers.busy[id].job, re));
  }

  // ---- runs ----

  /** Each event can happen when its turn comes. */
  ghost predicate LegalFrom(ch: Channel, events: seq<Event>)
    requires Inv(ch)
    decreases |events|
  {
    events == [] ||
    (Enabled(ch, events[0]) && (StepInv(ch, events[0]); LegalFrom(Step(ch, events[0]), events[1..])))
  }

  ghost function After(ch: Channel, events: seq<Event>): Channel
    requires Inv(ch) && LegalFrom(ch, events)
    decreases |events|
  {
    if events == [] then ch
    else
      StepInv(ch, events[0]);
      After(Step(ch, events[0]), events[1..])
  }

  lemma {:induction false} AfterInv(ch: Channel, events: seq<Event>)
    requires Inv(ch) && LegalFrom(ch, events)
    ensures Inv(After(ch, events))
    decreases |events|
  {
    if events != [] {
      StepInv(ch, events[0]);
      AfterInv(Step(ch, events[0]), events[1..]);
    }
  }

  /** The runs of a channel, from its creation. */
  ghost predicate LegalRun(n: nat, missing: Option<nat>, events: seq<Event>)
  {
    CanCreate(n, missing) && LegalFrom(NewChannel(n, missing), events)
  }

  ghost function Run(n: nat, missing: Option<nat>, events: seq<Event>): Channel
    requires LegalRun(n, missing, events)
  {
    After(NewChannel(n, missing), events)
  }

  // ---- main results, for any number of parents in any interleaving ----

  /**
   Of each kind, the free requests and those in use are always the MAX_STRIPES of the channel, no
   request is both, and none is twice in the free list.
   */
  lemma {:induction false} PoolsConserved(n: nat, missing: Option<nat>, events: seq<Event>)
    requires LegalRun(n, missing, events)
    ensures var ch := Run(n, missing, events);
            && |ch.writes.free| + |ch.writes.busy.Keys| == MAX_STRIPES
            && |ch.readers.free| + |ch.readers.busy.Keys| == MAX_STRIPES
            && (forall id :: id in ch.writes.free ==> id !in ch.writes.busy)
            && (forall id :: id in ch.readers.free ==> id !in ch.readers.busy)
            && (forall i, j :: 0 <= i < j < |ch.writes.free| ==> ch.writes.free[i] != ch.writes.free[j])
            && (forall i, j :: 0 <= i < j < |ch.readers.free| ==> ch.readers.free[i] != ch.readers.free[j])
  {
    AfterInv(NewChannel(n, missing), events);
    var ch := Run(n, missing, events);
    assert Conserved(ch.writes) && Conserved(ch.readers);
  }

  /** Two requests in use never serve the same parent, and a served parent has not completed. */
  lemma {:induction false} OneRequestAParent(n: nat, missing: Option<nat>, events: seq<Event>, id: nat, id': nat)
    requires LegalRun(n, missing, events)
    ensures var ch := Run(n, missing, events);
            && (id in ch.writes.busy && id' in ch.readers.busy ==>
                ch.writes.busy[id].parent != ch.readers.busy[id'].parent)
            && (id in ch.writes.busy && id' in ch.writes.busy && id != id' ==>
                  ch.writes.busy[id].parent != ch.writes.busy[id'].parent)
            && (id in ch.readers.busy && id' in ch.readers.busy && id != id' ==>
                  ch.readers.busy[id].parent != ch.readers.busy[id'].parent)
            && (id in ch.writes.busy ==> Times(ch.completions, ch.writes.busy[id].parent) == 0)
            && (id in ch.readers.busy ==> Times(ch.completions, ch.readers.busy[id].parent) == 0)
  {
    AfterInv(NewChannel(n, missing), events);
    var ch := Run(n, missing, events);
    assert Linked(ch.writes, ForWrite, ch.place) && Linked(ch.readers, ForRead, ch.place);
  }

  /** Every parent is completed at most once. */
  lemma {:induction false} ParentsCompleteAtMostOnce(n: nat, missing: Option<nat>, events: seq<Event>, p: nat)
    requires LegalRun(n, missing, events)
    ensures var ch := Run(n, missing, events);
            Times(ch.completions, p) == if p in ch.place && ch.place[p].Completed? then 1 else 0
  {
    AfterInv(NewChannel(n, missing), events);
    assert Once(Run(n, missing, events).place, Run(n, missing, events).completions);
  }
}
