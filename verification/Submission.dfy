/**
 How a request is taken from a pool: raid5f_submit_write_request and raid5f_submit_reconstruct_read look
 at the first free request, fill its lists, and only then remove it (raid/raid5f.c).
 */
module Submission {
  import opened Options
  import opened Iovecs
  import opened ReadPath
  import opened RequestPool

  /** The chunk lists of every request of the pool. */
  ghost predicate RequestsOk(requests: seq<StripeChunks>, n: nat)
    reads requests, set r | r in requests :: r.iovs, set r | r in requests :: r.room
  {
    forall id :: 0 <= id < |requests| ==>
      && requests[id].Valid() && requests[id].n == n
      && forall c :: 0 <= c < n ==> requests[id].room[c] >= 1
  }

  /** Every free request has its lists. */
  ghost predicate Covers<T>(pool: Pool<T>, requests: seq<StripeChunks>)
  {
    forall k :: 0 <= k < |pool.free| ==> pool.free[k] < |requests|
  }

  /**
   raid5f_submit_write_request: the request is taken exactly when one is free and the caller's iovecs
   can be mapped onto its chunks; on any error the pool is as it was.
   */
  method SubmitWrite<T>(
    pool: RequestList<T>, requests: seq<StripeChunks>, parent: nat, ghost job: T,
    raidIovs: seq<Iovec>, n: nat, parity: nat, strip: nat, parityBuf: nat, alloc: seq<bool>) returns (ret: Ret, id: nat)
    requires Conserved(pool.Model()) && Covers(pool.Model(), requests) && RequestsOk(requests, n)
    requires parity < n && strip > 0 && |alloc| == n
    modifies pool, set r | r in requests :: r.iovs, set r | r in requests :: r.room
    ensures Conserved(pool.Model())
    ensures ret != Ok ==> pool.Model() == old(pool.Model())
    ensures ret == Ok ==>
      && old(pool.free) != [] && id == old(pool.free[0]) < |requests|
      && pool.Model() == Take(old(pool.Model()), parent, job)
      && requests[id].Valid() && requests[id].n == n
      && Enough(raidIovs, strip, n - 1) && Tiles(raidIovs, strip, requests[id].DataLists(parity, n - 1))
      && requests[id].iovs[parity] == [Iovec(parityBuf, strip)]
    ensures ret == Inval ==> old(pool.free) != [] && !Enough(raidIovs, strip, n - 1)
    ensures ret == NoMem ==> old(pool.free) == [] || exists c :: 0 <= c < n && !alloc[c]
  {
    id := 0;
    if pool.free == [] {
      return NoMem, id;
    }
    id := pool.First();
    ret := requests[id].MapIovecs(raidIovs, parity, strip, parityBuf, alloc);
    if ret != Ok {
      return;
    }
    pool.TakeFirst(parent, job);
  }

  /**
   raid5f_submit_reconstruct_read up to its first submission: the request is taken exactly when one is
   free and the caller's iovecs can be stored; otherwise the pool is as it was.
   */
  method SubmitRead<T>(
    pool: RequestList<T>, requests: seq<StripeChunks>, parent: nat, ghost job: T,
    n: nat, target: nat, callerIovs: seq<Iovec>, buffers: seq<seq<nat>>, len: nat, alloc: bool)
    returns (ok: bool, id: nat)
    requires Conserved(pool.Model()) && Covers(pool.Model(), requests) && RequestsOk(requests, n)
    requires target < n && |buffers| == |requests| && forall k :: 0 <= k < |buffers| ==> |buffers[k]| == n - 1
    modifies pool, set r | r in requests :: r.iovs, set r | r in requests :: r.room
    ensures Conserved(pool.Model())
    ensures !ok ==> pool.Model() == old(pool.Model())
    ensures ok <==> old(pool.free) != [] && (|callerIovs| <= old(requests[pool.free[0]].room[target]) || alloc)
    ensures ok ==>
      && id == old(pool.free[0]) < |requests| && pool.Model() == Take(old(pool.Model()), parent, job)
      && requests[id].Valid() && requests[id].n == n
      && forall d :: 0 <= d < n ==> requests[id].iovs[d] == ReadList(target, callerIovs, buffers[id], len, d)
  {
    id := 0;
    if pool.free == [] {
      return false, id;
    }
    id := pool.First();
    ok := FillReadLists(requests[id], target, callerIovs, buffers[id], len, alloc);
    if !ok {
      return;
    }
    pool.TakeFirst(parent, job);
  }

  /**
   The write branch of raid5f_submit_rw_request: what the caller of the submission reports. A parent ends at once with
   NoMemory if no request is free or memory is refused, with Failed if too few bytes were supplied, and not otherwise.
   */
  method ReportWrite<T>(
    pool: RequestList<T>, requests: seq<StripeChunks>, parent: nat, ghost job: T,
    raidIovs: seq<Iovec>, n: nat, parity: nat, strip: nat, parityBuf: nat, alloc: seq<bool>)
    returns (status: Option<Status>)
    requires Conserved(pool.Model()) && Covers(pool.Model(), requests) && RequestsOk(requests, n)
    requires parity < n && strip > 0 && |alloc| == n
    modifies pool, set r | r in requests :: r.iovs, set r | r in requests :: r.room
    ensures Conserved(pool.Model())
    ensures status.None? ==> old(pool.free) != [] && pool.Model() == Take(old(pool.Model()), parent, job)
    ensures status.Some? ==> pool.Model() == old(pool.Model())
    ensures status.None? ==> Enough(raidIovs, strip, n - 1)
    ensures status == Some(NoMemory) ==> old(pool.free) == [] || exists c :: 0 <= c < n && !alloc[c]
    ensures status == Some(Failed) ==> old(pool.free) != [] && !Enough(raidIovs, strip, n - 1)
    ensures status.None? || status == Some(NoMemory) || status == Some(Failed)
  {
    var ret, _ := SubmitWrite(pool, requests, parent, job, raidIovs, n, parity, strip, parityBuf, alloc);
    match ret
    case Ok => status := None;
    case NoMem => status := Some(NoMemory);
    case Inval => status := Some(Failed);
  }

  /** The read branch for a missing disk: the parent ends at once with NoMemory exactly if nothing was submitted. */
  method ReportRead<T>(
    pool: RequestList<T>, requests: seq<StripeChunks>, parent: nat, ghost job: T,
    n: nat, target: nat, callerIovs: seq<Iovec>, buffers: seq<seq<nat>>, len: nat, alloc: bool)
    returns (status: Option<Status>)
    requires Conserved(pool.Model()) && Covers(pool.Model(), requests) && RequestsOk(requests, n)
    requires target < n && |buffers| == |requests| && forall k :: 0 <= k < |buffers| ==> |buffers[k]| == n - 1
    modifies pool, set r | r in requests :: r.iovs, set r | r in requests :: r.room
    ensures Conserved(pool.Model())
    ensures status.None? ==> old(pool.free) != [] && pool.Model() == Take(old(pool.Model()), parent, job)
    ensures status.Some? ==> pool.Model() == old(pool.Model())
    ensures status.None?
            <==> old(pool.free) != [] && (|callerIovs| <= old(requests[pool.free[0]].room[target]) || alloc)
    ensures status.None? || status == Some(NoMemory)
  {
    var ok, _ := SubmitRead(pool, requests, parent, job, n, target, callerIovs, buffers, len, alloc);
    status := if ok then None else Some(NoMemory);
  }
}
