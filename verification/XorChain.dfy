/**
 The piecewise XOR of a stripe: raid/raid5f.c. A chain of asynchronous segments, each as long as
 the current pieces of all source and destination lists allow, is driven by completion callbacks.
 The engine that XORs one segment and the list iterator are outside the repository; their
 contracts are `AccelXor` and `SegmentLen`.
 */
module XorChain {
  import opened Bytes
  import opened Iovecs

  /** Bytes left in the piece that holds byte `p` of the list. */
  function Room(l: seq<Iovec>, p: nat): (r: nat)
    requires p < Total(l)
    ensures p + r <= Total(l)
  {
    if p < l[0].len then l[0].len - p else Room(l[1..], p - l[0].len)
  }

  /** Within one piece the addresses are consecutive. */
  lemma {:induction false} RoomIsContiguous(l: seq<Iovec>, p: nat, k: nat)
    requires p < Total(l) && k < Room(l, p)
    ensures Addrs(l)[p + k] == Addrs(l)[p] + k
  {
    if p >= l[0].len {
      RoomIsContiguous(l[1..], p - l[0].len, k);
    }
  }

  lemma {:induction false} RoomPositive(l: seq<Iovec>, p: nat)
    requires p < Total(l)
    ensures Room(l, p) > 0
  {
    if p >= l[0].len {
      RoomPositive(l[1..], p - l[0].len);
    }
  }

  predicate AllBelow(lists: seq<seq<Iovec>>, p: nat)
  {
    forall i :: 0 <= i < |lists| ==> p < Total(lists[i])
  }

  /** spdk_ioviter_firstv / spdk_ioviter_nextv: the shortest of the current pieces. */
  function SegmentLen(lists: seq<seq<Iovec>>, p: nat): (len: nat)
    requires |lists| > 0 && AllBelow(lists, p)
    ensures len > 0
    ensures forall i :: 0 <= i < |lists| ==> len <= Room(lists[i], p)
    ensures exists i :: 0 <= i < |lists| && len == Room(lists[i], p)
  {
    RoomPositive(lists[0], p);
    if |lists| == 1 then Room(lists[0], p)
    else
      var rest := SegmentLen(lists[1..], p);
      if Room(lists[0], p) <= rest then Room(lists[0], p)
      else
        var i :| 0 <= i < |lists[1..]| && rest == Room(lists[1..][i], p);
        assert rest == Room(lists[i + 1], p);
        rest
  }

  /** Contents of memory at byte `k` past each pointer. */
  function ColumnAt(mem: seq<byte>, ptrs: seq<nat>, k: nat): (c: seq<byte>)
    requires forall i :: 0 <= i < |ptrs| ==> ptrs[i] + k < |mem|
    ensures |c| == |ptrs| && forall i :: 0 <= i < |c| ==> c[i] == mem[ptrs[i] + k]
  {
    seq(|ptrs|, i requires 0 <= i < |ptrs| => mem[ptrs[i] + k])
  }

  /** The byte addresses of every list. */
  function AddrTable(lists: seq<seq<Iovec>>): (t: seq<seq<nat>>)
    ensures |t| == |lists| && forall i :: 0 <= i < |t| ==> t[i] == Addrs(lists[i])
  {
    seq(|lists|, i requires 0 <= i < |lists| => Addrs(lists[i]))
  }

  /** The pointers of byte `p` of every list. */
  function Pointers(t: seq<seq<nat>>, p: nat): (r: seq<nat>)
    requires forall i :: 0 <= i < |t| ==> p < |t[i]|
    ensures |r| == |t| && forall i :: 0 <= i < |r| ==> r[i] == t[i][p]
  {
    seq(|t|, i requires 0 <= i < |t| => t[i][p])
  }

  /** Two ranges of `len` bytes do not overlap. */
  predicate Apart(a: nat, b: nat, len: nat)
  {
    a + len <= b || b + len <= a
  }

  /** The engine's contract: one contiguous destination, one pointer a source. */
  method AccelXor(mem: array<byte>, dst: nat, srcs: seq<nat>, len: nat)
    requires dst + len <= mem.Length
    requires forall i :: 0 <= i < |srcs| ==> srcs[i] + len <= mem.Length
    requires forall i :: 0 <= i < |srcs| ==> Apart(srcs[i], dst, len)
    modifies mem
    ensures forall k :: 0 <= k < len ==> mem[dst + k] == Fold(ColumnAt(old(mem[..]), srcs, k))
    ensures forall a :: 0 <= a < mem.Length && !(dst <= a < dst + len) ==> mem[a] == old(mem[a])
  {
    ghost var was := mem[..];
    var j := 0;
    while j < len
      invariant 0 <= j <= len
      invariant forall k :: 0 <= k < j ==> mem[dst + k] == Fold(ColumnAt(was, srcs, k))
      invariant forall a :: 0 <= a < mem.Length && !(dst <= a < dst + j) ==> mem[a] == was[a]
    {
      assert ColumnAt(mem[..], srcs, j) == ColumnAt(was, srcs, j);
      mem[dst + j] := Fold(ColumnAt(mem[..], srcs, j));
      j := j + 1;
    }
  }

  /** Addresses are in memory; the destination is free of repetition and of source bytes. */
  ghost predicate Separate(memLen: nat, srcs: seq<seq<nat>>, dst: seq<nat>, total: nat)
  {
    && |dst| == total
    && (forall i :: 0 <= i < |srcs| ==> |srcs[i]| == total)
    && (forall p :: 0 <= p < total ==> dst[p] < memLen)
    && (forall i, p :: 0 <= i < |srcs| && 0 <= p < total ==> srcs[i][p] < memLen)
    && (forall p, q :: 0 <= p < total && 0 <= q < total && dst[p] == dst[q] ==> p == q)
    && (forall i, p, q :: 0 <= i < |srcs| && 0 <= p < total && 0 <= q < total ==> srcs[i][p] != dst[q])
  }

  /** The XOR of byte `p` of all sources, in a given memory. */
  function SourceXor(mem: seq<byte>, srcs: seq<seq<nat>>, p: nat): byte
    requires forall i :: 0 <= i < |srcs| ==> p < |srcs[i]| && srcs[i][p] < |mem|
  {
    Fold(ColumnAt(mem, Pointers(srcs, p), 0))
  }

  /** xor.len, xor.remaining, xor.status and the callback of one stripe request. */
  class XorJob {
    const mem: array<byte>
    const srcLists: seq<seq<Iovec>>
    const dstList: seq<Iovec>
    const total: nat
    ghost const orig: seq<byte>

    var pos: nat          // the iterators' position: bytes before the current segment
    var len: nat
    var remaining: nat
    var failed: bool      // xor.status != 0
    var inFlight: bool    // the engine holds a segment
    var fired: nat        // calls of xor.cb

    ghost function Srcs(): seq<seq<nat>>
    {
      AddrTable(srcLists)
    }

    ghost predicate Valid()
      reads this, mem
    {
      && Shape()
      && pos + remaining == total
      && (inFlight <==> fired == 0) && fired <= 1
      && (inFlight ==> remaining > 0 && AllBelow(srcLists + [dstList], pos)
                       && len == SegmentLen(srcLists + [dstList], pos))
      && (fired == 1 && !failed ==> remaining == 0)
      && (!failed ==> XoredTo(pos))
      && OnlyDestination()
    }

    /** The first destination bytes are the XOR of the sources. */
    ghost predicate XoredTo(upTo: nat)
      requires Shape() && upTo <= total
      reads this, mem
    {
      Xored(mem[..], orig, Srcs(), Addrs(dstList), upTo)
    }

    ghost predicate OnlyDestination()
      requires Shape()
      reads this, mem
    {
      Outside(mem[..], orig, Addrs(dstList))
    }

    ghost predicate Shape()
      reads this
    {
      && total > 0 && |orig| == mem.Length
      && Separate(mem.Length, Srcs(), Addrs(dstList), total)
    }

    /** raid5f_xor_stripe up to the first submission; `accepted` is the engine's answer. */
    constructor (mem: array<byte>, srcLists: seq<seq<Iovec>>, dstList: seq<Iovec>, total: nat, accepted: bool)
      requires total > 0 && Separate(mem.Length, AddrTable(srcLists), Addrs(dstList), total)
      ensures Valid() && this.mem == mem && this.srcLists == srcLists && this.dstList == dstList
      ensures this.total == total && orig == mem[..] && remaining == total
      ensures failed == !accepted && fired == if accepted then 0 else 1
    {
      this.mem, this.srcLists, this.dstList, this.total := mem, srcLists, dstList, total;
      orig := mem[..];
      pos, remaining := 0, total;
      len := 0;
      failed, inFlight, fired := false, false, 0;
      new;
      len := SegmentLen(srcLists + [dstList], 0);
      Continue(accepted);
    }

    /** raid5f_xor_stripe_continue: submits the current segment; a refusal ends the chain with an error. */
    method Continue(accepted: bool)
      modifies this`inFlight, this`failed, this`fired
      ensures accepted ==> inFlight && failed == old(failed) && fired == old(fired)
      ensures !accepted ==> inFlight == old(inFlight) && failed && fired == old(fired) + 1
    {
      if accepted {
        inFlight := true;
      } else {
        failed := true;
        fired := fired + 1;
      }
    }

    /** The engine has finished the segment it holds and is about to call back. */
    ghost predicate SegmentDone(ok: bool)
      reads this, mem
    {
      && Shape()
      && inFlight && fired == 0 && pos + remaining == total && 0 < len <= remaining
      && OnlyDestination()
      && (ok && !failed ==> XoredTo(pos + len))
    }

    /** What the engine does to memory for the segment it holds: the XOR, or anything in the destination. */
    method Engine(ok: bool, junk: seq<byte>)
      requires Valid() && inFlight && |junk| == len
      modifies mem
      ensures SegmentDone(ok)
    {
      ghost var srcs, dst, was := Srcs(), Addrs(dstList), mem[..];
      var dptr := Addrs(dstList)[pos];
      var ptrs := Pointers(AddrTable(srcLists), pos);
      SegmentIsContiguous(srcLists, dstList, pos);
      SegmentBounds(mem.Length, srcs, dst, total, pos, len, ptrs, dptr);
      if ok {
        AccelXor(mem, dptr, ptrs, len);
        SegmentXor(orig, was, mem[..], srcs, dst, total, pos, len, ptrs, dptr);
      } else {
        forall k | 0 <= k < len {
          mem[dptr + k] := junk[k];
        }
      }
      SegmentFrame(orig, was, mem[..], srcs, dst, total, pos, len, ptrs, dptr);
    }

    /** raid5f_xor_stripe_cb; `accepted` answers the submission of the next segment, if there is one. */
    method Callback(ok: bool, accepted: bool)
      requires SegmentDone(ok)
      modifies this`pos, this`len, this`remaining, this`failed, this`inFlight, this`fired
      ensures Valid()
      ensures remaining == old(remaining) - old(len)
      ensures failed == (old(failed) || !ok || (remaining > 0 && !accepted))
      ensures fired == (if remaining > 0 && accepted then 0 else 1)
    {
      inFlight := false;
      pos := pos + len;
      remaining := remaining - len;
      if remaining > 0 {
        len := SegmentLen(srcLists + [dstList], pos);
        Continue(accepted);
      }
      if !ok {
        failed := true;
      }
      if remaining == 0 {
        fired := fired + 1;
      }
    }

    /** The engine works on the segment it holds and calls back. */
    method Round(answer: Answer)
      requires Valid() && inFlight
      modifies this`pos, this`len, this`remaining, this`failed, this`inFlight, this`fired, mem
      ensures Valid() && remaining < old(remaining)
      ensures failed == (old(failed) || !answer.ok || (remaining > 0 && !answer.accepted))
      ensures inFlight == (remaining > 0 && answer.accepted)
    {
      Engine(answer.ok, seq(len, i requires 0 <= i => answer.junk(i)));
      Callback(answer.ok, answer.accepted);
    }
  }

  /** One answer of the engine: outcome of a segment, what a failed one leaves, answer to the next submission. */
  datatype Answer = Answer(ok: bool, junk: nat -> byte, accepted: bool)

  /** The answer to the submission that follows `segments` finished segments. */
  predicate Accepted(first: bool, answers: nat -> Answer, segments: nat)
  {
    if segments == 0 then first else answers(segments - 1).accepted
  }

  /** The first `segments` submissions were accepted. */
  predicate AllAccepted(first: bool, answers: nat -> Answer, segments: nat)
  {
    segments > 0 ==> Accepted(first, answers, segments - 1) && AllAccepted(first, answers, segments - 1)
  }

  /** One of the first `segments` segments failed. */
  predicate AnyFailed(answers: nat -> Answer, segments: nat)
  {
    segments > 0 && (!answers(segments - 1).ok || AnyFailed(answers, segments - 1))
  }

  /**
   The whole chain against an engine that gives arbitrary answers: it ends after at most `total`
   segments, the callback has then fired exactly once, with an error if and only if a segment
   failed or was refused, and without an error the destination is the bytewise XOR of the sources.
   */
  method XorStripe(mem: array<byte>, srcLists: seq<seq<Iovec>>, dstList: seq<Iovec>, total: nat,
                   first: bool, answers: nat -> Answer)
    returns (job: XorJob, segments: nat)
    requires total > 0 && Separate(mem.Length, AddrTable(srcLists), Addrs(dstList), total)
    modifies mem
    ensures segments <= total && job.fired == 1 && !job.inFlight
    ensures job.failed <==> job.remaining > 0 || AnyFailed(answers, segments)
    ensures job.remaining > 0 ==> !Accepted(first, answers, segments)
    ensures AllAccepted(first, answers, segments)
    ensures !job.failed ==> Xored(mem[..], old(mem[..]), AddrTable(srcLists), Addrs(dstList), total)
    ensures Outside(mem[..], old(mem[..]), Addrs(dstList))
  {
    job := new XorJob(mem, srcLists, dstList, total, first);
    segments := 0;
    while job.inFlight
      invariant job.Valid() && fresh(job)
      invariant job.mem == mem && job.srcLists == srcLists && job.dstList == dstList && job.total == total
      invariant job.orig == old(mem[..])
      invariant segments + job.remaining <= total
      invariant job.failed <==> AnyFailed(answers, segments) || (!job.inFlight && job.remaining > 0)
      invariant job.inFlight ==> Accepted(first, answers, segments)
      invariant !job.inFlight && job.remaining > 0 ==> !Accepted(first, answers, segments)
      invariant AllAccepted(first, answers, segments)
      decreases job.remaining
    {
      job.Round(answers(segments));
      segments := segments + 1;
    }
  }

  /** The addresses of bytes pos..pos+len are consecutive from the pointers. */
  ghost predicate Contiguous(srcs: seq<seq<nat>>, dst: seq<nat>, pos: nat, len: nat, ptrs: seq<nat>, dptr: nat)
  {
    && pos + len <= |dst| && |ptrs| == |srcs|
    && (forall p :: pos <= p < pos + len ==> dst[p] == dptr + (p - pos))
    && (forall i, p :: 0 <= i < |srcs| && pos <= p < pos + len ==> p < |srcs[i]| && srcs[i][p] == ptrs[i] + (p - pos))
  }

  lemma {:induction false} RangesApart(s: seq<nat>, d: seq<nat>, a: nat, b: nat)
    requires |s| == |d| > 0
    requires forall k :: 0 <= k < |s| ==> s[k] == a + k && d[k] == b + k
    requires forall k, j :: 0 <= k < |s| && 0 <= j < |d| ==> s[k] != d[j]
    ensures Apart(a, b, |s|)
  {
    forall x | a <= x < a + |s| ensures x in s {
      assert s[x - a] == x;
    }
    forall x | b <= x < b + |d| ensures x in d {
      assert d[x - b] == x;
    }
    assert d[0] !in s && s[0] !in d;
  }

  lemma {:induction false} SegmentBounds(
    memLen: nat, srcs: seq<seq<nat>>, dst: seq<nat>, total: nat, pos: nat, len: nat, ptrs: seq<nat>, dptr: nat)
    requires Separate(memLen, srcs, dst, total) && Contiguous(srcs, dst, pos, len, ptrs, dptr) && len > 0
    ensures dptr + len <= memLen
    ensures forall i :: 0 <= i < |srcs| ==> ptrs[i] + len <= memLen
    ensures forall i :: 0 <= i < |srcs| ==> Apart(ptrs[i], dptr, len)
  {
    var last := pos + len - 1;
    assert dst[last] == dptr + (len - 1);
    forall i | 0 <= i < |srcs| ensures ptrs[i] + len <= memLen && Apart(ptrs[i], dptr, len) {
      assert srcs[i][last] == ptrs[i] + (len - 1);
      RangesApart(srcs[i][pos..pos + len], dst[pos..pos + len], ptrs[i], dptr);
    }
  }

  lemma {:induction false} SegmentIsContiguous(srcLists: seq<seq<Iovec>>, dstList: seq<Iovec>, pos: nat)
    requires AllBelow(srcLists + [dstList], pos)
    ensures pos < Total(dstList) && forall i :: 0 <= i < |srcLists| ==> pos < Total(srcLists[i])
    ensures var t := AddrTable(srcLists);
            Contiguous(t, Addrs(dstList), pos, SegmentLen(srcLists + [dstList], pos),
                       Pointers(t, pos), Addrs(dstList)[pos])
  {
    var lists := srcLists + [dstList];
    var len := SegmentLen(lists, pos);
    assert lists[|srcLists|] == dstList;
    PieceIsContiguous(dstList, pos, len);
    forall i | 0 <= i < |srcLists|
      ensures pos < Total(srcLists[i]) && pos + len <= Total(srcLists[i])
      ensures forall p :: pos <= p < pos + len ==> Addrs(srcLists[i])[p] == Addrs(srcLists[i])[pos] + (p - pos)
    {
      assert lists[i] == srcLists[i];
      PieceIsContiguous(srcLists[i], pos, len);
    }
  }

  lemma {:induction false} PieceIsContiguous(l: seq<Iovec>, pos: nat, len: nat)
    requires pos < Total(l) && len <= Room(l, pos)
    ensures pos + len <= Total(l)
    ensures forall p :: pos <= p < pos + len ==> Addrs(l)[p] == Addrs(l)[pos] + (p - pos)
  {
    forall p | pos <= p < pos + len ensures Addrs(l)[p] == Addrs(l)[pos] + (p - pos) {
      RoomIsContiguous(l, pos, p - pos);
    }
  }

  /** Destination bytes before `upTo` are the XOR of what the sources held in `orig`. */
  ghost predicate Xored(mem: seq<byte>, orig: seq<byte>, srcs: seq<seq<nat>>, dst: seq<nat>, upTo: nat)
    requires |mem| == |orig| && upTo <= |dst| && Separate(|mem|, srcs, dst, |dst|)
  {
    forall p :: 0 <= p < upTo ==> mem[dst[p]] == SourceXor(orig, srcs, p)
  }

  ghost predicate Outside(mem: seq<byte>, orig: seq<byte>, dst: seq<nat>)
    requires |mem| == |orig|
  {
    forall a :: 0 <= a < |mem| && a !in dst ==> mem[a] == orig[a]
  }

  /** Writing only the segment leaves everything but the destination alone. */
  lemma {:induction false} SegmentFrame(
    orig: seq<byte>, was: seq<byte>, now: seq<byte>, srcs: seq<seq<nat>>, dst: seq<nat>, total: nat,
    pos: nat, len: nat, ptrs: seq<nat>, dptr: nat)
    requires |orig| == |was| == |now| && Outside(was, orig, dst)
    requires Separate(|was|, srcs, dst, total) && Contiguous(srcs, dst, pos, len, ptrs, dptr)
    requires forall a :: 0 <= a < |was| && !(dptr <= a < dptr + len) ==> now[a] == was[a]
    ensures Outside(now, orig, dst)
    ensures forall p :: 0 <= p < pos ==> now[dst[p]] == was[dst[p]]
  {
    var segment := dst[pos..pos + len];
    forall a | dptr <= a < dptr + len ensures a in segment {
      assert segment[a - dptr] == a;
    }
    assert forall p :: 0 <= p < pos ==> dst[p] !in segment;
    assert forall a :: a in segment ==> a in dst;
  }

  /** The engine's bytes are the XOR of what the sources held at the start of the chain. */
  lemma {:induction false} SegmentXor(
    orig: seq<byte>, was: seq<byte>, now: seq<byte>, srcs: seq<seq<nat>>, dst: seq<nat>, total: nat,
    pos: nat, len: nat, ptrs: seq<nat>, dptr: nat)
    requires |orig| == |was| == |now| && Outside(was, orig, dst)
    requires Separate(|was|, srcs, dst, total) && Contiguous(srcs, dst, pos, len, ptrs, dptr)
    requires dptr + len <= |was| && forall i :: 0 <= i < |ptrs| ==> ptrs[i] + len <= |was|
    requires forall k :: 0 <= k < len ==> now[dptr + k] == Fold(ColumnAt(was, ptrs, k))
    requires forall a :: 0 <= a < |was| && !(dptr <= a < dptr + len) ==> now[a] == was[a]
    ensures Xored(was, orig, srcs, dst, pos) ==> Xored(now, orig, srcs, dst, pos + len)
  {
    SegmentFrame(orig, was, now, srcs, dst, total, pos, len, ptrs, dptr);
    forall p | pos <= p < pos + len ensures now[dst[p]] == SourceXor(orig, srcs, p) {
      var k := p - pos;
      assert now[dptr + k] == Fold(ColumnAt(was, ptrs, k));
      forall i | 0 <= i < |srcs|
        ensures ColumnAt(was, ptrs, k)[i] == ColumnAt(orig, Pointers(srcs, p), 0)[i]
      {
        assert srcs[i][p] !in dst;
      }
      assert ColumnAt(was, ptrs, k) == ColumnAt(orig, Pointers(srcs, p), 0);
    }
  }
}
