/**
 A reconstruct read with its memory: the lists raid5f_submit_reconstruct_read fills, the buffers the
 base bdevs read into, and the XOR into the caller's memory (raid/raid5f.c).
 */
module ReadPath {
  import opened Bytes
  import opened Layout
  import opened Iovecs
  import opened XorChain
  import opened DataPath
  import A = Raid5Array
  import R = Reconstruct
  import FanOut

  /** What disk `d`'s chunk list becomes: the caller's own iovecs for the chunk to rebuild, a buffer for any other. */
  function ReadList(target: nat, callerIovs: seq<Iovec>, buffers: seq<nat>, len: nat, d: nat): seq<Iovec>
    requires d <= |buffers| && (d == target || target <= |buffers|)
  {
    if d == target then callerIovs
    else if d < target then [Iovec(buffers[d], len)]
    else if d - 1 < |buffers| then [Iovec(buffers[d - 1], len)] else []
  }

  /** The loop over chunks of raid5f_submit_reconstruct_read; `alloc` says whether a longer list can be had. */
  method FillReadLists(
    chunks: StripeChunks, target: nat, callerIovs: seq<Iovec>, buffers: seq<nat>, len: nat, alloc: bool)
    returns (ok: bool)
    requires chunks.Valid() && target < chunks.n && |buffers| == chunks.n - 1
    modifies chunks.iovs, chunks.room
    ensures chunks.Valid()
    ensures ok <==> |callerIovs| <= old(chunks.room[target]) || alloc
    ensures ok ==> forall d :: 0 <= d < chunks.n ==> chunks.iovs[d] == ReadList(target, callerIovs, buffers, len, d)
  {
    var bufIdx := 0;
    for c := 0 to chunks.n
      invariant chunks.Valid() && bufIdx == (if c <= target then c else c - 1)
      invariant c <= target ==> chunks.room[target] == old(chunks.room[target])
      invariant c > target ==> |callerIovs| <= old(chunks.room[target]) || alloc
      invariant forall d :: 0 <= d < c ==> chunks.iovs[d] == ReadList(target, callerIovs, buffers, len, d)
    {
      if c == target {
        ok := chunks.SetIovcnt(c, |callerIovs|, alloc);
        if !ok {
          return;
        }
        CopyIovs(chunks, c, callerIovs);
      } else {
        chunks.iovs[c] := [Iovec(buffers[bufIdx], len)];
        bufIdx := bufIdx + 1;
      }
    }
    ok := true;
  }

  /** The caller's iovecs, one by one. */
  method CopyIovs(chunks: StripeChunks, c: nat, callerIovs: seq<Iovec>)
    requires chunks.Valid() && c < chunks.n && chunks.iovs[c] == []
    modifies chunks.iovs
    ensures chunks.Valid() && chunks.iovs[c] == callerIovs
    ensures forall d :: 0 <= d < chunks.n && d != c ==> chunks.iovs[d] == old(chunks.iovs[d])
  {
    for i := 0 to |callerIovs|
      invariant chunks.iovs[c] == callerIovs[..i]
      invariant forall d :: 0 <= d < chunks.n && d != c ==> chunks.iovs[d] == old(chunks.iovs[d])
    {
      chunks.iovs[c] := chunks.iovs[c] + [callerIovs[i]];
    }
  }

  // ---- the read with its memory ----

  /** `num` blocks from offset `o` of stripe `s` of disk `d`, and the chunks' lists. */
  datatype Request = Request(g: Geometry, a: A.Array, d: nat, s: nat, o: nat, num: nat, lists: seq<seq<Iovec>>)
  {
    ghost predicate Valid()
    {
      && A.WellFormed(g, a) && s < g.stripes && d < g.n && num > 0 && o + num <= g.strip
      && |lists| == g.n
    }

    function Len(): nat { g.blocklen * num }

    lemma LenPositive()
      requires Valid()
      ensures Len() > 0
    {
    }
  }

  /** Every list describes the request's bytes, in memory; the lists and the caller's bytes do not overlap. */
  ghost predicate ListsOk(x: Request, memLen: nat)
    requires x.Valid()
  {
    && (forall i :: 0 <= i < x.g.n ==> |Addrs(x.lists[i])| == x.Len() && Within(Addrs(x.lists[i]), memLen))
    && (forall i, j :: 0 <= i < x.g.n && 0 <= j < x.g.n && i != j ==> NoneShared(Addrs(x.lists[i]), Addrs(x.lists[j])))
    && NoRepeats(Addrs(x.lists[x.d]))
  }

  ghost predicate Within(s: seq<nat>, memLen: nat)
  {
    forall p :: 0 <= p < |s| ==> s[p] < memLen
  }

  ghost predicate NoneShared(s: seq<nat>, t: seq<nat>)
  {
    forall p, q :: 0 <= p < |s| && 0 <= q < |t| ==> s[p] != t[q]
  }

  ghost predicate NoRepeats(s: seq<nat>)
  {
    forall p, q :: 0 <= p < |s| && 0 <= q < |s| && s[p] == s[q] ==> p == q
  }

  datatype State = State(r: R.Read, mem: seq<byte>)

  /** The list of chunk `i` holds the request's blocks of disk `i`. */
  ghost predicate Holds(x: Request, mem: seq<byte>, i: nat)
    requires x.Valid() && i < x.g.n
  {
    && InMemory(mem, Addrs(x.lists[i])) && |Addrs(x.lists[i])| == x.Len()
    && Cut(Gather(mem, Addrs(x.lists[i])), x.g.blocklen, x.num) == x.a.disks[i][x.s][x.o..x.o + x.num]
  }

  /** The source lists of the XOR, in ascending disk order. */
  function Sources(x: Request): seq<seq<Iovec>>
    requires x.d < |x.lists|
  {
    Without(x.lists, x.d)
  }

  // An event, and the memory it leaves: a read changes only its own buffer and, if it goes well, leaves the
  // disk's blocks there; the XOR changes only the caller's bytes and, if it goes well, leaves the XOR there.
  datatype Event = Event(re: R.Event, after: seq<byte>)

  ghost predicate Effect(x: Request, mem: seq<byte>, e: Event)
    requires x.Valid() && ListsOk(x, |mem|)
  {
    match e.re
    case Retry(_) => e.after == mem
    case ReadDone(i, ok) =>
      i < x.g.n && |e.after| == |mem| && Outside(e.after, mem, Addrs(x.lists[i])) && (ok ==> Holds(x, e.after, i))
    case XorDone(ok) =>
      |e.after| == |mem| && Outside(e.after, mem, Addrs(x.lists[x.d])) && (ok ==> XorLeft(x, e.after, mem))
  }

  ghost predicate XorLeft(x: Request, after: seq<byte>, mem: seq<byte>)
    requires x.Valid() && ListsOk(x, |mem|) && |after| == |mem|
  {
    SourcesSeparate(x, |mem|);
    Xored(after, mem, AddrTable(Sources(x)), Addrs(x.lists[x.d]), x.Len())
  }

  /** The caller's memory holds what the array model delivers. */
  ghost predicate Delivered(x: Request, mem: seq<byte>)
    requires x.Valid()
  {
    && InMemory(mem, Addrs(x.lists[x.d])) && |Addrs(x.lists[x.d])| == x.Len()
    && forall j :: 0 <= j < x.num ==>
         Cut(Gather(mem, Addrs(x.lists[x.d])), x.g.blocklen, x.num)[j] == A.Derive(x.g, x.a, x.d, x.s, x.o + j)
  }

  lemma {:induction false} SourcesSeparate(x: Request, memLen: nat)
    requires x.Valid() && ListsOk(x, memLen)
    ensures Separate(memLen, AddrTable(Sources(x)), Addrs(x.lists[x.d]), x.Len())
  {
    forall k | 0 <= k < x.g.n - 1
      ensures var i := if k < x.d then k else k + 1;
              i != x.d && AddrTable(Sources(x))[k] == Addrs(x.lists[i])
    {
    }
  }

  // ---- invariant ----

  /** Chunks read successfully are in their buffers; a parent completed with success has its data. */
  ghost predicate Inv(x: Request, st: State)
  {
    && x.Valid() && ListsOk(x, |st.mem|)
    && R.Inv(st.r) && st.r.n == x.g.n && st.r.target == x.d
    && InBuffers(x, st.mem, st.r.good)
    && (st.r.completed == [true] ==> Delivered(x, st.mem))
  }

  ghost predicate InBuffers(x: Request, mem: seq<byte>, good: set<nat>)
    requires x.Valid()
  {
    forall i :: i in good ==> i < x.g.n && Holds(x, mem, i)
  }

  /** Writing into one list's bytes leaves what the others hold. */
  lemma {:induction false} HoldsOn(x: Request, mem: seq<byte>, after: seq<byte>, i: nat, k: nat)
    requires x.Valid() && ListsOk(x, |mem|) && |after| == |mem| && i < x.g.n && k < x.g.n && i != k
    requires Outside(after, mem, Addrs(x.lists[i])) && Holds(x, mem, k)
    ensures Holds(x, after, k)
  {
    var addrs := Addrs(x.lists[k]);
    assert NoneShared(Addrs(x.lists[i]), addrs);
    forall p | 0 <= p < |addrs|
      ensures after[addrs[p]] == mem[addrs[p]]
    {
      assert addrs[p] !in Addrs(x.lists[i]);
    }
    assert Gather(after, addrs) == Gather(mem, addrs);
  }

  lemma {:induction false} ReadLands(x: Request, mem: seq<byte>, good: set<nat>, i: nat, ok: bool, after: seq<byte>)
    requires x.Valid() && ListsOk(x, |mem|) && InBuffers(x, mem, good) && i < x.g.n && i !in good
    requires |after| == |mem| && Outside(after, mem, Addrs(x.lists[i])) && (ok ==> Holds(x, after, i))
    ensures InBuffers(x, after, if ok then good + {i} else good)
  {
    forall k | k in good
      ensures k < x.g.n && Holds(x, after, k)
    {
      HoldsOn(x, mem, after, i, k);
    }
  }

  /** With every other chunk in its buffer, the XOR delivers the request. */
  lemma {:induction false} XorDelivers(x: Request, mem: seq<byte>, good: set<nat>, after: seq<byte>)
    requires x.Valid() && ListsOk(x, |mem|) && InBuffers(x, mem, good) && |after| == |mem| && XorLeft(x, after, mem)
    requires forall i :: 0 <= i < x.g.n && i != x.d ==> i in good
    ensures Delivered(x, after)
  {
    BuffersAreRead(x, mem, good);
    XorReconstructs(x, mem, after);
  }

  lemma {:induction false} XorReconstructs(x: Request, mem: seq<byte>, after: seq<byte>)
    requires x.Valid() && ListsOk(x, |mem|) && |after| == |mem| && XorLeft(x, after, mem)
    requires BuffersRead(x.g, x.a, x.d, x.s, x.o, x.num, mem, AddrTable(Sources(x)))
    ensures Delivered(x, after)
  {
    SourcesSeparate(x, |mem|);
    ReconstructDelivers(x.g, x.a, x.d, x.s, x.o, x.num, mem, after, AddrTable(Sources(x)), Addrs(x.lists[x.d]));
  }

  lemma {:induction false} BuffersAreRead(x: Request, mem: seq<byte>, good: set<nat>)
    requires x.Valid() && ListsOk(x, |mem|) && InBuffers(x, mem, good)
    requires forall i :: 0 <= i < x.g.n && i != x.d ==> i in good
    ensures BuffersRead(x.g, x.a, x.d, x.s, x.o, x.num, mem, AddrTable(Sources(x)))
  {
    forall k | 0 <= k < x.g.n - 1
      ensures var e := if k < x.d then k else k + 1;
              && AddrTable(Sources(x))[k] == Addrs(x.lists[e]) && Holds(x, mem, e)
    {
      var e := if k < x.d then k else k + 1;
      assert e in good;
    }
  }

  // ---- steps and runs ----

  ghost predicate Enabled(x: Request, st: State, e: Event)
    requires Inv(x, st)
  {
    R.Enabled(st.r, e.re) && Effect(x, st.mem, e)
  }

  ghost function Step(x: Request, st: State, e: Event): State
    requires Inv(x, st) && Enabled(x, st, e)
  {
    State(R.Step(st.r, e.re), e.after)
  }

  lemma {:induction false} StepInv(x: Request, st: State, e: Event)
    requires Inv(x, st) && Enabled(x, st, e)
    ensures Inv(x, Step(x, st, e))
  {
    R.StepOutcome(st.r, e.re);
    match e.re
    case Retry(rets) =>
    case ReadDone(i, ok) =>
      ReadLands(x, st.mem, st.r.good, i, ok, e.after);
    case XorDone(ok) =>
      ReadLands(x, st.mem, st.r.good, x.d, false, e.after);
      if ok {
        XorDelivers(x, st.mem, st.r.good, e.after);
      }
  }

  ghost predicate LegalFrom(x: Request, st: State, events: seq<Event>)
    requires Inv(x, st)
    decreases |events|
  {
    events == [] ||
    (Enabled(x, st, events[0]) && (StepInv(x, st, events[0]); LegalFrom(x, Step(x, st, events[0]), events[1..])))
  }

  ghost function After(x: Request, st: State, events: seq<Event>): State
    requires Inv(x, st) && LegalFrom(x, st, events)
    decreases |events|
  {
    if events == [] then st
    else
      StepInv(x, st, events[0]);
      After(x, Step(x, st, events[0]), events[1..])
  }

  lemma {:induction false} AfterInv(x: Request, st: State, events: seq<Event>)
    requires Inv(x, st) && LegalFrom(x, st, events)
    ensures Inv(x, After(x, st, events))
    decreases |events|
  {
    if events != [] {
      StepInv(x, st, events[0]);
      AfterInv(x, Step(x, st, events[0]), events[1..]);
    }
  }

  /** The state after the first submissions. */
  ghost function Start(x: Request, mem: seq<byte>, rets: seq<FanOut.Ret>): (st: State)
    requires x.Valid() && ListsOk(x, |mem|) && |rets| == x.g.n
    ensures Inv(x, st) && st.mem == mem
  {
    R.StartOutcome(x.g.n, x.d, rets);
    State(R.Start(x.g.n, x.d, rets), mem)
  }

  /**
   For every order of submissions, refusals, child completions and outcomes of the XOR: a parent
   completed with success has in its memory what the array model delivers.
   */
  lemma {:induction false} SuccessDelivers(x: Request, mem: seq<byte>, rets: seq<FanOut.Ret>, events: seq<Event>)
    requires x.Valid() && ListsOk(x, |mem|) && |rets| == x.g.n && LegalFrom(x, Start(x, mem, rets), events)
    ensures var st := After(x, Start(x, mem, rets), events);
            st.r.completed == [true] ==> Delivered(x, st.mem)
  {
    AfterInv(x, Start(x, mem, rets), events);
  }

  /** The XOR chain is such an event: it ends, and its effect is the one assumed of `XorDone`. */
  method RunXor(mem: array<byte>, x: Request, first: bool, answers: nat -> Answer) returns (ok: bool)
    requires x.Valid() && ListsOk(x, mem.Length)
    modifies mem
    ensures Effect(x, old(mem[..]), Event(R.XorDone(ok), mem[..]))
  {
    SourcesSeparate(x, mem.Length);
    x.LenPositive();
    var job, _ := XorStripe(mem, Sources(x), x.lists[x.d], x.Len(), first, answers);
    ok := !job.failed;
  }

  /** The lists the submission fills meet the demands on them. */
  lemma {:induction false} FilledLists(x: Request, memLen: nat, callerIovs: seq<Iovec>, buffers: seq<nat>)
    requires x.Valid() && |buffers| == x.g.n - 1
    requires forall d :: 0 <= d < x.g.n ==> x.lists[d] == ReadList(x.d, callerIovs, buffers, x.Len(), d)
    requires Total(callerIovs) == x.Len() && Within(Addrs(callerIovs), memLen) && NoRepeats(Addrs(callerIovs))
    requires forall k :: 0 <= k < |buffers| ==> buffers[k] + x.Len() <= memLen
    requires forall k, j :: 0 <= k < j < |buffers| ==> Apart(buffers[k], buffers[j], x.Len())
    requires forall k, p :: 0 <= k < |buffers| && 0 <= p < x.Len() ==>
               !(buffers[k] <= Addrs(callerIovs)[p] < buffers[k] + x.Len())
    ensures ListsOk(x, memLen) && x.lists[x.d] == callerIovs
  {
    forall i | 0 <= i < x.g.n
      ensures |Addrs(x.lists[i])| == x.Len() && Within(Addrs(x.lists[i]), memLen)
    {
      if i != x.d {
        BufferAddrs(buffers[if i < x.d then i else i - 1], x.Len());
      }
    }
    forall i, j | 0 <= i < x.g.n && 0 <= j < x.g.n && i != j
      ensures NoneShared(Addrs(x.lists[i]), Addrs(x.lists[j]))
    {
      FilledApart(callerIovs, buffers, x.d, x.Len(), i, j);
    }
  }

  lemma {:induction false} FilledApart(
    callerIovs: seq<Iovec>, buffers: seq<nat>, target: nat, len: nat, i: nat, j: nat)
    requires target <= |buffers| && i <= |buffers| && j <= |buffers| && i != j && Total(callerIovs) == len
    requires forall k, l :: 0 <= k < l < |buffers| ==> Apart(buffers[k], buffers[l], len)
    requires forall k, p :: 0 <= k < |buffers| && 0 <= p < len ==>
               !(buffers[k] <= Addrs(callerIovs)[p] < buffers[k] + len)
    ensures NoneShared(
              Addrs(ReadList(target, callerIovs, buffers, len, i)),
              Addrs(ReadList(target, callerIovs, buffers, len, j)))
  {
    if i != target {
      BufferAddrs(buffers[if i < target then i else i - 1], len);
    }
    if j != target {
      BufferAddrs(buffers[if j < target then j else j - 1], len);
    }
  }

  lemma {:induction false} BufferAddrs(base: nat, len: nat)
    ensures Addrs([Iovec(base, len)]) == Piece(base, len)
  {
    assert [Iovec(base, len)][1..] == [];
    assert Piece(base, len) + [] == Piece(base, len);
  }
}
