/**
 Requests from the caller's memory to the disks and back: what the mapping, the XOR chain, the
 protocol of one request and the array model say together.
 */
module EndToEnd {
  import opened Options
  import opened Bytes
  import opened Layout
  import FanOut
  import opened Iovecs
  import opened DataPath
  import A = Raid5Array
  import F = FlatDevice
  import P = ReadPath
  import R = Reconstruct
  import W = Raid5Write

  /** The buffers handed to the disks are the chunks' lists in memory; a missing disk's buffer does not matter. */
  ghost predicate FromMemory(
    g: Geometry, mem: seq<byte>, iovs: seq<seq<Iovec>>, present: seq<bool>, image: seq<A.Strip>)
    requires g.Valid()
  {
    && |iovs| == |present| == |image| == g.n
    && forall d :: 0 <= d < g.n && present[d] ==>
         && InMemory(mem, Addrs(iovs[d])) && |Addrs(iovs[d])| == StripBytes(g)
         && image[d] == Blocks(g, Gather(mem, Addrs(iovs[d])))
  }

  /** The chunks share no byte of memory, and none uses one twice. */
  ghost predicate ChunksApart(iovs: seq<seq<Iovec>>)
  {
    && (forall i, j :: 0 <= i < |iovs| && 0 <= j < |iovs| && i != j ==> P.NoneShared(Addrs(iovs[i]), Addrs(iovs[j])))
    && forall i :: 0 <= i < |iovs| ==> P.NoRepeats(Addrs(iovs[i]))
  }

  lemma {:induction false} FirstAddr(l: seq<Iovec>)
    requires l != [] && l[0].len > 0
    ensures |Addrs(l)| > 0 && Addrs(l)[0] == l[0].base
  {
  }

  /** Flipping the first byte of a strip of bytes flips the low bit of its first block. */
  lemma {:induction false} FlipBlocks(g: Geometry, bytes: seq<byte>, flipped: seq<byte>)
    requires g.Valid() && |bytes| == StripBytes(g) > 0 && flipped == bytes[0 := Xor(bytes[0], 1)]
    ensures Blocks(g, flipped) == W.FlipStrip(Blocks(g, bytes))
  {
    var want := W.FlipStrip(Blocks(g, bytes));
    forall o, j | 0 <= o < g.strip && 0 <= j < g.blocklen
      ensures Blocks(g, flipped)[o][j] == want[o][j]
    {
      CutAt(flipped, g.blocklen, g.strip, o, j);
      CutAt(bytes, g.blocklen, g.strip, o, j);
      CutAt(bytes, g.blocklen, g.strip, 0, 0);
    }
    forall o | 0 <= o < g.strip ensures Blocks(g, flipped)[o] == want[o] {
    }
  }

  /** What one changed byte does to the buffers. */
  lemma {:induction false} FlipInMemory(
    g: Geometry, was: seq<byte>, now: seq<byte>, iovs: seq<seq<Iovec>>, present: seq<bool>, image: seq<A.Strip>, d: nat)
    requires g.Valid() && FromMemory(g, was, iovs, present, image) && ChunksApart(iovs)
    requires d < g.n && present[d] && iovs[d] != [] && iovs[d][0].len > 0 && iovs[d][0].base < |was|
    requires now == was[iovs[d][0].base := Xor(was[iovs[d][0].base], 1)]
    ensures FromMemory(g, now, iovs, present, image[d := W.FlipStrip(image[d])])
  {
    FirstAddr(iovs[d]);
    var a := iovs[d][0].base;
    forall i | 0 <= i < g.n && present[i]
      ensures Blocks(g, Gather(now, Addrs(iovs[i]))) == if i == d then W.FlipStrip(image[d]) else image[i]
    {
      var addrs := Addrs(iovs[i]);
      if i == d {
        assert P.NoRepeats(addrs);
        assert Gather(now, addrs) == Gather(was, addrs)[0 := Xor(Gather(was, addrs)[0], 1)];
        FlipBlocks(g, Gather(was, addrs), Gather(now, addrs));
      } else {
        assert P.NoneShared(Addrs(iovs[d]), addrs);
        assert Gather(now, addrs) == Gather(was, addrs);
      }
    }
  }

  /** The deliberate flip as it happens, in the memory the chunk's first iovec points to: the caller's own, for data. */
  method FlipChunk(
    g: Geometry, mem: array<byte>, iovs: seq<seq<Iovec>>, d: nat, ghost present: seq<bool>, ghost image: seq<A.Strip>)
    requires g.Valid() && FromMemory(g, mem[..], iovs, present, image) && ChunksApart(iovs)
    requires d < g.n && present[d] && iovs[d] != [] && iovs[d][0].len > 0
    modifies mem
    ensures FromMemory(g, mem[..], iovs, present, image[d := W.FlipStrip(image[d])])
    ensures mem[..] == old(mem[..])[iovs[d][0].base := Xor(old(mem[iovs[d][0].base]), 1)]
  {
    FirstAddr(iovs[d]);
    ghost var was := mem[..];
    var a := iovs[d][0].base;
    mem[a] := Xor(mem[a], 1);
    assert mem[..] == was[a := Xor(was[a], 1)];
    FlipInMemory(g, was, mem[..], iovs, present, image, d);
  }

  lemma {:induction false} ImageIsStored(
    g: Geometry, s: nat, mem: seq<byte>, iovs: seq<seq<Iovec>>, data: seq<Bytes>, present: seq<bool>,
    image: seq<A.Strip>)
    requires g.Valid() && |present| == g.n
    requires ImageReady(g, s, mem, iovs, data, present[ParityDisk(g.n, s)]) && FromMemory(g, mem, iovs, present, image)
    ensures forall d :: 0 <= d < g.n && present[d] ==> image[d] == A.StoredStrip(g, s, A.Chunks(g, data), None, d)
  {
    forall d | 0 <= d < g.n && present[d]
      ensures image[d] == A.StoredStrip(g, s, A.Chunks(g, data), None, d)
    {
      assert DiskReady(g, s, mem, iovs[d], data, d);
    }
  }

  /**
   A prepared write that completes successfully, under any interleaving of its children, has done
   to the disks exactly one step of the array model with the caller's data.
   */
  lemma {:induction false} WriteRequestIsStep(
    g: Geometry, a: A.Array, s: nat, mem: seq<byte>, iovs: seq<seq<Iovec>>, data: seq<Bytes>,
    present: seq<bool>, image: seq<A.Strip>, before: seq<A.Strip>, events: seq<W.WriteEvent>)
    requires A.WellFormed(g, a) && s < g.stripes && |present| == g.n
    requires forall d :: 0 <= d < g.n ==> present[d] == A.Present(a, d)
    requires ImageReady(g, s, mem, iovs, data, present[ParityDisk(g.n, s)]) && FromMemory(g, mem, iovs, present, image)
    requires W.LegalRun(present, image, before, events)
    requires forall d :: 0 <= d < g.n ==> before[d] == a.disks[d][s]
    requires W.Run(present, image, before, events).io.completed == [true]
    ensures var w := W.Run(present, image, before, events);
            var op := A.Write(s, data, w.poisoned);
            A.Legal(g, a, op) && forall d :: 0 <= d < g.n ==> w.disks[d] == A.Step(g, a, op).disks[d][s]
  {
    var chunks := A.Chunks(g, data);
    ImageIsStored(g, s, mem, iovs, data, present, image);
    W.SuccessfulWriteIsWriteStripe(g, a, s, chunks, image, before, present, events);
    StepIsWriteStripe(g, a, s, data, W.Run(present, image, before, events).poisoned);
  }

  lemma {:induction false} StepIsWriteStripe(g: Geometry, a: A.Array, s: nat, data: seq<Bytes>, flipped: Option<nat>)
    requires A.WellFormed(g, a) && A.StripeData(g, data) && s < g.stripes
    requires flipped.Some? ==> flipped.value < g.n && A.Present(a, flipped.value)
    ensures A.Legal(g, a, A.Write(s, data, flipped))
    ensures A.Step(g, a, A.Write(s, data, flipped)) == A.WriteStripe(g, a, s, A.Chunks(g, data), flipped)
  {
  }

  /** The reconstruct read that serves `num` blocks from `off`. */
  ghost function RequestFor(g: Geometry, a: A.Array, off: nat, num: nat, lists: seq<seq<Iovec>>): (x: P.Request)
    requires A.WellFormed(g, a) && F.InStrip(g, off, num) && |lists| == g.n
    ensures x.Valid()
  {
    var at := At(g, off);
    P.Request(g, a, F.HomeDisk(g, off), at.stripe, at.offset, num, lists)
  }

  /**
   A read needs no base channel that is not there if and only if the array is healthy or the read is for the missing
   disk; after the direct read of another disk's chunk the reconstruction asks the missing disk all the same.
   */
  lemma {:induction false} AsksPresentIff(g: Geometry, a: A.Array, off: nat, rets: seq<FanOut.Ret>)
    requires A.WellFormed(g, a) && off < g.BlockCount() && |rets| == g.n
    requires forall i :: 0 <= i < g.n ==> rets[i] == FanOut.Accepted
    ensures F.HomeDisk(g, off) < g.n
    ensures (forall d :: d in R.Start(g.n, F.HomeDisk(g, off), rets).inFlight ==> A.Present(a, d))
            <==> F.Served(g, a, off)
  {
    var home := F.HomeDisk(g, off);
    R.AsksOthers(g.n, home, rets);
    if a.missing.Some? && a.missing.value != home {
      assert a.missing.value in R.Start(g.n, home, rets).inFlight && !A.Present(a, a.missing.value);
    }
  }

  /** What the array model delivers for a request is the read of module FlatDevice. */
  lemma {:induction false} DeliveredIsRead(
    g: Geometry, a: A.Array, off: nat, num: nat, lists: seq<seq<Iovec>>, mem: seq<byte>)
    requires A.WellFormed(g, a) && F.InStrip(g, off, num) && |lists| == g.n
    requires P.Delivered(RequestFor(g, a, off, num, lists), mem)
    ensures var d := F.HomeDisk(g, off);
            && InMemory(mem, Addrs(lists[d])) && |Addrs(lists[d])| == g.blocklen * num
            && Cut(Gather(mem, Addrs(lists[d])), g.blocklen, num) == F.ReadRequest(g, a, off, num)
  {
  }

  /** A served request whose blocks have all been written, or were consistent from the start. */
  ghost predicate ReadOk(g: Geometry, a: A.Array, ops: seq<A.Op>, off: nat, num: nat)
  {
    && A.WellFormed(g, a) && A.LegalRun(g, a, ops) && F.InStrip(g, off, num)
    && F.Served(g, A.Run(g, a, ops), off)
    && forall l :: off <= l < off + num ==> l in F.FlatRun(g, a, ops)
  }

  /**
   After any run of the array, and any run of a reconstruct read that completes with success, the
   caller's memory holds for each block the last data written to it, with its low bit flipped exactly
   where a read of the array delivers it so.
   */
  lemma {:induction false} ReadBack(
    g: Geometry, a: A.Array, ops: seq<A.Op>, off: nat, num: nat, lists: seq<seq<Iovec>>,
    mem: seq<byte>, rets: seq<FanOut.Ret>, events: seq<P.Event>, i: nat)
    requires ReadOk(g, a, ops, off, num) && i < num && |lists| == |rets| == g.n
    requires var x := RequestFor(g, A.Run(g, a, ops), off, num, lists);
             && P.ListsOk(x, |mem|) && P.LegalFrom(x, P.Start(x, mem, rets), events)
             && P.After(x, P.Start(x, mem, rets), events).r.completed == [true]
    ensures var x := RequestFor(g, A.Run(g, a, ops), off, num, lists);
            var now := P.After(x, P.Start(x, mem, rets), events).mem;
            var c, last := A.LastFlip(ops, At(g, off).stripe), F.FlatRun(g, a, ops)[off + i];
            && InMemory(now, Addrs(lists[x.d])) && |Addrs(lists[x.d])| == g.blocklen * num && |last| == g.blocklen
            && Cut(Gather(now, Addrs(lists[x.d])), g.blocklen, num)[i] ==
                 if c.Some? && c != Some(x.d) && At(g, off + i).offset == 0 then A.FlipLow(last) else last
  {
    var x := RequestFor(g, A.Run(g, a, ops), off, num, lists);
    P.SuccessDelivers(x, mem, rets, events);
    DeliveredIsRead(g, A.Run(g, a, ops), off, num, lists, P.After(x, P.Start(x, mem, rets), events).mem);
    F.ReadDelivers(g, a, ops, off, num, i);
  }

  /** Without flips every block read back is the last data written. */
  lemma {:induction false} ReadBackExact(
    g: Geometry, a: A.Array, ops: seq<A.Op>, off: nat, num: nat, lists: seq<seq<Iovec>>,
    mem: seq<byte>, rets: seq<FanOut.Ret>, events: seq<P.Event>, i: nat)
    requires ReadOk(g, a, ops, off, num) && F.NoFlips(ops) && i < num && |lists| == |rets| == g.n
    requires var x := RequestFor(g, A.Run(g, a, ops), off, num, lists);
             && P.ListsOk(x, |mem|) && P.LegalFrom(x, P.Start(x, mem, rets), events)
             && P.After(x, P.Start(x, mem, rets), events).r.completed == [true]
    ensures var x := RequestFor(g, A.Run(g, a, ops), off, num, lists);
            var now := P.After(x, P.Start(x, mem, rets), events).mem;
            && InMemory(now, Addrs(lists[x.d])) && |Addrs(lists[x.d])| == g.blocklen * num
            && Cut(Gather(now, Addrs(lists[x.d])), g.blocklen, num)[i] == F.FlatRun(g, a, ops)[off + i]
  {
    ReadBack(g, a, ops, off, num, lists, mem, rets, events, i);
    F.NoLastFlip(ops, At(g, off).stripe);
  }
}
