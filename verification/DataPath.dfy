/**
 From the caller's memory to stripe images and back: what the iovec mapping and the piecewise XOR
 together hand to the disks, and what they deliver to a reader.
 */
module DataPath {
  import opened Options
  import opened Bytes
  import opened Layout
  import opened Iovecs
  import opened XorChain
  import A = Raid5Array
  import DivMod

  /** The bytes at a list of addresses. */
  function Gather(mem: seq<byte>, addrs: seq<nat>): (r: seq<byte>)
    requires forall p :: 0 <= p < |addrs| ==> addrs[p] < |mem|
    ensures |r| == |addrs| && forall p :: 0 <= p < |r| ==> r[p] == mem[addrs[p]]
  {
    seq(|addrs|, p requires 0 <= p < |addrs| => mem[addrs[p]])
  }

  ghost predicate InMemory(mem: seq<byte>, addrs: seq<nat>)
  {
    forall p :: 0 <= p < |addrs| ==> addrs[p] < |mem|
  }

  /** The bytes of `strip` blocks as blocks. */
  function Blocks(g: Geometry, bytes: seq<byte>): (s: A.Strip)
    requires |bytes| == g.blocklen * g.strip
    ensures A.StripOk(g, s)
  {
    Cut(bytes, g.blocklen, g.strip)
  }

  function StripBytes(g: Geometry): (r: nat)
    requires g.Valid()
    ensures r > 0
  {
    DivMod.MulMono(1, g.strip, g.blocklen);
    g.blocklen * g.strip
  }

  // ---- a stripe image in bytes ----

  /** `chunkBytes` are the data chunks of a stripe; the parity bytes are their XOR. */
  lemma {:induction false} ParityBlocks(g: Geometry, s: nat, chunkBytes: seq<seq<byte>>, parity: seq<byte>)
    requires g.Valid() && |chunkBytes| == g.n - 1
    requires forall k :: 0 <= k < g.n - 1 ==> |chunkBytes[k]| == StripBytes(g)
    requires parity == XorRows(chunkBytes, StripBytes(g))
    ensures var chunks := seq(g.n - 1, k requires 0 <= k < g.n - 1 => Blocks(g, chunkBytes[k]));
            A.ChunksOk(g, chunks) && Blocks(g, parity) == A.StoredStrip(g, s, chunks, None, ParityDisk(g.n, s))
  {
    var chunks := seq(g.n - 1, k requires 0 <= k < g.n - 1 => Blocks(g, chunkBytes[k]));
    forall o | 0 <= o < g.strip
      ensures Blocks(g, parity)[o] == A.StoredStrip(g, s, chunks, None, ParityDisk(g.n, s))[o]
    {
      forall j | 0 <= j < g.blocklen
        ensures Blocks(g, parity)[o][j] == XorRows(A.DataColumn(g, chunks, o), g.blocklen)[j]
      {
        CutAt(parity, g.blocklen, g.strip, o, j);
        forall k | 0 <= k < g.n - 1
          ensures Col(chunkBytes, o * g.blocklen + j)[k] == Col(A.DataColumn(g, chunks, o), j)[k]
        {
          CutAt(chunkBytes[k], g.blocklen, g.strip, o, j);
        }
        assert Col(chunkBytes, o * g.blocklen + j) == Col(A.DataColumn(g, chunks, o), j);
      }
    }
  }

  lemma {:induction false} ChunkByte(
    all: seq<byte>, chunk: seq<byte>, bl: nat, strip: nat, blocks: nat, base: nat, k: nat, o: nat, at: nat, j: nat)
    requires |all| == bl * blocks && o < strip && at < blocks && at == k * strip + o && j < bl
    requires |chunk| == bl * strip && base == k * (bl * strip) && base + |chunk| <= |all|
    requires chunk == all[base..base + |chunk|]
    ensures Cut(chunk, bl, strip)[o][j] == Cut(all, bl, blocks)[at][j]
  {
    CutAt(chunk, bl, strip, o, j);
    CutAt(all, bl, blocks, at, j);
    SameByte(k, strip, o, bl, j);
    var x := o * bl + j;
    assert chunk[x] == all[base + x];
  }

  /** Block `o` of a strip of bytes is one of the blocks of all the bytes. */
  lemma {:induction false} ChunkBlock(
    g: Geometry, all: seq<byte>, blocks: nat, k: nat, chunk: seq<byte>, o: nat, at: nat)
    requires |all| == g.blocklen * blocks && o < g.strip && at < blocks && at == k * g.strip + o
    requires |chunk| == g.blocklen * g.strip && k * |chunk| + |chunk| <= |all|
    requires chunk == all[k * |chunk|..k * |chunk| + |chunk|]
    ensures Cut(chunk, g.blocklen, g.strip)[o] == Cut(all, g.blocklen, blocks)[at]
  {
    var c, a := Cut(chunk, g.blocklen, g.strip)[o], Cut(all, g.blocklen, blocks)[at];
    forall j | 0 <= j < g.blocklen
      ensures c[j] == a[j]
    {
      ChunkByte(all, chunk, g.blocklen, g.strip, blocks, k * |chunk|, k, o, at, j);
    }
  }

  /** Cutting the caller's bytes into strips and each strip into blocks agrees with cutting them into blocks first. */
  lemma {:induction false} ChunkBlocks(g: Geometry, all: seq<byte>, k: nat, chunk: seq<byte>)
    requires g.Valid() && |all| == g.blocklen * g.StripeBlocks() && k < g.n - 1
    requires |chunk| == StripBytes(g) && k * |chunk| + |chunk| <= |all|
    requires chunk == all[k * |chunk|..k * |chunk| + |chunk|]
    ensures A.StripeData(g, Cut(all, g.blocklen, g.StripeBlocks()))
    ensures Blocks(g, chunk) == A.Chunks(g, Cut(all, g.blocklen, g.StripeBlocks()))[k]
  {
    var data := Cut(all, g.blocklen, g.StripeBlocks());
    var c := A.Chunks(g, data)[k];
    forall o | 0 <= o < g.strip
      ensures Blocks(g, chunk)[o] == c[o]
    {
      CutAt(data, g.strip, g.n - 1, k, o);
      ChunkBlock(g, all, g.StripeBlocks(), k, chunk, o, k * g.strip + o);
    }
  }

  lemma {:induction false} SameByte(k: nat, strip: nat, o: nat, bl: nat, j: nat)
    ensures k * (bl * strip) + (o * bl + j) == (k * strip + o) * bl + j
  {
    assert (k * strip + o) * bl == k * strip * bl + o * bl;
    assert k * (bl * strip) == k * strip * bl;
  }

  // ---- preparing a write ----

  /** The bytes of one stripe of data, counted both ways. */
  lemma {:induction false} StripeByteCount(g: Geometry)
    requires g.Valid()
    ensures Start(StripBytes(g), g.n - 1) == g.blocklen * g.StripeBlocks()
  {
    StartIsProduct(StripBytes(g), g.n - 1);
    assert g.blocklen * g.strip * (g.n - 1) == g.blocklen * (g.strip * (g.n - 1));
  }

  /** The caller's memory is addressable and does not overlap the parity buffer. */
  ghost predicate CallerOk(g: Geometry, memLen: nat, raidIovs: seq<Iovec>, parityBuf: nat)
  {
    && g.Valid() && parityBuf + StripBytes(g) <= memLen
    && forall p :: 0 <= p < Total(raidIovs) ==>
         Addrs(raidIovs)[p] < memLen && !(parityBuf <= Addrs(raidIovs)[p] < parityBuf + StripBytes(g))
  }

  /** The blocks the caller writes: the first stripe's worth of its bytes. */
  function CallerData(g: Geometry, mem: seq<byte>, raidIovs: seq<Iovec>): (data: seq<Bytes>)
    requires g.Valid() && g.blocklen * g.StripeBlocks() <= Total(raidIovs) && InMemory(mem, Addrs(raidIovs))
    ensures A.StripeData(g, data)
  {
    Cut(Gather(mem, Addrs(raidIovs)[..g.blocklen * g.StripeBlocks()]), g.blocklen, g.StripeBlocks())
  }

  lemma {:induction false} ListIsStrip(raidIovs: seq<Iovec>, len: nat, lists: seq<seq<Iovec>>, k: nat, from: nat)
    requires Tiles(raidIovs, len, lists) && k < |lists| && from == k * len
    ensures from + len <= Total(raidIovs) && |Addrs(lists[k])| == len
    ensures Addrs(lists[k]) == Addrs(raidIovs)[from..from + len]
  {
    TilesAt(raidIovs, len, lists, k);
    assert len * k == from;
  }

  /** Strip `k` of the caller's bytes sits in the `k`-th list. */
  lemma {:induction false} DataChunk(
    g: Geometry, memLen: nat, raidIovs: seq<Iovec>, parityBuf: nat, lists: seq<seq<Iovec>>, k: nat, len: nat, from: nat)
    requires CallerOk(g, memLen, raidIovs, parityBuf) && Tiles(raidIovs, len, lists) && k < |lists|
    requires len == StripBytes(g) && from == k * len
    ensures from + len <= Total(raidIovs)
    ensures Addrs(lists[k]) == Addrs(raidIovs)[from..from + len] && |Addrs(lists[k])| == len
    ensures forall p :: 0 <= p < len ==>
      Addrs(lists[k])[p] < memLen && !(parityBuf <= Addrs(lists[k])[p] < parityBuf + len)
  {
    ListIsStrip(raidIovs, len, lists, k, from);
    SliceApart(Addrs(raidIovs), Addrs(lists[k]), from, len, memLen, parityBuf);
  }

  lemma {:induction false} SliceApart(addrs: seq<nat>, slice: seq<nat>, from: nat, len: nat, memLen: nat, buf: nat)
    requires from + len <= |addrs| && slice == addrs[from..from + len]
    requires forall p :: 0 <= p < |addrs| ==> addrs[p] < memLen && !(buf <= addrs[p] < buf + len)
    ensures forall p :: 0 <= p < len ==> slice[p] < memLen && !(buf <= slice[p] < buf + len)
  {
  }

  lemma {:induction false} ListsSeparate(
    g: Geometry, memLen: nat, raidIovs: seq<Iovec>, parityBuf: nat, lists: seq<seq<Iovec>>)
    requires CallerOk(g, memLen, raidIovs, parityBuf) && Tiles(raidIovs, StripBytes(g), lists)
    ensures Addrs([Iovec(parityBuf, StripBytes(g))]) == Piece(parityBuf, StripBytes(g))
    ensures Separate(memLen, AddrTable(lists), Piece(parityBuf, StripBytes(g)), StripBytes(g))
  {
    var len := StripBytes(g);
    forall k | 0 <= k < |lists|
      ensures |AddrTable(lists)[k]| == len
      ensures forall p :: 0 <= p < len ==>
        AddrTable(lists)[k][p] < memLen && !(parityBuf <= AddrTable(lists)[k][p] < parityBuf + len)
    {
      DataChunk(g, memLen, raidIovs, parityBuf, lists, k, len, k * len);
    }
  }

  lemma {:induction false} ChunkFits(g: Geometry, k: nat)
    requires g.Valid() && k < g.n - 1
    ensures k * StripBytes(g) + StripBytes(g) <= g.blocklen * g.StripeBlocks()
  {
    StripeByteCount(g);
    StartIsProduct(StripBytes(g), g.n - 1);
    DivMod.MulMono(k + 1, g.n - 1, StripBytes(g));
    DivMod.MulStep(StripBytes(g), k + 1);
  }

  /** Writing to the parity buffer leaves the data chunks alone. */
  lemma {:induction false} DataChunkSame(
    g: Geometry, was: seq<byte>, now: seq<byte>, raidIovs: seq<Iovec>, parityBuf: nat, lists: seq<seq<Iovec>>, k: nat)
    requires |was| == |now| && CallerOk(g, |was|, raidIovs, parityBuf) && Tiles(raidIovs, StripBytes(g), lists)
    requires k < |lists| && Outside(now, was, Piece(parityBuf, StripBytes(g)))
    ensures InMemory(now, Addrs(lists[k])) && |Addrs(lists[k])| == StripBytes(g)
    ensures Gather(now, Addrs(lists[k])) == Gather(was, Addrs(lists[k]))
  {
    DataChunk(g, |was|, raidIovs, parityBuf, lists, k, StripBytes(g), k * StripBytes(g));
    forall p | 0 <= p < StripBytes(g) ensures now[Addrs(lists[k])[p]] == was[Addrs(lists[k])[p]] {
      assert Addrs(lists[k])[p] !in Piece(parityBuf, StripBytes(g));
    }
  }

  lemma {:induction false} ReadyAt(
    g: Geometry, mem: seq<byte>, raidIovs: seq<Iovec>, parityBuf: nat, lists: seq<seq<Iovec>>, k: nat,
    len: nat, from: nat, size: nat)
    requires CallerOk(g, |mem|, raidIovs, parityBuf) && Tiles(raidIovs, len, lists)
    requires |lists| == g.n - 1 && k < g.n - 1 && size <= Total(raidIovs)
    requires len == StripBytes(g) && from == k * len && size == g.blocklen * g.StripeBlocks()
    ensures InMemory(mem, Addrs(lists[k])) && |Addrs(lists[k])| == len
    ensures Blocks(g, Gather(mem, Addrs(lists[k]))) == A.Chunks(g, CallerData(g, mem, raidIovs))[k]
  {
    DataChunk(g, |mem|, raidIovs, parityBuf, lists, k, len, from);
    ChunkFits(g, k);
    GatherSlice(mem, Addrs(raidIovs), size, from, len);
    ChunkBlocks(g, Gather(mem, Addrs(raidIovs)[..size]), k, Gather(mem, Addrs(lists[k])));
  }

  /** The data chunks hold the caller's blocks. */
  lemma {:induction false} DataChunkReady(
    g: Geometry, mem: seq<byte>, raidIovs: seq<Iovec>, parityBuf: nat, lists: seq<seq<Iovec>>, k: nat)
    requires CallerOk(g, |mem|, raidIovs, parityBuf) && Tiles(raidIovs, StripBytes(g), lists)
    requires |lists| == g.n - 1 && k < g.n - 1 && g.blocklen * g.StripeBlocks() <= Total(raidIovs)
    ensures InMemory(mem, Addrs(lists[k])) && |Addrs(lists[k])| == StripBytes(g)
    ensures Blocks(g, Gather(mem, Addrs(lists[k]))) == A.Chunks(g, CallerData(g, mem, raidIovs))[k]
  {
    ReadyAt(g, mem, raidIovs, parityBuf, lists, k, StripBytes(g), k * StripBytes(g), g.blocklen * g.StripeBlocks());
  }

  lemma {:induction false} GatherSlice(mem: seq<byte>, addrs: seq<nat>, size: nat, from: nat, len: nat)
    requires InMemory(mem, addrs) && size <= |addrs| && from + len <= size
    ensures Gather(mem, addrs[from..from + len]) == Gather(mem, addrs[..size])[from..from + len]
  {
  }

  /** The parity buffer holds the parity strip once the XOR of the data chunks is in it. */
  lemma {:induction false} ParityReady(
    g: Geometry, s: nat, was: seq<byte>, now: seq<byte>, raidIovs: seq<Iovec>, parityBuf: nat, lists: seq<seq<Iovec>>)
    requires |was| == |now| && CallerOk(g, |was|, raidIovs, parityBuf) && Tiles(raidIovs, StripBytes(g), lists)
    requires |lists| == g.n - 1 && g.blocklen * g.StripeBlocks() <= Total(raidIovs)
    requires Separate(|was|, AddrTable(lists), Piece(parityBuf, StripBytes(g)), StripBytes(g))
    requires Xored(now, was, AddrTable(lists), Piece(parityBuf, StripBytes(g)), StripBytes(g))
    ensures InMemory(was, Addrs(raidIovs))
    ensures Blocks(g, Gather(now, Piece(parityBuf, StripBytes(g))))
         == A.StoredStrip(g, s, A.Chunks(g, CallerData(g, was, raidIovs)), None, ParityDisk(g.n, s))
  {
    var parity := Gather(now, Piece(parityBuf, StripBytes(g)));
    var table := AddrTable(lists);
    var chunkBytes := seq(g.n - 1, k requires 0 <= k < g.n - 1 => Gather(was, table[k]));
    forall p | 0 <= p < StripBytes(g) ensures parity[p] == XorRows(chunkBytes, StripBytes(g))[p] {
      assert parity[p] == SourceXor(was, table, p);
      assert ColumnAt(was, Pointers(table, p), 0) == Col(chunkBytes, p);
    }
    ParityBlocks(g, s, chunkBytes, parity);
    var chunks := seq(g.n - 1, k requires 0 <= k < g.n - 1 => Blocks(g, chunkBytes[k]));
    forall k | 0 <= k < g.n - 1 ensures chunks[k] == A.Chunks(g, CallerData(g, was, raidIovs))[k] {
      DataChunkReady(g, was, raidIovs, parityBuf, lists, k);
    }
    assert chunks == A.Chunks(g, CallerData(g, was, raidIovs));
  }

  // ---- submitting a write ----

  datatype Prepared = Rejected(ret: Ret) | ParityFailed | ReadyToSubmit

  /** The list of every disk's chunk holds what the write must put on that disk; parity only if it was computed. */
  ghost predicate ImageReady(
    g: Geometry, s: nat, mem: seq<byte>, iovs: seq<seq<Iovec>>, data: seq<Bytes>, withParity: bool)
  {
    && A.StripeData(g, data) && |iovs| == g.n
    && forall d :: 0 <= d < g.n && (d != ParityDisk(g.n, s) || withParity) ==>
         DiskReady(g, s, mem, iovs[d], data, d)
  }

  ghost predicate DiskReady(g: Geometry, s: nat, mem: seq<byte>, list: seq<Iovec>, data: seq<Bytes>, d: nat)
    requires A.StripeData(g, data) && d < g.n
  {
    && InMemory(mem, Addrs(list)) && |Addrs(list)| == StripBytes(g)
    && Blocks(g, Gather(mem, Addrs(list))) == A.StoredStrip(g, s, A.Chunks(g, data), None, d)
  }

  lemma {:induction false} ImageIsReady(
    g: Geometry, s: nat, was: seq<byte>, now: seq<byte>, raidIovs: seq<Iovec>, parityBuf: nat,
    iovs: seq<seq<Iovec>>, lists: seq<seq<Iovec>>, withParity: bool)
    requires |was| == |now| && CallerOk(g, |was|, raidIovs, parityBuf) && Tiles(raidIovs, StripBytes(g), lists)
    requires |lists| == g.n - 1 && |iovs| == g.n && g.blocklen * g.StripeBlocks() <= Total(raidIovs)
    requires forall k :: 0 <= k < g.n - 1 ==> lists[k] == iovs[DataDisk(g.n, s, k)]
    requires iovs[ParityDisk(g.n, s)] == [Iovec(parityBuf, StripBytes(g))]
    requires Separate(|was|, AddrTable(lists), Piece(parityBuf, StripBytes(g)), StripBytes(g))
    requires Outside(now, was, Piece(parityBuf, StripBytes(g)))
    requires withParity ==> Xored(now, was, AddrTable(lists), Piece(parityBuf, StripBytes(g)), StripBytes(g))
    ensures InMemory(was, Addrs(raidIovs))
    ensures ImageReady(g, s, now, iovs, CallerData(g, was, raidIovs), withParity)
  {
    var data := CallerData(g, was, raidIovs);
    forall d | 0 <= d < g.n && (d != ParityDisk(g.n, s) || withParity)
      ensures DiskReady(g, s, now, iovs[d], data, d)
    {
      if d == ParityDisk(g.n, s) {
        ListsSeparate(g, |was|, raidIovs, parityBuf, lists);
        ParityReady(g, s, was, now, raidIovs, parityBuf, lists);
      } else {
        var k := ChunkOf(g.n, s, d);
        DataChunkSame(g, was, now, raidIovs, parityBuf, lists, k);
        DataChunkReady(g, was, raidIovs, parityBuf, lists, k);
        DataStored(g, s, A.Chunks(g, data), d);
      }
    }
  }

  lemma {:induction false} DataStored(g: Geometry, s: nat, chunks: seq<A.Strip>, d: nat)
    requires A.ChunksOk(g, chunks) && d < g.n && d != ParityDisk(g.n, s)
    ensures A.StoredStrip(g, s, chunks, None, d) == chunks[ChunkOf(g.n, s, d)]
  {
  }

  /**
   raid5f_submit_write_request up to the first chunk submission: on success every disk's chunk
   holds its part of the stripe image, and the caller's memory is as it was. The array's parity
   disk may be missing, and then nothing is XOR-ed.
   */
  method PrepareWrite(
    g: Geometry, s: nat, mem: array<byte>, raidIovs: seq<Iovec>, parityBuf: nat, chunks: StripeChunks,
    parityPresent: bool, alloc: seq<bool>, first: bool, answers: nat -> Answer)
    returns (r: Prepared, segments: nat)
    requires CallerOk(g, mem.Length, raidIovs, parityBuf) && chunks.Valid() && chunks.n == g.n && |alloc| == g.n
    requires forall c :: 0 <= c < g.n ==> chunks.room[c] >= 1
    modifies mem, chunks.iovs, chunks.room
    ensures chunks.Valid()
    ensures r == Rejected(Inval) ==> Total(raidIovs) < g.blocklen * g.StripeBlocks()
    ensures r == Rejected(NoMem) ==> exists c :: 0 <= c < g.n && !alloc[c]
    ensures r != Rejected(Ok)
    ensures r.ParityFailed? ==>
      && parityPresent && segments <= StripBytes(g)
      && (AnyFailed(answers, segments) || !Accepted(first, answers, segments))
    ensures r.ReadyToSubmit? && parityPresent ==> segments <= StripBytes(g) && !AnyFailed(answers, segments)
    ensures AllAccepted(first, answers, segments)
    ensures !r.Rejected? ==> g.blocklen * g.StripeBlocks() <= Total(raidIovs)
    ensures r.ReadyToSubmit? ==>
      ImageReady(g, s, mem[..], chunks.iovs[..], CallerData(g, old(mem[..]), raidIovs), parityPresent)
    ensures Outside(mem[..], old(mem[..]), Piece(parityBuf, StripBytes(g)))
  {
    ghost var was := mem[..];
    var parity := ParityDisk(g.n, s);
    StripeByteCount(g);
    var ret := chunks.MapIovecs(raidIovs, parity, StripBytes(g), parityBuf, alloc);
    segments := 0;
    if ret != Ok {
      return Rejected(ret), segments;
    }
    var lists := seq(g.n - 1, k requires 0 <= k < g.n - 1 reads chunks, chunks.iovs =>
        chunks.iovs[DataDisk(g.n, s, k)]);
    assert lists == chunks.DataLists(parity, g.n - 1);
    ListsSeparate(g, mem.Length, raidIovs, parityBuf, lists);
    if parityPresent {
      var job;
      job, segments := XorStripe(mem, lists, chunks.iovs[parity], StripBytes(g), first, answers);
      if job.failed {
        return ParityFailed, segments;
      }
    }
    ImageIsReady(g, s, was, mem[..], raidIovs, parityBuf, chunks.iovs[..], lists, parityPresent);
    r := ReadyToSubmit;
  }

  // ---- delivering a reconstruct read ----

  /** The buffers of the other disks hold `num` blocks from offset `o` of stripe `s`. */
  ghost predicate BuffersRead(
    g: Geometry, a: A.Array, d: nat, s: nat, o: nat, num: nat, mem: seq<byte>, table: seq<seq<nat>>)
    requires A.WellFormed(g, a) && s < g.stripes && d < g.n && o + num <= g.strip
  {
    && |table| == g.n - 1
    && forall i :: 0 <= i < g.n - 1 ==>
         var e := if i < d then i else i + 1;
         && InMemory(mem, table[i]) && |table[i]| == g.blocklen * num
         && Cut(Gather(mem, table[i]), g.blocklen, num) == a.disks[e][s][o..o + num]
  }

  /** The XOR of those buffers, cut into blocks, is what the array model delivers. */
  lemma {:induction false} ReconstructDelivers(
    g: Geometry, a: A.Array, d: nat, s: nat, o: nat, num: nat, was: seq<byte>, now: seq<byte>,
    table: seq<seq<nat>>, dst: seq<nat>)
    requires A.WellFormed(g, a) && s < g.stripes && d < g.n && o + num <= g.strip
    requires BuffersRead(g, a, d, s, o, num, was, table)
    requires |was| == |now| && |dst| == g.blocklen * num && Separate(|was|, table, dst, |dst|)
    requires Xored(now, was, table, dst, |dst|)
    ensures forall i :: 0 <= i < num ==>
      Cut(Gather(now, dst), g.blocklen, num)[i] == A.Derive(g, a, d, s, o + i)
  {
    var got := Gather(now, dst);
    forall i | 0 <= i < num
      ensures Cut(got, g.blocklen, num)[i] == A.Derive(g, a, d, s, o + i)
    {
      var rows := Without(A.Row(g, a, s, o + i), d);
      forall j | 0 <= j < g.blocklen
        ensures Cut(got, g.blocklen, num)[i][j] == XorRows(rows, g.blocklen)[j]
      {
        CutAt(got, g.blocklen, num, i, j);
        var p := i * g.blocklen + j;
        assert got[p] == SourceXor(was, table, p);
        forall k | 0 <= k < g.n - 1
          ensures ColumnAt(was, Pointers(table, p), 0)[k] == Col(rows, j)[k]
        {
          CutAt(Gather(was, table[k]), g.blocklen, num, i, j);
        }
        assert ColumnAt(was, Pointers(table, p), 0) == Col(rows, j);
      }
    }
  }
}
