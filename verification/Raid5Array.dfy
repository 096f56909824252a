/**
 The RAID5F array as a state machine over its disks, and its refinement of a flat block device.
 A read is delivered as the XOR of the other n-1 disks, in a healthy array as well as in a
 degraded one, so the coupling invariant is about whole stripes.
 A disk is a sequence of strips, one a stripe; block `p` of its data region is block `p % strip`
 of strip `p / strip` (module Layout).
 */
module Raid5Array {
  import opened Bytes
  import opened Layout
  import opened Options

  type Strip = seq<Bytes>

  datatype Array = Array(disks: seq<seq<Strip>>, missing: Option<nat>)

  predicate Present(a: Array, d: nat)
  {
    a.missing != Some(d)
  }

  ghost predicate StripOk(g: Geometry, s: Strip)
  {
    |s| == g.strip && forall o :: 0 <= o < g.strip ==> |s[o]| == g.blocklen
  }

  ghost predicate WellFormed(g: Geometry, a: Array)
  {
    && g.Valid()
    && |a.disks| == g.n
    && (a.missing.Some? ==> a.missing.value < g.n)
    && (forall d :: 0 <= d < g.n ==> |a.disks[d]| == g.stripes)
    && (forall d, s :: 0 <= d < g.n && 0 <= s < g.stripes ==> StripOk(g, a.disks[d][s]))
  }

  /** Block `o` of stripe `s` on every disk. */
  function Row(g: Geometry, a: Array, s: nat, o: nat): (row: seq<Bytes>)
    requires WellFormed(g, a) && s < g.stripes && o < g.strip
    ensures |row| == g.n
    ensures forall d :: 0 <= d < g.n ==> row[d] == a.disks[d][s][o] && |row[d]| == g.blocklen
  {
    seq(g.n, d requires 0 <= d < g.n => a.disks[d][s][o])
  }

  /** What a reconstruct read of that block of disk `d` delivers. */
  function Derive(g: Geometry, a: Array, d: nat, s: nat, o: nat): (b: Bytes)
    requires WellFormed(g, a) && s < g.stripes && o < g.strip && d < g.n
    ensures |b| == g.blocklen
  {
    XorRows(Without(Row(g, a, s, o), d), g.blocklen)
  }

  ghost predicate ZeroSum(g: Geometry, a: Array, s: nat, o: nat)
    requires WellFormed(g, a) && s < g.stripes && o < g.strip
  {
    XorRows(Row(g, a, s, o), g.blocklen) == Zeros(g.blocklen)
  }

  // ---- full-stripe writes ----

  /** The data chunks of one stripe, in ascending disk order. */
  ghost predicate ChunksOk(g: Geometry, chunks: seq<Strip>)
  {
    g.Valid() && |chunks| == g.n - 1 && forall k :: 0 <= k < g.n - 1 ==> StripOk(g, chunks[k])
  }

  /** Offset `o` of all data chunks. */
  function DataColumn(g: Geometry, chunks: seq<Strip>, o: nat): (col: seq<Bytes>)
    requires ChunksOk(g, chunks) && o < g.strip
    ensures |col| == g.n - 1
    ensures forall k :: 0 <= k < g.n - 1 ==> col[k] == chunks[k][o] && |col[k]| == g.blocklen
  {
    seq(g.n - 1, k requires 0 <= k < g.n - 1 => chunks[k][o])
  }

  /** What a write leaves at offset `o` of its stripe on disk `d`: data, or the XOR of the data. */
  function ImageBlock(g: Geometry, s: nat, chunks: seq<Strip>, d: nat, o: nat): (b: Bytes)
    requires ChunksOk(g, chunks) && d < g.n && o < g.strip
    ensures |b| == g.blocklen
  {
    if d == ParityDisk(g.n, s) then XorRows(DataColumn(g, chunks, o), g.blocklen)
    else chunks[ChunkOf(g.n, s, d)][o]
  }

  function ImageRow(g: Geometry, s: nat, chunks: seq<Strip>, o: nat): (row: seq<Bytes>)
    requires ChunksOk(g, chunks) && o < g.strip
    ensures |row| == g.n
    ensures forall d :: 0 <= d < g.n ==> row[d] == ImageBlock(g, s, chunks, d, o) && |row[d]| == g.blocklen
  {
    seq(g.n, d requires 0 <= d < g.n => ImageBlock(g, s, chunks, d, o))
  }

  lemma {:induction false} ImageIsZeroSum(g: Geometry, s: nat, chunks: seq<Strip>, o: nat)
    requires ChunksOk(g, chunks) && o < g.strip
    ensures XorRows(ImageRow(g, s, chunks, o), g.blocklen) == Zeros(g.blocklen)
  {
    var row, p := ImageRow(g, s, chunks, o), ParityDisk(g.n, s);
    forall k | 0 <= k < g.n - 1
      ensures Without(row, p)[k] == DataColumn(g, chunks, o)[k]
    {
      var d := DataDisk(g.n, s, k);
      assert ChunkOf(g.n, s, d) == k;
    }
    assert Without(row, p) == DataColumn(g, chunks, o);
    ZeroSumOfDerived(row, p, g.blocklen);
  }

  /** The deliberate bit flip: low bit of the first byte. */
  function FlipLow(b: Bytes): (r: Bytes)
    requires |b| > 0
    ensures |r| == |b| && r[0] == Xor(b[0], 1) && forall j :: 1 <= j < |b| ==> r[j] == b[j]
  {
    b[0 := Xor(b[0], 1)]
  }

  /** Block handed to disk `d`, given the disk whose chunk was flipped before submission, if any. */
  function StoredBlock(g: Geometry, s: nat, chunks: seq<Strip>, flipped: Option<nat>, d: nat, o: nat): (b: Bytes)
    requires ChunksOk(g, chunks) && d < g.n && o < g.strip
    ensures |b| == g.blocklen
  {
    var b := ImageBlock(g, s, chunks, d, o);
    if flipped == Some(d) && o == 0 then FlipLow(b) else b
  }

  function StoredStrip(g: Geometry, s: nat, chunks: seq<Strip>, flipped: Option<nat>, d: nat): (strip: Strip)
    requires ChunksOk(g, chunks) && d < g.n
    ensures StripOk(g, strip)
    ensures forall o :: 0 <= o < g.strip ==> strip[o] == StoredBlock(g, s, chunks, flipped, d, o)
  {
    seq(g.strip, o requires 0 <= o < g.strip => StoredBlock(g, s, chunks, flipped, d, o))
  }

  /** All present disks take their chunk; the missing one keeps its stale contents. */
  function WriteStripe(g: Geometry, a: Array, s: nat, chunks: seq<Strip>, flipped: Option<nat>): (a': Array)
    requires WellFormed(g, a) && ChunksOk(g, chunks) && s < g.stripes
    ensures WellFormed(g, a') && a'.missing == a.missing
    ensures forall d, t :: 0 <= d < g.n && 0 <= t < g.stripes ==>
      a'.disks[d][t] == if t == s && Present(a, d) then StoredStrip(g, s, chunks, flipped, d) else a.disks[d][t]
  {
    a.(disks := seq(g.n, d requires 0 <= d < g.n =>
      if Present(a, d) then a.disks[d][s := StoredStrip(g, s, chunks, flipped, d)] else a.disks[d]))
  }

  // ---- runs ----

  datatype Op =
    | Write(stripe: nat, data: seq<Bytes>, flipped: Option<nat>)
    | Fail(disk: nat)

  /** A write fills one stripe of the array and flips at most a disk it submits to; one disk may fail. */
  ghost predicate Legal(g: Geometry, a: Array, op: Op)
  {
    match op
    case Write(s, data, flipped) =>
      && StripeData(g, data) && s < g.stripes
      && (flipped.Some? ==> flipped.value < g.n && Present(a, flipped.value))
    case Fail(disk) => a.missing.None? && disk < g.n
  }

  /** The caller's blocks of a full-stripe write. */
  ghost predicate StripeData(g: Geometry, data: seq<Bytes>)
  {
    g.Valid() && |data| == g.StripeBlocks() && forall i :: 0 <= i < |data| ==> |data[i]| == g.blocklen
  }

  function Chunks(g: Geometry, data: seq<Bytes>): (chunks: seq<Strip>)
    requires StripeData(g, data)
    ensures ChunksOk(g, chunks)
  {
    var chunks := Cut(data, g.strip, g.n - 1);
    assert forall k, o :: 0 <= k < g.n - 1 && 0 <= o < g.strip ==> chunks[k][o] in data;
    chunks
  }

  function Step(g: Geometry, a: Array, op: Op): (a': Array)
    requires WellFormed(g, a) && Legal(g, a, op)
    ensures WellFormed(g, a')
  {
    match op
    case Write(s, data, flipped) => WriteStripe(g, a, s, Chunks(g, data), flipped)
    case Fail(disk) => a.(missing := Some(disk))
  }

  ghost predicate LegalRun(g: Geometry, a: Array, ops: seq<Op>)
    requires WellFormed(g, a)
    decreases |ops|, 0
  {
    ops == [] ||
    (var before := ops[..|ops| - 1];
     LegalRun(g, a, before) && Legal(g, Run(g, a, before), ops[|ops| - 1]))
  }

  ghost function Run(g: Geometry, a: Array, ops: seq<Op>): (a': Array)
    requires WellFormed(g, a) && LegalRun(g, a, ops)
    ensures WellFormed(g, a')
    decreases |ops|, 1
  {
    if ops == [] then a
    else Step(g, Run(g, a, ops[..|ops| - 1]), ops[|ops| - 1])
  }

  /** The disk flipped by the last write to a stripe. */
  function LastFlip(ops: seq<Op>, s: nat): Option<nat>
  {
    if ops == [] then None
    else
      var op := ops[|ops| - 1];
      if op.Write? && op.stripe == s then op.flipped else LastFlip(ops[..|ops| - 1], s)
  }

  // ---- coupling invariant: the known stripes and their data ----

  /** Stripe -> its data chunks, for stripes that were consistent at the start or written since. */
  type Known = map<nat, seq<Strip>>

  /** A stripe whose every row sums to zero, as on disks full of zeroes. */
  ghost predicate CleanStripe(g: Geometry, a: Array, s: nat)
    requires WellFormed(g, a) && s < g.stripes
  {
    forall o :: 0 <= o < g.strip ==> ZeroSum(g, a, s, o)
  }

  /** The data chunks as the disks store them. */
  function DiskChunks(g: Geometry, a: Array, s: nat): (chunks: seq<Strip>)
    requires WellFormed(g, a) && s < g.stripes
    ensures ChunksOk(g, chunks)
  {
    seq(g.n - 1, k requires 0 <= k < g.n - 1 => a.disks[DataDisk(g.n, s, k)][s])
  }

  ghost function KnownInit(g: Geometry, a: Array): Known
    requires WellFormed(g, a)
  {
    map s | 0 <= s < g.stripes && CleanStripe(g, a, s) :: DiskChunks(g, a, s)
  }

  ghost function KnownStep(g: Geometry, known: Known, op: Op): Known
    requires op.Write? ==> StripeData(g, op.data)
  {
    if op.Write? then known[op.stripe := Chunks(g, op.data)] else known
  }

  ghost function KnownRun(g: Geometry, a: Array, ops: seq<Op>): Known
    requires WellFormed(g, a) && LegalRun(g, a, ops)
  {
    if ops == [] then KnownInit(g, a)
    else KnownStep(g, KnownRun(g, a, ops[..|ops| - 1]), ops[|ops| - 1])
  }

  /** Every present disk stores what a write of `chunks` puts there. */
  ghost predicate Stores(g: Geometry, a: Array, s: nat, chunks: seq<Strip>, flipped: Option<nat>)
    requires WellFormed(g, a) && s < g.stripes
  {
    && ChunksOk(g, chunks)
    && (flipped.Some? ==> flipped.value < g.n)
    && forall d :: 0 <= d < g.n && Present(a, d) ==> a.disks[d][s] == StoredStrip(g, s, chunks, flipped, d)
  }

  ghost predicate Coupled(g: Geometry, a: Array, known: Known, ops: seq<Op>)
    requires WellFormed(g, a)
  {
    forall s :: s in known ==> s < g.stripes && Stores(g, a, s, known[s], LastFlip(ops, s))
  }

  lemma {:induction false} CleanRow(g: Geometry, a: Array, s: nat, o: nat)
    requires WellFormed(g, a) && s < g.stripes && o < g.strip && ZeroSum(g, a, s, o)
    ensures Row(g, a, s, o) == ImageRow(g, s, DiskChunks(g, a, s), o)
  {
    var parity := ParityDisk(g.n, s);
    var row, img := Row(g, a, s, o), ImageRow(g, s, DiskChunks(g, a, s), o);
    ImageIsZeroSum(g, s, DiskChunks(g, a, s), o);
    RederiveZeroSum(row, parity, g.blocklen);
    RederiveZeroSum(img, parity, g.blocklen);
    assert Without(row, parity) == Without(img, parity);
  }

  /** A stripe that sums to zero stores what a write of its own data chunks would store. */
  lemma {:induction false} CleanIsStored(g: Geometry, a: Array, s: nat)
    requires WellFormed(g, a) && s < g.stripes && CleanStripe(g, a, s)
    ensures Stores(g, a, s, DiskChunks(g, a, s), None)
  {
    var chunks := DiskChunks(g, a, s);
    forall d, o | 0 <= d < g.n && 0 <= o < g.strip
      ensures a.disks[d][s][o] == ImageBlock(g, s, chunks, d, o)
    {
      CleanRow(g, a, s, o);
      assert Row(g, a, s, o)[d] == ImageRow(g, s, chunks, o)[d];
    }
    forall d | 0 <= d < g.n
      ensures a.disks[d][s] == StoredStrip(g, s, chunks, None, d)
    {
      assert forall o :: 0 <= o < g.strip ==> a.disks[d][s][o] == StoredStrip(g, s, chunks, None, d)[o];
    }
  }

  lemma {:induction false} CoupledRun(g: Geometry, a: Array, ops: seq<Op>)
    requires WellFormed(g, a) && LegalRun(g, a, ops)
    ensures Coupled(g, Run(g, a, ops), KnownRun(g, a, ops), ops)
    decreases |ops|
  {
    if ops == [] {
      forall s | s in KnownInit(g, a)
        ensures Stores(g, a, s, KnownInit(g, a)[s], None)
      {
        CleanIsStored(g, a, s);
      }
    } else {
      CoupledRun(g, a, ops[..|ops| - 1]);
    }
  }

  // ---- reads ----

  /** Flipping one row flips the XOR of all rows. */
  lemma {:induction false} FlipOne(s: seq<Bytes>, r: seq<Bytes>, e: nat, len: nat)
    requires e < |s| && len > 0 && Rows(s, len) && |s[e]| == len && r == s[e := FlipLow(s[e])]
    ensures XorRows(r, len) == FlipLow(XorRows(s, len))
  {
    forall j | 0 <= j < len
      ensures XorRows(r, len)[j] == FlipLow(XorRows(s, len))[j]
    {
      var x: byte := if j == 0 then 1 else 0;
      XorZero(Col(s, j)[e]);
      XorZero(Fold(Col(s, j)));
      assert Without(Col(r, j), e) == Without(Col(s, j), e);
      FoldShift(Col(r, j), Col(s, j), e, x);
    }
  }

  /** Where the flipped row is among the others. */
  lemma {:induction false} WithoutOne(img: seq<Bytes>, row: seq<Bytes>, c: nat, d: nat) returns (e: nat)
    requires |img| == |row| && d < |img| && c < |img| && c != d && |img[c]| > 0
    requires forall e :: 0 <= e < |img| && e != d ==> row[e] == if c == e then FlipLow(img[e]) else img[e]
    ensures e < |img| - 1 && Without(img, d)[e] == img[c]
    ensures Without(row, d) == Without(img, d)[e := FlipLow(Without(img, d)[e])]
  {
    e := if c < d then c else c - 1;
  }

  /** Re-deriving row `d` of an image whose row `c` was flipped. */
  lemma {:induction false} DeriveRow(img: seq<Bytes>, row: seq<Bytes>, c: Option<nat>, d: nat, len: nat)
    requires |img| == |row| && d < |img| && len > 0 && (c.Some? ==> c.value < |img|)
    requires forall e :: 0 <= e < |img| ==> |img[e]| == len
    requires XorRows(img, len) == Zeros(len)
    requires forall e :: 0 <= e < |img| && e != d ==> row[e] == if c == Some(e) then FlipLow(img[e]) else img[e]
    ensures Rows(Without(row, d), len)
    ensures XorRows(Without(row, d), len) == if c.Some? && c != Some(d) then FlipLow(img[d]) else img[d]
  {
    RederiveZeroSum(img, d, len);
    if c.Some? && c != Some(d) {
      var e := WithoutOne(img, row, c.value, d);
      FlipOne(Without(img, d), Without(row, d), e, len);
    } else {
      assert Without(row, d) == Without(img, d);
    }
  }

  /** Re-deriving a block of a stored stripe: exact unless another disk's copy was flipped. */
  lemma {:induction false} DeriveStored(
    g: Geometry, a: Array, s: nat, chunks: seq<Strip>, flipped: Option<nat>, d: nat, o: nat)
    requires WellFormed(g, a) && s < g.stripes && Stores(g, a, s, chunks, flipped)
    requires d < g.n && o < g.strip && (a.missing.None? || a.missing == Some(d))
    ensures Derive(g, a, d, s, o) ==
      (var b := ImageBlock(g, s, chunks, d, o);
       if flipped.Some? && flipped != Some(d) && o == 0 then FlipLow(b) else b)
  {
    var row, img := Row(g, a, s, o), ImageRow(g, s, chunks, o);
    ImageIsZeroSum(g, s, chunks, o);
    forall e | 0 <= e < g.n && e != d
      ensures row[e] == StoredBlock(g, s, chunks, flipped, e, o)
    {
      assert Present(a, e);
    }
    DeriveRow(img, row, if o == 0 then flipped else None, d, g.blocklen);
  }

  /**
   The fault-injection statement on the disks: after a flipped write to a healthy array, what is
   stored on any disk and what the others re-derive differ in exactly the low bit of the first
   byte of the strip, and re-deriving the flipped chunk gives the submitted data.
   */
  lemma {:induction false} Injection(g: Geometry, a: Array, s: nat, chunks: seq<Strip>, c: nat, d: nat, o: nat)
    requires WellFormed(g, a) && a.missing.None? && ChunksOk(g, chunks) && s < g.stripes
    requires c < g.n && d < g.n && o < g.strip
    ensures var a' := WriteStripe(g, a, s, chunks, Some(c));
            && Derive(g, a', d, s, o) == (if o == 0 then FlipLow(a'.disks[d][s][o]) else a'.disks[d][s][o])
            && Derive(g, a', c, s, o) == ImageBlock(g, s, chunks, c, o)
  {
    var a' := WriteStripe(g, a, s, chunks, Some(c));
    assert Stores(g, a', s, chunks, Some(c));
    DeriveStored(g, a', s, chunks, Some(c), d, o);
    DeriveStored(g, a', s, chunks, Some(c), c, o);
    var b := ImageBlock(g, s, chunks, c, o);
    assert FlipLow(FlipLow(b)) == b by {
      XorTwice(b[0], 1);
    }
  }

  /** A healthy array keeps every known stripe XOR-consistent as long as no bit is flipped. */
  lemma {:induction false} StaysZeroSum(g: Geometry, a: Array, ops: seq<Op>, s: nat, o: nat)
    requires WellFormed(g, a) && LegalRun(g, a, ops) && s in KnownRun(g, a, ops) && o < g.strip
    requires Run(g, a, ops).missing.None? && LastFlip(ops, s).None?
    ensures s < g.stripes && ZeroSum(g, Run(g, a, ops), s, o)
  {
    CoupledRun(g, a, ops);
    var chunks := KnownRun(g, a, ops)[s];
    ImageIsZeroSum(g, s, chunks, o);
    assert Row(g, Run(g, a, ops), s, o) == ImageRow(g, s, chunks, o);
  }
}
