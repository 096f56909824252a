/** The flat block device the array presents, and the proof that reads of the array agree with it. */
module FlatDevice {
  import opened Bytes
  import opened Layout
  import opened Options
  import opened Raid5Array

  /** Logical block -> last data. */
  type Flat = map<nat, Bytes>

  /** A write replaces exactly its own stripe-sized range of blocks; a disk failure is invisible. */
  ghost function FlatStep(g: Geometry, f: Flat, op: Op): Flat
    requires op.Write? ==> StripeData(g, op.data)
  {
    if op.Write? then f + Range(op.stripe * g.StripeBlocks(), op.data) else f
  }

  function Range(first: nat, data: seq<Bytes>): (f: Flat)
    ensures forall l :: l in f <==> first <= l < first + |data|
    ensures forall l :: l in f ==> f[l] == data[l - first]
  {
    map l: nat {:trigger data[l - first]} | first <= l < first + |data| :: data[l - first]
  }

  /** Initially the device shows the blocks of the stripes that are XOR-consistent. */
  ghost function FlatInit(g: Geometry, a: Array): Flat
    requires WellFormed(g, a)
  {
    map l: nat | l < g.BlockCount() && At(g, l).stripe in KnownInit(g, a) :: Content(g, a, l)
  }

  /** What the disk holding logical block `l` stores for it. */
  function Content(g: Geometry, a: Array, l: nat): Bytes
    requires WellFormed(g, a) && l < g.BlockCount()
  {
    var at := At(g, l);
    a.disks[DataDisk(g.n, at.stripe, at.chunk)][at.stripe][at.offset]
  }

  ghost function FlatRun(g: Geometry, a: Array, ops: seq<Op>): Flat
    requires WellFormed(g, a) && LegalRun(g, a, ops)
  {
    if ops == [] then FlatInit(g, a)
    else FlatStep(g, FlatRun(g, a, ops[..|ops| - 1]), ops[|ops| - 1])
  }

  /** The flat device and the stripes' data are two views of the same blocks. */
  ghost predicate Agree(g: Geometry, f: Flat, known: Known)
  {
    && g.Valid()
    && (forall s :: s in known ==> ChunksOk(g, known[s]) && s < g.stripes)
    && (forall l: nat :: l in f <==> l < g.BlockCount() && At(g, l).stripe in known)
    && (forall l: nat :: l in f ==> f[l] == known[At(g, l).stripe][At(g, l).chunk][At(g, l).offset])
  }

  lemma {:induction false} AgreeWriteAt(g: Geometry, f: Flat, known: Known, op: Op, l: nat)
    requires Agree(g, f, known) && op.Write? && StripeData(g, op.data) && op.stripe < g.stripes
    ensures var f', known' := FlatStep(g, f, op), KnownStep(g, known, op);
            && (l in f' <==> l < g.BlockCount() && At(g, l).stripe in known')
            && (l in f' ==>
                  && ChunksOk(g, known'[At(g, l).stripe])
                  && f'[l] == known'[At(g, l).stripe][At(g, l).chunk][At(g, l).offset])
  {
    AtInStripe(g, l, op.stripe);
    if At(g, l).stripe == op.stripe {
      CutAt(op.data, g.strip, g.n - 1, At(g, l).chunk, At(g, l).offset);
    }
  }

  lemma {:induction false} AgreeWrite(g: Geometry, f: Flat, known: Known, op: Op)
    requires Agree(g, f, known) && op.Write? && StripeData(g, op.data) && op.stripe < g.stripes
    ensures Agree(g, FlatStep(g, f, op), KnownStep(g, known, op))
  {
    var f', known' := FlatStep(g, f, op), KnownStep(g, known, op);
    forall l: nat
      ensures l in f' <==> l < g.BlockCount() && At(g, l).stripe in known'
      ensures l in f' ==> f'[l] == known'[At(g, l).stripe][At(g, l).chunk][At(g, l).offset]
    {
      AgreeWriteAt(g, f, known, op, l);
    }
  }

  lemma {:induction false} AgreeRun(g: Geometry, a: Array, ops: seq<Op>)
    requires WellFormed(g, a) && LegalRun(g, a, ops)
    ensures Agree(g, FlatRun(g, a, ops), KnownRun(g, a, ops))
    decreases |ops|
  {
    if ops != [] {
      var before, op := ops[..|ops| - 1], ops[|ops| - 1];
      AgreeRun(g, a, before);
      if op.Write? {
        AgreeWrite(g, FlatRun(g, a, before), KnownRun(g, a, before), op);
      }
    }
  }

  // ---- read requests ----

  /** A request of `num` blocks that stays inside one strip. */
  ghost predicate InStrip(g: Geometry, off: nat, num: nat)
  {
    g.Valid() && num > 0 && off < g.BlockCount() && At(g, off).offset + num <= g.strip
  }

  /** Disk that holds a logical block. */
  function HomeDisk(g: Geometry, l: nat): nat
    requires g.Valid()
  {
    DataDisk(g.n, At(g, l).stripe, At(g, l).chunk)
  }

  /** The read can be served: healthy array, or the request is for the missing disk. */
  predicate Served(g: Geometry, a: Array, off: nat)
    requires g.Valid() && off < g.BlockCount()
  {
    a.missing.None? || a.missing == Some(HomeDisk(g, off))
  }

  /** What a read request returns: the chunk is located once, and every block of it re-derived. */
  function ReadRequest(g: Geometry, a: Array, off: nat, num: nat): (r: seq<Bytes>)
    requires WellFormed(g, a) && InStrip(g, off, num)
  {
    var at := At(g, off);
    var d := DataDisk(g.n, at.stripe, at.chunk);
    seq(num, i requires 0 <= i < num => Derive(g, a, d, at.stripe, at.offset + i))
  }

  /** Re-deriving one data block of a known stripe. */
  lemma {:induction false} DeliversAt(g: Geometry, a: Array, ops: seq<Op>, at: Coord)
    requires WellFormed(g, a) && LegalRun(g, a, ops) && at.stripe in KnownRun(g, a, ops)
    requires at.chunk < g.n - 1 && at.offset < g.strip
    requires var m := Run(g, a, ops).missing; m.None? || m == Some(DataDisk(g.n, at.stripe, at.chunk))
    ensures at.stripe < g.stripes && ChunksOk(g, KnownRun(g, a, ops)[at.stripe])
    ensures var d := DataDisk(g.n, at.stripe, at.chunk);
            var c := LastFlip(ops, at.stripe);
            var last := KnownRun(g, a, ops)[at.stripe][at.chunk][at.offset];
            Derive(g, Run(g, a, ops), d, at.stripe, at.offset) ==
              if c.Some? && c != Some(d) && at.offset == 0 then FlipLow(last) else last
  {
    CoupledRun(g, a, ops);
    DeriveStored(g, Run(g, a, ops), at.stripe, KnownRun(g, a, ops)[at.stripe], LastFlip(ops, at.stripe),
                 DataDisk(g.n, at.stripe, at.chunk), at.offset);
  }

  /** Re-deriving one logical block. */
  lemma {:induction false} DeliversBlock(g: Geometry, a: Array, ops: seq<Op>, l: nat)
    requires WellFormed(g, a) && LegalRun(g, a, ops) && l in FlatRun(g, a, ops)
    requires var m := Run(g, a, ops).missing; m.None? || m == Some(HomeDisk(g, l))
    ensures l < g.BlockCount()
    ensures var c, last := LastFlip(ops, At(g, l).stripe), FlatRun(g, a, ops)[l];
            && |last| == g.blocklen
            && Derive(g, Run(g, a, ops), HomeDisk(g, l), At(g, l).stripe, At(g, l).offset) ==
                 if c.Some? && c != Some(HomeDisk(g, l)) && At(g, l).offset == 0 then FlipLow(last) else last
  {
    AgreeRun(g, a, ops);
    DeliversAt(g, a, ops, At(g, l));
  }

  /** The blocks of a request lie on one disk, in one strip. */
  lemma {:induction false} ReadRequestAt(g: Geometry, a: Array, off: nat, num: nat, i: nat)
    requires WellFormed(g, a) && InStrip(g, off, num) && i < num
    ensures At(g, off + i).stripe == At(g, off).stripe < g.stripes && At(g, off + i).offset < g.strip
    ensures HomeDisk(g, off + i) == HomeDisk(g, off)
    ensures ReadRequest(g, a, off, num)[i] == Derive(g, a, HomeDisk(g, off), At(g, off).stripe, At(g, off + i).offset)
  {
    AtNext(g, off, i);
  }

  /**
   After any run of writes, with or without bit flips, and at most one disk failure, a read
   delivers for each block the last data written to it, except that the first block of a strip
   comes back with its low bit flipped exactly when the last write of the stripe flipped a bit
   of a chunk on another disk.
   */
  lemma {:induction false} ReadDelivers(g: Geometry, a: Array, ops: seq<Op>, off: nat, num: nat, i: nat)
    requires WellFormed(g, a) && LegalRun(g, a, ops) && InStrip(g, off, num) && i < num
    requires Served(g, Run(g, a, ops), off) && off + i in FlatRun(g, a, ops)
    ensures var c := LastFlip(ops, At(g, off).stripe);
            var last := FlatRun(g, a, ops)[off + i];
            |last| == g.blocklen &&
            ReadRequest(g, Run(g, a, ops), off, num)[i] ==
              if c.Some? && c != Some(HomeDisk(g, off)) && At(g, off + i).offset == 0 then FlipLow(last) else last
  {
    ReadRequestAt(g, Run(g, a, ops), off, num, i);
    DeliversBlock(g, a, ops, off + i);
  }

  /** So a read is exact if and only if no flip hit another disk of the stripe or the block is not first. */
  lemma {:induction false} ReadIsExactIff(g: Geometry, a: Array, ops: seq<Op>, off: nat, num: nat, i: nat)
    requires WellFormed(g, a) && LegalRun(g, a, ops) && InStrip(g, off, num) && i < num
    requires Served(g, Run(g, a, ops), off) && off + i in FlatRun(g, a, ops)
    ensures ReadRequest(g, Run(g, a, ops), off, num)[i] == FlatRun(g, a, ops)[off + i]
       <==> var c := LastFlip(ops, At(g, off).stripe);
            c.None? || c == Some(HomeDisk(g, off)) || At(g, off + i).offset > 0
  {
    ReadDelivers(g, a, ops, off, num, i);
    var last := FlatRun(g, a, ops)[off + i];
    FlipChanges(last);
  }

  lemma {:induction false} FlipChanges(b: Bytes)
    requires |b| > 0
    ensures FlipLow(b) != b
  {
    XorOne(b[0]);
  }

  ghost predicate NoFlips(ops: seq<Op>)
  {
    forall j :: 0 <= j < |ops| && ops[j].Write? ==> ops[j].flipped.None?
  }

  lemma {:induction false} NoLastFlip(ops: seq<Op>, s: nat)
    requires NoFlips(ops)
    ensures LastFlip(ops, s).None?
  {
    if ops != [] {
      NoLastFlip(ops[..|ops| - 1], s);
    }
  }

  /** Without injection the array refines the flat device, healthy or with one disk missing. */
  lemma {:induction false} Refinement(g: Geometry, a: Array, ops: seq<Op>, off: nat, num: nat)
    requires WellFormed(g, a) && LegalRun(g, a, ops) && NoFlips(ops) && InStrip(g, off, num)
    requires Served(g, Run(g, a, ops), off)
    requires forall l :: off <= l < off + num ==> l in FlatRun(g, a, ops)
    ensures forall i :: 0 <= i < num ==>
      ReadRequest(g, Run(g, a, ops), off, num)[i] == FlatRun(g, a, ops)[off + i]
  {
    NoLastFlip(ops, At(g, off).stripe);
    forall i | 0 <= i < num
      ensures ReadRequest(g, Run(g, a, ops), off, num)[i] == FlatRun(g, a, ops)[off + i]
    {
      ReadDelivers(g, a, ops, off, num, i);
    }
  }

  /** A write leaves every block outside its stripe as the disks stored it. */
  lemma {:induction false} WriteIsLocal(g: Geometry, a: Array, op: Op, l: nat)
    requires WellFormed(g, a) && Legal(g, a, op) && op.Write? && l < g.BlockCount()
    requires !(op.stripe * g.StripeBlocks() <= l < op.stripe * g.StripeBlocks() + g.StripeBlocks())
    ensures Content(g, Step(g, a, op), l) == Content(g, a, l)
  {
    AtInStripe(g, l, op.stripe);
  }

  // ---- zeroed disks ----

  function Zeroed(g: Geometry): (a: Array)
    requires g.Valid()
    ensures WellFormed(g, a) && a.missing.None?
    ensures forall d, s, o :: 0 <= d < g.n && 0 <= s < g.stripes && 0 <= o < g.strip ==>
        a.disks[d][s][o] == Zeros(g.blocklen)
  {
    Array(seq(g.n, _ => seq(g.stripes, _ => seq(g.strip, _ => Zeros(g.blocklen)))), None)
  }

  lemma {:induction false} FoldZeros(col: seq<byte>)
    requires forall i :: 0 <= i < |col| ==> col[i] == 0
    ensures Fold(col) == 0
  {
    if col != [] {
      FoldZeros(col[1..]);
      XorZero(0);
    }
  }

  lemma {:induction false} ZeroedIsClean(g: Geometry, s: nat, o: nat)
    requires g.Valid() && s < g.stripes && o < g.strip
    ensures ZeroSum(g, Zeroed(g), s, o)
  {
    var row := Row(g, Zeroed(g), s, o);
    forall j | 0 <= j < g.blocklen
      ensures XorRows(row, g.blocklen)[j] == 0
    {
      FoldZeros(Col(row, j));
    }
  }

  /** An array of zeroed disks shows zeroes in every block, so every read of it is covered by the statements above. */
  lemma {:induction false} ZeroedIsKnown(g: Geometry, l: nat)
    requires g.Valid() && l < g.BlockCount()
    ensures l in FlatInit(g, Zeroed(g)) && FlatInit(g, Zeroed(g))[l] == Zeros(g.blocklen)
  {
    forall o | 0 <= o < g.strip
      ensures ZeroSum(g, Zeroed(g), At(g, l).stripe, o)
    {
      ZeroedIsClean(g, At(g, l).stripe, o);
    }
    assert CleanStripe(g, Zeroed(g), At(g, l).stripe);
    assert At(g, l).stripe in KnownInit(g, Zeroed(g));
  }
}
