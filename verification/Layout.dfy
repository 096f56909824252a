/** Nonlinear facts about quotients and remainders. */
module DivMod {

  /** An unsigned quotient. */
  function Div(a: nat, m: nat): (q: nat)
    requires m > 0
    ensures q == a / m
  {
    a / m
  }

  lemma {:induction false} Compose(q: nat, r: nat, m: nat)
    requires r < m
    ensures (q * m + r) / m == q && (q * m + r) % m == r
  {
    Unique(q * m + r, m, q, r);
  }

  lemma {:induction false} Unique(a: nat, m: nat, q: nat, r: nat)
    requires a == q * m + r && r < m
    ensures a / m == q && a % m == r
  {
    var q', r' := a / m, a % m;
    assert a == q' * m + r';
    if q < q' {
      assert (q + 1) * m <= q' * m by { MulMono(q + 1, q', m); }
    } else if q' < q {
      assert (q' + 1) * m <= q * m by { MulMono(q' + 1, q, m); }
    }
  }

  lemma {:induction false} MulMono(a: nat, b: nat, m: nat)
    requires a <= b
    ensures a * m <= b * m && m * a <= m * b
  {
  }

  lemma {:induction false} MulStep(m: nat, k: nat)
    requires k > 0
    ensures m * k == m * (k - 1) + m && k * m == (k - 1) * m + m
  {
  }

  lemma {:induction false} Split(a: nat, m: nat)
    requires m > 0
    ensures a / m * m <= a && a - a / m * m == a % m
  {
  }

  /** A quotient stays below `q` exactly when the dividend stays below `q * m`. */
  lemma {:induction false} DivBelow(a: nat, m: nat, q: nat)
    requires m > 0
    ensures a / m < q <==> a < q * m
  {
    assert a == a / m * m + a % m;
    if a / m < q {
      MulMono(a / m + 1, q, m);
    } else {
      MulMono(q, a / m, m);
    }
  }
}

/** Where RAID5F puts parity and data: raid/raid5f.c. */
module Layout {
  import DivMod

  /** n disks, strips of `strip` blocks, `stripes` full stripes. */
  datatype Geometry = Geometry(n: nat, strip: nat, stripes: nat, blocklen: nat)
  {
    ghost predicate Valid() { n >= 3 && strip > 0 && blocklen > 0 }

    /** Data blocks of one stripe: the array's write unit. */
    function StripeBlocks(): (r: nat)
      requires n >= 3 && strip > 0
      ensures r > 0
    {
      DivMod.MulMono(1, n - 1, strip);
      strip * (n - 1)
    }

    function BlockCount(): nat
      requires n >= 3 && strip > 0
    {
      StripeBlocks() * stripes
    }

    /** Blocks in one disk's data region. */
    function DiskBlocks(): nat { strip * stripes }
  }

  /** raid5f_stripe_parity_chunk_index */
  function ParityDisk(n: nat, stripe: nat): (p: nat)
    requires n > 0
    ensures p < n
  {
    (n - 1) - stripe % n
  }

  /** The k-th chunk visited when the parity chunk is skipped. */
  function DataIndex(parity: nat, k: nat): (d: nat)
    ensures d != parity
  {
    if k < parity then k else k + 1
  }

  /** Disk of the k-th data chunk of a stripe. */
  function DataDisk(n: nat, stripe: nat, k: nat): (d: nat)
    requires n > 0 && k < n - 1
    ensures d < n && d != ParityDisk(n, stripe)
  {
    DataIndex(ParityDisk(n, stripe), k)
  }

  /** Position of a data disk among the data chunks of its stripe. */
  function ChunkOf(n: nat, stripe: nat, d: nat): (k: nat)
    requires n > 0 && d < n && d != ParityDisk(n, stripe)
    ensures k < n - 1 && DataDisk(n, stripe, k) == d
    ensures forall k' :: 0 <= k' < n - 1 && DataDisk(n, stripe, k') == d ==> k' == k
  {
    if d < ParityDisk(n, stripe) then d else d - 1
  }

  /** Stripe, data chunk and offset in the chunk: what the read path derives from a logical block. */
  datatype Coord = Coord(stripe: nat, chunk: nat, offset: nat)

  function At(g: Geometry, l: nat): (c: Coord)
    requires g.Valid()
    ensures c.chunk < g.n - 1 && c.offset < g.strip
    ensures c.stripe < g.stripes <==> l < g.BlockCount()
  {
    var stripe, offset := l / g.StripeBlocks(), l % g.StripeBlocks();
    var k := offset / g.strip;
    DivMod.DivBelow(offset, g.strip, g.n - 1);
    DivMod.DivBelow(l, g.StripeBlocks(), g.stripes);
    DivMod.Split(offset, g.strip);
    Coord(stripe, k, offset - k * g.strip)
  }

  /** The logical block at a coordinate: the order in which a full-stripe write lays out its data. */
  function Logical(g: Geometry, c: Coord): nat
    requires g.Valid()
  {
    c.stripe * g.StripeBlocks() + (c.chunk * g.strip + c.offset)
  }

  lemma {:induction false} LogicalOfAt(g: Geometry, l: nat)
    requires g.Valid()
    ensures Logical(g, At(g, l)) == l
  {
  }

  lemma {:induction false} AtOfLogical(g: Geometry, c: Coord)
    requires g.Valid() && c.chunk < g.n - 1 && c.offset < g.strip
    ensures At(g, Logical(g, c)) == c
  {
    DivMod.Compose(c.chunk, c.offset, g.strip);
    DivMod.DivBelow(c.chunk * g.strip + c.offset, g.strip, g.n - 1);
    DivMod.Compose(c.stripe, c.chunk * g.strip + c.offset, g.StripeBlocks());
  }

  /** The blocks of one stripe are one contiguous range. */
  lemma {:induction false} AtInStripe(g: Geometry, l: nat, stripe: nat)
    requires g.Valid()
    ensures At(g, l).stripe == stripe <==>
            stripe * g.StripeBlocks() <= l < stripe * g.StripeBlocks() + g.StripeBlocks()
    ensures At(g, l).stripe == stripe ==>
            l == stripe * g.StripeBlocks() + (At(g, l).chunk * g.strip + At(g, l).offset)
  {
    DivMod.DivBelow(l, g.StripeBlocks(), stripe);
    DivMod.DivBelow(l, g.StripeBlocks(), stripe + 1);
    assert (stripe + 1) * g.StripeBlocks() == stripe * g.StripeBlocks() + g.StripeBlocks();
    LogicalOfAt(g, l);
  }

  /** Inside one strip the coordinates of consecutive blocks differ only in the offset. */
  lemma {:induction false} AtNext(g: Geometry, l: nat, i: nat)
    requires g.Valid() && At(g, l).offset + i < g.strip
    ensures At(g, l + i) == At(g, l).(offset := At(g, l).offset + i)
  {
    LogicalOfAt(g, l);
    AtOfLogical(g, At(g, l).(offset := At(g, l).offset + i));
  }

  /** A block of one disk's data region. */
  datatype Location = Location(disk: nat, block: nat)

  /** Base bdev index and block number a read of logical block `l` goes to. */
  function Locate(g: Geometry, l: nat): Location
    requires g.Valid()
  {
    var c := At(g, l);
    Location(DataDisk(g.n, c.stripe, c.chunk), c.stripe * g.strip + c.offset)
  }

  /** A physical block that holds data rather than parity. */
  predicate IsData(g: Geometry, at: Location)
    requires g.Valid()
  {
    at.disk < g.n && at.block < g.DiskBlocks() && at.disk != ParityDisk(g.n, at.block / g.strip)
  }

  /** The coordinate whose data the write path stores at a data location. */
  function CoordOf(g: Geometry, at: Location): Coord
    requires g.Valid() && IsData(g, at)
  {
    var stripe := at.block / g.strip;
    Coord(stripe, ChunkOf(g.n, stripe, at.disk), at.block % g.strip)
  }

  /** Logical blocks go one-to-one into the data blocks of the disks... */
  lemma {:induction false} LocateThenLogical(g: Geometry, l: nat)
    requires g.Valid() && l < g.BlockCount()
    ensures IsData(g, Locate(g, l)) && CoordOf(g, Locate(g, l)) == At(g, l)
    ensures Logical(g, CoordOf(g, Locate(g, l))) == l
  {
    var c := At(g, l);
    LogicalOfAt(g, l);
    DivMod.Compose(c.stripe, c.offset, g.strip);
    DivMod.DivBelow(c.stripe * g.strip + c.offset, g.strip, g.stripes);
  }

  lemma {:induction false} CoordOfData(g: Geometry, at: Location)
    requires g.Valid() && IsData(g, at)
    ensures CoordOf(g, at).stripe < g.stripes && CoordOf(g, at).stripe * g.strip + CoordOf(g, at).offset == at.block
    ensures DataDisk(g.n, CoordOf(g, at).stripe, CoordOf(g, at).chunk) == at.disk
  {
    DivMod.DivBelow(at.block, g.strip, g.stripes);
    DivMod.Split(at.block, g.strip);
  }

  /** ... and cover all of them. */
  lemma {:induction false} LogicalThenLocate(g: Geometry, at: Location)
    requires g.Valid() && IsData(g, at)
    ensures Logical(g, CoordOf(g, at)) < g.BlockCount() && Locate(g, Logical(g, CoordOf(g, at))) == at
  {
    CoordOfData(g, at);
    var c := CoordOf(g, at);
    AtOfLogical(g, c);
    assert At(g, Logical(g, c)) == c;
  }

  /** Cuts a sequence into `k` pieces of `len` elements. */
  function Cut<T>(s: seq<T>, len: nat, k: nat): (r: seq<seq<T>>)
    requires |s| == len * k
    ensures |r| == k
    ensures forall i :: 0 <= i < k ==> |r[i]| == len && forall x :: x in r[i] ==> x in s
  {
    if k == 0 then []
    else
      DivMod.MulStep(len, k);
      [s[..len]] + Cut(s[len..], len, k - 1)
  }

  lemma {:induction false} CutAt<T>(s: seq<T>, len: nat, k: nat, i: nat, j: nat)
    requires |s| == len * k && i < k && j < len
    ensures i * len + j < |s| && Cut(s, len, k)[i][j] == s[i * len + j]
  {
    CutFrom(s, len, k, i, j, i * len);
  }

  lemma {:induction false} CutFrom<T>(s: seq<T>, len: nat, k: nat, i: nat, j: nat, from: nat)
    requires |s| == len * k && i < k && j < len && from == i * len
    ensures from + j < |s| && Cut(s, len, k)[i][j] == s[from + j]
  {
    DivMod.MulStep(len, k);
    DivMod.MulMono(1, k, len);
    if i > 0 {
      DivMod.MulStep(len, i);
      CutFrom(s[len..], len, k - 1, i - 1, j, from - len);
    }
  }

  /** Among any n consecutive stripes each disk holds parity exactly once. */
  lemma {:induction false} ParityRotates(n: nat, first: nat, d: nat) returns (s: nat)
    requires n > 0 && d < n
    ensures first <= s < first + n && ParityDisk(n, s) == d
    ensures forall s' :: first <= s' < first + n && ParityDisk(n, s') == d ==> s' == s
  {
    var want := (n - 1) - d;
    var r := first % n;
    var base := if want >= r then first / n else first / n + 1;
    s := base * n + want;
    DivMod.Compose(base, want, n);
    DivMod.Split(first, n);
    assert (first / n + 1) * n == first / n * n + n;
    forall s' | first <= s' < first + n && ParityDisk(n, s') == d
      ensures s' == s
    {
      SameResidue(n, s, s');
    }
  }

  /** From the last disk in stripe 0, parity moves one disk down a stripe, and from disk 0 to the last again. */
  lemma {:induction false} ParitySteps(n: nat, s: nat)
    requires n > 0
    ensures ParityDisk(n, 0) == n - 1
    ensures ParityDisk(n, s + 1) == if ParityDisk(n, s) == 0 then n - 1 else ParityDisk(n, s) - 1
  {
    DivMod.Split(s, n);
    if s % n == n - 1 {
      DivMod.Unique(s + 1, n, s / n + 1, 0);
    } else {
      DivMod.Unique(s + 1, n, s / n, s % n + 1);
    }
    DivMod.Unique(0, n, 0, 0);
  }

  /** The data chunks of a stripe lie on its other disks in ascending order. */
  lemma {:induction false} DataAscends(n: nat, s: nat, k: nat, d: nat)
    requires n > 1 && k < n - 1 && d < n && d != ParityDisk(n, s)
    ensures k + 1 < n - 1 ==> DataDisk(n, s, k) < DataDisk(n, s, k + 1)
    ensures k == 0 ==> DataDisk(n, s, k) <= d
    ensures DataDisk(n, s, k) < d ==> k + 1 < n - 1 && DataDisk(n, s, k + 1) <= d
  {
  }

  /** Strip `k` of the first stripe lies on disk `k`, from block 0 on, and the parity on the last disk. */
  lemma {:induction false} FirstStripe(g: Geometry, l: nat, k: nat, o: nat)
    requires g.Valid() && k < g.n - 1 && o < g.strip && l == k * g.strip + o
    ensures Locate(g, l) == Location(k, o) && ParityDisk(g.n, 0) == g.n - 1
  {
    AtOfLogical(g, Coord(0, k, o));
    ParitySteps(g.n, 0);
  }

  /**
   The next logical block is the next block of the same disk; after a strip, the same row on the next disk up that
   does not hold the stripe's parity; after a stripe, the next row on the lowest such disk.
   */
  lemma {:induction false} NextBlock(g: Geometry, l: nat)
    requires g.Valid()
    ensures var c, here, next := At(g, l), Locate(g, l), Locate(g, l + 1);
            if c.offset + 1 < g.strip then next == Location(here.disk, here.block + 1)
            else if c.chunk + 1 < g.n - 1 then
              next == Location(DataDisk(g.n, c.stripe, c.chunk + 1), here.block + 1 - g.strip)
            else next == Location(DataDisk(g.n, c.stripe + 1, 0), here.block + 1)
  {
    var c := At(g, l);
    LogicalOfAt(g, l);
    var to := if c.offset + 1 < g.strip then c.(offset := c.offset + 1)
              else if c.chunk + 1 < g.n - 1 then Coord(c.stripe, c.chunk + 1, 0) else Coord(c.stripe + 1, 0, 0);
    NextLogical(g, c, to);
    AtOfLogical(g, to);
    assert (c.stripe + 1) * g.strip == c.stripe * g.strip + g.strip;
  }

  lemma {:induction false} NextLogical(g: Geometry, c: Coord, to: Coord)
    requires g.Valid() && c.chunk < g.n - 1 && c.offset < g.strip
    requires to == if c.offset + 1 < g.strip then c.(offset := c.offset + 1)
                   else if c.chunk + 1 < g.n - 1 then Coord(c.stripe, c.chunk + 1, 0) else Coord(c.stripe + 1, 0, 0)
    ensures Logical(g, to) == Logical(g, c) + 1
  {
    if c.offset + 1 == g.strip {
      assert (c.chunk + 1) * g.strip == c.chunk * g.strip + g.strip;
      if c.chunk + 1 == g.n - 1 {
        assert (c.stripe + 1) * g.StripeBlocks() == c.stripe * g.StripeBlocks() + g.StripeBlocks();
      }
    }
  }

  lemma {:induction false} SameResidue(n: nat, a: nat, b: nat)
    requires n > 0 && a % n == b % n && a < b + n && b < a + n
    ensures a == b
  {
    DivMod.Split(a, n);
    DivMod.Split(b, n);
    if a / n > b / n {
      DivMod.MulMono(b / n + 1, a / n, n);
    } else if a / n < b / n {
      DivMod.MulMono(a / n + 1, b / n, n);
    }
  }
}
