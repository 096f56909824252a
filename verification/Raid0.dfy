/** Striping without redundancy: raid/raid0.c. */
module Raid0 {
  import DivMod
  import Layout
  import DataSizes

  /** n disks, strips of `strip` blocks. */
  datatype Geometry = Geometry(n: nat, strip: nat)
  {
    ghost predicate Valid() { n > 0 && strip > 0 }
  }

  datatype Location = Location(disk: nat, block: nat)

  /** Where a read or write of logical block `l` goes. */
  function Locate(g: Geometry, l: nat): (at: Location)
    requires g.Valid()
    ensures at.disk < g.n
  {
    Location(l / g.strip % g.n, l / g.strip / g.n * g.strip + l % g.strip)
  }

  function Logical(g: Geometry, at: Location): nat
    requires g.Valid()
  {
    (at.block / g.strip * g.n + at.disk) * g.strip + at.block % g.strip
  }

  lemma {:induction false} LogicalOfLocate(g: Geometry, l: nat)
    requires g.Valid()
    ensures Logical(g, Locate(g, l)) == l
  {
    DivMod.Compose(l / g.strip / g.n, l % g.strip, g.strip);
    DivMod.Split(l / g.strip, g.n);
    DivMod.Split(l, g.strip);
  }

  lemma {:induction false} LocateOfLogical(g: Geometry, at: Location)
    requires g.Valid() && at.disk < g.n
    ensures Locate(g, Logical(g, at)) == at
  {
    DivMod.Compose(at.block / g.strip * g.n + at.disk, at.block % g.strip, g.strip);
    DivMod.Compose(at.block / g.strip, at.disk, g.n);
    DivMod.Split(at.block, g.strip);
  }

  /** Block `l` by its row of strips, its disk and its place in the strip. */
  lemma {:induction false} LocateAt(g: Geometry, l: nat, row: nat, d: nat, o: nat)
    requires g.Valid() && d < g.n && o < g.strip && l == (row * g.n + d) * g.strip + o
    ensures Locate(g, l) == Location(d, row * g.strip + o)
  {
    DivMod.Compose(row * g.n + d, o, g.strip);
    DivMod.Compose(row, d, g.n);
  }

  lemma {:induction false} Coordinates(g: Geometry, l: nat) returns (row: nat, d: nat, o: nat)
    requires g.Valid()
    ensures d < g.n && o < g.strip && l == (row * g.n + d) * g.strip + o
  {
    var k := DivMod.Div(l, g.strip);
    row, d, o := DivMod.Div(k, g.n), k % g.n, l % g.strip;
    DivMod.Split(l, g.strip);
    DivMod.Split(k, g.n);
  }

  /**
   Logical block 0 is block 0 of disk 0. The next logical block is the next block of the same disk; after a strip, the
   same row on the next disk; after the last disk, the next row on disk 0.
   */
  lemma {:induction false} NextBlock(g: Geometry, l: nat) returns (row: nat, d: nat, o: nat)
    requires g.Valid()
    ensures Locate(g, 0) == Location(0, 0)
    ensures d < g.n && o < g.strip && Locate(g, l) == Location(d, row * g.strip + o)
    ensures Locate(g, l + 1) == if o + 1 < g.strip then Location(d, row * g.strip + o + 1)
                                else if d + 1 < g.n then Location(d + 1, row * g.strip)
                                else Location(0, (row + 1) * g.strip)
  {
    LocateAt(g, 0, 0, 0, 0);
    row, d, o := Coordinates(g, l);
    LocateAt(g, l, row, d, o);
    if o + 1 < g.strip {
      LocateAt(g, l + 1, row, d, o + 1);
    } else if d + 1 < g.n {
      NextStrip(row * g.n + d, g.strip);
      LocateAt(g, l + 1, row, d + 1, 0);
    } else {
      NextStrip(row * g.n + d, g.strip);
      NextStrip(row, g.n);
      LocateAt(g, l + 1, row + 1, 0, 0);
    }
  }

  lemma {:induction false} NextStrip(k: nat, m: nat)
    ensures (k + 1) * m == k * m + m
  {
  }

  // ---- how many blocks of a disk lie below a logical block ----

  /** The blocks of disk `d` that hold logical blocks below `l` are its first `Below(g, d, l)`. */
  function Below(g: Geometry, d: nat, l: nat): nat
    requires g.Valid()
  {
    var strip := l / g.strip;
    strip / g.n * g.strip
    + (if d < strip % g.n then g.strip else if d == strip % g.n then l % g.strip else 0)
  }

  lemma {:induction false} Lex(q: nat, r: nat, q': nat, r': nat, m: nat)
    requires r < m && r' < m
    ensures q * m + r <= q' * m + r' <==> q < q' || (q == q' && r <= r')
  {
    if q < q' {
      DivMod.MulMono(q + 1, q', m);
    } else if q' < q {
      DivMod.MulMono(q' + 1, q, m);
    }
  }

  /** Blocks compare as (strip in the disk, disk, offset in the strip). */
  lemma {:induction false} LexThree(m: nat, n: nat, p: nat, e: nat, a: nat, k: nat, d: nat, t: nat)
    requires a < m && t < m && e < n && d < n
    ensures (p * n + e) * m + a <= (k * n + d) * m + t <==> p < k || (p == k && (e < d || (e == d && a <= t)))
  {
    Lex(p * n + e, a, k * n + d, t, m);
    Lex(p, e, k, d, n);
    Lex(k, d, p, e, n);
  }

  lemma {:induction false} FirstCut(m: nat, p: nat, e: nat, a: nat, k: nat, d: nat, t: nat)
    requires a < m && t < m
    ensures p * m + (if d < e then m else if d == e then a else 0) <= k * m + t
            <==> p < k || (p == k && (e < d || (e == d && a <= t)))
  {
    if d < e {
      DivMod.MulStep(m, p + 1);
      Lex(p + 1, 0, k, t, m);
    } else if d == e {
      Lex(p, a, k, t, m);
    } else {
      Lex(p, 0, k, t, m);
    }
  }

  /** The mark of `Below`: block `b` of disk `d` is not below `l`. */
  lemma {:induction false} BelowSplits(g: Geometry, d: nat, l: nat, b: nat)
    requires g.Valid() && d < g.n
    ensures Below(g, d, l) <= b <==> l <= Logical(g, Location(d, b))
  {
    var k, t := DivMod.Div(b, g.strip), b % g.strip;
    var strip, a := DivMod.Div(l, g.strip), l % g.strip;
    var p, e := DivMod.Div(strip, g.n), strip % g.n;
    DivMod.Split(l, g.strip);
    DivMod.Split(strip, g.n);
    assert Below(g, d, l) == p * g.strip + (if d < e then g.strip else if d == e then a else 0);
    assert Logical(g, Location(d, b)) == (k * g.n + d) * g.strip + t && l == (p * g.n + e) * g.strip + a;
    DivMod.Split(b, g.strip);
    LexThree(g.strip, g.n, p, e, a, k, d, t);
    FirstCut(g.strip, p, e, a, k, d, t);
  }

  lemma {:induction false} BelowMono(g: Geometry, d: nat, l: nat, l': nat)
    requires g.Valid() && d < g.n && l <= l'
    ensures Below(g, d, l) <= Below(g, d, l')
  {
    BelowSplits(g, d, l, Below(g, d, l'));
    BelowSplits(g, d, l', Below(g, d, l'));
  }

  // ---- closed-form splitting of a range ----

  /** struct raid_bdev_io_range */
  class IoRange {
    var stripSize: nat
    var startStripInDisk: nat
    var endStripInDisk: nat
    var startOffsetInStrip: nat
    var endOffsetInStrip: nat
    var startDisk: nat
    var endDisk: nat
    var nDisksInvolved: nat

    constructor ()
    {
    }

    ghost function Model(): Range
      reads this
    {
      Range(stripSize, startStripInDisk, endStripInDisk, startOffsetInStrip, endOffsetInStrip,
            startDisk, endDisk, nDisksInvolved)
    }

    /** _raid0_get_io_range */
    method GetIoRange(n: nat, strip: nat, offset: nat, count: nat)
      requires n > 0 && strip > 0
      modifies this
      ensures Model() == RangeOf(Geometry(n, strip), offset, count)
    {
      stripSize := strip;
      var last := if count > 0 then offset + count - 1 else offset;
      var startStrip := DivMod.Div(offset, strip);
      var endStrip := DivMod.Div(last, strip);
      StripsAscend(strip, offset, last);
      startStripInDisk := DivMod.Div(startStrip, n);
      endStripInDisk := DivMod.Div(endStrip, n);
      startOffsetInStrip := offset % strip;
      endOffsetInStrip := last % strip;
      startDisk := startStrip % n;
      endDisk := endStrip % n;
      nDisksInvolved := if endStrip - startStrip + 1 < n then endStrip - startStrip + 1 else n;
    }

    /** _raid0_split_io_range: the piece of the range on one disk. */
    method SplitIoRange(ghost g: Geometry, ghost offset: nat, ghost length: nat, disk: nat)
      returns (offsetInDisk: nat, blocksInDisk: nat)
      requires g.Valid() && Model() == RangeOf(g, offset, length)
      requires disk < g.n && Involved(g, offset, length, disk)
      ensures offsetInDisk == Below(g, disk, offset)
      ensures blocksInDisk > 0 && offsetInDisk + blocksInDisk == Below(g, disk, offset + Reach(length))
    {
      ghost var count := Reach(length);
      EndsMeet(g, offset, count, disk);
      PieceSize(g, offset, count, disk);
      ghost var r := Model();
      var startStrip := startStripInDisk;
      if disk < startDisk {
        startStrip := startStrip + 1;
      }
      assert disk > endDisk ==> endStripInDisk > 0;
      var endStrip := if disk > endDisk then endStripInDisk - 1 else endStripInDisk;
      assert startStrip == FirstStrip(r, disk) && endStrip == FinalStrip(r, disk);
      assert endStrip >= startStrip;
      var strips := endStrip - startStrip + 1;
      var startOffset := if disk == startDisk then startOffsetInStrip else 0;
      var endOffset := if disk == endDisk then endOffsetInStrip else stripSize - 1;
      assert startOffset == FirstOffset(r, disk) && endOffset == FinalOffset(r, disk);
      offsetInDisk := startOffset + startStrip * stripSize;
      blocksInDisk := (strips - 1) * stripSize + endOffset - startOffset + 1;
    }
  }

  datatype Range = Range(
    stripSize: nat, startStripInDisk: nat, endStripInDisk: nat, startOffsetInStrip: nat, endOffsetInStrip: nat,
    startDisk: nat, endDisk: nat, nDisksInvolved: nat)

  /** A request of no blocks is cut as if it had one. */
  function Reach(count: nat): (r: nat)
    ensures r > 0
  {
    if count > 0 then count else 1
  }

  function Last(offset: nat, count: nat): nat
  {
    if count > 0 then offset + count - 1 else offset
  }

  lemma {:induction false} StripsAscend(strip: nat, a: nat, b: nat)
    requires strip > 0 && a <= b
    ensures a / strip <= b / strip
  {
    DivMod.Split(a, strip);
    DivMod.DivBelow(b, strip, a / strip);
  }

  function RangeOf(g: Geometry, offset: nat, count: nat): Range
    requires g.Valid()
  {
    var first, last := DivMod.Div(offset, g.strip), DivMod.Div(Last(offset, count), g.strip);
    StripsAscend(g.strip, offset, Last(offset, count));
    Range(g.strip, DivMod.Div(first, g.n), DivMod.Div(last, g.n),
          offset % g.strip, Last(offset, count) % g.strip, first % g.n, last % g.n,
          if last - first + 1 < g.n then last - first + 1 else g.n)
  }

  /** The i-th disk visited. */
  function PieceDisk(g: Geometry, offset: nat, i: nat): (d: nat)
    requires g.Valid()
    ensures d < g.n
  {
    (offset / g.strip % g.n + i) % g.n
  }

  ghost predicate Involved(g: Geometry, offset: nat, count: nat, d: nat)
    requires g.Valid()
  {
    exists i :: 0 <= i < RangeOf(g, offset, count).nDisksInvolved && PieceDisk(g, offset, i) == d
  }

  // ---- a disk's piece in closed form ----

  function FirstStrip(r: Range, d: nat): nat
  {
    r.startStripInDisk + (if d < r.startDisk then 1 else 0)
  }

  function FinalStrip(r: Range, d: nat): int
  {
    r.endStripInDisk - (if d > r.endDisk then 1 else 0)
  }

  function FirstOffset(r: Range, d: nat): nat
  {
    if d == r.startDisk then r.startOffsetInStrip else 0
  }

  function FinalOffset(r: Range, d: nat): int
  {
    if d == r.endDisk then r.endOffsetInStrip else r.stripSize - 1
  }

  lemma {:induction false} FirstIsBelow(g: Geometry, offset: nat, count: nat, d: nat)
    requires g.Valid() && d < g.n
    ensures var r := RangeOf(g, offset, count); FirstStrip(r, d) * g.strip + FirstOffset(r, d) == Below(g, d, offset)
  {
    DivMod.MulStep(g.strip, RangeOf(g, offset, count).startStripInDisk + 1);
  }

  /** The last block of disk `d` at or below `last`, and -1 when there is none. */
  function UpTo(g: Geometry, d: nat, last: nat): int
    requires g.Valid()
  {
    var strip := last / g.strip;
    (strip / g.n - (if d > strip % g.n then 1 else 0)) * g.strip
    + (if d == strip % g.n then last % g.strip else g.strip - 1)
  }

  lemma {:induction false} FinalCut(m: nat, p: nat, e: nat, a: nat, k: nat, d: nat, t: nat)
    requires a < m && t < m
    ensures k * m + t <= (p - (if d > e then 1 else 0)) * m + (if d == e then a else m - 1)
            <==> k < p || (k == p && (d < e || (d == e && t <= a)))
  {
    if d < e {
      Lex(k, t, p, m - 1, m);
    } else if d == e {
      Lex(k, t, p, a, m);
    } else if p > 0 {
      Lex(k, t, p - 1, m - 1, m);
    } else {
      assert k * m >= 0;
    }
  }

  lemma {:induction false} UpToSplits(g: Geometry, d: nat, last: nat, b: nat)
    requires g.Valid() && d < g.n
    ensures b <= UpTo(g, d, last) <==> Logical(g, Location(d, b)) <= last
  {
    var k, t := b / g.strip, b % g.strip;
    var strip, a := last / g.strip, last % g.strip;
    DivMod.Split(last, g.strip);
    DivMod.Split(b, g.strip);
    DivMod.Split(strip, g.n);
    LexThree(g.strip, g.n, k, d, t, strip / g.n, strip % g.n, a);
    FinalCut(g.strip, strip / g.n, strip % g.n, a, k, d, t);
  }

  lemma {:induction false} UpToIsBelow(g: Geometry, d: nat, last: nat)
    requires g.Valid() && d < g.n
    ensures UpTo(g, d, last) + 1 == Below(g, d, last + 1)
  {
    UpToAtLeast(g, d, last);
    var u := UpTo(g, d, last);
    UpToSplits(g, d, last, u + 1);
    BelowSplits(g, d, last + 1, u + 1);
    if u >= 0 {
      UpToSplits(g, d, last, u);
      BelowSplits(g, d, last + 1, u);
    }
  }

  lemma {:induction false} UpToAtLeast(g: Geometry, d: nat, last: nat)
    requires g.Valid()
    ensures UpTo(g, d, last) >= -1
  {
    var p := last / g.strip / g.n;
    assert p > 0 ==> (p - 1) * g.strip >= 0;
    assert p * g.strip >= 0;
  }

  lemma {:induction false} FinalIsUpTo(g: Geometry, offset: nat, count: nat, d: nat)
    requires g.Valid() && d < g.n && count > 0
    ensures var r := RangeOf(g, offset, count);
            FinalStrip(r, d) * g.strip + FinalOffset(r, d) + 1 == Below(g, d, offset + count)
  {
    UpToIsBelow(g, d, Last(offset, count));
  }

  lemma {:induction false} ModAdd(s: nat, i: nat, n: nat)
    requires n > 0
    ensures (s % n + i) % n == (s + i) % n
  {
    DivMod.Split(s, n);
    DivMod.Split(s % n + i, n);
    var q := s / n + (s % n + i) / n;
    assert q * n == s / n * n + (s % n + i) / n * n;
    DivMod.Unique(s + i, n, q, (s % n + i) % n);
  }

  /** The first block of an involved disk lies in the request. */
  lemma {:induction false} InvolvedHolds(g: Geometry, offset: nat, count: nat, d: nat)
    requires g.Valid() && count > 0 && d < g.n && Involved(g, offset, count, d)
    ensures Below(g, d, offset) < Below(g, d, offset + count)
  {
    var i :| 0 <= i < RangeOf(g, offset, count).nDisksInvolved && PieceDisk(g, offset, i) == d;
    var first, last := offset / g.strip, Last(offset, count) / g.strip;
    var s := first + i;
    ModAdd(first, i, g.n);
    var t := if i == 0 then offset % g.strip else 0;
    var l := s * g.strip + t;
    DivMod.Split(offset, g.strip);
    DivMod.Split(Last(offset, count), g.strip);
    DivMod.Compose(s, t, g.strip);
    Lex(first, offset % g.strip, s, t, g.strip);
    assert l <= Last(offset, count) by {
      if i > 0 {
        DivMod.MulMono(s, last, g.strip);
      }
    }
    var at := Locate(g, l);
    LogicalOfLocate(g, l);
    BelowSplits(g, d, offset, at.block);
    BelowSplits(g, d, offset + count, at.block);
  }

  /** What _raid0_split_io_range relies on: the strips of an involved disk do not run backwards. */
  lemma {:induction false} EndsMeet(g: Geometry, offset: nat, count: nat, d: nat)
    requires g.Valid() && count > 0 && d < g.n && Involved(g, offset, count, d)
    ensures var r := RangeOf(g, offset, count);
            && FirstStrip(r, d) <= FinalStrip(r, d)
            && 0 <= FirstOffset(r, d) < g.strip && 0 <= FinalOffset(r, d) < g.strip
            && FirstStrip(r, d) * g.strip + FirstOffset(r, d) == Below(g, d, offset)
            && FinalStrip(r, d) * g.strip + FinalOffset(r, d) + 1 == Below(g, d, offset + count)
            && Below(g, d, offset) < Below(g, d, offset + count)
  {
    InvolvedHolds(g, offset, count, d);
    FirstIsBelow(g, offset, count, d);
    FinalIsUpTo(g, offset, count, d);
    var r := RangeOf(g, offset, count);
    if FinalStrip(r, d) >= 0 {
      Lex(FirstStrip(r, d), FirstOffset(r, d), FinalStrip(r, d), FinalOffset(r, d), g.strip);
    }
  }

  /** No subtraction in the size of a piece runs below zero. */
  lemma {:induction false} PieceSize(g: Geometry, offset: nat, count: nat, d: nat)
    requires g.Valid() && count > 0 && d < g.n && Involved(g, offset, count, d)
    ensures var r := RangeOf(g, offset, count);
            var strips := FinalStrip(r, d) - FirstStrip(r, d) + 1;
            && (strips - 1) * r.stripSize + FinalOffset(r, d) >= FirstOffset(r, d)
            && Below(g, d, offset) + ((strips - 1) * r.stripSize + FinalOffset(r, d) - FirstOffset(r, d) + 1)
               == Below(g, d, offset + count)
  {
    EndsMeet(g, offset, count, d);
    var r := RangeOf(g, offset, count);
    Span(FirstStrip(r, d), FinalStrip(r, d), g.strip);
  }

  lemma {:induction false} Span(lo: nat, hi: nat, m: nat)
    requires lo <= hi
    ensures (hi - lo) * m + lo * m == hi * m
  {
  }

  // ---- main results ----

  /** A disk is involved exactly when the request reaches one of its blocks. */
  lemma {:induction false} InvolvedIff(g: Geometry, offset: nat, count: nat, d: nat)
    requires g.Valid() && count > 0 && d < g.n
    ensures Involved(g, offset, count, d) <==> Below(g, d, offset) < Below(g, d, offset + count)
  {
    if Below(g, d, offset) < Below(g, d, offset + count) {
      var b := Below(g, d, offset);
      BelowSplits(g, d, offset, b);
      BelowSplits(g, d, offset + count, b);
      var l := Logical(g, Location(d, b));
      LocateOfLogical(g, Location(d, b));
      var first, strip := offset / g.strip, l / g.strip;
      StripsAscend(g.strip, offset, l);
      StripsAscend(g.strip, l, Last(offset, count));
      var i := strip - first;
      ModAdd(first, i, g.n);
      if i >= RangeOf(g, offset, count).nDisksInvolved {
        ModAdd(i, first % g.n, g.n);
        i := i % g.n;
      }
      assert PieceDisk(g, offset, i) == d;
    } else if Involved(g, offset, count, d) {
      InvolvedHolds(g, offset, count, d);
    }
  }

  /** The blocks of one disk's piece, empty for a disk that is not involved. */
  predicate InPiece(g: Geometry, offset: nat, count: nat, at: Location)
    requires g.Valid()
  {
    Below(g, at.disk, offset) <= at.block < Below(g, at.disk, offset + count)
  }

  /** Exact cover: a physical block lies in a piece if and only if its logical block lies in the request. */
  lemma {:induction false} ExactCover(g: Geometry, offset: nat, count: nat, at: Location)
    requires g.Valid() && at.disk < g.n
    ensures InPiece(g, offset, count, at) <==> offset <= Logical(g, at) < offset + count
  {
    BelowSplits(g, at.disk, offset, at.block);
    BelowSplits(g, at.disk, offset + count, at.block);
  }

  /** The disks visited are pairwise distinct. */
  lemma {:induction false} DistinctDisks(g: Geometry, offset: nat, i: nat, j: nat)
    requires g.Valid() && i < j < g.n
    ensures PieceDisk(g, offset, i) != PieceDisk(g, offset, j)
  {
    var d := offset / g.strip % g.n;
    if (d + i) % g.n == (d + j) % g.n {
      Layout.SameResidue(g.n, d + i, d + j);
    }
  }

  /** A request of no blocks is cut exactly as the request of the one block at its offset. */
  lemma {:induction false} ZeroLengthActsAsOne(g: Geometry, offset: nat, d: nat)
    requires g.Valid() && d < g.n
    ensures RangeOf(g, offset, 0) == RangeOf(g, offset, 1) && RangeOf(g, offset, 0).nDisksInvolved == 1
    ensures Involved(g, offset, 0, d) <==> d == Locate(g, offset).disk
  {
    var e := offset / g.strip % g.n;
    DivMod.Unique(e, g.n, 0, e);
    assert PieceDisk(g, offset, 0) == e;
  }

  // ---- conservation ----

  function PieceBlocks(g: Geometry, offset: nat, count: nat, d: nat): nat
    requires g.Valid() && d < g.n
  {
    BelowMono(g, d, offset, offset + count);
    Below(g, d, offset + count) - Below(g, d, offset)
  }

  /** Blocks below `l` on the first `j` disks. */
  function BelowOn(g: Geometry, l: nat, j: nat): nat
    requires g.Valid()
  {
    if j == 0 then 0 else BelowOn(g, l, j - 1) + Below(g, j - 1, l)
  }

  lemma {:induction false} ShareStep(x: nat, m: nat, e: nat, a: nat, j: nat)
    requires j > 0
    ensures x * (j - 1) + (if j - 1 <= e then m * (j - 1) else m * e + a)
            + (x + if j - 1 < e then m else if j - 1 == e then a else 0)
            == x * j + (if j <= e then m * j else m * e + a)
  {
    DivMod.MulStep(x, j);
    DivMod.MulStep(m, j);
  }

  lemma {:induction false} BelowOnClosed(g: Geometry, l: nat, j: nat, x: nat, e: nat, a: nat)
    requires g.Valid() && j <= g.n
    requires x == l / g.strip / g.n * g.strip && e == l / g.strip % g.n && a == l % g.strip
    ensures BelowOn(g, l, j) == x * j + (if j <= e then g.strip * j else g.strip * e + a)
  {
    if j > 0 {
      BelowOnClosed(g, l, j - 1, x, e, a);
      ShareStep(x, g.strip, e, a, j);
      assert Below(g, j - 1, l) == x + (if j - 1 < e then g.strip else if j - 1 == e then a else 0);
    }
  }

  /** The blocks below `l` on all disks are `l` blocks. */
  lemma {:induction false} BelowOnAll(g: Geometry, l: nat)
    requires g.Valid()
    ensures BelowOn(g, l, g.n) == l
  {
    var strip := l / g.strip;
    BelowOnClosed(g, l, g.n, strip / g.n * g.strip, strip % g.n, l % g.strip);
    DivMod.Split(l, g.strip);
    DivMod.Split(strip, g.n);
    Regroup(strip / g.n, g.strip, g.n, strip % g.n);
  }

  lemma {:induction false} Regroup(p: nat, m: nat, n: nat, e: nat)
    ensures p * m * n + m * e == (p * n + e) * m
  {
  }

  /** The blocks of every disk's piece. */
  function Shares(g: Geometry, offset: nat, count: nat): (s: seq<nat>)
    requires g.Valid()
    ensures |s| == g.n
  {
    seq(g.n, d requires 0 <= d < g.n => PieceBlocks(g, offset, count, d))
  }

  function Prefix(s: seq<nat>, j: nat): nat
    requires j <= |s|
  {
    if j == 0 then 0 else Prefix(s, j - 1) + s[j - 1]
  }

  /** Sum of `i` elements from `e` on, wrapping around. */
  function Visit(s: seq<nat>, e: nat, i: nat): nat
    requires |s| > 0
  {
    if i == 0 then 0 else Visit(s, e, i - 1) + s[(e + (i - 1)) % |s|]
  }

  lemma {:induction false} VisitIsPrefix(s: seq<nat>, e: nat, i: nat)
    requires e < |s| && i <= |s|
    ensures Visit(s, e, i) + Prefix(s, e)
            == if e + i <= |s| then Prefix(s, e + i) else Prefix(s, |s|) + Prefix(s, e + i - |s|)
  {
    if i > 0 {
      VisitIsPrefix(s, e, i - 1);
      var k := e + (i - 1);
      if k < |s| {
        DivMod.Unique(k, |s|, 0, k);
      } else {
        DivMod.Unique(k, |s|, 1, k - |s|);
      }
    }
  }

  lemma {:induction false} SharesArePrefixes(g: Geometry, offset: nat, count: nat, j: nat)
    requires g.Valid() && j <= g.n
    ensures Prefix(Shares(g, offset, count), j) + BelowOn(g, offset, j) == BelowOn(g, offset + count, j)
  {
    if j > 0 {
      SharesArePrefixes(g, offset, count, j - 1);
      assert Shares(g, offset, count)[j - 1] + Below(g, j - 1, offset) == Below(g, j - 1, offset + count);
    }
  }

  /** Blocks of the first `i` pieces, in the order they are visited. */
  function PiecesTotal(g: Geometry, offset: nat, count: nat, i: nat): nat
    requires g.Valid()
  {
    Visit(Shares(g, offset, count), offset / g.strip % g.n, i)
  }

  lemma {:induction false} NotVisited(g: Geometry, offset: nat, count: nat, i: nat)
    requires g.Valid() && count > 0 && RangeOf(g, offset, count).nDisksInvolved <= i < g.n
    ensures PieceBlocks(g, offset, count, PieceDisk(g, offset, i)) == 0
  {
    var d := PieceDisk(g, offset, i);
    if Involved(g, offset, count, d) {
      var k :| 0 <= k < RangeOf(g, offset, count).nDisksInvolved && PieceDisk(g, offset, k) == d;
      DistinctDisks(g, offset, k, i);
    }
    InvolvedIff(g, offset, count, d);
    BelowMono(g, d, offset, offset + count);
  }

  lemma {:induction false} RestAreEmpty(g: Geometry, offset: nat, count: nat, i: nat)
    requires g.Valid() && count > 0 && RangeOf(g, offset, count).nDisksInvolved <= i <= g.n
    ensures PiecesTotal(g, offset, count, i) == PiecesTotal(g, offset, count, RangeOf(g, offset, count).nDisksInvolved)
  {
    if i > RangeOf(g, offset, count).nDisksInvolved {
      RestAreEmpty(g, offset, count, i - 1);
      NotVisited(g, offset, count, i - 1);
      var s := Shares(g, offset, count);
      assert s[PieceDisk(g, offset, i - 1)] == 0;
    }
  }

  /** The pieces issued have together as many blocks as the request. */
  lemma {:induction false} PiecesConserve(g: Geometry, offset: nat, count: nat)
    requires g.Valid() && count > 0
    ensures PiecesTotal(g, offset, count, RangeOf(g, offset, count).nDisksInvolved) == count
  {
    var s, e := Shares(g, offset, count), offset / g.strip % g.n;
    RestAreEmpty(g, offset, count, g.n);
    VisitIsPrefix(s, e, g.n);
    SharesArePrefixes(g, offset, count, g.n);
    BelowOnAll(g, offset);
    BelowOnAll(g, offset + count);
  }

  // ---- reads and writes ----

  /** The logical blocks from `offset` on lie one after the other on one disk. */
  ghost predicate Contiguous(g: Geometry, offset: nat, count: nat, at: Location)
    requires g.Valid()
  {
    forall l :: offset <= l < offset + count ==> Locate(g, l) == Location(at.disk, at.block + (l - offset))
  }

  /** raid0_submit_rw_request: the child's base bdev and first block, unless the request crosses a strip. */
  method MapRequest(g: Geometry, offset: nat, count: nat) returns (ok: bool, disk: nat, block: nat)
    requires g.Valid() && count > 0
    ensures ok <==> g.n == 1 || offset / g.strip == (offset + count - 1) / g.strip
    ensures ok ==> disk < g.n && Contiguous(g, offset, count, Location(disk, block))
  {
    var startStrip := offset / g.strip;
    var endStrip := (offset + count - 1) / g.strip;
    if startStrip != endStrip && g.n > 1 {
      return false, 0, 0;
    }
    OneStripContiguous(g, offset, count);
    ok := true;
    var stripInDisk := startStrip / g.n;
    disk := startStrip % g.n;
    var offsetInStrip := offset % g.strip;
    block := stripInDisk * g.strip + offsetInStrip;
  }

  lemma {:induction false} OneStripContiguous(g: Geometry, offset: nat, count: nat)
    requires g.Valid() && count > 0 && (g.n == 1 || offset / g.strip == (offset + count - 1) / g.strip)
    ensures Contiguous(g, offset, count, Locate(g, offset))
  {
    forall l | offset <= l < offset + count
      ensures Locate(g, l) == Location(Locate(g, offset).disk, Locate(g, offset).block + (l - offset))
    {
      if g.n == 1 {
        LocateSingle(g, offset);
        LocateSingle(g, l);
      } else {
        StripsAscend(g.strip, offset, l);
        StripsAscend(g.strip, l, offset + count - 1);
        assert offset / g.strip == l / g.strip;
        LocateSameStrip(g, offset, l);
      }
    }
  }

  lemma {:induction false} LocateSameStrip(g: Geometry, offset: nat, l: nat)
    requires g.Valid() && offset <= l && offset / g.strip == l / g.strip
    ensures Locate(g, l) == Location(Locate(g, offset).disk, Locate(g, offset).block + (l - offset))
  {
    var strip := offset / g.strip;
    assert l % g.strip == offset % g.strip + (l - offset) by {
      DivMod.Split(offset, g.strip);
      DivMod.Split(l, g.strip);
    }
  }

  lemma {:induction false} LocateSingle(g: Geometry, l: nat)
    requires g.Valid() && g.n == 1
    ensures Locate(g, l) == Location(0, l)
  {
    DivMod.Split(l, g.strip);
    DivMod.Unique(l / g.strip, 1, l / g.strip, 0);
  }

  // ---- sizes ----

  /** raid0_start: every base bdev's data size becomes the smallest one, rounded down to strips. */
  method Start(g: Geometry, dataSize: array<nat>) returns (blockcnt: nat)
    requires g.Valid() && dataSize.Length == g.n
    modifies dataSize
    ensures forall d :: 0 <= d < g.n ==> dataSize[d] <= old(dataSize[d])
    ensures forall d :: 0 <= d < g.n ==> dataSize[d] % g.strip == 0 && dataSize[d] * g.n == blockcnt
    ensures exists d :: 0 <= d < g.n && old(dataSize[d]) < dataSize[d] + g.strip
  {
    var least, which := DataSizes.Least(dataSize);
    var size := least / g.strip * g.strip;
    DivMod.Split(least, g.strip);
    DivMod.Compose(least / g.strip, 0, g.strip);
    DataSizes.SetAll(dataSize, size);
    blockcnt := size * g.n;
    assert old(dataSize[which]) < dataSize[which] + g.strip;
  }

  /** With the sizes `Start` chooses, the array's blocks are exactly the blocks of the disks' data regions. */
  lemma {:induction false} BlocksFitExactly(g: Geometry, strips: nat, at: Location)
    requires g.Valid() && at.disk < g.n
    ensures Logical(g, at) < strips * g.strip * g.n <==> at.block < strips * g.strip
  {
    var k, t := at.block / g.strip, at.block % g.strip;
    DivMod.DivBelow(at.block, g.strip, strips);
    DivMod.DivBelow(k * g.n + at.disk, g.n, strips);
    DivMod.Compose(k, at.disk, g.n);
    DivMod.Compose(k * g.n + at.disk, t, g.strip);
    DivMod.DivBelow(Logical(g, at), g.strip, strips * g.n);
    assert strips * g.n * g.strip == strips * g.strip * g.n by { Swap(strips, g.n, g.strip); }
  }

  lemma {:induction false} Swap(a: nat, b: nat, c: nat)
    ensures a * b * c == a * c * b
  {
  }
}
