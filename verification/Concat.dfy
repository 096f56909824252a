/** Base bdevs laid end to end: raid/concat.c. */
module Concat {
  import DivMod
  import opened FanOut

  /** struct concat_block_range */
  datatype BlockRange = BlockRange(start: nat, length: nat)
  {
    function End(): nat { start + length }
  }

  /** Each range starts where the one before it ends. */
  ghost predicate Chained(ranges: seq<BlockRange>)
  {
    && |ranges| > 0 && ranges[0].start == 0
    && forall i :: 0 <= i < |ranges| - 1 ==> ranges[i + 1].start == ranges[i].End()
  }

  function Total(ranges: seq<BlockRange>): nat
    requires |ranges| > 0
  {
    ranges[|ranges| - 1].End()
  }

  lemma {:induction false} StartsAscend(ranges: seq<BlockRange>, i: nat, j: nat)
    requires Chained(ranges) && i < j < |ranges|
    ensures ranges[i].End() <= ranges[j].start
    decreases j - i
  {
    assert ranges[j].start == ranges[j - 1].End();
    if i < j - 1 {
      StartsAscend(ranges, i, j - 1);
    }
  }

  lemma {:induction false} EndsInside(ranges: seq<BlockRange>, i: nat)
    requires Chained(ranges) && i < |ranges|
    ensures ranges[i].End() <= Total(ranges)
  {
    if i < |ranges| - 1 {
      StartsAscend(ranges, i, |ranges| - 1);
    }
  }

  /** concat_start: each data size is rounded down to strips, and the ranges follow one another. */
  method Start(strip: nat, dataSize: array<nat>) returns (ranges: array<BlockRange>, blockcnt: nat)
    requires strip > 0 && dataSize.Length > 0
    modifies dataSize
    ensures fresh(ranges) && ranges.Length == dataSize.Length && Chained(ranges[..]) && blockcnt == Total(ranges[..])
    ensures forall i :: 0 <= i < ranges.Length ==>
              && ranges[i].length == dataSize[i] <= old(dataSize[i]) < dataSize[i] + strip && dataSize[i] % strip == 0
  {
    blockcnt := 0;
    ranges := new BlockRange[dataSize.Length];
    for i := 0 to dataSize.Length
      invariant i > 0 ==> Chained(ranges[..i]) && blockcnt == Total(ranges[..i])
      invariant i == 0 ==> blockcnt == 0
      invariant forall k :: 0 <= k < i ==>
                  && ranges[k].length == dataSize[k] <= old(dataSize[k]) < dataSize[k] + strip
                  && dataSize[k] % strip == 0
      invariant forall k :: i <= k < dataSize.Length ==> dataSize[k] == old(dataSize[k])
    {
      var blocks := Rounded(strip, dataSize[i]);
      dataSize[i] := blocks;
      ghost var before := ranges[..i];
      ranges[i] := BlockRange(blockcnt, blocks);
      blockcnt := blockcnt + blocks;
      assert ranges[..i + 1] == before + [ranges[i]];
    }
    assert ranges[..] == ranges[..ranges.Length];
  }

  function Rounded(strip: nat, size: nat): (r: nat)
    requires strip > 0
    ensures r % strip == 0 && r <= size < r + strip
  {
    DivMod.Compose(size / strip, 0, strip);
    DivMod.Split(size, strip);
    size / strip * strip
  }

  // ---- reads and writes ----

  predicate Holds(r: BlockRange, l: nat)
  {
    r.start <= l < r.End()
  }

  /** At most one range holds a block. */
  lemma {:induction false} HolderUnique(ranges: seq<BlockRange>, l: nat, i: nat, j: nat)
    requires Chained(ranges) && i < |ranges| && j < |ranges| && Holds(ranges[i], l) && Holds(ranges[j], l)
    ensures i == j
  {
    if i < j {
      StartsAscend(ranges, i, j);
    } else if j < i {
      StartsAscend(ranges, j, i);
    }
  }

  /** The scan of concat_submit_rw_request: the one range that holds the offset, empty ranges or not. */
  method Route(ranges: seq<BlockRange>, offset: nat) returns (idx: nat, block: nat)
    requires Chained(ranges) && offset < Total(ranges)
    ensures idx < |ranges| && Holds(ranges[idx], offset) && block == offset - ranges[idx].start
    ensures forall i :: 0 <= i < |ranges| && Holds(ranges[i], offset) ==> i == idx
  {
    var found := -1;
    var i := 0;
    while i < |ranges|
      invariant 0 <= i <= |ranges| && found == i - 1
      invariant i > 0 ==> ranges[i - 1].start <= offset
      decreases |ranges| - i
    {
      if ranges[i].start > offset {
        break;
      }
      found := i;
      i := i + 1;
    }
    idx := found;
    block := offset - ranges[idx].start;
    assert Holds(ranges[idx], offset);
    forall k | 0 <= k < |ranges| && Holds(ranges[k], offset)
      ensures k == idx
    {
      HolderUnique(ranges, offset, k, idx);
    }
  }

  /** Some range holds every block of the array. */
  lemma {:induction false} HolderExists(ranges: seq<BlockRange>, l: nat, n: nat) returns (i: nat)
    requires Chained(ranges) && 0 < n <= |ranges| && l < ranges[n - 1].End()
    ensures i < n && Holds(ranges[i], l)
  {
    if ranges[n - 1].start <= l {
      i := n - 1;
    } else {
      assert ranges[n - 1].start == ranges[n - 2].End();
      i := HolderExists(ranges, l, n - 1);
    }
  }

  /**
   The mapping is one-to-one and onto: each block of the array has exactly one place in the data
   regions, and each place is that of one block.
   */
  lemma {:induction false} MappingBijective(ranges: seq<BlockRange>, disk: nat, block: nat, l: nat)
    requires Chained(ranges) && disk < |ranges|
    ensures block < ranges[disk].length ==>
              && ranges[disk].start + block < Total(ranges)
              && Holds(ranges[disk], ranges[disk].start + block)
    ensures l < Total(ranges) ==>
        exists i :: 0 <= i < |ranges| && Holds(ranges[i], l) && l - ranges[i].start < ranges[i].length
    ensures forall i, j ::
              0 <= i < |ranges| && 0 <= j < |ranges| && Holds(ranges[i], l) && Holds(ranges[j], l) ==> i == j
  {
    EndsInside(ranges, disk);
    if l < Total(ranges) {
      var i := HolderExists(ranges, l, |ranges|);
    }
    forall i, j | 0 <= i < |ranges| && 0 <= j < |ranges| && Holds(ranges[i], l) && Holds(ranges[j], l)
      ensures i == j
    {
      HolderUnique(ranges, l, i, j);
    }
  }

  /** The data sizes are whole strips. */
  ghost predicate WholeStrips(strip: nat, ranges: seq<BlockRange>)
    requires strip > 0
  {
    forall i :: 0 <= i < |ranges| ==> ranges[i].length % strip == 0
  }

  lemma {:induction false} StartsAligned(strip: nat, ranges: seq<BlockRange>, i: nat)
    requires strip > 0 && Chained(ranges) && WholeStrips(strip, ranges) && i < |ranges|
    ensures ranges[i].start % strip == 0
  {
    if i > 0 {
      StartsAligned(strip, ranges, i - 1);
      assert ranges[i].start == ranges[i - 1].End();
      SumAligned(strip, ranges[i - 1].start, ranges[i - 1].length);
    } else {
      DivMod.Unique(0, strip, 0, 0);
    }
  }

  lemma {:induction false} SumAligned(m: nat, a: nat, b: nat)
    requires m > 0 && a % m == 0 && b % m == 0
    ensures (a + b) % m == 0
  {
    DivMod.Split(a, m);
    DivMod.Split(b, m);
    assert (a / m + b / m) * m == a / m * m + b / m * m;
    DivMod.Unique(a + b, m, a / m + b / m, 0);
  }

  /** A request inside one strip never crosses a base bdev. */
  lemma {:induction false} OneStripOneBdev(strip: nat, ranges: seq<BlockRange>, i: nat, offset: nat, count: nat)
    requires strip > 0 && Chained(ranges) && WholeStrips(strip, ranges) && i < |ranges| && Holds(ranges[i], offset)
    requires count > 0 && offset / strip == (offset + count - 1) / strip
    ensures offset + count <= ranges[i].End()
  {
    StartsAligned(strip, ranges, i);
    var end := ranges[i].End();
    SumAligned(strip, ranges[i].start, ranges[i].length);
    DivMod.Split(end, strip);
    DivMod.DivBelow(offset, strip, end / strip);
    DivMod.DivBelow(offset + count - 1, strip, end / strip);
  }

  // ---- flush and unmap ----

  /** The first pass: the base bdevs that hold the first and the last block of the request. */
  method FindEnds(ranges: seq<BlockRange>, offset: nat, count: nat) returns (startIdx: nat, stopIdx: nat)
    requires InArray(ranges, offset, count)
    ensures Ends(ranges, offset, count, startIdx, stopIdx)
  {
    var o, num := offset, count;
    var first, last := -1, -1;
    var i := 0;
    while i < |ranges|
      invariant 0 <= i <= |ranges| && last == -1 && o + num == offset + count
      invariant first == -1 ==> o == offset && (i > 0 ==> ranges[i - 1].End() <= offset)
      invariant first >= 0 ==>
                  && 0 < i && 0 <= first < i && Holds(ranges[first], offset) && num > 0 && o == ranges[i - 1].End()
      decreases |ranges| - i
    {
      assert i > 0 ==> ranges[i].start == ranges[i - 1].End();
      if o >= ranges[i].End() {
        i := i + 1;
        continue;
      }
      if first == -1 {
        first := i;
      } else {
        assert o == ranges[i].start;
      }
      var block := o - ranges[i].start;
      var blocks := Min(num, ranges[i].length - block);
      o := o + blocks;
      num := num - blocks;
      if num == 0 {
        last := i;
        break;
      }
      i := i + 1;
    }
    assert first >= 0 && last >= 0;
    startIdx, stopIdx := first, last;
  }

  function Min(a: nat, b: nat): nat
  {
    if a < b then a else b
  }

  function Max(a: nat, b: nat): nat
  {
    if a < b then b else a
  }

  /** A request that starts inside the array and does not reach past it. */
  ghost predicate InArray(ranges: seq<BlockRange>, offset: nat, count: nat)
  {
    Chained(ranges) && offset < Total(ranges) && offset + count <= Total(ranges)
  }

  ghost predicate Ends(ranges: seq<BlockRange>, offset: nat, count: nat, startIdx: nat, stopIdx: nat)
  {
    && startIdx <= stopIdx < |ranges|
    && Holds(ranges[startIdx], offset)
    && ranges[stopIdx].start <= offset + count <= ranges[stopIdx].End()
    && (stopIdx > startIdx ==> ranges[stopIdx].start < offset + count)
    && ranges[stopIdx].length > 0
  }

  /** The ends are determined by the request. */
  lemma {:induction false} EndsUnique(
    ranges: seq<BlockRange>, offset: nat, count: nat, a: nat, b: nat, a': nat, b': nat)
    requires Chained(ranges) && Ends(ranges, offset, count, a, b) && Ends(ranges, offset, count, a', b')
    ensures a == a' && b == b'
  {
    HolderUnique(ranges, offset, a, a');
    if b < b' {
      StartsAscend(ranges, b, b');
    } else if b' < b {
      StartsAscend(ranges, b', b);
    }
  }

  /** The part of the request on base bdev `i`, in blocks of the array. */
  function PieceBegin(ranges: seq<BlockRange>, offset: nat, i: nat): nat
    requires i < |ranges|
  {
    Max(offset, ranges[i].start)
  }

  function PieceEnd(ranges: seq<BlockRange>, offset: nat, count: nat, i: nat): nat
    requires i < |ranges|
  {
    Min(offset + count, ranges[i].End())
  }

  lemma {:induction false} PieceOrder(ranges: seq<BlockRange>, offset: nat, count: nat, a: nat, b: nat, i: nat)
    requires InArray(ranges, offset, count) && Ends(ranges, offset, count, a, b) && a <= i <= b
    ensures ranges[i].start <= PieceBegin(ranges, offset, i) <= PieceEnd(ranges, offset, count, i) <= ranges[i].End()
    ensures i == a ==> PieceBegin(ranges, offset, i) == offset
    ensures i > a ==> PieceBegin(ranges, offset, i) == ranges[i].start && offset <= ranges[i].start
    ensures i < b ==> PieceEnd(ranges, offset, count, i) == ranges[i].End() && ranges[i].End() < offset + count
    ensures i == b ==> PieceEnd(ranges, offset, count, i) == offset + count
  {
    if a < i {
      StartsAscend(ranges, a, i);
    }
    if i < b {
      StartsAscend(ranges, i, b);
    }
  }

  /** The pieces tile the request in order, each within its base bdev. */
  lemma {:induction false} PiecesTile(ranges: seq<BlockRange>, offset: nat, count: nat, a: nat, b: nat)
    requires InArray(ranges, offset, count) && Ends(ranges, offset, count, a, b)
    ensures PieceBegin(ranges, offset, a) == offset && PieceEnd(ranges, offset, count, b) == offset + count
    ensures forall i :: a <= i < b ==> PieceEnd(ranges, offset, count, i) == PieceBegin(ranges, offset, i + 1)
    ensures forall i :: a <= i <= b ==>
              ranges[i].start <= PieceBegin(ranges, offset, i) <= PieceEnd(ranges, offset, count, i) <= ranges[i].End()
  {
    PieceOrder(ranges, offset, count, a, b, a);
    PieceOrder(ranges, offset, count, a, b, b);
    forall i | a <= i < b
      ensures PieceEnd(ranges, offset, count, i) == PieceBegin(ranges, offset, i + 1)
    {
      PieceOrder(ranges, offset, count, a, b, i);
      PieceOrder(ranges, offset, count, a, b, i + 1);
      assert ranges[i + 1].start == ranges[i].End();
    }
    forall i | a <= i <= b
      ensures ranges[i].start <= PieceBegin(ranges, offset, i) <= PieceEnd(ranges, offset, count, i) <= ranges[i].End()
    {
      PieceOrder(ranges, offset, count, a, b, i);
    }
  }

  function PieceOf(ranges: seq<BlockRange>, offset: nat, count: nat, i: nat): Piece
    requires i < |ranges|
  {
    Piece(i, PieceBegin(ranges, offset, i) - ranges[i].start,
          PieceEnd(ranges, offset, count, i) - PieceBegin(ranges, offset, i))
  }

  /** The assertions of the second pass at base bdev `i`. */
  ghost predicate SecondPassAsserts(ranges: seq<BlockRange>, offset: nat, i: nat)
    requires i < |ranges|
  {
    Holds(ranges[i], PieceBegin(ranges, offset, i))
  }

  /**
   The second pass visits the base bdevs the first pass skipped: its assertions hold if and only if
   no base bdev strictly between the two ends is empty.
   */
  lemma {:induction false} SecondPassIff(ranges: seq<BlockRange>, offset: nat, count: nat, a: nat, b: nat)
    requires InArray(ranges, offset, count) && Ends(ranges, offset, count, a, b)
    ensures (forall i :: a <= i <= b ==> SecondPassAsserts(ranges, offset, i))
            <==> forall i :: a < i < b ==> ranges[i].length > 0
  {
    forall i | a <= i <= b
      ensures SecondPassAsserts(ranges, offset, i) <==> ranges[i].length > 0
    {
      PieceOrder(ranges, offset, count, a, b, i);
    }
    assert ranges[a].length > 0 && ranges[b].length > 0;
  }

  /** The assertions can fail: the middle one of three base bdevs is smaller than a strip. */
  lemma {:induction false} SecondPassCanFail()
    ensures var ranges := [BlockRange(0, 4), BlockRange(4, 0), BlockRange(4, 4)];
            && InArray(ranges, 2, 4) && Ends(ranges, 2, 4, 0, 2)
            && !SecondPassAsserts(ranges, 2, 1)
  {
  }
}
