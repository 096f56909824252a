/** Scatter/gather lists and the cut of the caller's list into per-disk chunks: raid/raid5f.c. */
module Iovecs {
  import opened Layout
  import DivMod

  datatype Iovec = Iovec(base: nat, len: nat)

  /** Bytes described by a list. */
  function Total(l: seq<Iovec>): nat
  {
    if l == [] then 0 else l[0].len + Total(l[1..])
  }

  /** The addresses of one piece, in order. */
  function Piece(base: nat, len: nat): (r: seq<nat>)
    ensures |r| == len && forall i :: 0 <= i < len ==> r[i] == base + i
  {
    seq(len, i requires 0 <= i => base + i)
  }

  /** The byte addresses a list describes, in order. */
  function Addrs(l: seq<Iovec>): (r: seq<nat>)
    ensures |r| == Total(l)
  {
    if l == [] then [] else Piece(l[0].base, l[0].len) + Addrs(l[1..])
  }

  lemma {:induction false} TotalNext(l: seq<Iovec>, i: nat)
    requires i < |l|
    ensures Total(l[..i + 1]) == Total(l[..i]) + l[i].len
  {
    if i == 0 {
      assert l[..1][1..] == [];
    } else {
      TotalNext(l[1..], i - 1);
      assert l[..i + 1][1..] == l[1..][..i] && l[..i][1..] == l[1..][..i - 1];
    }
  }

  lemma {:induction false} TotalPrefix(l: seq<Iovec>, i: nat)
    requires i <= |l|
    ensures Total(l[..i]) <= Total(l)
    decreases |l| - i
  {
    if i < |l| {
      TotalNext(l, i);
      TotalPrefix(l, i + 1);
    } else {
      assert l[..i] == l;
    }
  }

  lemma {:induction false} Assoc<T>(a: seq<T>, b: seq<T>, c: seq<T>)
    ensures a + (b + c) == (a + b) + c
  {
  }

  lemma {:induction false} PastFirst<T>(a: seq<T>, b: seq<T>, t: nat, m: nat)
    requires t + m <= |b|
    ensures (a + b)[|a| + t..|a| + t + m] == b[t..t + m]
  {
  }

  lemma {:induction false} InFirst<T>(a: seq<T>, b: seq<T>, t: nat, m: nat)
    requires t + m <= |a|
    ensures (a + b)[t..t + m] == a[t..t + m]
  {
  }

  lemma {:induction false} SubPiece(base: nat, len: nat, o: nat, m: nat)
    requires o + m <= len
    ensures Piece(base, len)[o..o + m] == Piece(base + o, m)
  {
  }

  lemma {:induction false} AddrsConcat(a: seq<Iovec>, b: seq<Iovec>)
    ensures Addrs(a + b) == Addrs(a) + Addrs(b)
  {
    if a == [] {
      assert a + b == b;
    } else {
      AddrsConcat(a[1..], b);
      assert (a + b)[1..] == a[1..] + b;
      Assoc(Piece(a[0].base, a[0].len), Addrs(a[1..]), Addrs(b));
    }
  }

  lemma {:induction false} AddrsAppend(l: seq<Iovec>, v: Iovec)
    ensures Addrs(l + [v]) == Addrs(l) + Piece(v.base, v.len)
  {
    AddrsConcat(l, [v]);
    assert [v][1..] == [];
    assert Addrs([v]) == Piece(v.base, v.len) + [];
  }

  /** Where the bytes of the i-th piece sit in the address sequence. */
  lemma {:induction false} AddrsOfPiece(l: seq<Iovec>, i: nat, o: nat, m: nat)
    requires i < |l| && o + m <= l[i].len
    ensures Total(l[..i]) + o + m <= Total(l)
    ensures Addrs(l)[Total(l[..i]) + o..Total(l[..i]) + o + m] == Piece(l[i].base + o, m)
  {
    if i == 0 {
      InFirst(Piece(l[0].base, l[0].len), Addrs(l[1..]), o, m);
      SubPiece(l[0].base, l[0].len, o, m);
    } else {
      AddrsOfPiece(l[1..], i - 1, o, m);
      assert l[..i][1..] == l[1..][..i - 1];
      PastFirst(Piece(l[0].base, l[0].len), Addrs(l[1..]), Total(l[1..][..i - 1]) + o, m);
    }
  }

  /** Appending a part of the i-th piece to a list that ends where the part begins. */
  lemma {:induction false} TakePiece(l: seq<Iovec>, i: nat, o: nat, m: nat, from: nat, list: seq<Iovec>)
    requires i < |l| && o + m <= l[i].len && from <= Total(l[..i]) + o <= Total(l)
    requires Addrs(list) == Addrs(l)[from..Total(l[..i]) + o]
    ensures Total(l[..i + 1]) == Total(l[..i]) + l[i].len <= Total(l)
    ensures Total(l[..i]) + o + m <= Total(l)
    ensures Addrs(list + [Iovec(l[i].base + o, m)]) == Addrs(l)[from..Total(l[..i]) + o + m]
  {
    TotalNext(l, i);
    TotalPrefix(l, i + 1);
    AddrsOfPiece(l, i, o, m);
    AddrsAppend(list, Iovec(l[i].base + o, m));
    var mid := Total(l[..i]) + o;
    SliceJoin(Addrs(l), from, mid, mid + m);
  }

  lemma {:induction false} SliceJoin(s: seq<nat>, i: nat, j: nat, k: nat)
    requires i <= j <= k <= |s|
    ensures s[i..j] + s[j..k] == s[i..k]
  {
  }

  predicate AllPositive(l: seq<Iovec>)
  {
    forall i :: 0 <= i < |l| ==> l[i].len > 0
  }

  /** First byte of strip `k`, strips being `strip` bytes long. */
  function Start(strip: nat, k: nat): nat
  {
    if k == 0 then 0 else Start(strip, k - 1) + strip
  }

  lemma {:induction false} StartIsProduct(strip: nat, k: nat)
    ensures Start(strip, k) == strip * k
  {
    if k > 0 {
      StartIsProduct(strip, k - 1);
      DivMod.MulStep(strip, k);
    }
  }

  lemma {:induction false} StartMono(strip: nat, j: nat, k: nat)
    requires j <= k
    ensures Start(strip, j) <= Start(strip, k)
    ensures Start(strip, j + 1) == Start(strip, j) + strip
  {
    if j < k {
      StartMono(strip, j, k - 1);
    }
  }

  /** The caller supplied bytes for `chunks` strips. */
  ghost predicate Enough(l: seq<Iovec>, strip: nat, chunks: nat)
  {
    Start(strip, chunks) <= Total(l)
  }

  lemma {:induction false} TooShort(l: seq<Iovec>, strip: nat, k: nat, chunks: nat)
    requires k < chunks && Total(l) < Start(strip, k) + strip
    ensures !Enough(l, strip, chunks)
  {
    StartMono(strip, k, k);
    StartMono(strip, k + 1, chunks);
  }

  datatype Ret = Ok | Inval | NoMem

  /** __NEXT_DATA_CHUNK */
  function NextData(parity: nat, c: nat): nat
  {
    if c == parity then c + 1 else c
  }

  /** The iovec lists of a stripe request, one per chunk; lists are sequences, room is the allocated length. */
  class StripeChunks {
    const n: nat
    const iovs: array<seq<Iovec>>
    const room: array<nat>

    ghost predicate Valid()
      reads this, iovs, room
    {
      n >= 3 && iovs.Length == n && room.Length == n
    }

    /** The lists of the first `k` data chunks, in ascending disk order. */
    ghost function DataLists(parity: nat, k: nat): (r: seq<seq<Iovec>>)
      requires Valid() && parity < n && k <= n - 1
      reads this, iovs, room
      ensures |r| == k && forall j :: 0 <= j < k ==> r[j] == iovs[DataIndex(parity, j)]
    {
      seq(k, j requires 0 <= j < k reads iovs => iovs[DataIndex(parity, j)])
    }

    constructor (n: nat)
      requires n >= 3
      ensures Valid() && fresh(iovs) && fresh(room) && this.n == n
      ensures forall c :: 0 <= c < n ==> iovs[c] == [] && room[c] == 4
    {
      this.n := n;
      iovs := new seq<Iovec>[n](_ => []);
      room := new nat[n](_ => 4);
    }

    /** raid5f_chunk_set_iovcnt: grows the list's room if needed; `alloc` says whether realloc succeeds. */
    method SetIovcnt(c: nat, count: nat, alloc: bool) returns (ok: bool)
      requires Valid() && c < n
      modifies iovs, room
      ensures Valid()
      ensures ok == (count <= old(room[c]) || alloc)
      ensures room[c] >= old(room[c]) && (ok ==> room[c] >= count && iovs[c] == [])
      ensures forall d :: 0 <= d < n && d != c ==> iovs[d] == old(iovs[d]) && room[d] == old(room[d])
      ensures !ok ==> iovs[c] == old(iovs[c]) && room[c] == old(room[c])
    {
      if count > room[c] {
        if !alloc {
          return false;
        }
        room[c] := count;
      }
      iovs[c] := [];
      return true;
    }

    /** First loop of the mapping: how many caller iovecs the next strip touches. */
    method CountIovs(raidIovs: seq<Iovec>, idx: nat, iovOffset: nat, target: nat) returns (count: nat)
      requires idx <= |raidIovs| && iovOffset == Total(raidIovs[..idx]) && iovOffset < target
      ensures idx + count <= |raidIovs|
      ensures forall j :: idx <= j < idx + count ==> Total(raidIovs[..j]) < target
      ensures Total(raidIovs[..idx + count]) >= target || idx + count == |raidIovs|
    {
      count := 0;
      var off := iovOffset;
      var i := idx;
      while i < |raidIovs|
        invariant idx <= i <= |raidIovs| && count == i - idx && off == Total(raidIovs[..i]) < target
        invariant forall j :: idx <= j <= i ==> Total(raidIovs[..j]) < target
      {
        count := count + 1;
        TotalNext(raidIovs, i);
        off := off + raidIovs[i].len;
        if off >= target {
          break;
        }
        i := i + 1;
      }
    }

    /** One slice of a chunk's list, and the cursors moved past it. */
    method FillSlice(c: nat, raidIovs: seq<Iovec>, idx0: nat, offset0: nat, iovOffset0: nat, left0: nat)
      returns (idx: nat, offset: nat, iovOffset: nat, left: nat)
      requires Valid() && c < n && SliceFits(raidIovs, Cursors(idx0, offset0, iovOffset0, left0))
      modifies iovs
      ensures Valid() && forall d :: 0 <= d < n && d != c ==> iovs[d] == old(iovs[d])
      ensures iovs[c] == old(iovs[c]) + [Slice(raidIovs, Cursors(idx0, offset0, iovOffset0, left0))]
      ensures Cursors(idx, offset, iovOffset, left) == Advance(raidIovs, Cursors(idx0, offset0, iovOffset0, left0))
    {
      idx, offset, iovOffset, left := idx0, offset0, iovOffset0, left0;
      var v := raidIovs[idx];
      var skip := offset - iovOffset;
      var piece := Iovec(v.base + skip, if left < v.len - skip then left else v.len - skip);
      iovs[c] := iovs[c] + [piece];
      offset := offset + piece.len;
      left := left - piece.len;
      if offset >= iovOffset + v.len {
        idx := idx + 1;
        iovOffset := iovOffset + v.len;
      }
    }

    /** Second loop of the mapping: fills one chunk's list and moves the three cursors. */
    method FillChunk(c: nat, raidIovs: seq<Iovec>, count: nat, strip: nat, idx0: nat, offset0: nat, iovOffset0: nat)
      returns (idx: nat, offset: nat, iovOffset: nat, left: nat)
      requires Valid() && c < n && iovs[c] == [] && count <= room[c]
      requires Cursor(raidIovs, idx0, offset0, iovOffset0)
      requires Touches(raidIovs, idx0, offset0, count, strip)
      modifies iovs
      ensures Valid() && forall d :: 0 <= d < n && d != c ==> iovs[d] == old(iovs[d])
      ensures offset0 <= offset <= Total(raidIovs) && left == strip - (offset - offset0)
      ensures Addrs(iovs[c]) == Addrs(raidIovs)[offset0..offset]
      ensures |iovs[c]| == count && (AllPositive(raidIovs) ==> AllPositive(iovs[c]))
      ensures left == 0 <==> offset0 + strip <= Total(raidIovs)
      ensures Cursor(raidIovs, idx, offset, iovOffset)
    {
      idx, offset, iovOffset, left := idx0, offset0, iovOffset0, strip;
      FillStart(raidIovs, idx0, offset0, iovOffset0, count, strip);
      ghost var list := iovs[c];
      var i := 0;
      while i < count
        invariant 0 <= i <= count
        invariant Filled(raidIovs, idx0, offset0, count, strip, list, Cursors(idx, offset, iovOffset, left))
        invariant iovs[c] == list && |list| == i
        invariant forall d :: 0 <= d < n && d != c ==> iovs[d] == old(iovs[d])
      {
        FillStep(raidIovs, idx0, offset0, count, strip, list, Cursors(idx, offset, iovOffset, left));
        list := list + [Slice(raidIovs, Cursors(idx, offset, iovOffset, left))];
        idx, offset, iovOffset, left := FillSlice(c, raidIovs, idx, offset, iovOffset, left);
        i := i + 1;
      }
      FillDone(raidIovs, idx0, offset0, count, strip, list, Cursors(idx, offset, iovOffset, left));
    }

    /** One round of the mapping's outer loop: the next strip of the caller's bytes goes to chunk `c`. */
    method MapChunk(c: nat, raidIovs: seq<Iovec>, strip: nat, alloc: bool, idx0: nat, offset0: nat, iovOffset0: nat)
      returns (ret: Ret, idx: nat, offset: nat, iovOffset: nat)
      requires Valid() && c < n && strip > 0 && room[c] >= 1
      requires Cursor(raidIovs, idx0, offset0, iovOffset0) && offset0 <= Total(raidIovs)
      modifies iovs, room
      ensures Valid() && room[c] >= 1
      ensures forall d :: 0 <= d < n && d != c ==> iovs[d] == old(iovs[d]) && room[d] == old(room[d])
      ensures ret == NoMem ==> !alloc
      ensures ret == Inval ==> Total(raidIovs) < offset0 + strip
      ensures ret == Ok ==> offset == offset0 + strip && Cursor(raidIovs, idx, offset, iovOffset)
      ensures ret == Ok ==> Mapped(raidIovs, strip, offset0, iovs[c])
    {
      idx, offset, iovOffset := idx0, offset0, iovOffset0;
      var count := CountIovs(raidIovs, idx, iovOffset, offset + strip);
      var ok := SetIovcnt(c, count, alloc);
      if !ok {
        return NoMem, idx, offset, iovOffset;
      }
      var left;
      idx, offset, iovOffset, left := FillChunk(c, raidIovs, count, strip, idx, offset, iovOffset);
      ret := if left > 0 then Inval else Ok;
    }

    /** State of the outer loop: `k` chunks are done and the cursors stand at the next strip. */
    ghost predicate MappedTo(
      raidIovs: seq<Iovec>, strip: nat, parity: nat, k: nat, idx: nat, offset: nat, iovOffset: nat)
      reads this, iovs, room
    {
      && Valid() && parity < n && k <= n - 1 && strip > 0
      && (forall d :: 0 <= d < n ==> room[d] >= 1)
      && offset == Start(strip, k) <= Total(raidIovs) && Cursor(raidIovs, idx, offset, iovOffset)
      && Tiles(raidIovs, strip, DataLists(parity, k))
    }

    lemma {:induction false} DataListsNext(parity: nat, k: nat, before: seq<seq<Iovec>>)
      requires Valid() && parity < n && k < n - 1 && |before| == k
      requires forall j :: 0 <= j < k ==> iovs[DataIndex(parity, j)] == before[j]
      ensures DataLists(parity, k + 1) == before + [iovs[DataIndex(parity, k)]]
    {
    }

    lemma {:induction false} NextMapped(
      raidIovs: seq<Iovec>, strip: nat, parity: nat, k: nat, before: seq<seq<Iovec>>, idx: nat, offset: nat,
      iovOffset: nat)
      requires Valid() && parity < n && k < n - 1 && |before| == k && strip > 0
      requires forall d :: 0 <= d < n ==> room[d] >= 1
      requires forall j :: 0 <= j < k ==> iovs[DataIndex(parity, j)] == before[j]
      requires Tiles(raidIovs, strip, before)
      requires Mapped(raidIovs, strip, Start(strip, k), iovs[DataIndex(parity, k)])
      requires offset == Start(strip, k) + strip && Cursor(raidIovs, idx, offset, iovOffset)
      ensures MappedTo(raidIovs, strip, parity, k + 1, idx, offset, iovOffset)
    {
      DataListsNext(parity, k, before);
      TilesNext(raidIovs, strip, before, iovs[DataIndex(parity, k)]);
    }

    method MapNext(ghost k: nat, ghost parity: nat, c: nat, raidIovs: seq<Iovec>, strip: nat, alloc: bool,
                   idx0: nat, offset0: nat, iovOffset0: nat)
      returns (ret: Ret, idx: nat, offset: nat, iovOffset: nat)
      requires MappedTo(raidIovs, strip, parity, k, idx0, offset0, iovOffset0)
      requires k < n - 1 && c == DataIndex(parity, k)
      modifies iovs, room
      ensures Valid()
      ensures ret == NoMem ==> !alloc
      ensures ret == Inval ==> !Enough(raidIovs, strip, n - 1)
      ensures ret == Ok ==> MappedTo(raidIovs, strip, parity, k + 1, idx, offset, iovOffset)
    {
      ghost var before := DataLists(parity, k);
      ret, idx, offset, iovOffset := MapChunk(c, raidIovs, strip, alloc, idx0, offset0, iovOffset0);
      if ret == Ok {
        NextMapped(raidIovs, strip, parity, k, before, idx, offset, iovOffset);
      } else if ret == Inval {
        TooShort(raidIovs, strip, k, n - 1);
      }
    }

    /**
     raid5f_stripe_request_map_iovecs. On success the data chunks, in ascending disk order, get
     consecutive strips of the caller's bytes and the parity chunk gets the parity buffer. Apart
     from allocation failure the call is rejected exactly when the caller supplied too few bytes.
     */
    method MapIovecs(raidIovs: seq<Iovec>, parity: nat, strip: nat, parityBuf: nat, alloc: seq<bool>)
      returns (ret: Ret)
      requires Valid() && parity < n && strip > 0 && |alloc| == n
      requires forall c :: 0 <= c < n ==> room[c] >= 1
      modifies iovs, room
      ensures Valid()
      ensures ret == Ok ==> Enough(raidIovs, strip, n - 1)
      ensures ret == Ok ==> Tiles(raidIovs, strip, DataLists(parity, n - 1))
      ensures ret == Ok ==> iovs[parity] == [Iovec(parityBuf, strip)]
      ensures ret == Inval ==> !Enough(raidIovs, strip, n - 1)
      ensures ret == NoMem ==> exists c :: 0 <= c < n && !alloc[c]
    {
      var idx, offset, iovOffset := 0, 0, 0;
      var c := NextData(parity, 0);
      ghost var k := 0;
      assert raidIovs[..0] == [];
      while c < n
        invariant 0 <= k <= n - 1 && c == DataIndex(parity, k)
        invariant MappedTo(raidIovs, strip, parity, k, idx, offset, iovOffset)
        decreases n - c
      {
        ret, idx, offset, iovOffset := MapNext(k, parity, c, raidIovs, strip, alloc[c], idx, offset, iovOffset);
        if ret != Ok {
          return;
        }
        c := NextData(parity, c + 1);
        k := k + 1;
      }
      ghost var lists := DataLists(parity, n - 1);
      iovs[parity] := [Iovec(parityBuf, strip)];
      assert DataLists(parity, n - 1) == lists;
      return Ok;
    }
  }

  /** The cursors point into the current caller iovec: before its end, or at its start. */
  ghost predicate InPiece(l: seq<Iovec>, i: nat, skip: nat)
    requires i < |l|
  {
    skip == 0 || skip < l[i].len
  }

  ghost predicate Cursor(l: seq<Iovec>, idx: nat, offset: nat, iovOffset: nat)
  {
    && idx <= |l| && iovOffset == Total(l[..idx]) && iovOffset <= offset
    && if idx < |l| then InPiece(l, idx, offset - iovOffset) else offset == iovOffset
  }

  /** The `count` iovecs from `idx` on are those a strip starting at `offset` touches. */
  ghost predicate Touches(l: seq<Iovec>, idx: nat, offset: nat, count: nat, strip: nat)
  {
    && strip > 0 && offset <= Total(l) && idx + count <= |l|
    && (forall j :: idx <= j < idx + count ==> Total(l[..j]) < offset + strip)
    && (Total(l[..idx + count]) >= offset + strip || idx + count == |l|)
  }

  /** The cursors of the filling loop: caller iovec, byte, first byte of that iovec, bytes still wanted. */
  datatype Cursors = Cursors(idx: nat, offset: nat, iovOffset: nat, left: nat)

  ghost predicate SliceFits(l: seq<Iovec>, cur: Cursors)
  {
    cur.idx < |l| && cur.iovOffset <= cur.offset && cur.offset - cur.iovOffset <= l[cur.idx].len
  }

  /** The next slice: what is left of the iovec or of the strip. */
  ghost function Slice(l: seq<Iovec>, cur: Cursors): Iovec
    requires SliceFits(l, cur)
  {
    var skip := cur.offset - cur.iovOffset;
    var rest := l[cur.idx].len - skip;
    Iovec(l[cur.idx].base + skip, if cur.left < rest then cur.left else rest)
  }

  ghost function Advance(l: seq<Iovec>, cur: Cursors): Cursors
    requires SliceFits(l, cur)
  {
    var m := Slice(l, cur).len;
    var whole := cur.offset + m >= cur.iovOffset + l[cur.idx].len;
    Cursors(if whole then cur.idx + 1 else cur.idx, cur.offset + m,
            if whole then cur.iovOffset + l[cur.idx].len else cur.iovOffset, cur.left - m)
  }

  /** State of the filling loop: where the cursors stand after `done` of `count` slices. */
  ghost predicate FilledTo(l: seq<Iovec>, idx0: nat, offset0: nat, count: nat, strip: nat, done: nat, cur: Cursors)
  {
    && done <= count
    && offset0 <= cur.offset <= Total(l) && cur.left == strip - (cur.offset - offset0)
    && Cursor(l, cur.idx, cur.offset, cur.iovOffset)
    && (if done < count then cur.idx == idx0 + done && cur.left > 0
        else cur.left == 0 || (cur.idx == |l| && cur.offset == Total(l)))
  }

  /** `list` holds the bytes from `offset0` to `offset`. */
  ghost predicate ListHolds(l: seq<Iovec>, offset0: nat, list: seq<Iovec>, offset: nat)
  {
    && offset0 <= offset <= Total(l) && Addrs(list) == Addrs(l)[offset0..offset]
    && (AllPositive(l) ==> AllPositive(list))
  }

  ghost predicate Filled(l: seq<Iovec>, idx0: nat, offset0: nat, count: nat, strip: nat, list: seq<Iovec>, cur: Cursors)
  {
    FilledTo(l, idx0, offset0, count, strip, |list|, cur) && ListHolds(l, offset0, list, cur.offset)
  }

  lemma {:induction false} FillStart(l: seq<Iovec>, idx0: nat, offset0: nat, iovOffset0: nat, count: nat, strip: nat)
    requires Cursor(l, idx0, offset0, iovOffset0) && Touches(l, idx0, offset0, count, strip)
    ensures Filled(l, idx0, offset0, count, strip, [], Cursors(idx0, offset0, iovOffset0, strip))
  {
    assert l[..|l|] == l;
  }

  lemma {:induction false} FillDone(
    l: seq<Iovec>, idx0: nat, offset0: nat, count: nat, strip: nat, list: seq<Iovec>, cur: Cursors)
    requires Filled(l, idx0, offset0, count, strip, list, cur) && |list| == count
    ensures cur.left == 0 <==> offset0 + strip <= Total(l)
  {
  }

  lemma {:induction false} CursorsStep(
    l: seq<Iovec>, idx0: nat, offset0: nat, count: nat, strip: nat, done: nat, cur: Cursors)
    requires Touches(l, idx0, offset0, count, strip) && done < count
    requires FilledTo(l, idx0, offset0, count, strip, done, cur)
    ensures SliceFits(l, cur)
    ensures FilledTo(l, idx0, offset0, count, strip, done + 1, Advance(l, cur))
  {
    assert l[..|l|] == l;
    TotalNext(l, cur.idx);
    TotalPrefix(l, cur.idx + 1);
  }

  lemma {:induction false} ListStep(l: seq<Iovec>, offset0: nat, list: seq<Iovec>, cur: Cursors)
    requires SliceFits(l, cur) && Cursor(l, cur.idx, cur.offset, cur.iovOffset) && cur.left > 0
    requires ListHolds(l, offset0, list, cur.offset)
    ensures ListHolds(l, offset0, list + [Slice(l, cur)], Advance(l, cur).offset)
  {
    var o, m := cur.offset - cur.iovOffset, Slice(l, cur).len;
    assert Slice(l, cur) == Iovec(l[cur.idx].base + o, m) && Advance(l, cur).offset == Total(l[..cur.idx]) + o + m;
    TakePiece(l, cur.idx, o, m, offset0, list);
    if AllPositive(l) {
      PositiveStep(l, list, cur);
    }
  }

  lemma {:induction false} PositiveStep(l: seq<Iovec>, list: seq<Iovec>, cur: Cursors)
    requires SliceFits(l, cur) && InPiece(l, cur.idx, cur.offset - cur.iovOffset) && cur.left > 0
    requires AllPositive(l) && AllPositive(list)
    ensures AllPositive(list + [Slice(l, cur)])
  {
    assert l[cur.idx].len > 0;
  }

  lemma {:induction false} FillStep(
    l: seq<Iovec>, idx0: nat, offset0: nat, count: nat, strip: nat, list: seq<Iovec>, cur: Cursors)
    requires Touches(l, idx0, offset0, count, strip) && |list| < count
    requires Filled(l, idx0, offset0, count, strip, list, cur)
    ensures SliceFits(l, cur)
    ensures Filled(l, idx0, offset0, count, strip, list + [Slice(l, cur)], Advance(l, cur))
  {
    CursorsStep(l, idx0, offset0, count, strip, |list|, cur);
    ListStep(l, offset0, list, cur);
  }

  /** The list holds the strip of the caller's bytes at `from`, in non-empty pieces if the caller's are. */
  ghost predicate Mapped(raidIovs: seq<Iovec>, strip: nat, from: nat, list: seq<Iovec>)
  {
    && from + strip <= Total(raidIovs)
    && Addrs(list) == Addrs(raidIovs)[from..from + strip]
    && (AllPositive(raidIovs) ==> AllPositive(list))
  }

  /** List `j` holds strip `j` of the caller's bytes, for all lists. */
  ghost predicate Tiles(raidIovs: seq<Iovec>, strip: nat, lists: seq<seq<Iovec>>)
  {
    lists == [] ||
    (var k := |lists| - 1;
     Tiles(raidIovs, strip, lists[..k]) && Mapped(raidIovs, strip, Start(strip, k), lists[k]))
  }

  lemma {:induction false} TilesNext(raidIovs: seq<Iovec>, strip: nat, lists: seq<seq<Iovec>>, list: seq<Iovec>)
    requires Tiles(raidIovs, strip, lists) && Mapped(raidIovs, strip, Start(strip, |lists|), list)
    ensures Tiles(raidIovs, strip, lists + [list])
  {
    assert (lists + [list])[..|lists|] == lists;
  }

  lemma {:induction false} TilesAt(raidIovs: seq<Iovec>, strip: nat, lists: seq<seq<Iovec>>, k: nat)
    requires Tiles(raidIovs, strip, lists) && k < |lists|
    ensures Mapped(raidIovs, strip, strip * k, lists[k])
  {
    if k < |lists| - 1 {
      TilesAt(raidIovs, strip, lists[..|lists| - 1], k);
    } else {
      StartIsProduct(strip, k);
    }
  }

  function Flatten<T>(lists: seq<seq<T>>): seq<T>
  {
    if lists == [] then [] else Flatten(lists[..|lists| - 1]) + lists[|lists| - 1]
  }

  /** Put together, the chunks are the caller's leading strips: no gap, overlap or reordering. */
  lemma {:induction false} TilesAll(raidIovs: seq<Iovec>, strip: nat, lists: seq<seq<Iovec>>)
    requires Tiles(raidIovs, strip, lists)
    ensures Enough(raidIovs, strip, |lists|)
    ensures Addrs(Flatten(lists)) == Addrs(raidIovs)[..Start(strip, |lists|)]
  {
    if lists != [] {
      var k := |lists| - 1;
      TilesAll(raidIovs, strip, lists[..k]);
      AddrsConcat(Flatten(lists[..k]), lists[k]);
    }
  }
}
