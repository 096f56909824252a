/** Byte strings and the XOR algebra that parity is built on. */
module Bytes {
  import opened Bits

  type byte = n: nat | n < 256

  type Bytes = seq<byte>

  // ---- bitwise XOR ----

  function Xor(a: byte, b: byte): (r: byte)
  {
    assert Pow2(8) == 256;
    XorBelow(a, b, 8);
    XorBits(a, b)
  }

  lemma {:induction false} XorComm(a: byte, b: byte)
    ensures Xor(a, b) == Xor(b, a)
  {
    XorBitsComm(a, b);
  }

  lemma {:induction false} XorAssoc(a: byte, b: byte, c: byte)
    ensures Xor(Xor(a, b), c) == Xor(a, Xor(b, c))
  {
    XorBitsAssoc(a, b, c);
  }

  lemma {:induction false} XorZero(a: byte)
    ensures Xor(a, 0) == a && Xor(0, a) == a
  {
    XorBitsSelf(a);
  }

  /** XOR-ing twice with the same byte changes nothing. */
  lemma {:induction false} XorTwice(a: byte, b: byte)
    ensures Xor(Xor(a, b), b) == a
  {
    XorAssoc(a, b, b);
    XorBitsSelf(b);
    XorZero(a);
  }

  /** XOR with 1 changes the lowest digit and no other. */
  lemma {:induction false} XorOne(a: byte)
    ensures Xor(a, 1) == if a % 2 == 0 then a + 1 else a - 1
  {
    XorBitsSelf(a / 2);
  }

  // ---- columns and rows ----

  function Zeros(len: nat): (r: Bytes)
    ensures |r| == len && forall j :: 0 <= j < len ==> r[j] == 0
  {
    seq(len, j => 0)
  }

  /** The sequence without its i-th element. */
  function Without<T>(s: seq<T>, i: nat): (r: seq<T>)
    requires i < |s|
    ensures |r| == |s| - 1
    ensures forall k :: 0 <= k < |r| ==> r[k] == if k < i then s[k] else s[k + 1]
  {
    s[..i] + s[i + 1..]
  }

  /** XOR of one column of bytes. */
  function Fold(col: seq<byte>): byte
  {
    if col == [] then 0 else Xor(col[0], Fold(col[1..]))
  }

  /** Leaving one entry out of a column is the same as XOR-ing it in once more. */
  lemma {:induction false} FoldWithout(col: seq<byte>, i: nat)
    requires i < |col|
    ensures Fold(col) == Xor(Fold(Without(col, i)), col[i])
    ensures Fold(Without(col, i)) == Xor(Fold(col), col[i])
  {
    if i == 0 {
      assert Without(col, 0) == col[1..];
      XorComm(col[0], Fold(col[1..]));
    } else {
      var rest := Without(col[1..], i - 1);
      FoldWithout(col[1..], i - 1);
      assert Without(col, i)[1..] == rest;
      XorAssoc(col[0], Fold(rest), col[i]);
    }
    XorTwice(Fold(Without(col, i)), col[i]);
  }

  /** Changing one entry of a column by `x` changes its XOR by `x`. */
  lemma {:induction false} FoldShift(a: seq<byte>, b: seq<byte>, e: nat, x: byte)
    requires |a| == |b| && e < |a| && a[e] == Xor(b[e], x)
    requires Without(a, e) == Without(b, e)
    ensures Fold(a) == Xor(Fold(b), x)
  {
    FoldWithout(a, e);
    FoldWithout(b, e);
    XorAssoc(Fold(Without(b, e)), b[e], x);
  }

  /** Every row supplies at least `len` bytes. */
  predicate Rows(rows: seq<Bytes>, len: nat)
  {
    forall i :: 0 <= i < |rows| ==> len <= |rows[i]|
  }

  function Col(rows: seq<Bytes>, j: nat): (c: seq<byte>)
    requires Rows(rows, j + 1)
    ensures |c| == |rows| && forall i :: 0 <= i < |c| ==> c[i] == rows[i][j]
  {
    seq(|rows|, i requires 0 <= i < |rows| => rows[i][j])
  }

  /** Bytewise XOR of the first `len` bytes of all rows. */
  function XorRows(rows: seq<Bytes>, len: nat): (r: Bytes)
    requires Rows(rows, len)
    ensures |r| == len && forall j :: 0 <= j < len ==> r[j] == Fold(Col(rows, j))
  {
    seq(len, j requires 0 <= j < len => Fold(Col(rows, j)))
  }

  /** Re-deriving row `i` from the others yields row `i` shifted by the XOR of the whole stripe. */
  lemma {:induction false} Rederive(rows: seq<Bytes>, i: nat, len: nat)
    requires Rows(rows, len) && i < |rows|
    ensures forall j :: 0 <= j < len ==>
      XorRows(Without(rows, i), len)[j] == Xor(XorRows(rows, len)[j], rows[i][j])
  {
    forall j | 0 <= j < len
      ensures XorRows(Without(rows, i), len)[j] == Xor(XorRows(rows, len)[j], rows[i][j])
    {
      assert Col(Without(rows, i), j) == Without(Col(rows, j), i);
      FoldWithout(Col(rows, j), i);
    }
  }

  /** In a stripe that sums to zero every row is the XOR of the others. */
  lemma {:induction false} RederiveZeroSum(rows: seq<Bytes>, i: nat, len: nat)
    requires Rows(rows, len) && i < |rows| && |rows[i]| == len
    requires XorRows(rows, len) == Zeros(len)
    ensures XorRows(Without(rows, i), len) == rows[i]
  {
    Rederive(rows, i, len);
    forall j | 0 <= j < len
      ensures XorRows(Without(rows, i), len)[j] == rows[i][j]
    {
      XorZero(rows[i][j]);
    }
  }

  /** A row equal to the XOR of the others makes the stripe sum to zero. */
  lemma {:induction false} ZeroSumOfDerived(rows: seq<Bytes>, i: nat, len: nat)
    requires Rows(rows, len) && i < |rows| && |rows[i]| == len
    requires rows[i] == XorRows(Without(rows, i), len)
    ensures XorRows(rows, len) == Zeros(len)
  {
    forall j | 0 <= j < len
      ensures XorRows(rows, len)[j] == 0
    {
      assert Col(Without(rows, i), j) == Without(Col(rows, j), i);
      FoldWithout(Col(rows, j), i);
      XorBitsSelf(rows[i][j]);
    }
  }
}
