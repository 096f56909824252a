/** Unsigned shifts, masks and XOR, bit by bit. */
module Bits {
  import DivMod

  function Pow2(s: nat): (r: nat)
    ensures r > 0
  {
    if s == 0 then 1 else 2 * Pow2(s - 1)
  }

  /** x >> s */
  function Shr(x: nat, s: nat): nat
  {
    if s == 0 then x else Shr(x / 2, s - 1)
  }

  /** x << s, in a type wide enough */
  function Shl(x: nat, s: nat): nat
    decreases s
  {
    if s == 0 then x else Shl(2 * x, s - 1)
  }

  /** x & y */
  function And(x: nat, y: nat): nat
  {
    if x == 0 || y == 0 then 0 else (if x % 2 == 1 && y % 2 == 1 then 1 else 0) + 2 * And(x / 2, y / 2)
  }

  /** spdk_u32log2: the index of the highest bit, and 0 for 0. */
  function Log2(x: nat): nat
  {
    if x <= 1 then 0 else 1 + Log2(x / 2)
  }

  /** spdk_u32_is_pow2 */
  predicate IsPow2(x: nat)
  {
    x > 0 && And(x, x - 1) == 0
  }

  lemma {:induction false} Pow2Split(a: nat, b: nat)
    ensures Pow2(a + b) == Pow2(a) * Pow2(b)
  {
    if a > 0 {
      Pow2Split(a - 1, b);
    }
  }

  lemma {:induction false} Pow2Mono(a: nat, b: nat)
    requires a <= b
    ensures Pow2(a) <= Pow2(b)
  {
    if a < b {
      Pow2Mono(a, b - 1);
    }
  }

  lemma {:induction false} Halve(x: nat, h: nat)
    requires h > 0
    ensures x / (2 * h) == x / 2 / h && x % (2 * h) == 2 * (x / 2 % h) + x % 2
  {
    DivMod.Split(x / 2, h);
    var q, r := x / 2 / h, x / 2 % h;
    assert q * (2 * h) == 2 * (q * h);
    DivMod.Unique(x, 2 * h, q, 2 * r + x % 2);
  }

  lemma {:induction false} ShrIsDiv(x: nat, s: nat)
    ensures Shr(x, s) == x / Pow2(s)
  {
    if s > 0 {
      ShrIsDiv(x / 2, s - 1);
      Halve(x, Pow2(s - 1));
    }
  }

  lemma {:induction false} ShlIsMul(x: nat, s: nat)
    ensures Shl(x, s) == x * Pow2(s)
    decreases s
  {
    if s > 0 {
      ShlIsMul(2 * x, s - 1);
    }
  }

  lemma {:induction false} AndIsMod(x: nat, s: nat)
    ensures And(x, Pow2(s) - 1) == x % Pow2(s)
  {
    var p := Pow2(s);
    if s == 0 {
      DivMod.Unique(x, 1, x, 0);
    } else if x == 0 {
      DivMod.Unique(0, p, 0, 0);
    } else {
      AndIsMod(x / 2, s - 1);
      Halve(x, Pow2(s - 1));
      HalfMask(p, Pow2(s - 1));
    }
  }

  lemma {:induction false} HalfMask(p: nat, h: nat)
    requires h > 0 && p == 2 * h
    ensures (p - 1) / 2 == h - 1 && (p - 1) % 2 == 1
  {
  }

  lemma {:induction false} AndSelf(x: nat)
    ensures And(x, x) == x
  {
    if x > 0 {
      AndSelf(x / 2);
    }
  }

  lemma {:induction false} Log2OfPow2(s: nat)
    ensures Log2(Pow2(s)) == s
  {
    if s > 0 {
      Log2OfPow2(s - 1);
    }
  }

  lemma {:induction false} Log2Below(x: nat)
    requires x > 0
    ensures Pow2(Log2(x)) <= x < 2 * Pow2(Log2(x))
  {
    if x > 1 {
      Log2Below(x / 2);
    }
  }

  /** The test finds the powers of two, and then the logarithm is exact. */
  lemma {:induction false} IsPow2Iff(x: nat)
    requires x > 0
    ensures IsPow2(x) <==> x == Pow2(Log2(x))
  {
    if x > 1 {
      if x % 2 == 0 {
        IsPow2Iff(x / 2);
        assert (x - 1) / 2 == x / 2 - 1 && (x - 1) % 2 == 1;
      } else {
        assert (x - 1) / 2 == x / 2 && (x - 1) % 2 == 0;
        AndSelf(x / 2);
      }
    }
  }

  lemma {:induction false} Pow2IsPow2(s: nat)
    ensures IsPow2(Pow2(s))
  {
    Log2OfPow2(s);
    IsPow2Iff(Pow2(s));
  }

  /** Shifting by the logarithm is dividing exactly when the divisor is a power of two. */
  lemma {:induction false} ShiftAgreesIff(m: nat)
    requires m > 0
    ensures (forall x: nat :: Shr(x, Log2(m)) == x / m) <==> IsPow2(m)
  {
    IsPow2Iff(m);
    if IsPow2(m) {
      forall x: nat
        ensures Shr(x, Log2(m)) == x / m
      {
        ShrIsDiv(x, Log2(m));
      }
    } else {
      var p := Pow2(Log2(m));
      Log2Below(m);
      ShrIsDiv(p, Log2(m));
      DivMod.Unique(p, p, 1, 0);
      DivMod.Unique(p, m, 0, p);
      assert Shr(p, Log2(m)) != p / m;
    }
  }

  /** XOR of the binary digits of two numbers. */
  function XorBits(a: nat, b: nat): nat
    decreases a + b
  {
    if a == 0 && b == 0 then 0 else (if a % 2 == b % 2 then 0 else 1) + 2 * XorBits(a / 2, b / 2)
  }

  lemma {:induction false} XorBelow(a: nat, b: nat, k: nat)
    requires a < Pow2(k) && b < Pow2(k)
    ensures XorBits(a, b) < Pow2(k)
  {
    if k > 0 {
      XorBelow(a / 2, b / 2, k - 1);
    }
  }

  lemma {:induction false} XorBitsComm(a: nat, b: nat)
    ensures XorBits(a, b) == XorBits(b, a)
    decreases a + b
  {
    if a + b > 0 {
      XorBitsComm(a / 2, b / 2);
    }
  }

  lemma {:induction false} XorBitsAssoc(a: nat, b: nat, c: nat)
    ensures XorBits(XorBits(a, b), c) == XorBits(a, XorBits(b, c))
    decreases a + b + c
  {
    if a + b + c > 0 {
      XorBitsAssoc(a / 2, b / 2, c / 2);
    }
  }

  lemma {:induction false} XorBitsSelf(a: nat)
    ensures XorBits(a, a) == 0 && XorBits(a, 0) == a && XorBits(0, a) == a
  {
    if a > 0 {
      XorBitsSelf(a / 2);
    }
  }
}
