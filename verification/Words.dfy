/** 32-bit words as bounded integers, with the bit operations that the mixer uses. */
module Words {
  import opened Primes

  type uint32 = x: int | 0 <= x < 0x1_0000_0000

  const WORD := 0x1_0000_0000

  function Pow2(n: nat): (p: nat)
    ensures p >= 1
  {
    if n == 0 then 1 else 2 * Pow2(n - 1)
  }

  lemma {:induction false} Pow2Add(m: nat, n: nat)
    ensures Pow2(m) * Pow2(n) == Pow2(m + n)
  {
    if m != 0 {
      Pow2Add(m - 1, n);
      assert 2 * Pow2(m - 1) * Pow2(n) == 2 * (Pow2(m - 1) * Pow2(n));
    }
  }

  lemma Pow2Word()
    ensures Pow2(16) == 0x1_0000 && Pow2(32) == WORD
  {
    assert Pow2(8) == 0x100;
    Pow2Add(8, 8);
    Pow2Add(16, 16);
  }

  // ---- Exclusive or -------------------------------------------------------------------------------------

  function XorNat(a: nat, b: nat): nat
    decreases a + b
  {
    if a == 0 && b == 0 then 0 else 2 * XorNat(a / 2, b / 2) + (if a % 2 == b % 2 then 0 else 1)
  }

  lemma {:induction false} XorBound(a: nat, b: nat, n: nat)
    requires a < Pow2(n) && b < Pow2(n)
    ensures XorNat(a, b) < Pow2(n)
  {
    if n != 0 { XorBound(a / 2, b / 2, n - 1); }
  }

  lemma {:induction false} XorCommutes(a: nat, b: nat)
    ensures XorNat(a, b) == XorNat(b, a)
    decreases a + b
  {
    if a != 0 || b != 0 { XorCommutes(a / 2, b / 2); }
  }

  lemma XorStep(a: nat, b: nat)
    ensures XorNat(a, b) / 2 == XorNat(a / 2, b / 2)
    ensures XorNat(a, b) % 2 == (if a % 2 == b % 2 then 0 else 1)
  {
  }

  lemma SameHalves(x: nat, y: nat)
    requires x / 2 == y / 2 && x % 2 == y % 2
    ensures x == y
  {
  }

  lemma {:induction false} XorCancels(a: nat, b: nat)
    ensures XorNat(XorNat(a, b), b) == a
    decreases a + b
  {
    if a != 0 || b != 0 {
      XorCancels(a / 2, b / 2);
      XorStep(a, b);
      XorStep(XorNat(a, b), b);
      hide XorNat;
      SameHalves(XorNat(XorNat(a, b), b), a);
    }
  }

  lemma {:induction false} XorAssociates(a: nat, b: nat, c: nat)
    ensures XorNat(XorNat(a, b), c) == XorNat(a, XorNat(b, c))
    decreases a + b + c
  {
    if a != 0 || b != 0 || c != 0 {
      XorAssociates(a / 2, b / 2, c / 2);
      XorStep(a, b);
      XorStep(b, c);
      XorStep(XorNat(a, b), c);
      XorStep(a, XorNat(b, c));
      SameHalves(XorNat(XorNat(a, b), c), XorNat(a, XorNat(b, c)));
    }
  }

  lemma {:induction false} XorZero(a: nat)
    ensures XorNat(a, 0) == a
  {
    if a != 0 { XorZero(a / 2); }
  }

  function Xor(a: uint32, b: uint32): uint32 {
    Pow2Word(); XorBound(a, b, 32);
    XorNat(a, b)
  }

  // ---- Shifts -------------------------------------------------------------------------------------------

  function Shr(a: nat, n: nat): (r: nat)
    ensures r <= a
  {
    if n == 0 then a else Shr(a / 2, n - 1)
  }

  lemma {:induction false} ShrIsDivision(a: nat, n: nat)
    ensures Shr(a, n) == a / Pow2(n)
  {
    if n != 0 {
      ShrIsDivision(a / 2, n - 1);
      var p := Pow2(n - 1);
      var q, r := a / 2 / p, a / 2 % p;
      assert a == (2 * p) * q + (2 * r + a % 2);
      ModUnique(a, q, 2 * r + a % 2, 2 * p);
    }
  }

  lemma {:induction false} ShrXor(a: nat, b: nat, n: nat)
    ensures Shr(XorNat(a, b), n) == XorNat(Shr(a, n), Shr(b, n))
  {
    if n != 0 { ShrXor(a / 2, b / 2, n - 1); }
  }

  lemma {:induction false} ShrShr(a: nat, m: nat, n: nat)
    ensures Shr(Shr(a, m), n) == Shr(a, m + n)
  {
    if m != 0 { ShrShr(a / 2, m - 1, n); }
  }

  lemma {:induction false} ShrAll(a: nat, n: nat)
    requires a < Pow2(n)
    ensures Shr(a, n) == 0
  {
    if n != 0 { ShrAll(a / 2, n - 1); }
  }

  function Shl(a: uint32, n: nat): uint32 { (a * Pow2(n)) % WORD }

  // ---- Inclusive or, needed for rotations only ----------------------------------------------------------

  function OrNat(a: nat, b: nat): nat
    decreases a + b
  {
    if a == 0 && b == 0 then 0
    else 2 * OrNat(a / 2, b / 2) + (if a % 2 == 1 || b % 2 == 1 then 1 else 0)
  }

  /** On disjoint bits both operations are addition. */
  lemma {:induction false} DisjointAdds(hi: nat, lo: nat, n: nat)
    requires lo < Pow2(n)
    ensures OrNat(hi * Pow2(n), lo) == hi * Pow2(n) + lo == XorNat(hi * Pow2(n), lo)
  {
    if n == 0 {
      XorZero(hi);
      OrZero(hi);
    } else {
      var a := hi * Pow2(n);
      assert a == 2 * (hi * Pow2(n - 1));
      DisjointAdds(hi, lo / 2, n - 1);
    }
  }

  lemma {:induction false} OrZero(a: nat)
    ensures OrNat(a, 0) == a
  {
    if a != 0 { OrZero(a / 2); }
  }

  // ---- Rotation -----------------------------------------------------------------------------------------

  function Rotl32(x: uint32, r: nat): (y: uint32)
    requires 0 < r < 32
  {
    RotlBound(x, r);
    OrNat(Shl(x, r), Shr(x, 32 - r))
  }

  lemma RotlBound(x: uint32, r: nat)
    requires 0 < r < 32
    ensures OrNat(Shl(x, r), Shr(x, 32 - r)) < WORD
  {
    var hi, lo := SplitWord(x, 32 - r);
    RotlParts(x, r, hi, lo);
  }

  /** x = hi * 2^(32-r) + lo: rotation swaps the upper r bits with the rest. */
  ghost predicate Parts(x: uint32, r: nat, hi: nat, lo: nat)
    requires 0 < r < 32
  {
    x == hi * Pow2(32 - r) + lo && lo < Pow2(32 - r) && hi < Pow2(r)
  }

  lemma RotlParts(x: uint32, r: nat, hi: nat, lo: nat)
    requires 0 < r < 32 && lo < Pow2(32 - r) && x == hi * Pow2(32 - r) + lo
    ensures Parts(x, r, hi, lo)
    ensures OrNat(Shl(x, r), Shr(x, 32 - r)) == lo * Pow2(r) + hi < WORD
  {
    PowersMakeWord(r);
    Below(hi, Pow2(32 - r), lo, Pow2(r));
    Fits(lo, Pow2(r), Pow2(32 - r), hi);
    ShrParts(x, 32 - r, hi, lo);
    ShlParts(x, r, hi, lo);
    DisjointAdds(lo, hi, r);
  }

  lemma SplitWord(x: nat, n: nat) returns (hi: nat, lo: nat)
    ensures x == hi * Pow2(n) + lo && lo < Pow2(n)
  {
    ShrIsDivision(x, n);
    hi, lo := Shr(x, n), x % Pow2(n);
  }

  lemma PowersMakeWord(r: nat)
    requires 0 < r < 32
    ensures Pow2(32 - r) * Pow2(r) == WORD
  {
    Pow2Word();
    Pow2Add(32 - r, r);
  }

  lemma ShrParts(x: nat, n: nat, hi: nat, lo: nat)
    requires lo < Pow2(n) && x == hi * Pow2(n) + lo
    ensures Shr(x, n) == hi
  {
    ShrIsDivision(x, n);
    ModUnique(x, hi, lo, Pow2(n));
  }

  lemma ShlParts(x: uint32, r: nat, hi: nat, lo: nat)
    requires 0 < r < 32 && lo < Pow2(32 - r) && x == hi * Pow2(32 - r) + lo
    ensures Shl(x, r) == lo * Pow2(r)
  {
    PowersMakeWord(r);
    Fits(lo, Pow2(r), Pow2(32 - r), 0);
    Regroup(hi, Pow2(32 - r), lo, Pow2(r));
    ModUnique(x * Pow2(r), hi, lo * Pow2(r), WORD);
  }

  lemma Below(hi: nat, p: nat, lo: nat, q: nat)
    requires hi * p + lo < p * q
    ensures hi < q
  {
    if hi >= q { MulMonotone(q, hi, p); }
  }

  lemma MulMonotone(a: nat, b: nat, p: nat)
    requires a <= b
    ensures p * a <= b * p
  {
  }

  lemma Fits(lo: nat, q: nat, p: nat, hi: nat)
    requires lo < p && hi < q
    ensures lo * q + hi < p * q
  {
    assert (lo + 1) * q <= p * q;
  }

  lemma Regroup(hi: nat, p: nat, lo: nat, q: nat)
    ensures (hi * p + lo) * q == (p * q) * hi + lo * q
  {
    assert (hi * p + lo) * q == hi * p * q + lo * q;
    assert hi * p * q == (p * q) * hi;
  }

  lemma RotlUndone(x: uint32, r: nat)
    requires 0 < r < 32
    ensures Rotl32(Rotl32(x, r), 32 - r) == x
  {
    var hi, lo := SplitWord(x, 32 - r);
    RotlParts(x, r, hi, lo);
    RotlParts(Rotl32(x, r), 32 - r, lo, hi);
  }

  // ---- Multiplication -----------------------------------------------------------------------------------

  function Mul(x: uint32, c: uint32): uint32 { (x * c) % WORD }

  /** c and d are inverse modulo 2^32. */
  predicate Inverse(c: uint32, d: uint32) { (c * d) % WORD == 1 }

  lemma MulUndone(x: uint32, c: uint32, d: uint32)
    requires Inverse(c, d)
    ensures Mul(Mul(x, c), d) == x
  {
    var q, k := (x * c) / WORD, (c * d) / WORD;
    assert x * c == WORD * q + Mul(x, c);
    assert c * d == WORD * k + 1;
    MulChain(x, c, d, q, Mul(x, c), k);
    ModUnique(Mul(x, c) * d, x * k - q * d, x, WORD);
  }

  lemma MulChain(x: int, c: int, d: int, q: int, y: int, k: int)
    requires x * c == WORD * q + y && c * d == WORD * k + 1
    ensures y * d == WORD * (x * k - q * d) + x
  {
    assert (x * c) * d == x * (c * d);
    assert (x * c) * d == WORD * (q * d) + y * d;
    assert x * (c * d) == WORD * (x * k) + x;
  }
}
