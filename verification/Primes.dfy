/** Primality and counting: what the probe walk of the hash table rests on. */
module Primes {
  import opened Lists

  ghost predicate IsPrime(n: int) {
    n >= 2 && forall d :: 2 <= d < n ==> n % d != 0
  }

  // ---- Remainders ---------------------------------------------------------------------------------------

  lemma QuotientUnique(n: int, q: int, r: int, q': int, r': int)
    requires 0 <= r < n && 0 <= r' < n && n * q + r == n * q' + r'
    ensures q == q' && r == r'
  {
    if q < q' {
      MulGap(n, q, q');
    } else if q > q' {
      MulGap(n, q', q);
    }
  }

  lemma MulGap(n: int, q: int, q': int)
    requires n > 0 && q < q'
    ensures n * q + n <= n * q'
  {
    assert n * (q' - q) == n * q' - n * q;
    MulAtLeast(n, q' - q);
  }

  lemma MulAtLeast(n: int, k: int)
    requires n > 0 && k >= 1
    ensures n <= n * k
  {
  }

  lemma ModUnique(x: int, q: int, r: int, n: int)
    requires 0 <= r < n && x == n * q + r
    ensures x % n == r && x / n == q
  {
    QuotientUnique(n, q, r, x / n, x % n);
  }

  lemma ModAddMultiple(r: int, k: int, n: int)
    requires n > 0
    ensures (r + n * k) % n == r % n
  {
    ModUnique(r + n * k, r / n + k, r % n, n);
  }

  /** Adding to the remainder or to the number is the same modulo n. */
  lemma ModAdd(x: int, y: int, n: int)
    requires n > 0
    ensures (x % n + y) % n == (x + y) % n
  {
    ModAddMultiple(x % n + y, x / n, n);
  }

  lemma EqualRemaindersDivide(x: int, y: int, n: int)
    requires n > 0 && x % n == y % n
    ensures (y - x) % n == 0
  {
    ModUnique(y - x, y / n - x / n, 0, n);
  }

  lemma RemainderProduct(p: int, k: int, s: int, q: int, r: int, m: int)
    requires p == q * k + r && k * s == p * m
    ensures r * s == 0 + p * (s - q * m)
  {
    assert (q * k) * s == q * (k * s);
    assert q * (p * m) == p * (q * m);
  }

  /** A number that divides k * s divides r * s too, for its remainder r by k. */
  lemma RemainderDivides(p: int, k: int, s: int)
    requires p > 0 && k > 0 && (k * s) % p == 0
    ensures ((p % k) * s) % p == 0
  {
    var q, r, m := p / k, p % k, (k * s) / p;
    assert p == q * k + r && k * s == p * m;
    RemainderProduct(p, k, s, q, r, m);
    ModAddMultiple(0, s - q * m, p);
  }

  /** A prime divides no product of two smaller positive numbers. */
  lemma {:induction false} PrimeAvoidsProduct(p: int, k: int, s: int)
    requires IsPrime(p) && 1 <= k < p && 1 <= s < p
    ensures (k * s) % p != 0
    decreases k
  {
    if k == 1 {
      assert s % p == s;
    } else {
      assert p % k != 0;
      PrimeAvoidsProduct(p, p % k, s);
      if (k * s) % p == 0 {
        RemainderDivides(p, k, s);
        assert false;
      }
    }
  }

  // ---- Counting -----------------------------------------------------------------------------------------

  lemma {:induction false} DistinctSize(s: seq<int>)
    requires Distinct(s)
    ensures |set x | x in s| == |s|
  {
    if s == [] {
      assert (set x | x in s) == {};
    } else {
      var t := s[..|s| - 1];
      var last := s[|s| - 1];
      DistinctSize(t);
      assert s == t + [last];
      assert (set x | x in s) == (set x | x in t) + {last};
    }
  }

  ghost function Range(n: nat): (r: set<int>)
    ensures |r| == n && forall x :: x in r <==> 0 <= x < n
  {
    if n == 0 then {} else Range(n - 1) + {n - 1}
  }

  lemma SubsetSize<T>(a: set<T>, b: set<T>)
    requires a <= b && |a| == |b|
    ensures a == b
  {
    assert b == a + (b - a);
    assert |b| == |a| + |b - a|;
  }

  /** Pigeonhole: n distinct numbers below n take every value below n. */
  lemma DistinctFillsRange(s: seq<int>, v: int)
    requires Distinct(s) && forall i :: 0 <= i < |s| ==> 0 <= s[i] < |s|
    requires 0 <= v < |s|
    ensures v in s
  {
    var vals := set x | x in s;
    DistinctSize(s);
    SubsetSize(vals, Range(|s|));
    assert v in vals;
  }

  // ---- Trial division -----------------------------------------------------------------------------------

  /** No divisor in [lo, hi); split in halves so that evaluating it on literals stays shallow. */
  predicate NoDivisorIn(n: int, lo: int, hi: int)
    requires 2 <= lo
    decreases hi - lo
  {
    if hi <= lo then true
    else if hi == lo + 1 then n % lo != 0
    else NoDivisorIn(n, lo, (lo + hi) / 2) && NoDivisorIn(n, (lo + hi) / 2, hi)
  }

  lemma {:induction false} NoDivisorAt(n: int, lo: int, hi: int, d: int)
    requires 2 <= lo <= d < hi && NoDivisorIn(n, lo, hi)
    ensures n % d != 0
    decreases hi - lo
  {
    if hi > lo + 1 {
      var mid := (lo + hi) / 2;
      if d < mid { NoDivisorAt(n, lo, mid, d); } else { NoDivisorAt(n, mid, hi, d); }
    }
  }

  ghost predicate NoDivisorBelow(n: int, root: int) {
    forall d :: 2 <= d < root ==> n % d != 0
  }

  lemma ExtendTrial(n: int, lo: int, hi: int)
    requires 2 <= lo && NoDivisorBelow(n, lo) && NoDivisorIn(n, lo, hi)
    ensures NoDivisorBelow(n, hi)
  {
    forall d | 2 <= d < hi ensures n % d != 0 {
      if lo <= d { NoDivisorAt(n, lo, hi, d); }
    }
  }

  lemma TrialDivision(n: int, root: int)
    requires 2 <= root <= n < root * root && NoDivisorBelow(n, root)
    ensures IsPrime(n)
  {
    forall e | 2 <= e < n ensures n % e != 0 {
      if n % e == 0 {
        var c := n / e;
        CofactorDivides(n, e, c);
        SquareBound(e, c, root);
      }
    }
  }

  lemma CofactorDivides(n: int, e: int, c: int)
    requires 2 <= e < n && n == e * c
    ensures n % c == 0 && 2 <= c < n
  {
    assert c != 1;
    ModUnique(n, e, 0, c);
  }

  lemma SquareBound(e: int, c: int, root: int)
    requires 0 <= root <= e && root <= c
    ensures root * root <= e * c
  {
    assert root * root <= root * c;
  }
}
