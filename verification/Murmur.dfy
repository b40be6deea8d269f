/** The Murmur-style mixer (src/ptychite/util.c): which keys of one length can collide. */
module Murmur {
  import opened Words
  import HashTable
  import Primes

  type byte = x: int | 0 <= x < 256

  const HASH_SEED: uint32 := 80085
  const C1: uint32 := 0xcc9e2d51
  const C2: uint32 := 0x1b873593

  // ---- The steps and what undoes them -------------------------------------------------------------------

  function XorShift(x: uint32, n: nat): uint32 { Xor(x, Shr(x, n)) }

  function UnXorShift13(x: uint32): uint32 { Xor(XorShift(x, 13), Shr(x, 26)) }

  /** The finalizer with its two multipliers as parameters, and the same run backwards. */
  function Mix(h: uint32, c: uint32, d: uint32): uint32 {
    XorShift(Mul(XorShift(Mul(XorShift(h, 16), c), 13), d), 16)
  }

  function UnMix(h: uint32, c: uint32, d: uint32): uint32 {
    XorShift(Mul(UnXorShift13(Mul(XorShift(h, 16), d)), c), 16)
  }

  function Fmix32(h: uint32): uint32 { Mix(h, 0x85ebca6b, 0xc2b2ae35) }
  function UnFmix32(h: uint32): uint32 { UnMix(h, 0xa5cb9243, 0x7ed1b41d) }

  lemma XorShiftUndone16(x: uint32)
    ensures XorShift(XorShift(x, 16), 16) == x
  {
    var s := Shr(x, 16);
    ShrXor(x, s, 16);
    ShrShr(x, 16, 16);
    Pow2Word();
    ShrAll(x, 32);
    XorZero(s);
    XorCancels(x, s);
  }

  lemma ShiftTerms13(x: uint32)
    ensures Shr(XorShift(x, 13), 13) == XorNat(Shr(x, 13), Shr(x, 26))
    ensures Shr(XorShift(x, 13), 26) == Shr(x, 26)
    ensures Shr(UnXorShift13(x), 13) == XorNat(Shr(x, 13), Shr(x, 26))
  {
    Pow2Word();
    assert Pow2(7) == 128;
    Pow2Add(32, 7);
    ShrAll(x, 39);
    ShrShr(x, 13, 13);
    ShrShr(x, 13, 26);
    ShrShr(x, 26, 13);
    ShrXor(x, Shr(x, 13), 13);
    ShrXor(x, Shr(x, 13), 26);
    ShrXor(XorShift(x, 13), Shr(x, 26), 13);
    XorZero(Shr(x, 26));
    XorZero(XorNat(Shr(x, 13), Shr(x, 26)));
  }

  lemma XorShiftUndone13(x: uint32)
    ensures UnXorShift13(XorShift(x, 13)) == x && XorShift(UnXorShift13(x), 13) == x
  {
    var s, t := Shr(x, 13), Shr(x, 26);
    ShiftTerms13(x);
    // x^s ^ (s^t) ^ t
    XorAssociates(XorNat(x, s), XorNat(s, t), t);
    XorCancels(s, t);
    XorCancels(x, s);
    // (x^s ^ t) ^ (s^t)
    XorAssociates(x, s, t);
    XorCancels(x, XorNat(s, t));
  }

  lemma MixUndone(h: uint32, c: uint32, d: uint32, c': uint32, d': uint32)
    requires Inverse(c, c') && Inverse(d, d')
    ensures UnMix(Mix(h, c, d), c', d') == h
  {
    var x := Mul(XorShift(h, 16), c);
    var y := Mul(XorShift(x, 13), d);
    XorShiftUndone16(h);
    XorShiftUndone16(y);
    XorShiftUndone13(x);
    MulUndone(XorShift(h, 16), c, c');
    MulUndone(XorShift(x, 13), d, d');
  }

  lemma UnMixUndone(h: uint32, c: uint32, d: uint32, c': uint32, d': uint32)
    requires Inverse(c', c) && Inverse(d', d)
    ensures Mix(UnMix(h, c', d'), c, d) == h
  {
    var x := Mul(XorShift(h, 16), d');
    var y := Mul(UnXorShift13(x), c');
    XorShiftUndone16(h);
    XorShiftUndone16(y);
    XorShiftUndone13(x);
    MulUndone(XorShift(h, 16), d', d);
    MulUndone(UnXorShift13(x), c', c);
  }

  lemma FmixUndone(h: uint32)
    ensures UnFmix32(Fmix32(h)) == h && Fmix32(UnFmix32(h)) == h
  {
    MixUndone(h, 0x85ebca6b, 0xc2b2ae35, 0xa5cb9243, 0x7ed1b41d);
    UnMixUndone(h, 0x85ebca6b, 0xc2b2ae35, 0xa5cb9243, 0x7ed1b41d);
  }

  function Turn(k: uint32, c: uint32, r: nat, d: uint32): uint32
    requires 0 < r < 32
  {
    Mul(Rotl32(Mul(k, c), r), d)
  }

  lemma TurnUndone(k: uint32, c: uint32, r: nat, d: uint32, c': uint32, d': uint32)
    requires 0 < r < 32 && Inverse(c, c') && Inverse(d, d')
    ensures Turn(Turn(k, c, r, d), d', 32 - r, c') == k
  {
    MulUndone(k, c, c');
    RotlUndone(Mul(k, c), r);
    MulUndone(Rotl32(Mul(k, c), r), d, d');
  }

  /** A word of the key is multiplied, rotated by 15 and multiplied again before it joins the accumulator. */
  function Scramble(k: uint32): uint32 { Turn(k, C1, 15, C2) }
  function Unscramble(k: uint32): uint32 { Turn(k, 0x56ed309b, 17, 0xdee13bb1) }

  lemma ScrambleUndone(k: uint32)
    ensures Unscramble(Scramble(k)) == k && Scramble(Unscramble(k)) == k
  {
    TurnUndone(k, C1, 15, C2, 0xdee13bb1, 0x56ed309b);
    TurnUndone(k, 0x56ed309b, 17, 0xdee13bb1, C2, C1);
  }

  function Add(x: uint32, d: int): uint32 { (x + d) % WORD }

  lemma AddUndone(x: uint32, d: int)
    ensures Add(Add(x, d), -d) == x
  {
    Primes.ModAdd(x + d, -d, WORD);
  }

  function Affine(h: uint32, r: nat, m: uint32, d: int): uint32
    requires 0 < r < 32
  {
    Add(Mul(Rotl32(h, r), m), d)
  }

  function UnAffine(h: uint32, r: nat, m: uint32, d: int): uint32
    requires 0 < r < 32
  {
    Rotl32(Mul(Add(h, -d), m), 32 - r)
  }

  lemma AffineUndone(h: uint32, r: nat, m: uint32, d: int, m': uint32)
    requires 0 < r < 32 && Inverse(m, m')
    ensures UnAffine(Affine(h, r, m, d), r, m', d) == h
  {
    AddUndone(Mul(Rotl32(h, r), m), d);
    MulUndone(Rotl32(h, r), m, m');
    RotlUndone(h, r);
  }

  lemma UnAffineUndone(h: uint32, r: nat, m: uint32, d: int, m': uint32)
    requires 0 < r < 32 && Inverse(m', m)
    ensures Affine(UnAffine(h, r, m', d), r, m, d) == h
  {
    AddUndone(h, -d);
    MulUndone(Add(h, -d), m', m);
    RotlUndone(Mul(Add(h, -d), m'), 32 - r);
  }

  /** Between two words the accumulator is rotated by 13, multiplied by 5 and increased by a constant. */
  function Advance(h: uint32): uint32 { Affine(h, 13, 5, 0xe6546b64) }
  function Retreat(h: uint32): uint32 { UnAffine(h, 13, 0xcccccccd, 0xe6546b64) }

  lemma AdvanceUndone(h: uint32)
    ensures Retreat(Advance(h)) == h && Advance(Retreat(h)) == h
  {
    AffineUndone(h, 13, 5, 0xe6546b64, 0xcccccccd);
    UnAffineUndone(h, 13, 5, 0xe6546b64, 0xcccccccd);
  }

  lemma XorInjective(a: uint32, b: uint32, k: uint32)
    ensures Xor(a, k) == Xor(b, k) ==> a == b
    ensures Xor(k, a) == Xor(k, b) ==> a == b
  {
    XorCancels(a, k);
    XorCancels(b, k);
    XorCommutes(a, k);
    XorCommutes(b, k);
  }

  // ---- The hash -----------------------------------------------------------------------------------------

  /** A little-endian load. */
  function Load(b: seq<byte>): uint32
    requires |b| == 4
  {
    var b0: int, b1: int, b2: int, b3: int := b[0], b[1], b[2], b[3];
    b0 + 0x100 * b1 + 0x1_0000 * b2 + 0x100_0000 * b3
  }

  lemma LoadInjective(b: seq<byte>, c: seq<byte>)
    requires |b| == |c| == 4 && Load(b) == Load(c)
    ensures b == c
  {
    var b0: int, b1: int, b2: int, b3: int := b[0], b[1], b[2], b[3];
    var c0: int, c1: int, c2: int, c3: int := c[0], c[1], c[2], c[3];
    DigitUnique(b0, c0, b1 + 0x100 * (b2 + 0x100 * b3), c1 + 0x100 * (c2 + 0x100 * c3));
    DigitUnique(b1, c1, b2 + 0x100 * b3, c2 + 0x100 * c3);
    DigitUnique(b2, c2, b3, c3);
  }

  lemma DigitUnique(x: int, y: int, p: int, q: int)
    requires 0 <= x < 0x100 && 0 <= y < 0x100 && x + 0x100 * p == y + 0x100 * q
    ensures x == y && p == q
  {
  }

  /** The words the loop reads. */
  function Blocks(key: seq<byte>): (ws: seq<uint32>)
    ensures |ws| == |key| / 4
  {
    seq(|key| / 4, i requires 0 <= i < |key| / 4 => Load(key[4 * i..4 * i + 4]))
  }

  function Fold(f: (uint32, uint32) -> uint32, h: uint32, ws: seq<uint32>): uint32 {
    if ws == [] then h else f(Fold(f, h, ws[..|ws| - 1]), ws[|ws| - 1])
  }

  /** One turn of the loop: the accumulator h1 takes in the word k. */
  function BlockStep(h: uint32, k: uint32): uint32 { Advance(Xor(h, Scramble(k))) }

  /** The accumulator h1 after the first n blocks. */
  function State(key: seq<byte>, seed: uint32, n: nat): uint32
    requires 4 * n <= |key|
  {
    Fold(BlockStep, seed, Blocks(key)[..n])
  }

  /** k1 as the switch over len & 3 builds it from the bytes after the last block. */
  function TailWord(tail: seq<byte>): uint32
    requires |tail| < 4
  {
    var k3 := if |tail| == 3 then Xor(0, Shl(tail[2], 16)) else 0;
    var k2 := if |tail| >= 2 then Xor(k3, Shl(tail[1], 8)) else k3;
    if |tail| >= 1 then Xor(k2, tail[0]) else k2
  }

  function Tail(key: seq<byte>): (t: seq<byte>)
    ensures |t| < 4
  {
    key[|key| / 4 * 4..]
  }

  /** The tail's word is not multiplied by the first constant, but joined with it. */
  function ScrambleTail(k: uint32): uint32 { Mul(Rotl32(Xor(k, C1), 15), C2) }
  function UnscrambleTail(k: uint32): uint32 { Xor(Rotl32(Mul(k, 0x56ed309b), 17), C1) }

  lemma ScrambleTailUndone(k: uint32)
    ensures UnscrambleTail(ScrambleTail(k)) == k
  {
    hide Xor, Rotl32, Mul, XorNat;
    var x := Xor(k, C1);
    XorTwice(k, C1);
    MulUndone(Rotl32(x, 15), C2, 0x56ed309b);
    RotlUndone(x, 15);
  }

  lemma XorTwice(a: uint32, b: uint32)
    ensures Xor(Xor(a, b), b) == a
  {
    XorCancels(a, b);
  }

  function AbsorbTail(h: uint32, tail: seq<byte>): uint32
    requires |tail| < 4
  {
    if tail == [] then h else Xor(h, ScrambleTail(TailWord(tail)))
  }

  function Finish(h: uint32, key: seq<byte>): uint32 {
    Fmix32(Xor(AbsorbTail(h, Tail(key)), |key| % WORD))
  }

  function Hash(key: seq<byte>, seed: uint32): uint32 {
    Finish(State(key, seed, |key| / 4), key)
  }

  method ScrambleWord(w: uint32) returns (k: uint32)
    ensures k == Scramble(w)
  {
    k := Mul(w, C1);
    k := Rotl32(k, 15);
    k := Mul(k, C2);
  }

  /** The switch over len & 3, whose cases fall through. */
  method MixTail(h1: uint32, tail: seq<byte>) returns (h: uint32)
    requires |tail| < 4
    ensures h == AbsorbTail(h1, tail)
  {
    h := h1;
    var k: uint32 := 0;
    if |tail| == 3 { k := Xor(k, Shl(tail[2], 16)); }
    if |tail| >= 2 { k := Xor(k, Shl(tail[1], 8)); }
    if |tail| >= 1 {
      k := Xor(k, tail[0]);
      k := Xor(k, C1);
      k := Rotl32(k, 15);
      k := Mul(k, C2);
      h := Xor(h, k);
    }
  }

  /** The body of the block loop. */
  method MixBlock(h1: uint32, word: uint32) returns (h: uint32)
    ensures h == BlockStep(h1, word)
  {
    var k := ScrambleWord(word);
    h := Xor(h1, k);
    h := Rotl32(h, 13);
    h := Add(Mul(h, 5), 0xe6546b64);
  }

  /** What follows the block loop. */
  method FinishHash(h1: uint32, key: seq<byte>) returns (h: uint32)
    ensures h == Finish(h1, key)
  {
    var nblocks := |key| / 4;
    h := MixTail(h1, key[nblocks * 4..]);
    h := Xor(h, |key| % WORD);
    h := Fmix32(h);
  }

  lemma StateStart(key: seq<byte>, seed: uint32)
    ensures State(key, seed, 0) == seed
  {
  }

  method MixBlocks(key: seq<byte>, seed: uint32) returns (h: uint32)
    ensures h == State(key, seed, |key| / 4)
  {
    hide State, BlockStep;
    h := seed;
    StateStart(key, seed);
    for i := 0 to |key| / 4
      invariant h == State(key, seed, i)
    {
      StateNext(key, seed, i);
      h := MixBlock(h, Load(key[4 * i..4 * i + 4]));
    }
  }

  /** ptychite_murmur3_hash on a non-null key. */
  method Murmur3Hash(key: seq<byte>, seed: uint32) returns (h: uint32)
    ensures h == Hash(key, seed)
  {
    h := MixBlocks(key, seed);
    h := FinishHash(h, key);
  }

  // ---- The mixer in numbers -----------------------------------------------------------------------------

  /** A rotation to the left by r exchanges the upper r bits with the others. */
  lemma RotlInNumbers(x: uint32, r: nat)
    requires 0 < r < 32
    ensures Rotl32(x, r) == x % Pow2(32 - r) * Pow2(r) + x / Pow2(32 - r)
  {
    var p := Pow2(32 - r);
    QuotientAndRest(x, p);
    RotlParts(x, r, x / p, x % p);
  }

  lemma QuotientAndRest(x: nat, p: nat)
    requires p > 0
    ensures x == x / p * p + x % p && x / p >= 0 && 0 <= x % p < p
  {
  }

  lemma Powers()
    ensures Pow2(13) == 0x2000 && Pow2(15) == 0x8000 && Pow2(16) == 0x1_0000 && Pow2(17) == 0x2_0000 && Pow2(19) == 0x8_0000
  {
    Pow2Word();
    assert Pow2(3) == 8;
    assert Pow2(13) == 0x2000;
    Pow2Add(13, 2);
    Pow2Add(16, 1);
    Pow2Add(16, 3);
  }

  /** The first byte of a word is its lowest. */
  lemma LittleEndian(b: seq<byte>)
    requires |b| == 4
    ensures Load(b) % 0x100 == b[0] && Load(b) / 0x100 % 0x100 == b[1]
    ensures Load(b) / 0x100 / 0x100 % 0x100 == b[2] && Load(b) / 0x100 / 0x100 / 0x100 == b[3]
  {
    var b0: int, b1: int, b2: int, b3: int := b[0], b[1], b[2], b[3];
    var high := b2 + 0x100 * b3;
    var upper := b1 + 0x100 * high;
    assert Load(b) == b0 + 0x100 * upper;
    Primes.ModUnique(b0 + 0x100 * upper, upper, b0, 0x100);
    Primes.ModUnique(upper, high, b1, 0x100);
    Primes.ModUnique(high, b3, b2, 0x100);
  }

  /** A block's word takes part as this product. */
  lemma ScrambleInNumbers(k: uint32)
    ensures var x := k * 0xcc9e2d51 % 0x1_0000_0000;
      Scramble(k) == (x % 0x2_0000 * 0x8000 + x / 0x2_0000) * 0x1b873593 % 0x1_0000_0000
  {
    Powers();
    hide Pow2, Rotl32;
    RotlInNumbers(Mul(k, C1), 15);
  }

  lemma ScrambleTailInNumbers(k: uint32)
    ensures var x := Xor(k, 0xcc9e2d51);
      ScrambleTail(k) == (x % 0x2_0000 * 0x8000 + x / 0x2_0000) * 0x1b873593 % 0x1_0000_0000
  {
    Powers();
    hide Pow2, Rotl32;
    RotlInNumbers(Xor(k, C1), 15);
  }

  lemma AdvanceInNumbers(h: uint32)
    ensures Advance(h) == ((h % 0x8_0000 * 0x2000 + h / 0x8_0000) * 5 + 0xe6546b64) % 0x1_0000_0000
  {
    Powers();
    hide Pow2, Rotl32;
    RotlInNumbers(h, 13);
    var x := Rotl32(h, 13);
    assert Advance(h) == ((x * 5) % WORD + 0xe6546b64) % WORD;
    Primes.ModAdd(x * 5, 0xe6546b64, WORD);
  }

  lemma FmixInNumbers(h: uint32)
    ensures var a := Xor(h, h / 0x1_0000) * 0x85ebca6b % 0x1_0000_0000;
      var b := Xor(a, a / 0x2000) * 0xc2b2ae35 % 0x1_0000_0000;
      Fmix32(h) == Xor(b, b / 0x1_0000)
  {
    Powers();
    hide Pow2, Xor, Shr;
    var a := Mul(XorShift(h, 16), 0x85ebca6b);
    ShrIsDivision(h, 16);
    ShrIsDivision(a, 13);
    ShrIsDivision(Mul(XorShift(a, 13), 0xc2b2ae35), 16);
  }

  // ---- Collisions ---------------------------------------------------------------------------------------

  /** Two keys of one length hold the same bytes from offset at on. */
  ghost predicate AgreeFrom(a: seq<byte>, b: seq<byte>, at: nat) {
    |a| == |b| && at <= |a| && a[at..] == b[at..]
  }

  ghost predicate InjectiveLeft(f: (uint32, uint32) -> uint32) {
    forall g, h, k :: f(g, k) == f(h, k) ==> g == h
  }

  ghost predicate InjectiveRight(f: (uint32, uint32) -> uint32) {
    forall h, j, k :: f(h, j) == f(h, k) ==> j == k
  }

  /** A block step loses neither its state nor its block. */
  lemma BlockStepInjective()
    ensures InjectiveLeft(BlockStep) && InjectiveRight(BlockStep)
  {
    forall g: uint32, h: uint32, k: uint32 ensures BlockStep(g, k) == BlockStep(h, k) ==> g == h {
      AdvanceInjective(Xor(g, Scramble(k)), Xor(h, Scramble(k)));
      XorInjective(g, h, Scramble(k));
    }
    forall h: uint32, j: uint32, k: uint32 ensures BlockStep(h, j) == BlockStep(h, k) ==> j == k {
      AdvanceInjective(Xor(h, Scramble(j)), Xor(h, Scramble(k)));
      XorInjective(Scramble(j), Scramble(k), h);
      ScrambleInjective(j, k);
    }
  }

  lemma AdvanceInjective(x: uint32, y: uint32)
    ensures Advance(x) == Advance(y) ==> x == y
  {
    AdvanceUndone(x);
    AdvanceUndone(y);
  }

  lemma ScrambleInjective(x: uint32, y: uint32)
    ensures Scramble(x) == Scramble(y) ==> x == y
  {
    ScrambleUndone(x);
    ScrambleUndone(y);
  }

  lemma {:induction false} FoldConverges(f: (uint32, uint32) -> uint32, g: uint32, h: uint32, ws: seq<uint32>)
    requires InjectiveLeft(f)
    ensures Fold(f, g, ws) == Fold(f, h, ws) <==> g == h
  {
    if ws != [] { FoldConverges(f, g, h, ws[..|ws| - 1]); }
  }

  lemma {:induction false} FoldAppend(f: (uint32, uint32) -> uint32, h: uint32, us: seq<uint32>, ws: seq<uint32>)
    ensures Fold(f, h, us + ws) == Fold(f, Fold(f, h, us), ws)
  {
    if ws == [] {
      assert us + ws == us;
    } else {
      var n := |ws| - 1;
      FoldAppend(f, h, us, ws[..n]);
      assert (us + ws)[..|us + ws| - 1] == us + ws[..n];
    }
  }

  lemma FinishInjective(g: uint32, h: uint32, a: seq<byte>, b: seq<byte>)
    requires |a| == |b| && Tail(a) == Tail(b)
    ensures Finish(g, a) == Finish(h, b) <==> g == h
  {
    var t := Tail(a);
    LastStepInjective(AbsorbTail(g, t), AbsorbTail(h, t), |a|);
    if t != [] {
      XorInjective(g, h, ScrambleTail(TailWord(t)));
    }
  }

  lemma SameTail(a: seq<byte>, b: seq<byte>, j: nat)
    requires 4 * j <= |a| && AgreeFrom(a, b, 4 * j)
    ensures Tail(a) == Tail(b)
  {
    var n := |a| / 4;
    assert a[4 * j..][4 * n - 4 * j..] == a[4 * n..] && b[4 * j..][4 * n - 4 * j..] == b[4 * n..];
  }

  lemma BlockAt(key: seq<byte>, i: nat)
    requires i < |key| / 4
    ensures Blocks(key)[i] == Load(key[4 * i..4 * i + 4])
  {
  }

  lemma SameBlocks(a: seq<byte>, b: seq<byte>, j: nat)
    requires 4 * j <= |a| && AgreeFrom(a, b, 4 * j)
    ensures Blocks(a)[j..] == Blocks(b)[j..] && Tail(a) == Tail(b)
  {
    SameTail(a, b, j);
    var n := |a| / 4;
    assert |a| == |b|;
    hide AgreeFrom, Tail, Load, Blocks;
    forall i | j <= i < n ensures Blocks(a)[i] == Blocks(b)[i] {
      SameBlock(a, b, j, i);
      BlockAt(a, i);
      BlockAt(b, i);
    }
  }

  lemma SameBlock(a: seq<byte>, b: seq<byte>, j: nat, i: nat)
    requires 4 * j <= |a| && AgreeFrom(a, b, 4 * j) && j <= i < |a| / 4
    ensures a[4 * i..4 * i + 4] == b[4 * i..4 * i + 4]
  {
    var lo := 4 * i - 4 * j;
    assert a[4 * i..4 * i + 4] == a[4 * j..][lo..lo + 4] == b[4 * j..][lo..lo + 4] == b[4 * i..4 * i + 4];
  }

  /** Keys with a common end collide exactly if the states collide where that end begins. */
  lemma CommonEndCollides(a: seq<byte>, b: seq<byte>, seed: uint32, j: nat)
    requires 4 * j <= |a| && AgreeFrom(a, b, 4 * j)
    ensures Hash(a, seed) == Hash(b, seed) <==> State(a, seed, j) == State(b, seed, j)
  {
    SameBlocks(a, b, j);
    StateSplits(a, seed, j);
    StateSplits(b, seed, j);
    BlockStepInjective();
    FoldConverges(BlockStep, State(a, seed, j), State(b, seed, j), Blocks(a)[j..]);
    FinishInjective(State(a, seed, |a| / 4), State(b, seed, |a| / 4), a, b);
  }

  lemma StateSplits(key: seq<byte>, seed: uint32, j: nat)
    requires 4 * j <= |key|
    ensures State(key, seed, |key| / 4) == Fold(BlockStep, State(key, seed, j), Blocks(key)[j..])
  {
    var ws := Blocks(key);
    assert ws[..|ws|] == ws == ws[..j] + ws[j..];
    FoldAppend(BlockStep, seed, ws[..j], ws[j..]);
  }

  lemma CommonStartAgrees(a: seq<byte>, b: seq<byte>, seed: uint32, n: nat)
    requires 4 * n <= |a| && 4 * n <= |b| && a[..4 * n] == b[..4 * n]
    ensures State(a, seed, n) == State(b, seed, n)
  {
    forall i | 0 <= i < n ensures Blocks(a)[i] == Blocks(b)[i] {
      assert a[4 * i..4 * i + 4] == a[..4 * n][4 * i..4 * i + 4] == b[..4 * n][4 * i..4 * i + 4] == b[4 * i..4 * i + 4];
    }
    assert Blocks(a)[..n] == Blocks(b)[..n];
  }

  lemma StateNext(key: seq<byte>, seed: uint32, j: nat)
    requires 4 * j + 4 <= |key|
    ensures State(key, seed, j + 1) == BlockStep(State(key, seed, j), Blocks(key)[j])
  {
    assert Blocks(key)[..j + 1][..j] == Blocks(key)[..j];
  }

  /** Keys of one length that differ inside exactly one 4-byte block never collide. */
  lemma OneBlockSeparates(a: seq<byte>, b: seq<byte>, seed: uint32, j: nat)
    requires 4 * j + 4 <= |a| && AgreeFrom(a, b, 4 * j + 4) && a[..4 * j] == b[..4 * j]
    ensures Hash(a, seed) == Hash(b, seed) <==> a == b
  {
    CommonEndCollides(a, b, seed, j + 1);
    CommonStartAgrees(a, b, seed, j);
    StateNext(a, seed, j);
    StateNext(b, seed, j);
    BlockStepInjective();
    if Blocks(a)[j] == Blocks(b)[j] {
      SplicesEqual(a, b, j);
    }
  }

  lemma SplicesEqual(a: seq<byte>, b: seq<byte>, j: nat)
    requires 4 * j + 4 <= |a| && AgreeFrom(a, b, 4 * j + 4) && a[..4 * j] == b[..4 * j]
    requires Blocks(a)[j] == Blocks(b)[j]
    ensures a == b
  {
    LoadInjective(a[4 * j..4 * j + 4], b[4 * j..4 * j + 4]);
    assert a == a[..4 * j] + a[4 * j..4 * j + 4] + a[4 * j + 4..];
    assert b == b[..4 * j] + b[4 * j..4 * j + 4] + b[4 * j + 4..];
  }

  /** The three cases of the switch add their byte at its place. */
  lemma TailByte2(b2: int)
    requires 0 <= b2 < 256
    ensures Xor(0, Shl(b2, 16)) == 0x1_0000 * b2
  {
    hide Pow2, XorNat, Shl;
    Pow2Word();
    Shl16(b2);
    XorCommutes(0, 0x1_0000 * b2);
    XorZero(0x1_0000 * b2);
  }

  lemma Shl16(b: int)
    requires 0 <= b < 256
    ensures Shl(b, 16) == 0x1_0000 * b
  {
    Pow2Word();
    hide Pow2;
  }

  lemma Shl8(b: int)
    requires 0 <= b < 256
    ensures Shl(b, 8) == 0x100 * b
  {
    assert Pow2(8) == 0x100;
    hide Pow2;
  }

  lemma TailByte1(b1: int, b2: int)
    requires 0 <= b1 < 256 && 0 <= b2 < 256
    ensures Xor(0x1_0000 * b2, Shl(b1, 8)) == 0x1_0000 * b2 + 0x100 * b1
  {
    hide Pow2, XorNat, OrNat, Shl;
    Pow2Word();
    Shl8(b1);
    DisjointAdds(b2, 0x100 * b1, 16);
  }

  lemma TailByte0(b0: int, hi: int)
    requires 0 <= b0 < 256 && 0 <= hi < 0x1_0000
    ensures Xor(0x100 * hi, b0) == 0x100 * hi + b0
  {
    assert Pow2(8) == 0x100;
    DisjointAdds(hi, b0, 8);
  }

  lemma TailBytes(b0: int, b1: int, b2: int)
    requires 0 <= b0 < 256 && 0 <= b1 < 256 && 0 <= b2 < 256
    ensures Xor(0, Shl(b2, 16)) == 0x1_0000 * b2
    ensures Xor(0x1_0000 * b2, Shl(b1, 8)) == 0x1_0000 * b2 + 0x100 * b1
    ensures Xor(0x1_0000 * b2 + 0x100 * b1, b0) == 0x1_0000 * b2 + 0x100 * b1 + b0
  {
    TailByte2(b2);
    TailByte1(b1, b2);
    TailByte0(b0, 0x100 * b2 + b1);
  }

  function TailValue(t: seq<byte>): int
    requires |t| < 4
  {
    var b0: int, b1: int, b2: int :=
      if |t| >= 1 then t[0] else 0, if |t| >= 2 then t[1] else 0, if |t| == 3 then t[2] else 0;
    0x1_0000 * b2 + 0x100 * b1 + b0
  }

  lemma TailWordValue(t: seq<byte>)
    requires |t| < 4
    ensures TailWord(t) == TailValue(t)
  {
    if |t| == 3 {
      TailBytes(t[0], t[1], t[2]);
    } else if |t| == 2 {
      TailBytes(t[0], t[1], 0);
    } else if |t| == 1 {
      TailBytes(t[0], 0, 0);
    }
  }

  lemma TailValueInjective(s: seq<byte>, t: seq<byte>)
    requires |s| == |t| < 4 && TailValue(s) == TailValue(t)
    ensures s == t
  {
    if |s| >= 1 { assert s[0] == t[0]; }
    if |s| >= 2 { assert s[1] == t[1]; }
  }

  lemma TailsEqual(h: uint32, s: seq<byte>, t: seq<byte>)
    requires 0 < |s| == |t| < 4 && AbsorbTail(h, s) == AbsorbTail(h, t)
    ensures s == t
  {
    var x, y := TailWord(s), TailWord(t);
    XorInjective(ScrambleTail(x), ScrambleTail(y), h);
    ScrambleTailUndone(x);
    ScrambleTailUndone(y);
    assert x == y;
    SameTailWord(s, t);
  }

  lemma SameTailWord(s: seq<byte>, t: seq<byte>)
    requires |s| == |t| < 4 && TailWord(s) == TailWord(t)
    ensures s == t
  {
    TailWordValue(s);
    TailWordValue(t);
    TailValueInjective(s, t);
  }

  lemma LastStepInjective(g: uint32, h: uint32, len: nat)
    ensures Fmix32(Xor(g, len % WORD)) == Fmix32(Xor(h, len % WORD)) <==> g == h
  {
    FmixUndone(Xor(g, len % WORD));
    FmixUndone(Xor(h, len % WORD));
    XorInjective(g, h, len % WORD);
  }

  lemma FinishSeparates(h: uint32, a: seq<byte>, b: seq<byte>)
    requires |a| == |b| && Finish(h, a) == Finish(h, b)
    ensures Tail(a) == Tail(b)
  {
    hide AbsorbTail, Fmix32, Xor;
    var s, t := Tail(a), Tail(b);
    LastStepInjective(AbsorbTail(h, s), AbsorbTail(h, t), |a|);
    if s != [] { TailsEqual(h, s, t); }
  }

  lemma BlocksThenTail(key: seq<byte>)
    ensures key == key[..|key| / 4 * 4] + Tail(key)
  {
  }

  /** Keys of one length that differ only after their last block never collide. */
  lemma TailSeparates(a: seq<byte>, b: seq<byte>, seed: uint32)
    requires |a| == |b| && a[..|a| / 4 * 4] == b[..|a| / 4 * 4]
    ensures Hash(a, seed) == Hash(b, seed) <==> a == b
  {
    var n := |a| / 4;
    CommonStartAgrees(a, b, seed, n);
    BlocksThenTail(a);
    BlocksThenTail(b);
    hide State, Finish, Tail;
    if Hash(a, seed) == Hash(b, seed) {
      FinishSeparates(State(a, seed, n), a, b);
    }
  }

  // ---- 32-bit keys --------------------------------------------------------------------------------------

  /** A uint32_t as its four bytes in memory. */
  function Bytes(w: uint32): (b: seq<byte>)
    ensures |b| == 4 && Load(b) == w
  {
    var q1 := w / 0x100;
    var q2 := q1 / 0x100;
    [w % 0x100, q1 % 0x100, q2 % 0x100, q2 / 0x100]
  }

  /** ptychite_murmur3_uint32_t_hash */
  function Hash32(w: uint32): uint32 { Hash(Bytes(w), HASH_SEED) }

  function Unhash32(h: uint32): uint32 {
    Unscramble(Xor(Retreat(Xor(UnFmix32(h), 4)), HASH_SEED))
  }

  lemma FinishWord(h: uint32, b: seq<byte>)
    requires |b| == 4
    ensures Finish(h, b) == Fmix32(Xor(h, 4))
  {
    assert Tail(b) == [];
  }

  lemma StateOfWord(seed: uint32, w: uint32)
    ensures State(Bytes(w), seed, 1) == BlockStep(seed, w)
  {
    var b := Bytes(w);
    StateNext(b, seed, 0);
    assert b[0..4] == b;
    assert Blocks(b)[0] == w && State(b, seed, 0) == seed;
    hide State, BlockStep, Blocks;
  }

  lemma Hash32Unfolds(w: uint32)
    ensures Hash32(w) == Fmix32(Xor(BlockStep(HASH_SEED, w), 4))
  {
    var b := Bytes(w);
    StateOfWord(HASH_SEED, w);
    assert |b| / 4 == 1;
    FinishWord(State(b, HASH_SEED, 1), b);
  }

  lemma BlockStepUndone(h: uint32, w: uint32)
    ensures Unscramble(Xor(Retreat(BlockStep(h, w)), h)) == w
    ensures BlockStep(h, Unscramble(Xor(Retreat(w), h))) == w
  {
    AdvanceUndone(Xor(h, Scramble(w)));
    XorCommutes(h, Scramble(w));
    XorCancels(Scramble(w), h);
    ScrambleUndone(w);
    var r := Xor(Retreat(w), h);
    ScrambleUndone(r);
    XorCommutes(h, r);
    XorCancels(Retreat(w), h);
    AdvanceUndone(w);
  }

  /** The hash of 32-bit keys is a bijection on 32-bit words. */
  lemma Hash32Bijective(w: uint32)
    ensures Unhash32(Hash32(w)) == w && Hash32(Unhash32(w)) == w
  {
    Hash32Unfolds(w);
    var g := BlockStep(HASH_SEED, w);
    FmixUndone(Xor(g, 4));
    XorCancels(g, 4);
    BlockStepUndone(HASH_SEED, w);

    var f := Xor(UnFmix32(w), 4);
    Hash32Unfolds(Unscramble(Xor(Retreat(f), HASH_SEED)));
    BlockStepUndone(HASH_SEED, f);
    XorCancels(UnFmix32(w), 4);
    FmixUndone(w);
  }

  lemma OneKeyHashesToZero(key: uint32)
    ensures Hash32(key) == 0 <==> key == Unhash32(0)
  {
    Hash32Bijective(key);
    Hash32Bijective(0);
  }

  /** Exactly one 32-bit key hashes to 0, and a new table refuses it. */
  method ZeroHashRefused<D>(key: uint32, data: D) returns (ok: bool)
    ensures ok <==> key != Unhash32(0)
  {
    var hash := Hash32(key);
    OneKeyHashesToZero(key);
    ok := InsertIntoNew(hash, data);
  }

  method InsertIntoNew<D>(hash: uint32, data: D) returns (ok: bool)
    ensures ok <==> hash != 0
  {
    var table := new HashTable.Table<D>.Init();
    HashTable.NoTombsNoFree(table.entries[..], table.row);
    ok := table.Insert(hash, data);
  }
}
