/** The size rows of the hash table and the probe walk over one row (src/ptychite/util.c). */
module HashSizes {
  import opened Primes
  import opened Words

  datatype HashSize = HashSize(maxEntries: uint32, size: uint32, rehash: uint32)

  const HASH_SIZES: seq<HashSize> := [
    HashSize(2, 5, 3),
    HashSize(4, 7, 5),
    HashSize(8, 13, 11),
    HashSize(16, 19, 17),
    HashSize(32, 43, 41),
    HashSize(64, 73, 71),
    HashSize(128, 151, 149),
    HashSize(256, 283, 281),
    HashSize(512, 571, 569),
    HashSize(1024, 1153, 1151),
    HashSize(2048, 2269, 2267),
    HashSize(4096, 4519, 4517),
    HashSize(8192, 9013, 9011),
    HashSize(16384, 18043, 18041),
    HashSize(32768, 36109, 36107),
    HashSize(65536, 72091, 72089),
    HashSize(131072, 144409, 144407),
    HashSize(262144, 288361, 288359),
    HashSize(524288, 576883, 576881),
    HashSize(1048576, 1153459, 1153457),
    HashSize(2097152, 2307163, 2307161),
    HashSize(4194304, 4613893, 4613891),
    HashSize(8388608, 9227641, 9227639),
    HashSize(16777216, 18455029, 18455027),
    HashSize(33554432, 36911011, 36911009),
    HashSize(67108864, 73819861, 73819859),
    HashSize(134217728, 147639589, 147639587),
    HashSize(268435456, 295279081, 295279079),
    HashSize(536870912, 590559793, 590559791),
    HashSize(1073741824, 1181116273, 1181116271),
    HashSize(2147483648, 2362232233, 2362232231)
  ]

  /** The last row whose probe arithmetic stays inside 32 bits. */
  const LAST_ROW: nat := 29

  type Row = r: nat | r <= LAST_ROW

  function Size(row: Row): uint32 { HASH_SIZES[row].size }
  function MaxEntries(row: Row): uint32 { HASH_SIZES[row].maxEntries }

  lemma RowShape(row: Row)
    ensures 3 < Size(row) && HASH_SIZES[row].rehash == Size(row) - 2
    ensures MaxEntries(row) < Size(row) && 2 * Size(row) < 0x1_0000_0000
    ensures row > 0 ==> MaxEntries(row) == 2 * MaxEntries(row - 1)
  {
  }

  /** The size table's own promise: a row's size is prime. */
  ghost predicate PrimeRow(row: Row) { IsPrime(Size(row)) }

  lemma Prime4519()
    ensures IsPrime(4519)
  {
    ExtendTrial(4519, 2, 24);
    ExtendTrial(4519, 24, 48);
    ExtendTrial(4519, 48, 68);
    TrialDivision(4519, 68);
  }

  lemma Prime2269()
    ensures IsPrime(2269)
  {
    ExtendTrial(2269, 2, 24);
    ExtendTrial(2269, 24, 48);
    TrialDivision(2269, 48);
  }

  lemma Prime1153()
    ensures IsPrime(1153)
  {
    ExtendTrial(1153, 2, 18);
    ExtendTrial(1153, 18, 34);
    TrialDivision(1153, 34);
  }

  lemma Prime571()
    ensures IsPrime(571)
  {
    ExtendTrial(571, 2, 24);
    TrialDivision(571, 24);
  }

  lemma PrimesBelow300()
    ensures IsPrime(5) && IsPrime(7) && IsPrime(13) && IsPrime(19) && IsPrime(43)
    ensures IsPrime(73) && IsPrime(151) && IsPrime(283)
  {
    ExtendTrial(43, 2, 7);
    TrialDivision(43, 7);
    ExtendTrial(73, 2, 9);
    TrialDivision(73, 9);
    ExtendTrial(151, 2, 13);
    TrialDivision(151, 13);
    ExtendTrial(283, 2, 17);
    TrialDivision(283, 17);
  }

  /** Up to 4096 entries the promise is checked, not assumed. */
  lemma SmallRowsArePrime(row: Row)
    requires row <= 11
    ensures PrimeRow(row)
  {
    PrimesBelow300();
    Prime571();
    Prime1153();
    Prime2269();
    Prime4519();
  }

  // ---- The probe walk -----------------------------------------------------------------------------------

  function Step(hash: uint32, row: Row): (step: uint32)
    ensures 1 <= step < Size(row)
  {
    RowShape(row);
    1 + hash % HASH_SIZES[row].rehash
  }

  /** The n-th slot that a lookup or an insertion of hash looks at. */
  function Probe(hash: uint32, n: nat, row: Row): (p: nat)
    ensures p < Size(row)
  {
    RowShape(row);
    (hash + n * Step(hash, row)) % Size(row)
  }

  /** One turn of the loop, in 32-bit arithmetic, is one step of the walk. */
  lemma ProbeNext(hash: uint32, n: nat, row: Row)
    ensures ((Probe(hash, n, row) + Step(hash, row)) % 0x1_0000_0000) % Size(row) == Probe(hash, n + 1, row)
  {
    RowShape(row);
    var p, d, s := Probe(hash, n, row), Step(hash, row), Size(row);
    assert (p + d) % 0x1_0000_0000 == p + d;
    ModAdd(hash + n * d, d, s);
    assert hash + n * d + d == hash + (n + 1) * d;
  }

  /** Within one cycle no slot is seen twice. */
  lemma ProbeInjective(hash: uint32, m: nat, n: nat, row: Row)
    requires PrimeRow(row) && m < n < m + Size(row)
    ensures Probe(hash, m, row) != Probe(hash, n, row)
  {
    RowShape(row);
    var d, s := Step(hash, row), Size(row);
    if Probe(hash, m, row) == Probe(hash, n, row) {
      EqualRemaindersDivide(hash + m * d, hash + n * d, s);
      assert (hash + n * d) - (hash + m * d) == (n - m) * d;
      PrimeAvoidsProduct(s, n - m, d);
    }
  }

  /** The walk is back at its start after exactly Size(row) steps. */
  lemma ProbeReturns(hash: uint32, n: nat, row: Row)
    requires PrimeRow(row) && 0 < n <= Size(row)
    ensures Probe(hash, n, row) == hash % Size(row) <==> n == Size(row)
  {
    RowShape(row);
    assert Probe(hash, 0, row) == hash % Size(row);
    if n < Size(row) {
      ProbeInjective(hash, 0, n, row);
    } else {
      ModAddMultiple(hash, Step(hash, row), n);
    }
  }

  /** The walk visits every slot, each at exactly one position before it returns. */
  lemma ProbeVisits(hash: uint32, p: nat, row: Row) returns (n: nat)
    requires PrimeRow(row) && p < Size(row)
    ensures n < Size(row) && Probe(hash, n, row) == p
    ensures forall k: nat | k < Size(row) && k != n :: Probe(hash, k, row) != p
  {
    var walk := seq(Size(row), i requires 0 <= i => Probe(hash, i, row));
    forall i, j | 0 <= i < j < |walk| ensures walk[i] != walk[j] {
      ProbeInjective(hash, i, j, row);
    }
    DistinctFillsRange(walk, p);
    n :| 0 <= n < |walk| && walk[n] == p;
    forall k: nat | k < Size(row) && k != n ensures Probe(hash, k, row) != p {
      assert walk[k] == Probe(hash, k, row);
    }
  }
}
