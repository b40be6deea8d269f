/** The open-addressing hash table (src/ptychite/util.c), as a class over its slot array. */
module HashTable {
  import opened Lists
  import opened Primes
  import opened HashSizes
  import opened Words

  /** entry->data: NULL, the address of deleted_entry, or user data. */
  datatype Slot<+D> = Null | Tombstone | Item(data: D)

  datatype Entry<+D> = Entry(hash: uint32, slot: Slot<D>)

  predicate IsFilled<D>(e: Entry<D>) { e.slot.Item? }

  predicate Holds<D>(e: Entry<D>, hash: uint32) { IsFilled(e) && e.hash == hash }

  // ---- What an array of slots stores --------------------------------------------------------------------

  ghost function PairOf<D>(e: Entry<D>): multiset<(uint32, D)> {
    if IsFilled(e) then multiset{(e.hash, e.slot.data)} else multiset{}
  }

  /** The live (hash, data) pairs. */
  ghost function Live<D>(es: seq<Entry<D>>): multiset<(uint32, D)> {
    if es == [] then multiset{} else Live(es[..|es| - 1]) + PairOf(es[|es| - 1])
  }

  /** The pairs that a rehash carries over: it loses the ones whose hash is 0. */
  ghost function Kept<D>(es: seq<Entry<D>>): multiset<(uint32, D)> {
    if es == [] then multiset{}
    else Kept(es[..|es| - 1]) + (if es[|es| - 1].hash == 0 then multiset{} else PairOf(es[|es| - 1]))
  }

  ghost function Used<D>(es: seq<Entry<D>>): set<int> { set p | 0 <= p < |es| && !es[p].slot.Null? }
  ghost function Tombs<D>(es: seq<Entry<D>>): set<int> { set p | 0 <= p < |es| && es[p].slot.Tombstone? }
  ghost function Filled<D>(es: seq<Entry<D>>): set<int> { set p | 0 <= p < |es| && IsFilled(es[p]) }

  lemma UsedSplits<D>(es: seq<Entry<D>>)
    ensures |Used(es)| == |Filled(es)| + |Tombs(es)|
  {
    assert Used(es) == Filled(es) + Tombs(es);
    assert Filled(es) !! Tombs(es);
  }

  lemma FilledStep<D>(es: seq<Entry<D>>, i: nat)
    requires i < |es|
    ensures |Filled(es[..i + 1])| == |Filled(es[..i])| + (if IsFilled(es[i]) then 1 else 0)
  {
    assert i !in Filled(es[..i]);
    if IsFilled(es[i]) {
      assert Filled(es[..i + 1]) == Filled(es[..i]) + {i};
    } else {
      assert Filled(es[..i + 1]) == Filled(es[..i]);
    }
  }

  lemma {:induction false} LiveSize<D>(es: seq<Entry<D>>)
    ensures |Live(es)| == |Filled(es)|
  {
    if es == [] {
      assert Filled(es) == {};
    } else {
      hide Filled;
      var n := |es| - 1;
      LiveSize(es[..n]);
      FilledStep(es, n);
      assert es[..n + 1] == es;
    }
  }

  lemma {:induction false} LiveHas<D>(es: seq<Entry<D>>, p: nat)
    requires p < |es| && IsFilled(es[p])
    ensures (es[p].hash, es[p].slot.data) in Live(es)
  {
    var n := |es| - 1;
    if p < n { LiveHas(es[..n], p); }
  }

  lemma {:induction false} LiveFrom<D>(es: seq<Entry<D>>, hash: uint32, data: D) returns (p: nat)
    requires (hash, data) in Live(es)
    ensures p < |es| && Holds(es[p], hash) && es[p].slot.data == data
  {
    var n := |es| - 1;
    if (hash, data) in PairOf(es[n]) {
      p := n;
    } else {
      p := LiveFrom(es[..n], hash, data);
    }
  }

  lemma {:induction false} LiveUpdate<D>(es: seq<Entry<D>>, p: nat, e: Entry<D>)
    requires p < |es|
    ensures Live(es[p := e]) + PairOf(es[p]) == Live(es) + PairOf(e)
  {
    hide PairOf;
    var n, put := |es| - 1, es[p := e];
    assert Live(put) == Live(put[..n]) + PairOf(put[n]) && Live(es) == Live(es[..n]) + PairOf(es[n]);
    hide Live;
    if p == n {
      assert put[..n] == es[..n];
    } else {
      LiveUpdate(es[..n], p, e);
      assert put[..n] == es[..n][p := e];
      SwapSum(Live(es[..n][p := e]), PairOf(es[p]), Live(es[..n]), PairOf(e), PairOf(es[n]));
    }
  }

  lemma LiveBury<D>(es: seq<Entry<D>>, p: nat)
    requires p < |es| && IsFilled(es[p])
    ensures Live(es[p := es[p].(slot := Tombstone)]) == Live(es) - multiset{(es[p].hash, es[p].slot.data)}
  {
    var e := es[p].(slot := Tombstone);
    LiveUpdate(es, p, e);
    assert PairOf(e) == multiset{};
    assert Live(es[p := e]) + PairOf(es[p]) == Live(es);
  }

  lemma LiveFill<D>(es: seq<Entry<D>>, p: nat, hash: uint32, data: D)
    requires p < |es| && !IsFilled(es[p])
    ensures Live(es[p := Entry(hash, Item(data))]) == Live(es) + multiset{(hash, data)}
  {
    LiveUpdate(es, p, Entry(hash, Item(data)));
    assert PairOf(es[p]) == multiset{};
  }

  lemma SwapSum<T>(a: multiset<T>, b: multiset<T>, c: multiset<T>, d: multiset<T>, x: multiset<T>)
    requires a + b == c + d
    ensures a + x + b == c + x + d
  {
    assert a + x + b == a + b + x;
  }

  lemma {:induction false} KeptAll<D>(es: seq<Entry<D>>)
    requires forall p :: 0 <= p < |es| ==> !Holds(es[p], 0)
    ensures Kept(es) == Live(es)
  {
    if es != [] { KeptAll(es[..|es| - 1]); }
  }

  lemma FilledPrefix<D>(es: seq<Entry<D>>, i: nat)
    requires i <= |es|
    ensures |Filled(es[..i])| <= |Filled(es)|
  {
    assert Filled(es) == Filled(es[..i]) + (Filled(es) - Filled(es[..i]));
  }

  lemma KeptStep<D>(es: seq<Entry<D>>, i: nat)
    requires i < |es|
    ensures Kept(es[..i + 1]) == Kept(es[..i]) + (if es[i].hash == 0 then multiset{} else PairOf(es[i]))
    ensures |Filled(es[..i + 1])| == |Filled(es[..i])| + (if IsFilled(es[i]) then 1 else 0)
    ensures |Filled(es[..i + 1])| <= |Filled(es)|
  {
    hide Filled, PairOf;
    assert es[..i + 1][..i] == es[..i];
    FilledStep(es, i);
    FilledPrefix(es, i + 1);
  }

  /** The data of the live entries in slot order. */
  ghost function Items<D>(es: seq<Entry<D>>): seq<D> {
    if es == [] then []
    else Items(es[..|es| - 1]) + (if IsFilled(es[|es| - 1]) then [es[|es| - 1].slot.data] else [])
  }

  lemma {:induction false} ItemsPrefix<D>(es: seq<Entry<D>>, i: nat)
    requires i <= |es|
    ensures Items(es[..i]) <= Items(es)
    decreases |es|
  {
    if i < |es| {
      var n := |es| - 1;
      ItemsPrefix(es[..n], i);
      assert es[..n][..i] == es[..i];
    } else {
      assert es[..i] == es;
    }
  }

  /** The items are the data of the live pairs in some order, so each as often as pairs have it. */
  lemma {:induction false} ItemsAreLive<D>(es: seq<Entry<D>>) returns (pairs: seq<(uint32, D)>)
    ensures multiset(pairs) == Live(es) && |pairs| == |Items(es)|
    ensures forall i :: 0 <= i < |pairs| ==> Items(es)[i] == pairs[i].1
  {
    pairs := [];
    if es != [] {
      var n := |es| - 1;
      pairs := ItemsAreLive(es[..n]);
      if IsFilled(es[n]) {
        pairs := pairs + [(es[n].hash, es[n].slot.data)];
      }
    }
  }

  /** A datum is iterated over exactly if some live pair has it. */
  lemma ItemsAreSome<D>(es: seq<Entry<D>>, d: D)
    ensures |Items(es)| == |Live(es)|
    ensures d in Items(es) <==> exists h :: (h, d) in Live(es)
  {
    hide Items, Live;
    var pairs := ItemsAreLive(es);
    if d in Items(es) {
      var i :| 0 <= i < |pairs| && Items(es)[i] == d;
      assert pairs[i] in multiset(pairs) && pairs[i] == (pairs[i].0, d);
    }
    if h :| (h, d) in Live(es) {
      assert (h, d) in pairs;
      var i :| 0 <= i < |pairs| && pairs[i] == (h, d);
      assert Items(es)[i] == d;
    }
  }

  // ---- The probe-path invariant -------------------------------------------------------------------------

  /** Every slot before a live entry on its probe path is non-empty. */
  ghost predicate Chained<D>(es: seq<Entry<D>>, row: Row) {
    && |es| == Size(row)
    && forall hash: uint32, m: nat, n: nat ::
         m < n < Size(row) && Holds(es[Probe(hash, n, row)], hash) ==> !es[Probe(hash, m, row)].slot.Null?
  }

  /** None of the first n slots on the path of hash is free for an insertion. */
  ghost predicate PathFilled<D>(es: seq<Entry<D>>, row: Row, hash: uint32, n: nat)
    requires |es| == Size(row)
  {
    forall m: nat :: m < n ==> IsFilled(es[Probe(hash, m, row)])
  }

  /** None of the first n slots on the path of hash ends a lookup. */
  ghost predicate PathPassed<D>(es: seq<Entry<D>>, row: Row, hash: uint32, n: nat)
    requires |es| == Size(row)
  {
    forall m: nat :: m < n ==>
      !es[Probe(hash, m, row)].slot.Null? && !Holds(es[Probe(hash, m, row)], hash)
  }

  /** The first slot an insertion of hash 0 can stop at is a tombstone, not an empty slot. */
  ghost predicate FreeSlotIsTomb<D>(es: seq<Entry<D>>, row: Row)
    requires |es| == Size(row)
  {
    exists n: nat :: n < Size(row) && PathFilled(es, row, 0, n) && es[Probe(0, n, row)].slot.Tombstone?
  }

  lemma FirstFree<D>(es: seq<Entry<D>>, row: Row, n: nat)
    requires PrimeRow(row) && |es| == Size(row) && n < Size(row) && PathFilled(es, row, 0, n)
    requires es[Probe(0, n, row)].slot.Null?
    ensures !FreeSlotIsTomb(es, row)
  {
    forall k: nat | k < Size(row) && PathFilled(es, row, 0, k) ensures !es[Probe(0, k, row)].slot.Tombstone? {
    }
  }

  lemma NoTombsNoFree<D>(es: seq<Entry<D>>, row: Row)
    requires |es| == Size(row) && |Tombs(es)| == 0
    ensures Tombs(es) == {} && !FreeSlotIsTomb(es, row)
  {
    assert forall p :: 0 <= p < |es| && es[p].slot.Tombstone? ==> p in Tombs(es);
  }

  /** An empty slot still has the hash 0 that calloc gave it. */
  ghost predicate EmptyIsBlank<D>(es: seq<Entry<D>>) {
    forall p :: 0 <= p < |es| && es[p].slot.Null? ==> es[p].hash == 0
  }

  lemma ChainedFill<D>(es: seq<Entry<D>>, row: Row, hash: uint32, n: nat, data: D)
    requires PrimeRow(row) && Chained(es, row) && n < Size(row) && PathFilled(es, row, hash, n)
    ensures Chained(es[Probe(hash, n, row) := Entry(hash, Item(data))], row)
  {
    var p := Probe(hash, n, row);
    var es' := es[p := Entry(hash, Item(data))];
    forall h: uint32, i: nat, j: nat | i < j < Size(row) && Holds(es'[Probe(h, j, row)], h)
      ensures !es'[Probe(h, i, row)].slot.Null?
    {
      if Probe(h, j, row) == p {
        if j < n { ProbeInjective(hash, j, n, row); } else if n < j { ProbeInjective(hash, n, j, row); }
      } else {
        assert Holds(es[Probe(h, j, row)], h);
      }
    }
  }

  lemma ChainedBury<D>(es: seq<Entry<D>>, row: Row, p: nat)
    requires Chained(es, row) && p < Size(row)
    ensures Chained(es[p := es[p].(slot := Tombstone)], row)
  {
    var es' := es[p := es[p].(slot := Tombstone)];
    forall h: uint32, i: nat, j: nat | i < j < Size(row) && Holds(es'[Probe(h, j, row)], h)
      ensures !es'[Probe(h, i, row)].slot.Null?
    {
      assert Holds(es[Probe(h, j, row)], h);
    }
  }

  /** A path that reached an empty slot or its own start has passed every live entry of hash. */
  /** The first holder on the path of hash, before any empty slot. */
  ghost predicate FirstOnPath<D>(es: seq<Entry<D>>, row: Row, hash: uint32, p: nat)
    requires |es| == Size(row)
  {
    p < |es| && Holds(es[p], hash) && exists n: nat :: n < Size(row) && p == Probe(hash, n, row) && PathPassed(es, row, hash, n)
  }

  /** The first holder of hash has this datum. */
  ghost predicate FirstHolds<D>(es: seq<Entry<D>>, row: Row, hash: uint32, data: D)
    requires |es| == Size(row)
  {
    exists p: nat :: FirstOnPath(es, row, hash, p) && es[p].slot == Item(data)
  }

  lemma FirstHolder<D>(es: seq<Entry<D>>, row: Row, hash: uint32, p: nat)
    requires |es| == Size(row) && FirstOnPath(es, row, hash, p)
    ensures FirstHolds(es, row, hash, es[p].slot.data)
  {
  }

  lemma PathStarts<D>(es: seq<Entry<D>>, row: Row, hash: uint32)
    requires |es| == Size(row)
    ensures PathPassed(es, row, hash, 0) && Probe(hash, 0, row) == hash % Size(row)
  {
  }

  lemma StepIs(hash: uint32, row: Row)
    ensures HASH_SIZES[row].rehash > 0 && Step(hash, row) == 1 + hash % HASH_SIZES[row].rehash
  {
    RowShape(row);
  }

  lemma PathGoesOn<D>(es: seq<Entry<D>>, row: Row, hash: uint32, n: nat)
    requires |es| == Size(row) && PathPassed(es, row, hash, n)
    ensures var e := es[Probe(hash, n, row)];
      !e.slot.Null? && (!IsFilled(e) || e.hash != hash) ==> PathPassed(es, row, hash, n + 1)
  {
  }

  lemma PathExhausted<D>(es: seq<Entry<D>>, row: Row, hash: uint32, n: nat)
    requires PrimeRow(row) && Chained(es, row) && n <= Size(row) && PathPassed(es, row, hash, n)
    requires n == Size(row) || es[Probe(hash, n, row)].slot.Null?
    ensures forall p :: 0 <= p < |es| ==> !Holds(es[p], hash)
  {
    forall p | 0 <= p < |es| ensures !Holds(es[p], hash) {
      var k := ProbeVisits(hash, p, row);
      assert k >= n ==> n < Size(row) && !(n < k && Holds(es[Probe(hash, k, row)], hash));
    }
  }

  /** An array with spare capacity leaves no path without an empty slot. */
  lemma SomeSlotFree<D>(es: seq<Entry<D>>, row: Row, hash: uint32)
    requires PrimeRow(row) && |es| == Size(row) && |Used(es)| < Size(row)
    ensures exists n: nat :: n < Size(row) && es[Probe(hash, n, row)].slot.Null?
  {
    assert Used(es) != Range(|es|);
    var p :| p in Range(|es|) && p !in Used(es);
    var n := ProbeVisits(hash, p, row);
  }

  lemma FillCounts<D>(es: seq<Entry<D>>, p: nat, e: Entry<D>)
    requires p < |es| && !IsFilled(es[p]) && IsFilled(e)
    ensures |Tombs(es[p := e])| == |Tombs(es)| - (if es[p].slot.Tombstone? then 1 else 0)
    ensures |Used(es[p := e])| == |Used(es)| + (if es[p].slot.Null? then 1 else 0)
    ensures |Filled(es[p := e])| == |Filled(es)| + 1
  {
    var es' := es[p := e];
    assert Filled(es') == Filled(es) + {p};
    if es[p].slot.Tombstone? {
      assert Tombs(es) == Tombs(es') + {p};
    } else {
      assert Tombs(es) == Tombs(es');
    }
    UsedSplits(es);
    UsedSplits(es');
  }

  lemma BuryCounts<D>(es: seq<Entry<D>>, p: nat)
    requires p < |es| && IsFilled(es[p])
    ensures var es' := es[p := es[p].(slot := Tombstone)];
      |Tombs(es')| == |Tombs(es)| + 1 && |Used(es')| == |Used(es)|
  {
    var es' := es[p := es[p].(slot := Tombstone)];
    assert Tombs(es') == Tombs(es) + {p};
    assert Used(es') == Used(es);
  }

  lemma {:induction false} FreshSlots<D>(es: seq<Entry<D>>)
    requires forall p :: 0 <= p < |es| ==> es[p] == Entry(0, Null)
    ensures Live(es) == multiset{} && Used(es) == {} && Tombs(es) == {}
  {
    if es != [] {
      FreshSlots(es[..|es| - 1]);
    }
  }

  // ---- The table ----------------------------------------------------------------------------------------

  class Table<D> {
    var entries: array<Entry<D>>
    var row: nat        // hash_sizes_index
    var amnt: nat
    var capacity: nat    // allocated
    var deleted: nat

    ghost predicate Valid()
      reads this, entries
    {
      && row <= LAST_ROW && PrimeRow(row)
      && capacity == entries.Length
      && Chained(entries[..], row) && EmptyIsBlank(entries[..])
      && deleted == |Tombs(entries[..])|
      && |Used(entries[..])| <= amnt <= MaxEntries(row)
    }

    ghost function Pairs(): multiset<(uint32, D)>
      reads this, entries
    {
      Live(entries[..])
    }

    ghost predicate Grows()
      reads this
      requires row <= LAST_ROW
    {
      amnt >= MaxEntries(row)
    }

    ghost predicate Rehashes()
      reads this
      requires row <= LAST_ROW
    {
      Grows() || amnt + deleted >= MaxEntries(row)
    }

    /** When an insertion takes the next size, and when it cleans out the tombstones. */
    lemma RehashesWhen()
      requires Valid()
      ensures Grows() <==> amnt >= HASH_SIZES[row].maxEntries
      ensures Rehashes() <==> amnt + deleted >= HASH_SIZES[row].maxEntries
    {
    }

    /** What the table stores once the rehash that an insertion starts with, if any, is done. */
    ghost function Carried(): multiset<(uint32, D)>
      reads this, entries
      requires row <= LAST_ROW
    {
      if Rehashes() then Kept(entries[..]) else Pairs()
    }

    constructor Init()
      ensures Valid() && fresh(entries)
      ensures Pairs() == multiset{} && amnt == 0 && row == 0 && deleted == 0
    {
      row, amnt, capacity, deleted := 0, 0, HASH_SIZES[0].size, 0;
      entries := new Entry<D>[5](_ => Entry(0, Null));
      new;
      FreshSlots(entries[..]);
      SmallRowsArePrime(0);
    }

    lemma Sized()
      requires Valid()
      ensures |entries[..]| == capacity == entries.Length == Size(row) && PrimeRow(row) && Chained(entries[..], row)
      ensures capacity > 0
    {
    }

    /** hash_table_get_entry */
    method GetEntry(hash: uint32) returns (r: Option<nat>)
      requires Valid()
      ensures r.Some? ==> r.value < entries.Length && Holds(entries[r.value], hash)
      ensures r.Some? ==> FirstOnPath(entries[..], row, hash, r.value)
      ensures r.None? ==> forall p :: 0 <= p < entries.Length ==> !Holds(entries[p], hash)
    {
      hide Probe, Step, PathPassed, Chained;
      Sized();
      var hashIndex := hash % capacity;
      ghost var n := 0;
      ghost var es := entries[..];
      PathStarts(es, row, hash);
      while true
        invariant n < Size(row) && hashIndex == Probe(hash, n, row) && es == entries[..]
        invariant PathPassed(es, row, hash, n)
        decreases Size(row) - n
      {
        var entry := entries[hashIndex];
        PathGoesOn(es, row, hash, n);
        if entry.slot.Null? {
          PathExhausted(es, row, hash, n);
          return None;
        }
        if !IsFilled(entry) || entry.hash != hash {
          StepIs(hash, row);
          var doubleHash := 1 + hash % HASH_SIZES[row].rehash;
          ProbeNext(hash, n, row);
          ProbeReturns(hash, n + 1, row);
          hashIndex := ((hashIndex + doubleHash) % WORD) % capacity;
          n := n + 1;
          if hashIndex == hash % capacity {
            break;
          }
          continue;
        }
        return Some(hashIndex);
      }
      PathExhausted(es, row, hash, n);
      return None;
    }

    method Get(hash: uint32) returns (r: Option<D>)
      requires Valid()
      ensures r.Some? <==> exists d :: (hash, d) in Pairs()
      ensures r.Some? ==> (hash, r.value) in Pairs()
      ensures r.Some? ==> FirstHolds(entries[..], row, hash, r.value)
    {
      var found := GetEntry(hash);
      if found.None? {
        forall d | (hash, d) in Pairs() ensures false {
          var p := LiveFrom(entries[..], hash, d);
        }
        return None;
      }
      LiveHas(entries[..], found.value);
      FirstHolder(entries[..], row, hash, found.value);
      return Some(entries[found.value].slot.data);
    }

    method Remove(hash: uint32) returns (r: Option<D>)
      requires Valid()
      modifies this`deleted, entries
      ensures Valid()
      ensures r.Some? <==> exists d :: (hash, d) in old(Pairs())
      ensures r.None? ==> Pairs() == old(Pairs()) && deleted == old(deleted)
      ensures r.Some? ==> (hash, r.value) in old(Pairs()) && deleted == old(deleted) + 1
      ensures r.Some? ==> Pairs() == old(Pairs()) - multiset{(hash, r.value)}
      ensures r.Some? ==> FirstHolds(old(entries[..]), row, hash, r.value)
    {
      var found := GetEntry(hash);
      if found.None? {
        forall d | (hash, d) in Pairs() ensures false {
          var p := LiveFrom(entries[..], hash, d);
        }
        return None;
      }
      var p := found.value;
      ghost var es := entries[..];
      LiveHas(es, p);
      FirstHolder(es, row, hash, p);
      hide FirstHolds;
      LiveBury(es, p);
      ChainedBury(es, row, p);
      BuryCounts(es, p);
      var data := entries[p].slot.data;
      entries[p] := Entry(entries[p].hash, Tombstone);
      deleted := deleted + 1;
      assert entries[..] == es[p := es[p].(slot := Tombstone)];
      return Some(data);
    }

    /** ptychite_hash_table_insert */
    method Insert(hash: uint32, data: D) returns (ok: bool)
      requires Valid()
      requires Grows() ==> row < LAST_ROW && PrimeRow(row + 1)
      modifies this, entries
      ensures Valid() && (if old(Rehashes()) then fresh(entries) else entries == old(entries))
      ensures deleted <= old(deleted)
      ensures hash != 0 ==> ok
      ensures hash == 0 ==> (ok <==> !old(Rehashes()) && FreeSlotIsTomb(old(entries[..]), old(row)))
      ensures Pairs() == old(Carried()) + (if ok then multiset{(hash, data)} else multiset{})
      ensures row == if old(Grows()) then old(row) + 1 else old(row)
      ensures amnt == (if old(Rehashes()) then |old(Carried())| else old(amnt)) + (if ok then 1 else 0)
      ensures amnt <= old(amnt) + 1
      decreases if Rehashes() then 2 else 0, 1
    {
      MakeRoom();
      ok := Place(hash, data);
    }

    /** The rehash that an insertion may start with. */
    method MakeRoom()
      requires Valid()
      requires Grows() ==> row < LAST_ROW && PrimeRow(row + 1)
      modifies this
      ensures Valid() && amnt < MaxEntries(row) && (if old(Rehashes()) then fresh(entries) else entries == old(entries))
      ensures if old(Rehashes()) then deleted == 0 && !FreeSlotIsTomb(entries[..], row) else deleted == old(deleted)
      ensures Pairs() == old(Carried())
      ensures row == if old(Grows()) then old(row) + 1 else old(row)
      ensures amnt == (if old(Rehashes()) then |old(Carried())| else old(amnt)) && amnt <= old(amnt)
      decreases if Rehashes() then 2 else 0, 0
    {
      UsedSplits(entries[..]);
      LiveSize(entries[..]);
      if amnt >= HASH_SIZES[row].maxEntries {
        RowShape(row + 1);
        row := row + 1;
        Rehash(row);
        NoTombsNoFree(entries[..], row);
      } else if amnt + deleted >= HASH_SIZES[row].maxEntries {
        Rehash(row);
        NoTombsNoFree(entries[..], row);
      }
    }

    /** The probing loop of ptychite_hash_table_insert: the slot it stops at, if it may write there. */
    method FindFree(hash: uint32) returns (p: Option<nat>, ghost n: nat)
      requires Valid() && amnt < MaxEntries(row)
      ensures p.None? <==> hash == 0 && !FreeSlotIsTomb(entries[..], row)
      ensures p.Some? ==> n < Size(row) && p.value == Probe(hash, n, row)
      ensures p.Some? ==> PathFilled(entries[..], row, hash, n) && !IsFilled(entries[p.value])
    {
      var hashIndex := hash % capacity;
      ghost var es := entries[..];
      n := 0;
      RowShape(row);
      SomeSlotFree(es, row, hash);
      while true
        invariant n < Size(row) && hashIndex == Probe(hash, n, row) && PathFilled(es, row, hash, n)
        decreases Size(row) - n
      {
        var entry := entries[hashIndex];
        if IsFilled(entry) {
          var doubleHash := 1 + hash % HASH_SIZES[row].rehash;
          ProbeNext(hash, n, row);
          ProbeReturns(hash, n + 1, row);
          hashIndex := ((hashIndex + doubleHash) % WORD) % capacity;
          n := n + 1;
          if hashIndex == hash % capacity {
            break;
          }
          continue;
        }
        if entry.slot.Tombstone? || entry.hash != hash {
          return Some(hashIndex), n;
        }
        FirstFree(es, row, n);
        break;
      }
      return None, n;
    }

    method Place(hash: uint32, data: D) returns (ok: bool)
      requires Valid() && amnt < MaxEntries(row)
      modifies this`amnt, this`deleted, entries
      ensures Valid() && entries == old(entries) && row == old(row)
      ensures hash != 0 ==> ok
      ensures hash == 0 ==> (ok <==> FreeSlotIsTomb(old(entries[..]), row))
      ensures Pairs() == old(Pairs()) + (if ok then multiset{(hash, data)} else multiset{})
      ensures amnt == old(amnt) + (if ok then 1 else 0)
      ensures deleted <= old(deleted)
    {
      var free, n := FindFree(hash);
      if free.None? {
        return false;
      }
      var p, e := free.value, Entry(hash, Item(data));
      ghost var es := entries[..];
      ChainedFill(es, row, hash, n, data);
      FillCounts(es, p, e);
      LiveFill(es, p, hash, data);
      if entries[p].slot.Tombstone? {
        deleted := deleted - 1;
      }
      entries[p] := e;
      amnt := amnt + 1;
      assert entries[..] == es[p := e];
      return true;
    }

    /** The fresh array that hash_table_rehash starts from. */
    method Allocate(newRow: Row)
      requires PrimeRow(newRow)
      modifies this
      ensures Valid() && fresh(entries) && row == newRow && amnt == 0 && deleted == 0
      ensures Pairs() == multiset{}
    {
      entries := new Entry<D>[HASH_SIZES[newRow].size](_ => Entry(0, Null));
      row, capacity, deleted, amnt := newRow, HASH_SIZES[newRow].size, 0, 0;
      FreshSlots(entries[..]);
    }

    /** An insertion made inside a rehash never rehashes again, and drops hash 0. */
    method Reinsert(entry: Entry<D>)
      requires Valid() && IsFilled(entry) && deleted == 0 && amnt < MaxEntries(row)
      modifies this, entries
      ensures Valid() && entries == old(entries) && row == old(row) && deleted == 0
      ensures entry.hash == 0 ==> Pairs() == old(Pairs()) && amnt == old(amnt)
      ensures entry.hash != 0 ==> Pairs() == old(Pairs()) + PairOf(entry) && amnt == old(amnt) + 1
      decreases 0, 2
    {
      NoTombsNoFree(entries[..], row);
      var ok := Insert(entry.hash, entry.slot.data);
    }

    /** hash_table_rehash: re-inserts every live entry into a fresh array. */
    method Rehash(newRow: Row)
      requires PrimeRow(newRow) && capacity == entries.Length
      requires |Filled(entries[..])| < MaxEntries(newRow)
      modifies this
      ensures Valid() && fresh(entries) && row == newRow
      ensures Pairs() == Kept(old(entries[..]))
      ensures amnt == |Pairs()| && deleted == 0 && amnt < MaxEntries(row) && amnt <= |Filled(old(entries[..]))|
      decreases 1
    {
      var oldEntries, n := entries, capacity;
      ghost var was := oldEntries[..];
      Allocate(newRow);
      for i := 0 to n
        invariant Valid() && fresh(entries) && row == newRow && entries != oldEntries && oldEntries[..] == was
        invariant Pairs() == Kept(was[..i]) && amnt == |Pairs()| && deleted == 0
        invariant amnt <= |Filled(was[..i])|
      {
        KeptStep(was, i);
        if IsFilled(oldEntries[i]) {
          Reinsert(oldEntries[i]);
        }
      }
      assert was[..n] == was;
    }

    /** ptychite_hash_map_iterate: stops early at the first item the callback answers true for. */
    method Iterate(stop: D -> bool) returns (completed: bool, visited: seq<D>)
      requires Valid()
      ensures visited <= Items(entries[..]) && forall k :: 0 <= k < |visited| - 1 ==> !stop(visited[k])
      ensures completed <==> forall k :: 0 <= k < |Items(entries[..])| ==> !stop(Items(entries[..])[k])
      ensures completed ==> visited == Items(entries[..])
      ensures !completed ==> visited != [] && stop(visited[|visited| - 1])
    {
      visited := [];
      ghost var es := entries[..];
      for i := 0 to capacity
        invariant visited == Items(es[..i]) && forall k :: 0 <= k < |visited| ==> !stop(visited[k])
      {
        assert es[..i + 1][..i] == es[..i];
        ItemsPrefix(es, i + 1);
        if IsFilled(entries[i]) {
          visited := visited + [entries[i].slot.data];
          if stop(entries[i].slot.data) {
            assert Items(es)[|visited| - 1] == visited[|visited| - 1];
            return false, visited;
          }
        }
      }
      assert es[..capacity] == es;
      return true, visited;
    }
  }

  // ---- Whole runs ---------------------------------------------------------------------------------------

  datatype Op<+D> = OpInsert(hash: uint32, data: D) | OpRemove(hash: uint32) | OpGet(hash: uint32)

  /** res is true for a successful insertion; a removal or lookup answers with the data it found. */
  datatype Result<+D> = Inserted(ok: bool) | Found(data: Option<D>)

  /** One operation on the abstract multiset of pairs. */
  ghost predicate StepOk<D(!new)>(m: multiset<(uint32, D)>, op: Op<D>, res: Result<D>, m': multiset<(uint32, D)>) {
    match op
    case OpInsert(hash, data) => res == Inserted(true) && m' == m + multiset{(hash, data)}
    case OpGet(hash) => m' == m && Answers(m, hash, res)
    case OpRemove(hash) =>
      Answers(m, hash, res) && m' == (if res.data.Some? then m - multiset{(hash, res.data.value)} else m)
  }

  ghost predicate Answers<D(!new)>(m: multiset<(uint32, D)>, hash: uint32, res: Result<D>) {
    && res.Found?
    && (res.data.Some? <==> exists d :: (hash, d) in m)
    && (res.data.Some? ==> (hash, res.data.value) in m)
  }

  ghost predicate RunOk<D(!new)>(states: seq<multiset<(uint32, D)>>, ops: seq<Op<D>>, results: seq<Result<D>>) {
    && |results| == |ops| && |states| == |ops| + 1 && states[0] == multiset{}
    && forall i :: 0 <= i < |ops| ==> StepOk(states[i], ops[i], results[i], states[i + 1])
  }

  ghost predicate NoZeroHash<D(!new)>(m: multiset<(uint32, D)>) { forall d :: (0, d) !in m }

  /** The table is ready for another operation, and its size row is as large as n insertions can make it. */
  ghost predicate Ready<D(!new)>(table: Table<D>, n: nat)
    reads table, table.entries
  {
    && table.Valid() && NoZeroHash(table.Pairs())
    && table.amnt <= n && (table.row > 0 ==> MaxEntries(table.row - 1) <= n)
  }

  /** The rows that n insertions can reach have prime sizes, and all lie before the last one. */
  ghost predicate RowsReachable(n: nat) {
    n <= MaxEntries(LAST_ROW) && forall r: Row :: r > 0 && MaxEntries(r - 1) < n ==> PrimeRow(r)
  }

  lemma SmallRunsReachPrimes(n: nat)
    requires n <= 4096
    ensures RowsReachable(n)
  {
    forall r: Row | r > 0 && MaxEntries(r - 1) < n ensures PrimeRow(r) {
      SmallRowsArePrime(r);
    }
  }

  /** A table that grows has a reachable next row. */
  lemma GrowsWithin(row: Row, amnt: nat, n: nat)
    requires RowsReachable(n + 1) && amnt <= n && (row > 0 ==> MaxEntries(row - 1) <= n)
    ensures amnt >= MaxEntries(row) ==> row < LAST_ROW && PrimeRow(row + 1)
  {
    hide PrimeRow;
    RowShape(row);
    if amnt >= MaxEntries(row) {
      RowBelowLast(row, n);
    }
  }

  lemma RowBelowLast(row: Row, n: nat)
    requires MaxEntries(row) <= n < MaxEntries(LAST_ROW)
    ensures row < LAST_ROW
  {
  }

  lemma StaysNonZero<D(!new)>(m: multiset<(uint32, D)>, hash: uint32, data: D)
    requires NoZeroHash(m) && hash != 0
    ensures NoZeroHash(m + multiset{(hash, data)})
  {
  }

  method ExecuteInsert<D(!new)>(table: Table<D>, hash: uint32, data: D, ghost n: nat) returns (ok: bool)
    requires Ready(table, n) && hash != 0 && RowsReachable(n + 1)
    modifies table, table.entries
    ensures Ready(table, n + 1) && (table.entries == old(table.entries) || fresh(table.entries))
    ensures ok && table.Pairs() == old(table.Pairs()) + multiset{(hash, data)}
  {
    hide Chained, EmptyIsBlank, Tombs, Used, Live, Kept, PrimeRow, FreeSlotIsTomb, NoZeroHash;
    CarriesAll(table.entries[..]);
    StaysNonZero(table.Pairs(), hash, data);
    GrowsWithin(table.row, table.amnt, n);
    hide RowsReachable;
    ok := table.Insert(hash, data);
  }

  method ExecuteRemove<D(!new)>(table: Table<D>, hash: uint32, ghost n: nat) returns (found: Option<D>)
    requires Ready(table, n)
    modifies table, table.entries
    ensures Ready(table, n + 1) && table.entries == old(table.entries)
    ensures StepOk(old(table.Pairs()), OpRemove(hash), Found(found), table.Pairs())
  {
    found := table.Remove(hash);
  }

  method Execute<D(!new)>(table: Table<D>, op: Op<D>, ghost n: nat) returns (res: Result<D>)
    requires Ready(table, n) && RowsReachable(n + 1) && (op.OpInsert? ==> op.hash != 0)
    modifies table, table.entries
    ensures Ready(table, n + 1) && (table.entries == old(table.entries) || fresh(table.entries))
    ensures StepOk(old(table.Pairs()), op, res, table.Pairs())
  {
    match op {
      case OpInsert(hash, data) =>
        var ok := ExecuteInsert(table, hash, data, n);
        return Inserted(ok);
      case OpRemove(hash) =>
        var found := ExecuteRemove(table, hash, n);
        return Found(found);
      case OpGet(hash) =>
        var found := table.Get(hash);
        return Found(found);
    }
  }

  /** Executes any sequence of operations on a new table; it refines the multiset of pairs throughout. */
  method Run<D(!new)>(ops: seq<Op<D>>) returns (results: seq<Result<D>>)
    requires RowsReachable(|ops|)
    requires forall i :: 0 <= i < |ops| && ops[i].OpInsert? ==> ops[i].hash != 0
    ensures exists states: seq<multiset<(uint32, D)>> :: RunOk(states, ops, results)
  {
    hide StepOk, RunOk, Ready;
    var table := new Table<D>.Init();
    results := [];
    ghost var states := [table.Pairs()];
    RunStarts(table.Pairs());
    StartsReady(table);
    for i := 0 to |ops|
      invariant Ready(table, i) && fresh(table) && fresh(table.entries)
      invariant RunOk(states, ops[..i], results) && |states| == i + 1 && states[i] == table.Pairs()
    {
      RowsBefore(|ops|, i + 1);
      var res := Execute(table, ops[i], i);
      RunExtends(states, ops[..i], results, ops[i], res, table.Pairs());
      assert ops[..i + 1] == ops[..i] + [ops[i]];
      results := results + [res];
      states := states + [table.Pairs()];
    }
    assert ops[..|ops|] == ops;
  }

  lemma StartsReady<D(!new)>(table: Table<D>)
    requires table.Valid() && table.Pairs() == multiset{} && table.amnt == 0 && table.row == 0
    ensures Ready(table, 0)
  {
  }

  lemma RowsBefore(n: nat, k: nat)
    requires RowsReachable(n) && k <= n
    ensures RowsReachable(k)
  {
  }

  lemma RunStarts<D(!new)>(m: multiset<(uint32, D)>)
    requires m == multiset{}
    ensures RunOk<D>([m], [], [])
  {
  }

  lemma RunExtends<D(!new)>(states: seq<multiset<(uint32, D)>>, ops: seq<Op<D>>, results: seq<Result<D>>,
                            op: Op<D>, res: Result<D>, m: multiset<(uint32, D)>)
    requires RunOk(states, ops, results) && StepOk(states[|ops|], op, res, m)
    ensures RunOk(states + [m], ops + [op], results + [res])
  {
  }

  lemma CarriesAll<D(!new)>(es: seq<Entry<D>>)
    requires NoZeroHash(Live(es))
    ensures Kept(es) == Live(es)
  {
    forall p | 0 <= p < |es| ensures !Holds(es[p], 0) {
      if IsFilled(es[p]) { LiveHas(es, p); }
    }
    KeptAll(es);
  }

  /** The multiset is the graph of a map. */
  ghost predicate IsGraph<D(!new)>(m: multiset<(uint32, D)>, f: map<uint32, D>) {
    forall h: uint32, d: D :: m[(h, d)] == if h in f && f[h] == d then 1 else 0
  }

  function MapStep<D(!new)>(f: map<uint32, D>, op: Op<D>): map<uint32, D> {
    match op
    case OpInsert(hash, data) => f[hash := data]
    case OpRemove(hash) => f - {hash}
    case OpGet(_) => f
  }

  function MapAnswer<D(!new)>(f: map<uint32, D>, op: Op<D>): Result<D> {
    if op.OpInsert? then Inserted(true) else Found(if op.hash in f then Some(f[op.hash]) else None)
  }

  /** The maps that the operations would lead an ordinary map through. */
  function MapAfter<D(!new)>(ops: seq<Op<D>>): map<uint32, D> {
    if ops == [] then map[] else MapStep(MapAfter(ops[..|ops| - 1]), ops[|ops| - 1])
  }

  /** No key is inserted while it is present. */
  predicate InsertsAreNew<D(!new)>(ops: seq<Op<D>>) {
    forall i :: 0 <= i < |ops| && ops[i].OpInsert? ==> ops[i].hash !in MapAfter(ops[..i])
  }

  /** Keys held at most once: every run answers like an ordinary map. */
  lemma {:induction false} RunIsMap<D(!new)>(states: seq<multiset<(uint32, D)>>, ops: seq<Op<D>>, results: seq<Result<D>>, n: nat)
    requires RunOk(states, ops, results) && InsertsAreNew(ops) && n <= |ops|
    ensures IsGraph(states[n], MapAfter(ops[..n]))
    ensures n < |ops| ==> results[n] == MapAnswer(MapAfter(ops[..n]), ops[n])
  {
    if n > 0 {
      RunIsMap(states, ops, results, n - 1);
      assert ops[..n][..n - 1] == ops[..n - 1];
      StepIsMap(states[n - 1], MapAfter(ops[..n - 1]), ops[n - 1], results[n - 1], states[n]);
    }
    if n < |ops| {
      StepIsMap(states[n], MapAfter(ops[..n]), ops[n], results[n], states[n + 1]);
    }
  }

  lemma StepIsMap<D(!new)>(m: multiset<(uint32, D)>, f: map<uint32, D>, op: Op<D>, res: Result<D>, m': multiset<(uint32, D)>)
    requires IsGraph(m, f) && StepOk(m, op, res, m') && (op.OpInsert? ==> op.hash !in f)
    ensures IsGraph(m', MapStep(f, op)) && res == MapAnswer(f, op)
  {
    if !op.OpInsert? {
      if op.hash in f {
        assert m[(op.hash, f[op.hash])] == 1;
        assert (op.hash, f[op.hash]) in m;
      } else {
        forall d ensures (op.hash, d) !in m {
          assert m[(op.hash, d)] == 0;
        }
      }
    }
  }

  /** A whole run on a new table that never inserts a present key, answered as an ordinary map answers it. */
  method RunAsMap<D(!new)>(ops: seq<Op<D>>) returns (results: seq<Result<D>>)
    requires RowsReachable(|ops|) && InsertsAreNew(ops)
    requires forall i :: 0 <= i < |ops| && ops[i].OpInsert? ==> ops[i].hash != 0
    ensures |results| == |ops|
    ensures forall n | 0 <= n < |ops| :: results[n] == MapAnswer(MapAfter(ops[..n]), ops[n])
  {
    results := Run(ops);
    ghost var states: seq<multiset<(uint32, D)>> :| RunOk(states, ops, results);
    forall n | 0 <= n < |ops| ensures results[n] == MapAnswer(MapAfter(ops[..n]), ops[n]) {
      RunIsMap(states, ops, results, n);
    }
  }
}
