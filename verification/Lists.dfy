/** Doubly linked lists (wl_list) as sequences of their distinct elements. */
module Lists {

  datatype Option<+T> = None | Some(value: T)

  ghost predicate Distinct<T>(s: seq<T>) {
    forall i, j :: 0 <= i < j < |s| ==> s[i] != s[j]
  }

  ghost predicate SameElements<T>(s: seq<T>, t: seq<T>) {
    (forall x :: x in s ==> x in t) && (forall x :: x in t ==> x in s)
  }

  /** wl_list_remove */
  function Without<T(==)>(s: seq<T>, x: T): seq<T> {
    if s == [] then []
    else if s[0] == x then s[1..]
    else [s[0]] + Without(s[1..], x)
  }

  /** wl_list_remove, then wl_list_insert at the head. */
  function ToFront<T(==)>(s: seq<T>, x: T): seq<T> { [x] + Without(s, x) }

  /** r holds the elements of s other than x. */
  ghost predicate Drops<T>(r: seq<T>, s: seq<T>, x: T) {
    && Distinct(r)
    && (forall y :: y in r ==> y in s && y != x)
    && (forall y :: y in s && y != x ==> y in r)
  }

  lemma {:induction false} WithoutFacts<T>(s: seq<T>, x: T)
    requires Distinct(s)
    ensures Drops(Without(s, x), s, x)
    ensures |Without(s, x)| == if x in s then |s| - 1 else |s|
  {
    if s != [] {
      WithoutFacts(s[1..], x);
      assert s == [s[0]] + s[1..];
      assert s[0] !in s[1..];
    }
  }

  lemma ToFrontFacts<T>(s: seq<T>, x: T)
    requires Distinct(s)
    ensures Distinct(ToFront(s, x))
    ensures x in s ==> SameElements(ToFront(s, x), s)
    ensures |ToFront(s, x)| == if x in s then |s| else |s| + 1
  {
    WithoutFacts(s, x);
  }

  /** What is left of a list when every x is taken out of it. */
  ghost function Others<T>(s: seq<T>, x: T): seq<T> {
    if s == [] then []
    else Others(s[..|s| - 1], x) + if s[|s| - 1] == x then [] else [s[|s| - 1]]
  }

  lemma {:induction false} OthersConcat<T>(a: seq<T>, b: seq<T>, x: T)
    ensures Others(a + b, x) == Others(a, x) + Others(b, x)
  {
    if b == [] {
      assert a + b == a;
    } else {
      assert (a + b)[..|a + b| - 1] == a + b[..|b| - 1];
      OthersConcat(a, b[..|b| - 1], x);
    }
  }

  lemma OthersOne<T>(y: T, x: T)
    ensures Others([y], x) == if y == x then [] else [y]
  {
    assert [y][..0] == [];
  }

  lemma {:induction false} OthersAbsent<T>(s: seq<T>, x: T)
    requires x !in s
    ensures Others(s, x) == s
  {
    if s != [] { OthersAbsent(s[..|s| - 1], x); }
  }

  lemma {:induction false} OthersHas<T>(s: seq<T>, x: T, y: T)
    ensures y in Others(s, x) <==> y in s && y != x
  {
    if s != [] {
      OthersHas(s[..|s| - 1], x, y);
      assert s == s[..|s| - 1] + [s[|s| - 1]];
    }
  }

  /** Taking x out once more changes nothing, also after it has been put in front. */
  lemma OthersAgain<T>(s: seq<T>, x: T)
    ensures Others([x] + Others(s, x), x) == Others(s, x)
  {
    OthersConcat([x], Others(s, x), x);
    OthersOne(x, x);
    OthersHas(s, x, x);
    OthersAbsent(Others(s, x), x);
  }

  lemma OthersFirst<T>(s: seq<T>, x: T)
    requires s != [] && s[0] != x
    ensures Others(s, x) != [] && Others(s, x)[0] == s[0]
  {
    assert s == [s[0]] + s[1..];
    OthersConcat([s[0]], s[1..], x);
    OthersOne(s[0], x);
  }

  /** Removing one element leaves the others, in their order. */
  lemma {:induction false} WithoutIsOthers<T>(s: seq<T>, x: T)
    requires Distinct(s)
    ensures Without(s, x) == Others(s, x)
  {
    if s != [] {
      OthersStep(s, x);
      TailApart(s);
      hide Others, Distinct;
      if s[0] == x {
        OthersAbsent(s[1..], x);
      } else {
        WithoutIsOthers(s[1..], x);
      }
    }
  }

  lemma OthersStep<T>(s: seq<T>, x: T)
    requires s != []
    ensures Others(s, x) == (if s[0] == x then [] else [s[0]]) + Others(s[1..], x)
  {
    assert s == [s[0]] + s[1..];
    hide Others;
    OthersConcat([s[0]], s[1..], x);
    OthersOne(s[0], x);
  }

  lemma TailApart<T>(s: seq<T>)
    requires Distinct(s) && s != []
    ensures Distinct(s[1..]) && s[0] !in s[1..]
  {
  }

  /** The first element of a list and the others make up the list. */
  lemma FirstAndOthers<T>(s: seq<T>, x: T)
    requires Distinct(s) && s != [] && s[0] == x
    ensures s == [x] + Others(s, x)
  {
    WithoutIsOthers(s, x);
  }

  function IndexOf<T(==)>(s: seq<T>, x: T): (i: nat)
    requires x in s
    ensures i < |s| && s[i] == x
  {
    if s[0] == x then 0 else IndexOf(s[1..], x) + 1
  }

  /** The element after x, wrapping around past the list head. */
  function After<T(==)>(s: seq<T>, x: T): T
    requires x in s
  {
    var i := IndexOf(s, x);
    if i + 1 == |s| then s[0] else s[i + 1]
  }

  function Before<T(==)>(s: seq<T>, x: T): T
    requires x in s
  {
    var i := IndexOf(s, x);
    if i == 0 then s[|s| - 1] else s[i - 1]
  }

  lemma IndexUnique<T>(s: seq<T>, i: nat)
    requires Distinct(s) && i < |s|
    ensures IndexOf(s, s[i]) == i
  {
  }

  lemma BeforeAfter<T>(s: seq<T>, x: T)
    requires Distinct(s) && x in s
    ensures After(s, x) in s && Before(s, After(s, x)) == x
    ensures Before(s, x) in s && After(s, Before(s, x)) == x
  {
    var n, i := |s|, IndexOf(s, x);
    IndexUnique(s, if i + 1 == n then 0 else i + 1);
    IndexUnique(s, if i == 0 then n - 1 else i - 1);
  }

  /** The first place of c in s, or |s|. */
  function Find<T(==)>(s: seq<T>, c: T): (i: nat)
    ensures i <= |s| && (i < |s| ==> s[i] == c) && forall j :: 0 <= j < i ==> s[j] != c
  {
    if s == [] then 0 else if s[0] == c then 0 else Find(s[1..], c) + 1
  }
}
