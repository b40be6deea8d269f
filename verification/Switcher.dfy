/** The application switcher's list (src/ptychite/windows/switcher.c). */
module Switcher {
  import opened Lists

  // ---- Grouping views by application --------------------------------------------------------------------

  /** The known applications in order of first appearance; app gives a view's entry in server->applications. */
  function Apps<A(==), V>(views: seq<V>, app: V -> Option<A>): seq<A> {
    if views == [] then []
    else
      var n := |views| - 1;
      var apps, a := Apps(views[..n], app), app(views[n]);
      if a.Some? && a.value !in apps then apps + [a.value] else apps
  }

  /** The views of one application, in order. */
  function Of<A(==), V>(views: seq<V>, app: V -> Option<A>, a: A): seq<V> {
    if views == [] then []
    else
      var n := |views| - 1;
      Of(views[..n], app, a) + (if app(views[n]) == Some(a) then [views[n]] else [])
  }

  lemma {:induction false} AppsDistinct<A, V>(views: seq<V>, app: V -> Option<A>)
    ensures Distinct(Apps(views, app))
  {
    if views != [] { AppsDistinct(views[..|views| - 1], app); }
  }

  /** An application is listed exactly if one of its views is. */
  lemma {:induction false} AppsAreUsed<A, V>(views: seq<V>, app: V -> Option<A>, a: A)
    ensures a in Apps(views, app) <==> exists i :: 0 <= i < |views| && app(views[i]) == Some(a)
    ensures a in Apps(views, app) <==> Of(views, app, a) != []
  {
    if views != [] {
      var n := |views| - 1;
      AppsAreUsed(views[..n], app, a);
      if app(views[n]) == Some(a) {
        assert a in Apps(views, app);
      } else {
        assert a in Apps(views, app) <==> a in Apps(views[..n], app);
      }
    }
  }

  /** No view is lost, added or put under another application. */
  lemma {:induction false} GroupsAreExact<A, V>(views: seq<V>, app: V -> Option<A>, a: A, v: V)
    ensures multiset(Of(views, app, a))[v] == if app(v) == Some(a) then multiset(views)[v] else 0
  {
    if views != [] {
      var n := |views| - 1;
      GroupsAreExact(views[..n], app, a, v);
      assert views == views[..n] + [views[n]];
    }
  }

  /** A group keeps the order of the list: each view's place is found by skipping other applications' views. */
  lemma {:induction false} GroupsKeepOrder<A, V>(us: seq<V>, ws: seq<V>, app: V -> Option<A>, a: A)
    ensures Of(us + ws, app, a) == Of(us, app, a) + Of(ws, app, a)
  {
    if ws == [] {
      assert us + ws == us;
    } else {
      var n := |ws| - 1;
      GroupsKeepOrder(us, ws[..n], app, a);
      assert (us + ws)[..|us + ws| - 1] == us + ws[..n];
    }
  }

  /** Applications seen in a prefix come first, in the prefix's own order. */
  lemma {:induction false} AppsByAppearance<A, V>(views: seq<V>, app: V -> Option<A>, k: nat)
    requires k <= |views|
    ensures Apps(views[..k], app) <= Apps(views, app)
  {
    if k < |views| {
      var n := |views| - 1;
      AppsByAppearance(views[..n], app, k);
      assert views[..n][..k] == views[..k];
    } else {
      assert views[..k] == views;
    }
  }

  // ---- The list -----------------------------------------------------------------------------------------

  class SwitcherApp<A, V> {
    const app: A
    var views: seq<V>
    var idx: int

    constructor (app: A, view: V)
      ensures this.app == app && views == [view] && idx == 0
    {
      this.app, views, idx := app, [view], 0;
    }
  }

  ghost function IdxOf<A, V>(node: SwitcherApp?<A, V>): int
    reads node
  {
    if node == null then 0 else node.idx
  }

  /** An index past the end of n views starts again with the first one. */
  function Inside(idx: int, n: nat): int { if idx >= n then 0 else idx }

  /** No node twice, and no application twice. */
  ghost predicate DistinctNodes<A, V>(nodes: seq<SwitcherApp<A, V>>) {
    forall i, j :: 0 <= i < j < |nodes| ==> nodes[i] != nodes[j] && nodes[i].app != nodes[j].app
  }

  ghost function Nodes<A, V>(nodes: seq<SwitcherApp<A, V>>): set<SwitcherApp<A, V>> { set n | n in nodes }

  ghost predicate HasApp<A, V>(nodes: seq<SwitcherApp<A, V>>, a: A) {
    exists i :: 0 <= i < |nodes| && nodes[i].app == a
  }

  /** The nodes are the groups of the views. */
  ghost predicate Grouped<A, V>(nodes: seq<SwitcherApp<A, V>>, views: seq<V>, app: V -> Option<A>)
    reads nodes
  {
    && |nodes| == |Apps(views, app)|
    && forall k :: 0 <= k < |nodes| ==>
         nodes[k].app == Apps(views, app)[k] && nodes[k].views == Of(views, app, nodes[k].app)
  }

  ghost function Indexes<A, V>(nodes: seq<SwitcherApp<A, V>>): map<SwitcherApp<A, V>, int>
    reads nodes
  {
    map n | n in nodes :: n.idx
  }

  /** Nodes left over have the index they had; those that moved over have it too unless it is cleared, new ones 0. */
  ghost predicate Indexed<A, V>(nodes: seq<SwitcherApp<A, V>>, left: seq<SwitcherApp<A, V>>,
                                was: map<SwitcherApp<A, V>, int>, cleared: bool)
    reads nodes, left
  {
    && (forall n :: n in left ==> n in was && n.idx == was[n])
    && (forall n :: n in nodes ==> n.idx == if n in was && !cleared then was[n] else 0)
  }

  lemma IndexedStart<A, V>(nodes: seq<SwitcherApp<A, V>>, cleared: bool)
    ensures Indexed([], nodes, Indexes(nodes), cleared)
  {
  }

  method FindApp<A(==), V>(nodes: seq<SwitcherApp<A, V>>, a: A) returns (k: Option<nat>)
    ensures k.Some? ==> k.value < |nodes| && nodes[k.value].app == a
    ensures k.None? ==> !HasApp(nodes, a)
  {
    for i := 0 to |nodes|
      invariant forall j :: 0 <= j < i ==> nodes[j].app != a
    {
      if nodes[i].app == a {
        return Some(i);
      }
    }
    return None;
  }

  class Switcher<A(==), V> {
    var sapps: seq<SwitcherApp<A, V>>
    var cur: SwitcherApp?<A, V>

    ghost predicate Valid()
      reads this
    {
      DistinctNodes(sapps) && (cur != null ==> cur in sapps)
    }

    constructor ()
      ensures Valid() && sapps == [] && cur == null
    {
      sapps, cur := [], null;
    }

    /** An application that is on the old list: its node moves over and starts its views anew. */
    method MoveOver(view: V, left: seq<SwitcherApp<A, V>>, k: nat, ghost was: map<SwitcherApp<A, V>, int>)
      returns (left': seq<SwitcherApp<A, V>>)
      requires DistinctNodes(sapps + left) && k < |left| && Indexed(sapps, left, was, cur == null)
      modifies this`sapps, left[k]
      ensures left' == left[..k] + left[k + 1..] && sapps == old(sapps) + [left[k]] && DistinctNodes(sapps + left')
      ensures left[k].views == [view] && Indexed(sapps, left', was, cur == null)
      ensures left[k] !in old(sapps) && left[k] !in left' && !HasApp(old(sapps), left[k].app)
    {
      MoveKeepsDistinct(sapps, left, k);
      var node := left[k];
      left' := left[..k] + left[k + 1..];
      sapps := sapps + [node];
      node.views := [view];
      if cur == null {
        node.idx := 0;
      }
    }

    /** An application that is on the new list already: its group grows. */
    method Join(view: V, left: seq<SwitcherApp<A, V>>, k: nat, ghost was: map<SwitcherApp<A, V>, int>)
      requires DistinctNodes(sapps + left) && k < |sapps| && Indexed(sapps, left, was, cur == null)
      modifies sapps[k]
      ensures Indexed(sapps, left, was, cur == null)
      ensures forall n :: n in sapps ==> n.views == old(n.views) + (if n.app == sapps[k].app then [view] else [])
    {
      PrefixDistinct(sapps, left);
      var node := sapps[k];
      node.views := node.views + [view];
    }

    /** A new application. */
    method Append(view: V, a: A, left: seq<SwitcherApp<A, V>>, ghost was: map<SwitcherApp<A, V>, int>)
      requires DistinctNodes(sapps + left) && !HasApp(sapps, a) && !HasApp(left, a)
      requires Indexed(sapps, left, was, cur == null)
      modifies this`sapps
      ensures |sapps| == |old(sapps)| + 1 && sapps[..|old(sapps)|] == old(sapps) && fresh(sapps[|sapps| - 1])
      ensures sapps[|sapps| - 1].app == a && sapps[|sapps| - 1].views == [view]
      ensures Indexed(sapps, left, was, cur == null)
      ensures DistinctNodes(sapps + left)
    {
      var node := new SwitcherApp<A, V>(a, view);
      AppendKeepsDistinct(sapps, left, node);
      sapps := sapps + [node];
    }

    /** One turn of the loop over server->views, for a view of application a. */
    method AddView(view: V, a: A, left: seq<SwitcherApp<A, V>>, ghost prefix: seq<V>, ghost app: V -> Option<A>,
                   ghost was: map<SwitcherApp<A, V>, int>)
      returns (left': seq<SwitcherApp<A, V>>)
      requires DistinctNodes(sapps + left) && Grouped(sapps, prefix, app) && app(view) == Some(a)
      requires Indexed(sapps, left, was, cur == null)
      modifies this`sapps, Nodes(sapps), Nodes(left)
      ensures DistinctNodes(sapps + left') && Grouped(sapps, prefix + [view], app)
      ensures old(sapps) <= sapps
      ensures forall n :: n in left' ==> n in left
      ensures forall n :: n in left ==> n in left' || n in sapps
      ensures forall n :: n in sapps ==> n in old(sapps) || n in left || fresh(n)
      ensures Indexed(sapps, left', was, cur == null)
    {
      hide DistinctNodes, Indexed;
      var k := FindApp(left, a);
      if k.Some? {
        left' := MoveOver(view, left, k.value, was);
        GroupedByAppend(old(sapps), prefix, view, app, left[k.value]);
        return;
      }
      left' := left;
      k := FindApp(sapps, a);
      if k.Some? {
        Join(view, left, k.value, was);
        GroupsStep(prefix, view, app);
        return;
      }
      Append(view, a, left, was);
      GroupedByAppend(old(sapps), prefix, view, app, sapps[|sapps| - 1]);
      assert sapps == old(sapps) + [sapps[|sapps| - 1]];
    }

    /** The loop of ptychite_switcher_draw_auto over server->views, starting from an empty new list. */
    method Regroup(views: seq<V>, app: V -> Option<A>, was: seq<SwitcherApp<A, V>>)
      returns (left: seq<SwitcherApp<A, V>>)
      requires sapps == [] && DistinctNodes(was)
      modifies this`sapps, Nodes(was)
      ensures DistinctNodes(sapps + left) && Grouped(sapps, views, app)
      ensures forall n :: n in left ==> n in was
      ensures forall n :: n in was ==> n in left || n in sapps
      ensures forall n :: n in sapps ==> n in was || fresh(n)
      ensures Indexed(sapps, left, old(Indexes(was)), cur == null)
    {
      hide Indexed;
      ghost var idxs := Indexes(was);
      IndexedStart(was, cur == null);
      left := was;
      assert sapps + left == was;
      for i := 0 to |views|
        invariant DistinctNodes(sapps + left) && Grouped(sapps, views[..i], app)
        invariant forall n :: n in left ==> n in was
        invariant forall n :: n in was ==> n in left || n in sapps
        invariant forall n :: n in sapps ==> n in was || fresh(n)
        invariant Indexed(sapps, left, idxs, cur == null)
      {
        assert views[..i + 1] == views[..i] + [views[i]];
        var a := app(views[i]);
        if a.Some? {
          left := AddView(views[i], a.value, left, views[..i], app, idxs);
        } else {
          GroupsStep(views[..i], views[i], app);
        }
      }
      assert views[..|views|] == views;
    }

    /** Where the selection goes after the list has been built. */
    method PlaceCursor(sub: bool, ghost views: seq<V>, ghost app: V -> Option<A>)
      requires Valid() && Grouped(sapps, views, app)
      modifies this`cur, Nodes(sapps)`idx
      ensures Valid()
      ensures cur == if sapps == [] then null
                     else if old(cur) != null then old(cur)
                     else if |sapps| > 1 && !sub then sapps[1] else sapps[0]
      ensures cur != null && sub ==> cur.idx == Inside(if old(cur) == null then 1 else old(IdxOf(cur)), |cur.views|)
      ensures forall n :: n in sapps && !(sub && n == cur) ==> n.idx == old(n.idx)
    {
      if sapps == [] {
        return;
      }
      if cur == null {
        cur := if |sapps| > 1 && !sub then sapps[1] else sapps[0];
        if sub {
          cur.idx := 1;
        }
      }
      if sub {
        AppsAreUsed(views, app, cur.app);
        if cur.idx >= |cur.views| {
          cur.idx := 0;
        }
      }
    }

    /** The list-building part of ptychite_switcher_draw_auto. */
    method Rebuild(views: seq<V>, app: V -> Option<A>, sub: bool)
      requires Valid()
      modifies this, Nodes(sapps)
      ensures Valid() && Grouped(sapps, views, app)
      ensures forall n :: n in old(sapps) ==> (n in sapps <==> n.app in Apps(views, app))
      ensures cur == if sapps == [] then null
                     else if old(cur) != null && old(cur).app in Apps(views, app) then old(cur)
                     else if |sapps| > 1 && !sub then sapps[1] else sapps[0]
      ensures var stays := old(cur) != null && old(cur).app in Apps(views, app);
        cur != null && sub ==> cur.idx == Inside(if stays then old(IdxOf(cur)) else 1, |cur.views|)
      ensures var was := old(Indexes(sapps));
        forall n :: n in sapps && !(sub && n == cur) ==> n.idx == if n in was && old(cur) != null then was[n] else 0
    {
      var was := sapps;
      sapps := [];
      var left := Regroup(views, app, was);
      LeftoversUnused(sapps, left, views, app);
      PrefixDistinct(sapps, left);
      if cur != null && cur in left {
        cur := null;
      }
      PlaceCursor(sub, views, app);
    }
  }

  /** What remains of the old list belongs to applications without views, and nothing else does. */
  lemma LeftoversUnused<A, V>(nodes: seq<SwitcherApp<A, V>>, left: seq<SwitcherApp<A, V>>, views: seq<V>,
                              app: V -> Option<A>)
    requires DistinctNodes(nodes + left) && Grouped(nodes, views, app)
    ensures forall n :: n in left ==> n.app !in Apps(views, app) && n !in nodes
    ensures forall n :: n in nodes ==> n.app in Apps(views, app)
  {
    forall n | n in left ensures n.app !in Apps(views, app) && n !in nodes {
      var j :| 0 <= j < |left| && left[j] == n;
      forall k | 0 <= k < |nodes| ensures nodes[k].app != n.app && nodes[k] != n {
        assert (nodes + left)[k] == nodes[k] && (nodes + left)[|nodes| + j] == n;
      }
    }
  }

  lemma GroupsStep<A, V>(prefix: seq<V>, view: V, app: V -> Option<A>)
    ensures var a := app(view);
      Apps(prefix + [view], app) ==
      if a.Some? && a.value !in Apps(prefix, app) then Apps(prefix, app) + [a.value] else Apps(prefix, app)
    ensures forall b {:trigger Of(prefix + [view], app, b)} ::
      Of(prefix + [view], app, b) == Of(prefix, app, b) + (if app(view) == Some(b) then [view] else [])
  {
    assert (prefix + [view])[..|prefix|] == prefix;
  }

  /** A node for a new application goes to the end. */
  lemma GroupedByAppend<A, V>(nodes: seq<SwitcherApp<A, V>>, prefix: seq<V>, view: V, app: V -> Option<A>,
                              node: SwitcherApp<A, V>)
    requires Grouped(nodes, prefix, app) && app(view) == Some(node.app) && node.views == [view]
    requires !HasApp(nodes, node.app)
    ensures Grouped(nodes + [node], prefix + [view], app)
  {
    GroupsStep(prefix, view, app);
    AppsAreUsed(prefix, app, node.app);
    assert node.app !in Apps(prefix, app);
    forall k | 0 <= k < |nodes| ensures nodes[k].views == Of(prefix + [view], app, nodes[k].app) {
      assert Of(prefix + [view], app, nodes[k].app) == Of(prefix, app, nodes[k].app) + [];
    }
    assert Of(prefix + [view], app, node.app) == [] + [view];
  }

  lemma MoveKeepsDistinct<A, V>(s: seq<SwitcherApp<A, V>>, l: seq<SwitcherApp<A, V>>, k: nat)
    requires DistinctNodes(s + l) && k < |l|
    ensures DistinctNodes(s + [l[k]] + (l[..k] + l[k + 1..]))
    ensures l[k] !in s && l[k] !in l[..k] + l[k + 1..] && !HasApp(s, l[k].app)
  {
    var was, now := s + l, s + [l[k]] + (l[..k] + l[k + 1..]);
    var at := (i: int) => if i < |s| then i else if i == |s| then |s| + k else if i <= |s| + k then i - 1 else i;
    forall i, j | 0 <= i < j < |now| ensures now[i] != now[j] && now[i].app != now[j].app {
      assert now[i] == was[at(i)] && now[j] == was[at(j)] && at(i) != at(j);
    }
    assert forall i :: 0 <= i < |s| ==> s[i] == was[i];
    assert l[k] == was[|s| + k];
    forall i | 0 <= i < |l| && i != k ensures l[i] != l[k] {
      assert l[i] == was[|s| + i];
    }
  }

  lemma PrefixDistinct<A, V>(s: seq<SwitcherApp<A, V>>, l: seq<SwitcherApp<A, V>>)
    requires DistinctNodes(s + l)
    ensures DistinctNodes(s) && DistinctNodes(l) && forall n :: n in s ==> n !in l
  {
    forall i, j | 0 <= i < |s| && 0 <= j < |l| ensures s[i] != l[j] {
      assert s[i] == (s + l)[i] && l[j] == (s + l)[|s| + j];
    }
    assert forall i :: 0 <= i < |s| ==> s[i] == (s + l)[i];
    assert forall i :: 0 <= i < |l| ==> l[i] == (s + l)[|s| + i];
  }

  lemma AppendKeepsDistinct<A, V>(s: seq<SwitcherApp<A, V>>, l: seq<SwitcherApp<A, V>>, node: SwitcherApp<A, V>)
    requires DistinctNodes(s + l) && !HasApp(s, node.app) && !HasApp(l, node.app)
    ensures DistinctNodes(s + [node] + l)
  {
    var was, now := s + l, s + [node] + l;
    forall i | 0 <= i < |was| ensures was[i] != node && was[i].app != node.app {
      if i < |s| { assert was[i] == s[i]; } else { assert was[i] == l[i - |s|]; }
    }
    var at := (i: int) => if i < |s| then i else i - 1;
    forall i, j | 0 <= i < j < |now| ensures now[i] != now[j] && now[i].app != now[j].app {
      assert i != |s| ==> now[i] == was[at(i)];
      assert j != |s| ==> now[j] == was[at(j)];
    }
  }
}
