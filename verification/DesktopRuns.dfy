/** What sequences of window-management steps achieve. */
module DesktopRuns {
  import opened Lists
  import opened Objects
  import opened Desktop

  // ---- The number of workspaces -------------------------------------------------------------------------

  ghost function Fronts(ws: seq<Workspace>, order: map<Workspace, seq<View>>): set<View> {
    set w | w in ws && Get(order, w) != [] :: Get(order, w)[0]
  }

  lemma FrontIsNew(ws: seq<Workspace>, w: Workspace, order: map<Workspace, seq<View>>, views: seq<View>,
                   workspaceOf: map<View, Workspace>)
    requires Partition(order, views, workspaceOf) && w !in ws && Get(order, w) != []
    ensures Get(order, w)[0] !in Fronts(ws, order)
  {
    hide Partition;
    FromList(order, views, workspaceOf, w, Get(order, w)[0]);
    forall x | x in ws && Get(order, x) != [] ensures Get(order, x)[0] != Get(order, w)[0] {
      FromList(order, views, workspaceOf, x, Get(order, x)[0]);
    }
  }

  lemma FrontsAppend(ws: seq<Workspace>, w: Workspace, order: map<Workspace, seq<View>>)
    requires Get(order, w) != []
    ensures Fronts(ws + [w], order) == Fronts(ws, order) + {Get(order, w)[0]}
  {
    assert forall x :: x in ws + [w] <==> x in ws || x == w;
  }

  lemma {:induction false} FrontsCount(ws: seq<Workspace>, order: map<Workspace, seq<View>>, views: seq<View>,
                                       workspaceOf: map<View, Workspace>)
    requires Distinct(ws) && Partition(order, views, workspaceOf)
    requires forall w :: w in ws ==> Get(order, w) != []
    ensures |Fronts(ws, order)| == |ws|
  {
    if ws == [] {
      assert Fronts(ws, order) == {};
    } else {
      hide Partition, Fronts, Get;
      var n := |ws| - 1;
      var front, w := ws[..n], ws[n];
      assert ws == front + [w] && w in ws && forall x | x in front :: x in ws;
      assert w !in front && Distinct(front);
      FrontsCount(front, order, views, workspaceOf);
      FrontIsNew(front, w, order, views, workspaceOf);
      FrontsAppend(front, w, order);
    }
  }

  ghost function Elements<T>(s: seq<T>): set<T> { set x | x in s }

  lemma {:induction false} ElementsCount<T>(s: seq<T>)
    ensures |Elements(s)| <= |s|
  {
    if s != [] {
      var n := |s| - 1;
      ElementsCount(s[..n]);
      assert s == s[..n] + [s[n]];
      assert Elements(s) == Elements(s[..n]) + {s[n]};
    }
  }

  lemma SubsetCount<T>(a: set<T>, b: set<T>)
    requires a <= b
    ensures |a| <= |b|
  {
    assert b == a + (b - a);
  }

  /** After a switch a monitor has at most two workspaces more than it has views. */
  lemma WorkspaceBound(s: State, m: Monitor)
    requires Structured(s) && m in s.workspaces && Trim(s, m)
    ensures |s.workspaces[m]| <= |s.monitorViews[m]| + 2
  {
    hide Visible, Allocated, SpareLast;
    var ws, current, last := s.workspaces[m], s.current[m], Last(s.workspaces[m]);
    var busy := Without(Without(ws, current), last);
    WithoutFacts(ws, current);
    WithoutFacts(Without(ws, current), last);
    FrontsCount(busy, s.order, s.views, s.workspaceOf);
    forall v | v in Fronts(busy, s.order) ensures v in s.monitorViews[m] {
      var w :| w in busy && Get(s.order, w) != [] && v == Get(s.order, w)[0];
      FromList(s.order, s.views, s.workspaceOf, w, v);
      OnMonitor(s, v, m, w);
      InList(s.monitorViews, s.views, s.monitorOf, v);
    }
    ElementsCount(s.monitorViews[m]);
    SubsetCount(Fronts(busy, s.order), Elements(s.monitorViews[m]));
  }

  /** After a click on a workspace or a workspace action. */
  lemma SwitchBounds(s: State, m: Monitor, w: Workspace)
    requires Inv(s) && m in s.workspaces && w in s.workspaces[m]
    ensures var r := Switch(s, m, w);
      Inv(r) && m in r.workspaces && m in r.monitorViews && |r.workspaces[m]| <= |r.monitorViews[m]| + 2
  {
    hide Switch, Trim, Partition, SpareLast, Placed, Visible, Allocated, Marked, FocusLeads;
    InvLeadsBut(s, m);
    SwitchKeeps(s, m, w);
    WorkspaceBound(Switch(s, m, w), m);
  }

  /** After focusing a view that is not shown, which switches to its workspace on the way. */
  lemma FocusBounds(s: State, v: View)
    requires Inv(s) && v in s.views && v in s.monitorOf && v in s.workspaceOf
    requires !IsCurrent(s, s.monitorOf[v], s.workspaceOf[v])
    ensures var m, r := s.monitorOf[v], Focus(s, v);
      && Inv(r) && Trim(r, m) && m in r.workspaces && m in r.monitorViews
      && |r.workspaces[m]| <= |r.monitorViews[m]| + 2
  {
    hide Switch, Trim, Partition, SpareLast, Visible, Allocated, Foremost, Raise;
    var m, w := s.monitorOf[v], s.workspaceOf[v];
    RaiseKeeps(s, v);
    RaiseMarks(s, v);
    RaiseLeads(s, v);
    RaiseFacts(s, v);
    HiddenUnfocused(s, v);
    FocusKeeps(s, v);
    SwitchKeeps(Raise(s, v), m, w);
    FocusTrims(s, v);
    WorkspaceBound(Focus(s, v), m);
  }

  lemma HiddenUnfocused(s: State, v: View)
    requires Inv(s) && v in s.views && v in s.monitorOf && v in s.workspaceOf
    requires !IsCurrent(s, s.monitorOf[v], s.workspaceOf[v])
    ensures s.focus != Some(v)
  {
    hide Structured;
  }

  lemma FocusTrims(s: State, v: View)
    requires v in s.monitorOf && v in s.workspaceOf && s.focus != Some(v)
    requires !IsCurrent(s, s.monitorOf[v], s.workspaceOf[v])
    requires Trim(Switch(Raise(s, v), s.monitorOf[v], s.workspaceOf[v]), s.monitorOf[v])
    ensures Trim(Focus(s, v), s.monitorOf[v])
  {
    hide Switch;
  }

  // ---- Cycling through the views of a workspace ---------------------------------------------------------

  /** One use of next_view or prev_view moves the focus by one place and disturbs no order. */
  lemma StepViewMoves(s: State, v: View, forward: bool)
    requires Inv(s) && FocusedView(s) == Some(v)
    ensures v in s.workspaceOf && v in Get(s.order, s.workspaceOf[v])
    ensures var w, r := s.workspaceOf[v], StepView(s, forward);
      var next := if forward then After(s.order[w], v) else Before(s.order[w], v);
      Inv(r) && FocusedView(r) == Some(next) && LivesOn(r, next, w) && r.order == s.order && r.current == s.current
  {
    hide Partition, SpareLast, Placed, Visible, Allocated, Focus, Raise, Distinct, WorkspacesOk;
    FocusedIsMapped(s);
    InList(s.order, s.views, s.workspaceOf, v);
    var w := s.workspaceOf[v];
    BeforeAfter(s.order[w], v);
    var next := if forward then After(s.order[w], v) else Before(s.order[w], v);
    FromList(s.order, s.views, s.workspaceOf, w, next);
    SameShown(s, v, next, w);
    FocusInPlace(s, next);
    if next == v {
      FocusSame(s, v);
    } else {
      FocusBringsForward(s, next);
    }
  }

  lemma FocusSame(s: State, v: View)
    requires s.focus == Some(v)
    ensures Focus(s, v) == s
  {
  }

  lemma SameShown(s: State, v: View, next: View, w: Workspace)
    requires Inv(s) && s.focus == Some(v) && v in s.views && LivesOn(s, v, w) && next in s.views && LivesOn(s, next, w)
    ensures next in s.monitorOf && IsCurrent(s, s.monitorOf[next], w)
  {
    hide Partition, SpareLast, Visible, Allocated, Distinct;
    OnMonitor(s, next, s.monitorOf[v], w);
  }

  ghost function StepViewTimes(s: State, k: nat): State {
    if k == 0 then s else StepView(StepViewTimes(s, k - 1), true)
  }

  /** The place k steps after i in a circle of n. */
  function Around(i: nat, k: nat, n: nat): nat
    requires i < n && k <= n
  {
    if i + k < n then i + k else i + k - n
  }

  /** The view k places after v in the circle of the list. */
  function Turn(list: seq<View>, v: View, k: nat): View
    requires v in list && k <= |list|
  {
    list[Around(IndexOf(list, v), k, |list|)]
  }

  /** k uses of next_view lead to the view k places on: n uses visit each view once and return to the start. */
  lemma {:induction false} NextViewCycles(s: State, v: View, w: Workspace, k: nat)
    requires Inv(s) && FocusedView(s) == Some(v) && LivesOn(s, v, w)
    requires w in s.order && v in s.order[w] && k <= |s.order[w]|
    ensures var x, r := Turn(s.order[w], v, k), StepViewTimes(s, k);
      Inv(r) && FocusedView(r) == Some(x) && LivesOn(r, x, w) && r.order == s.order && r.current == s.current
  {
    hide Inv, StepView, FocusedView;
    if k > 0 {
      var list, i := s.order[w], IndexOf(s.order[w], v);
      var before := StepViewTimes(s, k - 1);
      NextViewCycles(s, v, w, k - 1);
      StepViewMoves(before, list[Around(i, k - 1, |list|)], true);
      ListDistinct(s, w);
      IndexUnique(list, Around(i, k - 1, |list|));
    }
  }

  /** Every view of the workspace has its turn, exactly once in a full circle. */
  lemma EachViewOnce(s: State, v: View, w: Workspace, x: View) returns (k: nat)
    requires Inv(s) && FocusedView(s) == Some(v) && LivesOn(s, v, w)
    requires w in s.order && v in s.order[w] && x in s.order[w]
    ensures k < |s.order[w]| && FocusedView(StepViewTimes(s, k)) == Some(x)
    ensures forall j: nat :: j < |s.order[w]| && FocusedView(StepViewTimes(s, j)) == Some(x) ==> j == k
    ensures FocusedView(StepViewTimes(s, |s.order[w]|)) == Some(v)
  {
    hide Inv, StepViewTimes, FocusedView, LivesOn;
    var list := s.order[w];
    var i, t, n := IndexOf(list, v), IndexOf(list, x), |list|;
    k := if i <= t then t - i else t + n - i;
    assert Around(i, k, n) == t;
    NextViewCycles(s, v, w, k);
    NextViewCycles(s, v, w, n);
    ListDistinct(s, w);
    forall j: nat | j < n && FocusedView(StepViewTimes(s, j)) == Some(x) ensures j == k {
      NextViewCycles(s, v, w, j);
      assert list[Around(i, j, n)] == list[t];
    }
  }

  /** prev_view undoes next_view, and next_view undoes prev_view. */
  lemma PreviousUndoesNext(s: State, v: View, forward: bool)
    requires Inv(s) && FocusedView(s) == Some(v)
    ensures var r := StepView(StepView(s, forward), !forward);
      FocusedView(r) == Some(v) && r.order == s.order && r.current == s.current
  {
    hide Inv, StepView, FocusedView;
    StepViewMoves(s, v, forward);
    var list := s.order[s.workspaceOf[v]];
    var next := if forward then After(list, v) else Before(list, v);
    StepViewMoves(StepView(s, forward), next, !forward);
    ListDistinct(s, s.workspaceOf[v]);
    BeforeAfter(list, v);
  }

  // ---- Mapping and unmapping ----------------------------------------------------------------------------

  /**
   A new view takes the keyboard, foremost on the monitor that was active. A view that holds the keyboard already is
   not focused again, so tiling may leave the cursor's monitor active, and the view is the focused one exactly if that
   is the same.
   */
  lemma MapTakesFocus(s: State, v: View, toFront: bool, tiling: bool, extra: Workspace)
    requires Inv(s) && v !in s.views && NewMemory(s, extra)
    ensures var r := MapView(s, v, toFront, tiling, extra);
      && Inv(r) && r.focus == Some(v) && Foremost(r, v)
      && v in r.monitorOf && r.monitorOf[v] == s.active
      && v in r.workspaceOf && r.workspaceOf[v] == s.current[s.active]
      && r.active == (if s.focus == Some(v) && tiling && s.pointer.Some? then s.pointer.value else s.active)
      && (FocusedView(r) == Some(v) <==> r.active == s.active)
  {
    hide Structured, Focus, Foremost, FocusedView, Mapped, Partition;
    ActiveListed(s);
    CurrentAllocated(s, s.active, s.current[s.active]);
    MapKeeps(s, v, toFront, tiling, extra);
    MappedKeeps(s, v, toFront, tiling, extra);
    ExtraNotCurrent(s, extra);
    MappedPlaces(s, v, toFront, tiling, extra);
    var mapped := Mapped(s, v, toFront, tiling, extra);
    if s.focus == Some(v) {
      FocusSame(mapped, v);
      FocusedOnOwn(mapped, v);
    } else {
      FocusBringsForward(mapped, v);
      FocusKeeps(mapped, v);
    }
  }

  /** The foremost view with the keyboard is the focused one exactly if its monitor is active. */
  lemma FocusedOnOwn(s: State, v: View)
    requires Inv(s) && s.focus == Some(v) && v in s.views && Foremost(s, v)
    ensures FocusedView(s) == Some(v) <==> s.active == s.monitorOf[v]
  {
    hide SpareLast, Placed, Visible, Allocated, Distinct, Partition;
    var list := Get(s.focusOrder, s.current[s.active]);
    if list != [] {
      FromList(s.focusOrder, s.views, s.workspaceOf, s.current[s.active], list[0]);
    }
  }

  lemma MappedPlaces(s: State, v: View, toFront: bool, tiling: bool, extra: Workspace)
    requires s.active in s.workspaces && s.active in s.current && (FillsLast(s) ==> extra != s.current[s.active])
    ensures var r := Mapped(s, v, toFront, tiling, extra);
      && v in r.monitorOf && r.monitorOf[v] == s.active
      && v in r.workspaceOf && r.workspaceOf[v] == s.current[s.active]
      && r.active == if tiling && s.pointer.Some? then s.pointer.value else s.active
  {
    hide Spared, FillsLast;
    SparedPlaces(s, v, toFront, extra);
  }

  lemma SparedPlaces(s: State, v: View, toFront: bool, extra: Workspace)
    requires s.active in s.workspaces && s.active in s.current && (FillsLast(s) ==> extra != s.current[s.active])
    ensures var r, w := Spared(s, v, toFront, extra), s.current[s.active];
      && v in r.monitorOf && r.monitorOf[v] == s.active && v in r.workspaceOf && r.workspaceOf[v] == w
      && r.active == s.active && r.pointer == s.pointer && r.current == s.current && Get(r.order, w) != []
  {
    hide FillsLast;
  }

  /** Unmapping the view with the keyboard hands the keyboard to the workspace's most recently focused other view. */
  lemma UnmapHandsOver(s: State, v: View)
    requires Inv(s) && v in s.views && s.focus == Some(v)
    ensures v in s.workspaceOf && s.workspaceOf[v] in s.focusOrder
    ensures var rest := Without(s.focusOrder[s.workspaceOf[v]], v);
      UnmapView(s, v).focus == if rest == [] then Some(v) else Some(rest[0])
  {
    hide SpareLast, Placed, Visible, Allocated, Distinct, WorkspacesOk, Raise, Partition, Switch;
    InList(s.focusOrder, s.views, s.workspaceOf, v);
    InList(s.order, s.views, s.workspaceOf, v);
    InList(s.monitorViews, s.views, s.monitorOf, v);
    UnlinkKeeps(s, v);
    var m, w := s.monitorOf[v], s.workspaceOf[v];
    var u := Unlink(s, v);
    EmptyTogether(u.order, u.focusOrder, u.views, u.workspaceOf, w);
    var rest := Without(s.focusOrder[w], v);
    if rest != [] {
      var t := Tiled(u, m);
      FromList(u.focusOrder, u.views, u.workspaceOf, w, rest[0]);
      UnlinkedNeighbour(s, v, rest[0]);
      FocusMoves(t, rest[0]);
    }
  }

  lemma UnlinkedNeighbour(s: State, v: View, x: View)
    requires Structured(s) && v in s.views && x in Unlink(s, v).views
    ensures x != v && x in s.monitorOf && x in s.workspaceOf
  {
    WithoutFacts(s.views, v);
  }

  lemma FocusMoves(s: State, v: View)
    requires v in s.monitorOf && v in s.workspaceOf
    ensures Focus(s, v).focus == Some(v)
  {
    hide Focus;
    if s.focus == Some(v) { FocusSame(s, v); } else { FocusBringsForward(s, v); }
  }

  // ---- What the invariant means -------------------------------------------------------------------------

  /** A mapped view is on one workspace of its monitor, on both its lists, and is shown exactly when that is current. */
  lemma MappedOnce(s: State, v: View)
    requires Inv(s) && v in s.views
    ensures v in s.monitorOf && s.monitorOf[v] in s.workspaces && v in s.workspaceOf
    ensures s.workspaceOf[v] in s.workspaces[s.monitorOf[v]]
    ensures forall w <- s.order.Keys :: (v in s.order[w] <==> w == s.workspaceOf[v])
    ensures forall w <- s.focusOrder.Keys :: (v in s.focusOrder[w] <==> w == s.workspaceOf[v])
    ensures forall m <- s.monitorViews.Keys :: (v in s.monitorViews[m] <==> m == s.monitorOf[v])
    ensures v in s.enabled <==> IsCurrent(s, s.monitorOf[v], s.workspaceOf[v])
  {
  }

  /** The two lists of a workspace are permutations of each other. */
  lemma ListsAreOnePermuted(s: State, w: Workspace)
    requires Inv(s) && w in s.order
    ensures w in s.focusOrder && multiset(s.order[w]) == multiset(s.focusOrder[w])
  {
    ListDistinct(s, w);
    var a, b := s.order[w], s.focusOrder[w];
    forall v: View | v in a || v in b ensures v in a && v in b {
      MappedInBoth(s, v, w);
    }
    hide Inv;
    SameOnce(a, b);
  }

  lemma SameOnce(a: seq<View>, b: seq<View>)
    requires Distinct(a) && Distinct(b) && SameElements(a, b)
    ensures multiset(a) == multiset(b)
  {
    DistinctOnce(a);
    DistinctOnce(b);
  }

  lemma MappedInBoth(s: State, v: View, w: Workspace)
    requires Inv(s) && w in s.order && w in s.focusOrder && (v in s.order[w] || v in s.focusOrder[w])
    ensures v in s.order[w] && v in s.focusOrder[w]
  {
    hide Partition, SpareLast, Placed, Visible, Allocated, WorkspacesOk, Marked, FocusLeads;
    if v in s.order[w] {
      FromList(s.order, s.views, s.workspaceOf, w, v);
    } else {
      FromList(s.focusOrder, s.views, s.workspaceOf, w, v);
    }
    InList(s.order, s.views, s.workspaceOf, v);
    InList(s.focusOrder, s.views, s.workspaceOf, v);
  }

  lemma {:induction false} DistinctOnce<T>(s: seq<T>)
    requires Distinct(s)
    ensures forall x <- s :: multiset(s)[x] == 1
  {
    if s != [] {
      DistinctOnce(s[1..]);
      assert s == [s[0]] + s[1..];
      assert s[0] !in s[1..];
    }
  }
}
