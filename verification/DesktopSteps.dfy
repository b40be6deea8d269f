/** What repeated and opposite steps over workspaces and views come to. */
module DesktopSteps {
  import opened Lists
  import opened Objects
  import opened Desktop

  /** The monitor that is active after the cursor has been checked. */
  ghost function Pointed(s: State): Monitor { if s.pointer.Some? then s.pointer.value else s.active }

  // ---- The list of workspaces around a step ---------------------------------------------------------------

  lemma {:induction false} KeptConcat(a: seq<Workspace>, b: seq<Workspace>, current: Workspace,
                                      order: map<Workspace, seq<View>>)
    ensures Kept(a + b, current, order) == Kept(a, current, order) + Kept(b, current, order)
  {
    if a == [] {
      assert a + b == b;
    } else {
      assert (a + b)[1..] == a[1..] + b;
      KeptConcat(a[1..], b, current, order);
    }
  }

  /** y directly follows x. */
  ghost predicate Adjacent(ws: seq<Workspace>, x: Workspace, y: Workspace) {
    exists j :: 0 <= j < |ws| - 1 && ws[j] == x && ws[j + 1] == y
  }

  lemma AdjacentNeighbours(ws: seq<Workspace>, x: Workspace, y: Workspace)
    requires Distinct(ws) && Adjacent(ws, x, y)
    ensures x in ws && y in ws && After(ws, x) == y && Before(ws, y) == x
  {
    var j :| 0 <= j < |ws| - 1 && ws[j] == x && ws[j + 1] == y;
    IndexUnique(ws, j);
    IndexUnique(ws, j + 1);
  }

  lemma AdjacentIn(a: seq<Workspace>, x: Workspace, y: Workspace, b: seq<Workspace>)
    ensures Adjacent(a + [x, y] + b, x, y)
  {
    var s, j := a + [x, y] + b, |a|;
    assert s[j] == x && s[j + 1] == y;
  }

  lemma KeptOne(x: Workspace, current: Workspace, order: map<Workspace, seq<View>>)
    requires x == current || Get(order, x) != []
    ensures Kept([x], current, order) == [x]
  {
    assert [x][1..] == [];
  }

  lemma KeptTwo(a: seq<Workspace>, x: Workspace, y: Workspace, b: seq<Workspace>, current: Workspace,
                order: map<Workspace, seq<View>>)
    requires (x == current || Get(order, x) != []) && (y == current || Get(order, y) != [])
    ensures Kept(a + [x, y] + b, current, order) == Kept(a, current, order) + [x, y] + Kept(b, current, order)
  {
    hide Kept;
    KeptConcat(a + [x, y], b, current, order);
    KeptConcat(a, [x, y], current, order);
    KeptConcat([x], [y], current, order);
    KeptOne(x, current, order);
    KeptOne(y, current, order);
    assert [x] + [y] == [x, y];
  }

  /** Two neighbours that the clean-up keeps stay neighbours. */
  lemma KeptStayAdjacent(ws: seq<Workspace>, i: nat, current: Workspace, order: map<Workspace, seq<View>>)
    requires i + 1 < |ws| && (ws[i] == current || Get(order, ws[i]) != [])
    requires i + 2 == |ws| || ws[i + 1] == current || Get(order, ws[i + 1]) != []
    ensures Adjacent(Fixed(ws, current, order), ws[i], ws[i + 1])
  {
    hide Kept, Adjacent;
    var a, x, y, n := ws[..i], ws[i], ws[i + 1], |ws| - 1;
    var before := Kept(a, current, order);
    if i + 2 == |ws| {
      KeptConcat(a, [x], current, order);
      KeptOne(x, current, order);
      assert ws[..n] == a + [x];
      assert Fixed(ws, current, order) == before + [x, y] + [];
      AdjacentIn(before, x, y, []);
    } else {
      var b := ws[i + 2..n];
      KeptTwo(a, x, y, b, current, order);
      assert ws[..n] == a + [x, y] + b;
      var after := Kept(b, current, order) + [ws[n]];
      assert Fixed(ws, current, order) == before + [x, y] + after;
      AdjacentIn(before, x, y, after);
    }
  }

  lemma EndsStay(ws: seq<Workspace>, current: Workspace, order: map<Workspace, seq<View>>)
    requires ws != []
    ensures var fixed := Fixed(ws, current, order);
      && fixed != [] && Last(fixed) == Last(ws)
      && (|ws| == 1 || ws[0] == current || Get(order, ws[0]) != [] ==> fixed[0] == ws[0])
  {
  }

  lemma RingNeighbours(ws: seq<Workspace>)
    requires Distinct(ws) && ws != []
    ensures After(ws, Last(ws)) == ws[0] && Before(ws, ws[0]) == Last(ws)
  {
    IndexUnique(ws, 0);
    IndexUnique(ws, |ws| - 1);
  }

  /** The place next to w, or before it, in the circle of workspaces. */
  function Beside(ws: seq<Workspace>, w: Workspace, forward: bool): Workspace
    requires w in ws
  {
    if forward then After(ws, w) else Before(ws, w)
  }

  /** Stepping off w and back: w is still there, and still the neighbour, exactly if the clean-up left it. */
  lemma StepBack(ws: seq<Workspace>, w: Workspace, order: map<Workspace, seq<View>>, forward: bool)
    requires Distinct(ws) && w in ws
    ensures var next := Beside(ws, w, forward);
      var fixed := Fixed(ws, next, order);
      && next in fixed
      && (Beside(fixed, next, !forward) == w <==> Get(order, w) != [] || w == Last(ws))
  {
    var next := Beside(ws, w, forward);
    BeforeAfter(ws, w);
    var fixed := Fixed(ws, next, order);
    FixedHas(ws, next, order, next);
    FixedHas(ws, next, order, w);
    FixedDistinct(ws, next, order);
    BeforeAfter(fixed, next);
    if Get(order, w) != [] || w == Last(ws) {
      StepBackStays(ws, w, order, forward);
    } else {
      NextDiffers(ws, w, forward);
      assert w !in fixed;
    }
  }

  lemma NextDiffers(ws: seq<Workspace>, w: Workspace, forward: bool)
    requires Distinct(ws) && w in ws && w != Last(ws)
    ensures Beside(ws, w, forward) != w
  {
    var i := IndexOf(ws, w);
    assert ws[|ws| - 1] != w;
  }

  lemma StepBackStays(ws: seq<Workspace>, w: Workspace, order: map<Workspace, seq<View>>, forward: bool)
    requires Distinct(ws) && w in ws && (Get(order, w) != [] || w == Last(ws))
    ensures var next := Beside(ws, w, forward);
      var fixed := Fixed(ws, next, order);
      next in fixed && Beside(fixed, next, !forward) == w
  {
    var next := Beside(ws, w, forward);
    var fixed := Fixed(ws, next, order);
    var i, n := IndexOf(ws, w), |ws|;
    FixedDistinct(ws, next, order);
    EndsStay(ws, next, order);
    RingNeighbours(fixed);
    hide Fixed;
    if forward && i + 1 < n {
      LastOnlyOnce(ws, i);
      KeptStayAdjacent(ws, i, next, order);
      AdjacentNeighbours(fixed, w, next);
    } else if !forward && i > 0 {
      KeptStayAdjacent(ws, i - 1, next, order);
      AdjacentNeighbours(fixed, next, w);
    }
  }

  lemma LastOnlyOnce(ws: seq<Workspace>, i: nat)
    requires Distinct(ws) && i + 1 < |ws|
    ensures ws[i] != Last(ws)
  {
  }

  // ---- Stepping over workspaces ---------------------------------------------------------------------------

  lemma RefocusFrame(s: State, m: Monitor, w: Workspace)
    requires Structured(s) && IsCurrent(s, m, w)
    ensures Refocus(s, w).active == s.active || Refocus(s, w).active == m
  {
    hide Placed, Visible, Allocated, SpareLast, Distinct, Partition;
    var list := Get(s.focusOrder, w);
    if list != [] {
      var v := list[0];
      FromList(s.focusOrder, s.views, s.workspaceOf, w, v);
      OnMonitorCurrent(s, v, m, w);
    }
  }

  lemma OnMonitorCurrent(s: State, v: View, m: Monitor, w: Workspace)
    requires Structured(s) && IsCurrent(s, m, w) && v in s.views && LivesOn(s, v, w)
    ensures v in s.monitorOf && s.monitorOf[v] == m
  {
    hide Partition, Visible, Allocated, SpareLast, Distinct;
    OnMonitor(s, v, m, w);
  }

  /** A switch on the active monitor; if the cursor is on another one, that is active afterwards. */
  lemma SwitchFrame(s: State, m: Monitor, w: Workspace)
    requires Inv(s) && m in s.workspaces && w in s.workspaces[m] && m == s.active
    ensures var r := Switch(s, m, w);
      && Inv(r) && r.active == Pointed(s) && r.pointer == s.pointer && r.current == s.current[m := w]
      && r.workspaces == s.workspaces[m := Fixed(s.workspaces[m], w, s.order)]
  {
    hide Partition, Placed, Visible, Allocated, SpareLast, Distinct, WorkspacesOk, Foremost, FocusLeads, Fixed, Freed;
    InvLeadsBut(s, m);
    SwitchKeeps(s, m, w);
    var tidy := Tidy(s, m, w);
    TidyKeeps(s, m, w);
    TidyFrame(s, m, w);
    TidyLeads(s, m, w);
    RefocusKeeps(tidy, m, w);
    RefocusFrame(tidy, m, w);
    RefocusPointer(tidy, m, w);
  }

  lemma RefocusPointer(s: State, m: Monitor, w: Workspace)
    requires Structured(s) && IsCurrent(s, m, w)
    ensures Refocus(s, w).pointer == s.pointer
  {
    hide Placed, Visible, Allocated, SpareLast, Distinct, Partition;
    var list := Get(s.focusOrder, w);
    if list != [] {
      var v := list[0];
      FromList(s.focusOrder, s.views, s.workspaceOf, w, v);
      OnMonitorCurrent(s, v, m, w);
    }
  }

  /**
   The workspace actions go to the neighbour on the active monitor's list, around its ends. If the cursor is on another
   monitor, that one is active afterwards.
   */
  lemma StepWorkspaceMoves(s: State, forward: bool)
    requires Inv(s)
    ensures s.active in s.workspaces && s.active in s.current && s.current[s.active] in s.workspaces[s.active]
    ensures var m, r := s.active, StepWorkspace(s, forward);
      var next := Beside(s.workspaces[m], s.current[m], forward);
      && Inv(r) && r.active == Pointed(s) && r.pointer == s.pointer && r.current == s.current[m := next]
      && r.workspaces == s.workspaces[m := Fixed(s.workspaces[m], next, s.order)]
  {
    hide Partition, Placed, Visible, Allocated, SpareLast, Switch, FocusLeads, Marked, Fixed;
    ActiveListed(s);
    var ws, w := s.workspaces[s.active], s.current[s.active];
    BeforeAfter(ws, w);
    SwitchFrame(s, s.active, Beside(ws, w, forward));
  }

  /**
   prev_workspace undoes next_workspace, and the other way round, exactly if the workspace left is not freed; but if the
   cursor is on another monitor the way back is taken there, so only a lone workspace is current again.
   */
  lemma PreviousWorkspaceUndoesNext(s: State, forward: bool)
    requires Inv(s)
    ensures s.active in s.workspaces && s.active in s.current && s.workspaces[s.active] != []
    ensures var m, r := s.active, StepWorkspace(StepWorkspace(s, forward), !forward);
      var ws, w := s.workspaces[m], s.current[m];
      && m in r.current
      && (r.current[m] == w <==>
            if Pointed(s) == m then Get(s.order, w) != [] || w == Last(ws) else |ws| == 1)
  {
    hide Inv, StepWorkspace, Fixed, Beside;
    var m := s.active;
    StepWorkspaceMoves(s, forward);
    var once := StepWorkspace(s, forward);
    assert Pointed(once) == Pointed(s);
    StepWorkspaceMoves(once, !forward);
    WorkspacesDistinct(s, m);
    if Pointed(s) == m {
      StepBack(s.workspaces[m], s.current[m], s.order, forward);
    } else {
      AloneBesideItself(s.workspaces[m], s.current[m], forward);
    }
  }

  lemma AloneBesideItself(ws: seq<Workspace>, w: Workspace, forward: bool)
    requires Distinct(ws) && w in ws
    ensures Beside(ws, w, forward) == w <==> |ws| == 1
  {
    var i := IndexOf(ws, w);
    if |ws| > 1 {
      assert ws[0] != ws[|ws| - 1];
    }
  }

  lemma FirstMapped(s: State, m: Monitor, w: Workspace, v: View, extra: Workspace)
    requires Started(s, m, w) && extra != w
    ensures var r := Mapped(s, v, true, true, extra);
      && r.views == [v] && r.active == m && r.pointer == None && r.focus == None && r.current == map[m := w]
      && r.workspaces == map[m := [w, extra]] && r.order == map[w := [v], extra := []]
      && r.monitorOf == map[v := m] && r.workspaceOf == map[v := w]
  {
    FirstLinked(s, m, w, v);
    assert FillsLast(s);
    hide Link, FillsLast;
    assert [w] + [extra] == [w, extra];
  }

  lemma FirstLinked(s: State, m: Monitor, w: Workspace, v: View)
    requires Started(s, m, w)
    ensures var r := Link(s, v, m, w, true);
      && r.views == [v] && r.active == m && r.pointer == None && r.focus == None && r.current == map[m := w]
      && r.workspaces == map[m := [w]] && r.order == map[w := [v]]
      && r.monitorOf == map[v := m] && r.workspaceOf == map[v := w]
  {
    assert [v] + [] == [v];
  }

  lemma FirstFocused(s: State, v: View, m: Monitor, w: Workspace)
    requires s.focus == None && v in s.monitorOf && s.monitorOf[v] == m && v in s.workspaceOf && s.workspaceOf[v] == w
    requires IsCurrent(s, m, w) && s.views == [v]
    ensures var r := Focus(s, v);
      && r.views == [v] && r.active == m && r.pointer == s.pointer && r.current == s.current
      && r.workspaces == s.workspaces && r.order == s.order && r.monitorOf == s.monitorOf
      && r.workspaceOf == s.workspaceOf
  {
    assert [v][1..] == [];
  }

  lemma LoneUnmapped(s: State, m: Monitor, w: Workspace, v: View, extra: Workspace)
    requires s.active == m && s.pointer == None && s.current == map[m := w] && s.order == map[w := [v], extra := []]
    requires s.monitorOf == map[v := m] && s.workspaceOf == map[v := w] && extra != w
    ensures var r := UnmapView(s, v);
      && r.active == m && r.pointer == None && r.current == s.current && r.workspaces == s.workspaces
      && Get(r.order, w) == []
  {
    assert [v][1..] == [];
  }

  /** The way back can fail: a first view comes and goes, and its workspace is empty, but not the last. */
  lemma EmptyWorkspaceReached(s: State, m: Monitor, w: Workspace, v: View, extra: Workspace) returns (states: seq<State>)
    requires Started(s, m, w) && extra != w
    ensures IsRun(states, [Map(v, true, true, extra), Unmap(v)]) && states[0] == s && Inv(s) && Inv(states[2])
    ensures states[2].active == m && m in states[2].current && states[2].current[m] == w
    ensures var r := StepWorkspace(StepWorkspace(states[2], true), false); m in r.current && r.current[m] != w
  {
    hide Mapped, Focus, UnmapView, StepWorkspace, Inv;
    InitialInv(s, m, w);
    FirstMapped(s, m, w, v, extra);
    FirstFocused(Mapped(s, v, true, true, extra), v, m, w);
    var mapped := MapView(s, v, true, true, extra);
    LoneUnmapped(mapped, m, w, v, extra);
    states := [s, mapped, UnmapView(mapped, v)];
    RunKeeps(states, [Map(v, true, true, extra), Unmap(v)], 2);
    PreviousWorkspaceUndoesNext(states[2], true);
  }

  lemma WorkspacesDistinct(s: State, m: Monitor)
    requires Inv(s) && m in s.workspaces
    ensures Distinct(s.workspaces[m])
  {
    hide Partition, Placed, Visible, Allocated, SpareLast, FocusLeads, Marked;
  }

  // ---- Swapping to the front ------------------------------------------------------------------------------

  /** The order after swap_front: the focused view comes first; if it is first already, the second one does. */
  function Swapped(list: seq<View>, v: View): seq<View>
    requires v in list
  {
    if list[0] != v then ToFront(list, v) else if |list| == 1 then list else ToFront(list, list[1])
  }

  /** The focused view is on the list of the active monitor's current workspace. */
  lemma FocusedPlace(s: State)
    requires Inv(s) && FocusedView(s).Some?
    ensures var v := FocusedView(s).value;
      && s.active in s.current && v in s.workspaceOf && s.workspaceOf[v] == s.current[s.active]
      && v in Get(s.order, s.workspaceOf[v])
  {
    hide SpareLast, Placed, Visible, Allocated, Partition, Distinct, WorkspacesOk;
    FocusedIsMapped(s);
    InList(s.order, s.views, s.workspaceOf, FocusedView(s).value);
  }

  lemma ListedPlace(s: State, v: View, w: Workspace)
    requires Inv(s) && v in Get(s.order, w)
    ensures w in s.order && v in s.monitorOf && v in s.workspaceOf && s.workspaceOf[v] == w
  {
    hide SpareLast, Placed, Visible, Allocated, Partition, Distinct, WorkspacesOk;
    FromList(s.order, s.views, s.workspaceOf, w, v);
    InList(s.monitorViews, s.views, s.monitorOf, v);
  }

  lemma MovedShape(s: State, v: View, w: Workspace)
    requires w in s.order && v in s.monitorOf && v in s.workspaceOf && s.workspaceOf[v] == w
    ensures var r := MovedToFront(s, v);
      && r.order == s.order[w := ToFront(s.order[w], v)]
      && r.focus == s.focus && r.focusOrder == s.focusOrder && r.current == s.current && r.workspaceOf == s.workspaceOf
  {
    hide ToFront;
  }

  /** swap_front reorders the focused view's workspace, moves no focus, and does nothing without a focused view. */
  lemma SwapMoves(s: State)
    requires Inv(s)
    ensures FocusedView(s).None? ==> SwapFront(s) == s
    ensures FocusedView(s).Some? ==>
      var v, r := FocusedView(s).value, SwapFront(s);
      && v in s.workspaceOf && v in Get(s.order, s.workspaceOf[v])
      && r.order == s.order[s.workspaceOf[v] := Swapped(s.order[s.workspaceOf[v]], v)]
      && r.focus == s.focus && r.focusOrder == s.focusOrder && r.current == s.current && r.workspaceOf == s.workspaceOf
  {
    hide Inv, MovedToFront, FocusedView, ToFront;
    if FocusedView(s).Some? {
      var v := FocusedView(s).value;
      FocusedPlace(s);
      var w := s.workspaceOf[v];
      var list := Get(s.order, w);
      ListedPlace(s, v, w);
      MovedShape(s, v, w);
      if |list| > 1 {
        ListedPlace(s, list[1], w);
        MovedShape(s, list[1], w);
      }
      assert s.order == s.order[w := list];
    }
  }

  /**
   Swapping twice restores the order exactly if the focused view is first or second; but if the cursor is on another
   monitor the second use finds no focused view, so the order is restored exactly if the view is alone.
   */
  lemma SwapTwice(s: State)
    requires Inv(s) && FocusedView(s).Some?
    ensures var v := FocusedView(s).value;
      && v in s.workspaceOf && v in Get(s.order, s.workspaceOf[v])
      && (SwapFront(SwapFront(s)).order == s.order <==>
            var list := s.order[s.workspaceOf[v]];
            if Pointed(s) == s.active then IndexOf(list, v) <= 1 else |list| == 1)
  {
    hide Inv, SwapFront, Swapped;
    SwapMoves(s);
    SwapKeeps(s);
    var v, r := FocusedView(s).value, SwapFront(s);
    var w := s.workspaceOf[v];
    ListDistinct(s, w);
    SwapListTwice(s.order[w], v);
    var once := Swapped(s.order[w], v);
    var twice := if Pointed(s) == s.active then Swapped(once, v) else once;
    SwapListAlone(s.order[w], v);
    SwapMoves(r);
    if Pointed(s) == s.active {
      SwapKeepsFocused(s);
    } else if |s.order[w]| > 1 {
      SwapLosesFocused(s);
    } else {
      SwapLoneView(s);
    }
    assert SwapFront(r).order == s.order[w := twice];
    assert twice == s.order[w] ==> s.order[w := twice] == s.order;
    assert s.order[w := twice][w] == twice;
  }

  lemma SwapKeepsFocused(s: State)
    requires Inv(s) && Pointed(s) == s.active
    ensures FocusedView(SwapFront(s)) == FocusedView(s)
  {
    hide SpareLast, Placed, Visible, Allocated, Partition, Distinct;
    SwapMoves(s);
  }

  lemma SwapLoneView(s: State)
    requires Inv(s) && FocusedView(s).Some?
    requires var v := FocusedView(s).value; v in s.workspaceOf && |Get(s.order, s.workspaceOf[v])| == 1
    ensures SwapFront(s) == s
  {
    hide SpareLast, Placed, Visible, Allocated, Partition, Distinct;
    FocusedPlace(s);
  }

  /** The swap activates the cursor's monitor, and the view with the keyboard is not on that. */
  lemma SwapLosesFocused(s: State)
    requires Inv(s) && FocusedView(s).Some? && Pointed(s) != s.active
    requires var v := FocusedView(s).value; v in s.workspaceOf && |Get(s.order, s.workspaceOf[v])| > 1
    ensures FocusedView(SwapFront(s)).None?
  {
    hide SpareLast, Placed, Visible, Allocated, Partition, Distinct;
    SwapMoves(s);
    FocusedPlace(s);
    SwapActivates(s);
    NotFrontElsewhere(s, FocusedView(s).value, Pointed(s));
  }

  lemma SwapActivates(s: State)
    requires Inv(s) && FocusedView(s).Some?
    requires var v := FocusedView(s).value; v in s.workspaceOf && |Get(s.order, s.workspaceOf[v])| > 1
    ensures SwapFront(s).active == Pointed(s)
  {
    hide SpareLast, Placed, Visible, Allocated, Distinct, Partition, WorkspacesOk;
    FocusedPlace(s);
    var w := s.workspaceOf[FocusedView(s).value];
    var x := NewFront(s).value;
    ListedPlace(s, x, w);
    FromList(s.order, s.views, s.workspaceOf, w, x);
    OnMonitorCurrent(s, x, s.active, w);
  }

  /** A focused view heads no other monitor's current workspace. */
  lemma NotFrontElsewhere(s: State, v: View, p: Monitor)
    requires Inv(s) && FocusedView(s) == Some(v) && p in s.current && p != s.active
    ensures First(Get(s.focusOrder, s.current[p])) != Some(v)
  {
    hide SpareLast, Placed, Visible, Allocated, Distinct, Partition;
    var list := Get(s.focusOrder, s.current[p]);
    if list != [] {
      FromList(s.focusOrder, s.views, s.workspaceOf, s.current[p], list[0]);
      FocusedPlace(s);
    }
  }

  lemma SwapListAlone(list: seq<View>, v: View)
    requires Distinct(list) && v in list
    ensures Swapped(list, v) == list <==> |list| == 1
  {
    if |list| > 1 {
      assert list[0] != list[1];
    }
  }

  lemma SwapListTwice(list: seq<View>, v: View)
    requires Distinct(list) && v in list
    ensures v in Swapped(list, v)
    ensures Swapped(Swapped(list, v), v) == list <==> IndexOf(list, v) <= 1
  {
    var i := IndexOf(list, v);
    if i == 0 {
      if |list| > 1 {
        var b := list[1];
        assert Without(list, b) == [v] + list[2..] by {
          assert list[1..][0] == b && list[1..][1..] == list[2..];
        }
        var once := Swapped(list, v);
        assert once == [b] + ([v] + list[2..]);
        assert Without(once, v) == [b] + list[2..] by {
          assert once[1..][0] == v && once[1..][1..] == list[2..];
        }
        assert Swapped(once, v) == list;
      }
    } else {
      var once := ToFront(list, v);
      assert Without(list, v) == [list[0]] + Without(list[1..], v);
      assert once[0] == v && once[1] == list[0] && list[0] != v;
      assert Swapped(list, v) == once;
      var twice := Swapped(once, v);
      assert Without(once, list[0]) == [v] + Without(list[1..], v) by {
        assert once[1..] == Without(list, v);
        assert Without(list, v)[1..] == Without(list[1..], v);
      }
      assert twice == [list[0]] + ([v] + Without(list[1..], v));
      if i == 1 {
        assert list[1..][0] == v && list[1..][1..] == list[2..];
        assert twice == list;
      } else {
        IndexUnique(list, 1);
        assert twice[1] == v && list[1] != v;
      }
    }
  }
}
