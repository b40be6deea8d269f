/** What the window-management steps do to the lists, element by element. */
module DesktopLists {
  import opened Lists
  import opened Objects
  import opened Desktop
  import opened DesktopRuns
  import opened DesktopSteps

  // ---- Focusing -------------------------------------------------------------------------------------------

  /** Lists of r are those of s. */
  ghost predicate ListsStay<K>(r: map<K, seq<View>>, s: map<K, seq<View>>) {
    forall k :: k in r ==> k in s && r[k] == s[k]
  }

  lemma TidyLists(s: State, m: Monitor, w: Workspace)
    ensures var r := Tidy(s, m, w);
      ListsStay(r.order, s.order) && ListsStay(r.focusOrder, s.focusOrder) && r.views == s.views
      && r.monitorViews == s.monitorViews && r.active == s.active && r.pointer == s.pointer && r.focus == s.focus
      && r.current == s.current[m := w] && r.monitorOf == s.monitorOf && r.workspaceOf == s.workspaceOf
      && forall n :: n in s.workspaces && n != m ==> n in r.workspaces && r.workspaces[n] == s.workspaces[n]
  {
  }

  /** Focusing raises, and at most tidies a monitor besides. */
  lemma FocusLooks(s: State, v: View)
    requires s.focus != Some(v) && v in s.monitorOf && v in s.workspaceOf
    ensures var r, raised, m, w := Focus(s, v), Raise(s, v), s.monitorOf[v], s.workspaceOf[v];
      && r == (if IsCurrent(s, m, w) then raised else CheckCursor(Tidy(raised, m, w))).(active := m)
  {
    hide Raise, Tidy, FrontFocused, Refocus, Foremost, FocusedView;
    var m, w := s.monitorOf[v], s.workspaceOf[v];
    var raised := Raise(s, v);
    RaiseFacts(s, v);
    TidyFrame(raised, m, w);
    TidyFront(raised, m, w);
    if !IsCurrent(s, m, w) { RefocusIdle(Tidy(raised, m, w), w); }
  }

  /** Focusing moves the view to the head of the server's list and of its workspace's focus list, and moves no other. */
  lemma FocusLists(s: State, v: View)
    requires Inv(s) && v in s.views
    ensures v in s.workspaceOf && s.workspaceOf[v] in s.focusOrder && v in s.monitorOf
    ensures var r, w := Focus(s, v), s.workspaceOf[v];
      && r.views == [v] + Others(s.views, v)
      && w in r.focusOrder && r.focusOrder[w] == [v] + Others(s.focusOrder[w], v)
      && (forall x :: x in r.focusOrder && x != w ==> x in s.focusOrder && r.focusOrder[x] == s.focusOrder[x])
      && ListsStay(r.order, s.order) && r.monitorViews == s.monitorViews
      && r.current == s.current[s.monitorOf[v] := w] && r.pointer == s.pointer
      && forall n :: n in s.workspaces && n != s.monitorOf[v] ==> n in r.workspaces && r.workspaces[n] == s.workspaces[n]
  {
    hide Partition, SpareLast, Visible, Allocated, Placed, WorkspacesOk, Distinct;
    InList(s.focusOrder, s.views, s.workspaceOf, v);
    InList(s.monitorViews, s.views, s.monitorOf, v);
    var w := s.workspaceOf[v];
    if s.focus == Some(v) {
      FocusSame(s, v);
      FirstAndOthers(s.views, v);
      FirstAndOthers(s.focusOrder[w], v);
    } else {
      hide Inv, Structured;
      FocusLooks(s, v);
      WithoutIsOthers(s.views, v);
      WithoutIsOthers(s.focusOrder[w], v);
      TidyFrame(Raise(s, v), s.monitorOf[v], w);
      TidyLists(Raise(s, v), s.monitorOf[v], w);
    }
  }

  // ---- Switching ------------------------------------------------------------------------------------------

  /** The workspaces kept are those shown, last or not empty, in the order they had. */
  ghost predicate KeepsWorkspaces(kept: seq<Workspace>, ws: seq<Workspace>, w: Workspace, order: map<Workspace, seq<View>>)
  {
    && (forall x :: x in kept ==> x in ws)
    && (forall x :: x in ws ==> (x in kept <==> x == w || x == Last(ws) || Get(order, x) != []))
    && (forall i, j :: 0 <= i < j < |kept| ==> kept[i] in ws && kept[j] in ws && IndexOf(ws, kept[i]) < IndexOf(ws, kept[j]))
  }

  lemma {:induction false} KeptInOrder(ws: seq<Workspace>, w: Workspace, order: map<Workspace, seq<View>>, i: nat, j: nat)
    requires Distinct(ws) && i < j < |Kept(ws, w, order)|
    ensures var kept := Kept(ws, w, order);
      kept[i] in ws && kept[j] in ws && IndexOf(ws, kept[i]) < IndexOf(ws, kept[j])
  {
    hide Kept, IndexOf, Distinct;
    if ws == [] {
      NoneKept(w, order);
    } else {
      var kept, rest := Kept(ws, w, order), Kept(ws[1..], w, order);
      KeptStep(ws, w, order);
      TailDistinct(ws);
      if kept == rest {
        KeptInOrder(ws[1..], w, order, i, j);
        IndexLater(ws, kept[i]);
        IndexLater(ws, kept[j]);
      } else {
        KeptHas(ws[1..], w, order, kept[j]);
        assert kept[j] == rest[j - 1];
        IndexLater(ws, kept[j]);
        if i == 0 {
          IndexUnique(ws, 0);
        } else {
          assert kept[i] == rest[i - 1];
          KeptInOrder(ws[1..], w, order, i - 1, j - 1);
          IndexLater(ws, kept[i]);
        }
      }
    }
  }

  lemma NoneKept(w: Workspace, order: map<Workspace, seq<View>>)
    ensures Kept([], w, order) == []
  {
  }

  lemma KeptStep(ws: seq<Workspace>, w: Workspace, order: map<Workspace, seq<View>>)
    requires ws != []
    ensures var kept, rest := Kept(ws, w, order), Kept(ws[1..], w, order); kept == [ws[0]] + rest || kept == rest
  {
  }

  lemma TailDistinct(ws: seq<Workspace>)
    requires Distinct(ws) && ws != []
    ensures Distinct(ws[1..])
  {
  }

  lemma IndexLater(ws: seq<Workspace>, x: Workspace)
    requires Distinct(ws) && ws != [] && x in ws[1..]
    ensures x in ws && IndexOf(ws, x) == IndexOf(ws[1..], x) + 1
  {
    assert ws[0] !in ws[1..];
  }

  lemma FixedKeepsWorkspaces(ws: seq<Workspace>, w: Workspace, order: map<Workspace, seq<View>>)
    requires Distinct(ws) && ws != []
    ensures KeepsWorkspaces(Fixed(ws, w, order), ws, w, order)
  {
    hide Fixed;
    var kept := Fixed(ws, w, order);
    forall x | x in kept ensures x in ws {
      FixedHas(ws, w, order, x);
    }
    forall x | x in ws ensures x in kept <==> x == w || x == Last(ws) || Get(order, x) != [] {
      FixedHas(ws, w, order, x);
    }
    forall i, j | 0 <= i < j < |kept|
      ensures kept[i] in ws && kept[j] in ws && IndexOf(ws, kept[i]) < IndexOf(ws, kept[j])
    {
      FixedInOrder(ws, w, order, i, j);
    }
  }

  lemma FixedInOrder(ws: seq<Workspace>, w: Workspace, order: map<Workspace, seq<View>>, i: nat, j: nat)
    requires Distinct(ws) && ws != [] && i < j < |Fixed(ws, w, order)|
    ensures var kept := Fixed(ws, w, order);
      kept[i] in ws && kept[j] in ws && IndexOf(ws, kept[i]) < IndexOf(ws, kept[j])
  {
    hide Kept, IndexOf, Distinct;
    var kept, front := Fixed(ws, w, order), ws[..|ws| - 1];
    KeptHas(front, w, order, kept[i]);
    assert kept[i] in Kept(front, w, order);
    IndexInFront(ws, kept[i]);
    if j < |kept| - 1 {
      FrontDistinct(ws);
      KeptInOrder(front, w, order, i, j);
      KeptHas(front, w, order, kept[j]);
      assert kept[j] in Kept(front, w, order);
      IndexInFront(ws, kept[j]);
    } else {
      IndexUnique(ws, |ws| - 1);
    }
  }

  lemma FrontDistinct(ws: seq<Workspace>)
    requires Distinct(ws) && ws != []
    ensures Distinct(ws[..|ws| - 1])
  {
  }

  lemma IndexInFront(ws: seq<Workspace>, x: Workspace)
    requires Distinct(ws) && ws != [] && x in ws[..|ws| - 1]
    ensures x in ws && IndexOf(ws, x) == IndexOf(ws[..|ws| - 1], x) < |ws| - 1
  {
    var front := ws[..|ws| - 1];
    var i := IndexOf(front, x);
    assert ws[i] == x;
    IndexUnique(ws, i);
  }

  /** The keyboard goes to the head h of the list, if there is one. */
  ghost predicate HeadTakes(r: State, s: State, m: Monitor, w: Workspace) {
    && r.focus == First(Get(s.focusOrder, w))
    && r.views == (if r.focus.Some? then [r.focus.value] + Others(s.views, r.focus.value) else s.views)
    && r.order == s.order && r.focusOrder == s.focusOrder && r.monitorViews == s.monitorViews
    && r.workspaces == s.workspaces && r.current == s.current && r.pointer == s.pointer
    && r.active == if r.focus.Some? && r.focus != s.focus then m else s.active
  }

  lemma RefocusTakes(s: State, m: Monitor, w: Workspace)
    requires Structured(s) && LeadsBut(s, m) && IsCurrent(s, m, w)
    ensures HeadTakes(Refocus(s, w), s, m, w)
  {
    hide Partition, Placed, Visible, Allocated, SpareLast, Distinct, Focus, Foremost, WorkspacesOk, TopView;
    var fv, list := FocusedView(s), Get(s.focusOrder, w);
    if fv.Some? && LivesOn(s, fv.value, w) {
      FocusedHeads(s, w);
      FirstAndOthers(s.views, fv.value);
    } else if list != [] {
      FromList(s.focusOrder, s.views, s.workspaceOf, w, list[0]);
      HeadFocused(s, m, w, list[0]);
    }
  }

  lemma FocusedHeads(s: State, w: Workspace)
    requires Structured(s) && FocusedView(s).Some? && LivesOn(s, FocusedView(s).value, w)
    ensures s.focus == First(Get(s.focusOrder, w)) && s.focus.value in s.views
  {
    hide Placed, Visible, Allocated, SpareLast, Distinct, WorkspacesOk, Partition;
    FocusedIsMapped(s);
  }

  lemma HeadFocused(s: State, m: Monitor, w: Workspace, h: View)
    requires Structured(s) && LeadsBut(s, m) && IsCurrent(s, m, w) && First(Get(s.focusOrder, w)) == Some(h)
    ensures HeadTakes(Focus(s, h), s, m, w)
  {
    hide Partition, Placed, Visible, Allocated, SpareLast, Distinct, Focus, WorkspacesOk, TopView;
    FromList(s.focusOrder, s.views, s.workspaceOf, w, h);
    CurrentListed(s, m, w);
    OnMonitor(s, h, m, w);
    if s.focus == Some(h) {
      FocusSame(s, h);
      FirstAndOthers(s.views, h);
    } else {
      FocusLooks(s, h);
      WithoutIsOthers(s.views, h);
      ToFrontHead(s.focusOrder[w], h);
      assert s.focusOrder[w := s.focusOrder[w]] == s.focusOrder;
    }
  }

  /** Focusing a hidden view keeps its monitor's workspaces as a switch does; focusing a shown one keeps them all. */
  lemma FocusWorkspaces(s: State, v: View)
    requires Inv(s) && v in s.views
    ensures v in s.workspaceOf && v in s.monitorOf && s.monitorOf[v] in s.workspaces
    ensures var r, m, w := Focus(s, v), s.monitorOf[v], s.workspaceOf[v];
      if IsCurrent(s, m, w) then r.workspaces == s.workspaces
      else m in r.workspaces && KeepsWorkspaces(r.workspaces[m], s.workspaces[m], w, s.order)
  {
    hide Partition, Visible, Allocated, SpareLast, Distinct, WorkspacesOk, KeepsWorkspaces, Focus;
    FocusFromInv(s, v);
    var m, w := s.monitorOf[v], s.workspaceOf[v];
    if s.focus == Some(v) {
      FocusSame(s, v);
    } else {
      FocusLooks(s, v);
      RaiseKeeps(s, v);
      TidyKeepsWorkspaces(Raise(s, v), m, w);
    }
  }

  lemma CurrentListed(s: State, m: Monitor, w: Workspace)
    requires Structured(s) && IsCurrent(s, m, w)
    ensures m in s.workspaces && w in s.workspaces[m]
  {
  }

  lemma ToFrontHead(list: seq<View>, h: View)
    requires list != [] && list[0] == h
    ensures ToFront(list, h) == list
  {
  }

  /**
   A switch gives the keyboard to the view of the workspace that had it last, or to none; it moves no other view on any
   list, and keeps the monitor's other workspaces that have views, in their order.
   */
  lemma SwitchLists(s: State, m: Monitor, w: Workspace)
    requires Inv(s) && m in s.workspaces && w in s.workspaces[m]
    ensures var r := Switch(s, m, w);
      && r.focus == First(Get(s.focusOrder, w))
      && r.views == (if r.focus.Some? then [r.focus.value] + Others(s.views, r.focus.value) else s.views)
      && ListsStay(r.order, s.order) && ListsStay(r.focusOrder, s.focusOrder) && r.monitorViews == s.monitorViews
      && m in r.workspaces && KeepsWorkspaces(r.workspaces[m], s.workspaces[m], w, s.order)
      && (forall n :: n in s.workspaces && n != m ==> n in r.workspaces && r.workspaces[n] == s.workspaces[n])
      && r.current == s.current[m := w] && r.pointer == s.pointer
      && r.active == if s.pointer.Some? then s.pointer.value else if r.focus.Some? && r.focus != s.focus then m else s.active
  {
    hide Partition, Placed, Visible, Allocated, SpareLast, Distinct, Foremost, FocusLeads, WorkspacesOk, Tidy, Refocus;
    hide KeepsWorkspaces;
    InvLeadsBut(s, m);
    SwitchParts(s, m, w);
    hide Switch;
    TidyKeeps(s, m, w);
    TidyFrame(s, m, w);
    TidyLeads(s, m, w);
    TidyLists(s, m, w);
    TidyKeepsWorkspaces(s, m, w);
    RefocusTakes(Tidy(s, m, w), m, w);
  }

  lemma TidyKeepsWorkspaces(s: State, m: Monitor, w: Workspace)
    requires Structured(s) && m in s.workspaces && w in s.workspaces[m]
    ensures var r := Tidy(s, m, w); m in r.workspaces && KeepsWorkspaces(r.workspaces[m], s.workspaces[m], w, s.order)
  {
    hide Partition, Placed, Visible, Allocated, SpareLast, Distinct, Fixed, KeepsWorkspaces;
    FixedKeepsWorkspaces(s.workspaces[m], w, s.order);
  }

  // ---- Mapping --------------------------------------------------------------------------------------------

  /** A mapped view comes first on every list but the order, where it comes first or last; nothing else moves. */
  lemma MapLists(s: State, v: View, toFront: bool, tiling: bool, extra: Workspace)
    requires Inv(s) && v !in s.views && NewMemory(s, extra)
    ensures s.active in s.current && s.active in s.workspaces && s.workspaces[s.active] != [] && s.active in s.monitorViews
    ensures s.current[s.active] in s.order && s.current[s.active] in s.focusOrder
    ensures var r, m, w := MapView(s, v, toFront, tiling, extra), s.active, s.current[s.active];
      var fills := w == Last(s.workspaces[m]);
      && r.views == [v] + s.views
      && r.monitorViews == s.monitorViews[m := [v] + s.monitorViews[m]]
      && r.order == Filled(s.order, fills, extra)[w := if toFront then [v] + s.order[w] else s.order[w] + [v]]
      && r.focusOrder == Filled(s.focusOrder, fills, extra)[w := [v] + s.focusOrder[w]]
      && r.workspaces == (if fills then s.workspaces[m := s.workspaces[m] + [extra]] else s.workspaces)
      && r.current == s.current
  {
    hide Partition, Placed, Visible, Allocated, SpareLast, Distinct, Foremost, FocusLeads, WorkspacesOk, Mapped, Focus;
    MapGround(s);
    var m, w := s.active, s.current[s.active];
    var mapped := Mapped(s, v, toFront, tiling, extra);
    ExtraNotCurrent(s, extra);
    MappedKeeps(s, v, toFront, tiling, extra);
    MappedPlaces(s, v, toFront, tiling, extra);
    MappedShape(s, v, toFront, tiling, extra);
    if s.focus == Some(v) {
      FocusSame(mapped, v);
    } else {
      FocusLooks(mapped, v);
      ToFrontHead(mapped.views, v);
      ToFrontHead(mapped.focusOrder[w], v);
      assert mapped.focusOrder[w := mapped.focusOrder[w]] == mapped.focusOrder;
    }
  }

  ghost function Filled(lists: map<Workspace, seq<View>>, fills: bool, extra: Workspace): map<Workspace, seq<View>> {
    if fills then lists[extra := []] else lists
  }

  lemma MapGround(s: State)
    requires Structured(s)
    ensures s.active in s.current && s.active in s.workspaces && s.workspaces[s.active] != [] && s.active in s.monitorViews
    ensures s.current[s.active] in s.order && s.current[s.active] in s.focusOrder
  {
    hide Partition, Placed, Visible, Distinct;
  }

  lemma SparedShape(s: State, v: View, toFront: bool, extra: Workspace)
    requires s.active in s.current && s.active in s.workspaces && s.workspaces[s.active] != []
    requires s.active in s.monitorViews && s.current[s.active] in s.order && s.current[s.active] in s.focusOrder
    requires FillsLast(s) ==> extra != s.current[s.active]
    ensures var r, m, w := Spared(s, v, toFront, extra), s.active, s.current[s.active];
      var fills := w == Last(s.workspaces[m]);
      && r.views == [v] + s.views
      && r.monitorViews == s.monitorViews[m := [v] + s.monitorViews[m]]
      && r.order == Filled(s.order, fills, extra)[w := if toFront then [v] + s.order[w] else s.order[w] + [v]]
      && r.focusOrder == Filled(s.focusOrder, fills, extra)[w := [v] + s.focusOrder[w]]
      && r.workspaces == (if fills then s.workspaces[m := s.workspaces[m] + [extra]] else s.workspaces)
      && r.current == s.current && r.focus == s.focus
  {
    assert Last(s.workspaces[s.active]) == s.current[s.active] <==> FillsLast(s);
    hide FillsLast;
  }

  lemma MappedShape(s: State, v: View, toFront: bool, tiling: bool, extra: Workspace)
    requires s.active in s.current && s.active in s.workspaces && s.workspaces[s.active] != []
    requires s.active in s.monitorViews && s.current[s.active] in s.order && s.current[s.active] in s.focusOrder
    requires FillsLast(s) ==> extra != s.current[s.active]
    ensures var r, m, w := Mapped(s, v, toFront, tiling, extra), s.active, s.current[s.active];
      var fills := w == Last(s.workspaces[m]);
      && r.views == [v] + s.views
      && r.monitorViews == s.monitorViews[m := [v] + s.monitorViews[m]]
      && r.order == Filled(s.order, fills, extra)[w := if toFront then [v] + s.order[w] else s.order[w] + [v]]
      && r.focusOrder == Filled(s.focusOrder, fills, extra)[w := [v] + s.focusOrder[w]]
      && r.workspaces == (if fills then s.workspaces[m := s.workspaces[m] + [extra]] else s.workspaces)
      && r.current == s.current && r.focus == s.focus
  {
    hide Spared, FillsLast, Filled;
    SparedShape(s, v, toFront, extra);
  }

  // ---- Unmapping ------------------------------------------------------------------------------------------

  ghost predicate LeavesAll<K>(r: map<K, seq<View>>, s: map<K, seq<View>>, v: View) {
    r.Keys == s.Keys && forall k :: k in r ==> r[k] == Others(s[k], v)
  }

  lemma DropLeaves<K>(lists: map<K, seq<View>>, views: seq<View>, keyOf: map<View, K>, v: View)
    requires Partition(lists, views, keyOf) && v in views
    ensures v in keyOf && LeavesAll(Drop(lists, keyOf[v], v), lists, v)
  {
    forall k | k in lists ensures Drop(lists, keyOf[v], v)[k] == Others(lists[k], v) {
      if k == keyOf[v] { WithoutIsOthers(lists[k], v); } else { OthersAbsent(lists[k], v); }
    }
  }

  lemma UnlinkLists(s: State, v: View)
    requires Structured(s) && v in s.views
    ensures var r := Unlink(s, v);
      && v in s.workspaceOf && s.workspaceOf[v] in s.focusOrder && v in s.monitorOf && s.monitorOf[v] in s.current
      && r.views == Others(s.views, v) && LeavesAll(r.order, s.order, v) && LeavesAll(r.focusOrder, s.focusOrder, v)
      && LeavesAll(r.monitorViews, s.monitorViews, v)
      && r.workspaces == s.workspaces && r.current == s.current && r.pointer == s.pointer && r.active == s.active
      && r.focus == s.focus && r.focused == s.focused && r.monitorOf == s.monitorOf && r.workspaceOf == s.workspaceOf
  {
    hide Partition, Placed, Visible, Allocated, SpareLast, Distinct, WorkspacesOk, LeavesAll, Drop;
    InList(s.monitorViews, s.views, s.monitorOf, v);
    InList(s.focusOrder, s.views, s.workspaceOf, v);
    DropLeaves(s.monitorViews, s.views, s.monitorOf, v);
    DropLeaves(s.order, s.views, s.workspaceOf, v);
    DropLeaves(s.focusOrder, s.views, s.workspaceOf, v);
    WithoutIsOthers(s.views, v);
  }

  /** Giving the keyboard to the head x of the focus list of a workspace that is shown. */
  lemma HeadRaised(s: State, m: Monitor, w: Workspace, x: View)
    requires Structured(s) && IsCurrent(s, m, w) && s.focus != Some(x) && First(Get(s.focusOrder, w)) == Some(x)
    ensures var r := Focus(s, x);
      && r.focus == Some(x) && r.views == [x] + Others(s.views, x) && r.order == s.order && r.focusOrder == s.focusOrder
      && r.monitorViews == s.monitorViews && r.workspaces == s.workspaces && r.current == s.current
      && r.pointer == s.pointer && r.active == m
  {
    hide Partition, Placed, Visible, Allocated, SpareLast, Distinct, Focus, WorkspacesOk;
    FromList(s.focusOrder, s.views, s.workspaceOf, w, x);
    CurrentListed(s, m, w);
    OnMonitor(s, x, m, w);
    FocusLooks(s, x);
    WithoutIsOthers(s.views, x);
    ToFrontHead(s.focusOrder[w], x);
    assert s.focusOrder[w := s.focusOrder[w]] == s.focusOrder;
  }

  /**
   An unmapped view leaves its lists, and the others keep their order. If it had the keyboard, the view of its workspace
   that had it before takes it.
   */
  lemma UnmapLists(s: State, v: View)
    requires Inv(s) && v in s.views
    ensures v in s.workspaceOf && s.workspaceOf[v] in s.focusOrder && v in s.monitorOf && s.monitorOf[v] in s.current
    ensures var r, m := UnmapView(s, v), s.monitorOf[v];
      var rest := Others(s.focusOrder[s.workspaceOf[v]], v);
      var handed := s.focus == Some(v) && rest != [];
      && r.focus == (if handed then Some(rest[0]) else s.focus)
      && r.views == (if handed then [rest[0]] + Others(Others(s.views, v), rest[0]) else Others(s.views, v))
      && LeavesAll(r.order, s.order, v) && LeavesAll(r.focusOrder, s.focusOrder, v)
      && LeavesAll(r.monitorViews, s.monitorViews, v)
      && r.workspaces == s.workspaces && r.current == s.current && r.pointer == s.pointer
      && r.active == if handed then m
                     else if s.pointer.Some? && Get(r.order, s.current[m]) != [] then s.pointer.value
                     else s.active
  {
    hide Partition, Placed, Visible, Allocated, SpareLast, Distinct, WorkspacesOk, Unlink, Focus, LeavesAll;
    UnlinkLists(s, v);
    UnlinkKeeps(s, v);
    var m, w, u := s.monitorOf[v], s.workspaceOf[v], Unlink(s, v);
    OthersLost(s.focusOrder, u.focusOrder, v, w);
    if s.focus == Some(v) {
      EmptyTogether(u.order, u.focusOrder, u.views, u.workspaceOf, w);
      var rest := u.focusOrder[w];
      if rest != [] {
        UnlinkedNotFirst(s, u, v, w);
        var t := Tiled(u, m);
        TiledStructured(u, m);
        HeadRaised(t, m, w, rest[0]);
      }
    }
  }

  /** A view that had the keyboard gets it back when the view focused after it on the same workspace is unmapped. */
  lemma UnmapGivesBack(s: State, u: View, v: View)
    requires Inv(s) && s.focus == Some(u) && u in s.views && v in s.views && u != v
    requires u in s.workspaceOf && v in s.workspaceOf && s.workspaceOf[u] == s.workspaceOf[v]
    ensures UnmapView(Focus(s, v), v).focus == Some(u)
  {
    hide Structured, Focus, UnmapView;
    var w, f := s.workspaceOf[v], Focus(s, v);
    FocusLists(s, v);
    FocusFromInv(s, v);
    FocusKeeps(s, v);
    FocusMoves(s, v);
    OthersFirst(s.focusOrder[w], v);
    OthersAgain(s.focusOrder[w], v);
    OthersHas(s.views, v, v);
    UnmapLists(f, v);
  }

  lemma TiledStructured(s: State, m: Monitor)
    requires Structured(s)
    ensures Structured(Tiled(s, m))
  {
    CheckCursorKeeps(s);
  }

  lemma OthersLost(was: map<Workspace, seq<View>>, now: map<Workspace, seq<View>>, v: View, w: Workspace)
    requires LeavesAll(now, was, v) && w in was
    ensures w in now && now[w] == Others(was[w], v)
  {
  }

  lemma UnlinkedNotFirst(s: State, u: State, v: View, w: Workspace)
    requires Structured(s) && LeavesAll(u.focusOrder, s.focusOrder, v) && w in s.focusOrder
    requires u.focusOrder[w] != []
    ensures u.focusOrder[w][0] != v
  {
    hide Placed, Visible, Allocated, SpareLast, WorkspacesOk;
    WithoutIsOthers(s.focusOrder[w], v);
    WithoutFacts(s.focusOrder[w], v);
    assert u.focusOrder[w][0] in u.focusOrder[w];
  }

  // ---- The other steps ------------------------------------------------------------------------------------

  /** swap_front moves one view of the active workspace to the front; the others keep their order, and no focus moves. */
  lemma SwapLists(s: State)
    requires Inv(s) && FocusedView(s).Some?
    ensures s.focus.Some? && s.focus.value in s.workspaceOf && s.workspaceOf[s.focus.value] in s.order
    ensures var r, v, w := SwapFront(s), s.focus.value, s.workspaceOf[s.focus.value];
      var list := s.order[w];
      && v in list
      && r.order == s.order[w := if list[0] != v then [v] + Others(list, v)
                                 else if |list| == 1 then list
                                 else [list[1]] + Others(list, list[1])]
      && r.views == s.views && r.focus == s.focus && r.focusOrder == s.focusOrder && r.monitorViews == s.monitorViews
      && r.workspaces == s.workspaces && r.current == s.current && r.pointer == s.pointer
      && r.active == if |list| > 1 && s.pointer.Some? then s.pointer.value else s.active
  {
    hide Structured, SwapFront, ToFront;
    SwapMoves(s);
    var v := s.focus.value;
    var w := s.workspaceOf[v];
    var list := s.order[w];
    ListDistinct(s, w);
    WithoutIsOthers(list, v);
    if |list| > 1 {
      WithoutIsOthers(list, list[1]);
      SwapActivates(s);
    } else {
      SwapLoneView(s);
    }
    SwapFrame(s);
    ToFrontIsOthers(list, v);
    if |list| > 1 { ToFrontIsOthers(list, list[1]); }
  }

  lemma ToFrontIsOthers(list: seq<View>, v: View)
    requires Distinct(list)
    ensures ToFront(list, v) == [v] + Others(list, v)
  {
    WithoutIsOthers(list, v);
  }

  lemma SwapFrame(s: State)
    ensures var r := SwapFront(s);
      && r.views == s.views && r.focus == s.focus && r.focusOrder == s.focusOrder && r.monitorViews == s.monitorViews
      && r.workspaces == s.workspaces && r.current == s.current && r.pointer == s.pointer
  {
    hide NewFront, ToFront;
  }

  /** Without a focused view the view actions focus the top one of the active monitor, if it shows any. */
  lemma StepViewFallsBack(s: State, forward: bool)
    requires Inv(s) && FocusedView(s).None?
    ensures var r := StepView(s, forward);
      if TopView(s).None? then r == s else FocusedView(r) == TopView(s) && r.active == s.active && r.order == s.order
  {
    hide Structured, Focus, FocusedView;
    if TopView(s).Some? {
      var v := TopView(s).value;
      TopShown(s, v);
      FocusBringsForward(s, v);
      FocusFromInv(s, v);
      FocusInPlace(s, v);
    }
  }

  lemma TopShown(s: State, v: View)
    requires Inv(s) && FocusedView(s).None? && TopView(s) == Some(v)
    ensures v in s.views && s.focus != Some(v) && v in s.workspaceOf && v in s.monitorOf
    ensures s.monitorOf[v] == s.active && IsCurrent(s, s.active, s.workspaceOf[v])
  {
    hide Partition, Placed, Visible, Allocated, SpareLast, Distinct, WorkspacesOk;
    var w := s.current[s.active];
    FromList(s.focusOrder, s.views, s.workspaceOf, w, v);
    OnMonitorCurrent(s, v, s.active, w);
  }

  /** The cursor on a monitor activates it; off all of them it changes nothing else. */
  lemma PointActivates(s: State, to: Option<Monitor>)
    ensures MovePointer(s, to) == s.(pointer := to, active := if to.Some? then to.value else s.active)
  {
  }

  /** A destroyed surface that has the keyboard leaves it to none. */
  lemma DestroyReleases(s: State, v: View)
    requires Inv(s)
    ensures DestroySurface(s, v) ==
            if s.focus == Some(v) then s.(focus := None, focused := {}) else s
  {
    hide Structured, FocusLeads;
  }

  /** A new output has one empty workspace; nothing else changes, except that the cursor's monitor may become active. */
  lemma PlugLists(s: State, m: Monitor, w: Workspace)
    requires Inv(s) && m !in s.current && w !in s.order
    ensures var r := PlugMonitor(s, m, w);
      && r.views == s.views && r.focus == s.focus && r.pointer == s.pointer
      && r.monitorViews == s.monitorViews[m := []] && r.workspaces == s.workspaces[m := [w]]
      && r.current == s.current[m := w]
      && r.order == s.order[w := []] && r.focusOrder == s.focusOrder[w := []]
      && r.active == if s.enabled != {} && s.pointer.Some? then s.pointer.value else s.active
  {
    hide Structured, Marked, FocusLeads, SomeShown;
    ShownIfEnabled(s, AddMonitor(s, m, w), m, w);
  }

  lemma ShownIfEnabled(s: State, r: State, m: Monitor, w: Workspace)
    requires Inv(s) && m !in s.current && w !in s.order && r.current == s.current[m := w] && r.order == s.order[w := []]
    ensures SomeShown(r) <==> s.enabled != {}
  {
    hide Inv;
    if v: View :| v in s.enabled {
      var n := EnabledShown(s, v);
      assert n in r.current && Get(r.order, r.current[n]) != [];
    }
    if SomeShown(r) {
      var n :| n in r.current && Get(r.order, r.current[n]) != [];
      ShownEnabled(s, n, Get(s.order, s.current[n])[0]);
    }
  }

  lemma EnabledShown(s: State, v: View) returns (n: Monitor)
    requires Inv(s) && v in s.enabled
    ensures n in s.current && s.current[n] in s.order && s.order[s.current[n]] != []
  {
    hide Partition, Placed, Allocated, SpareLast, Distinct, WorkspacesOk, Marked, FocusLeads;
    n := s.monitorOf[v];
    InList(s.order, s.views, s.workspaceOf, v);
  }

  lemma ShownEnabled(s: State, n: Monitor, v: View)
    requires Inv(s) && n in s.current && v in Get(s.order, s.current[n])
    ensures v in s.enabled
  {
    hide Partition, Placed, Allocated, SpareLast, Distinct, WorkspacesOk, Marked, FocusLeads;
    FromList(s.order, s.views, s.workspaceOf, s.current[n], v);
    OnMonitorCurrent(s, v, n, s.current[n]);
  }

  /** The workspace actions by place: the next one on the list, or the one before, around the ends. */
  lemma StepWorkspacePlace(s: State, forward: bool)
    requires Inv(s)
    ensures s.active in s.workspaces && s.active in s.current && s.current[s.active] in s.workspaces[s.active]
    ensures var m, ws := s.active, s.workspaces[s.active];
      var i, r := IndexOf(ws, s.current[m]), StepWorkspace(s, forward);
      m in r.current
      && r.current[m] == ws[if forward then (if i == |ws| - 1 then 0 else i + 1) else if i == 0 then |ws| - 1 else i - 1]
  {
    hide Inv, StepWorkspace;
    StepWorkspaceMoves(s, forward);
  }
}
