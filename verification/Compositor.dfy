/**
 The window manager as the objects that the compositor mutates (src/ptychite/monitor.c, view.c, server.c,
 action.c). Every method is proved to take the step of the same name in module Desktop.
 */
module Compositor {
  import opened Lists
  import opened Objects
  import D = Desktop

  class Server {
    var views: seq<View>
    var monitors: seq<Monitor>
    var active: Monitor
    var pointer: Option<Monitor>     // wlr_output_layout_output_at the cursor
    var focus: Option<View>          // the seat's focused surface, by its view
    ghost var known: set<View>       // every view that has been created
    ghost var live: set<Workspace>   // the workspaces that have not been freed

    ghost function MonitorViews(): map<Monitor, seq<View>>
      reads this`monitors, monitors`views
    {
      map m | m in monitors :: m.views
    }

    ghost function Workspaces(): map<Monitor, seq<Workspace>>
      reads this`monitors, monitors`workspaces
    {
      map m | m in monitors :: m.workspaces
    }

    ghost function Current(): map<Monitor, Workspace>
      reads this`monitors, monitors`current
    {
      map m | m in monitors :: m.current
    }

    ghost function Order(): map<Workspace, seq<View>>
      reads this`live, live`viewsOrder
    {
      map w | w in live :: w.viewsOrder
    }

    ghost function FocusOrder(): map<Workspace, seq<View>>
      reads this`live, live`viewsFocus
    {
      map w | w in live :: w.viewsFocus
    }

    ghost function MonitorOf(): map<View, Monitor>
      reads this`known, known`monitor
    {
      map v | v in known && v.monitor != null :: v.monitor
    }

    ghost function WorkspaceOf(): map<View, Workspace>
      reads this`known, known`workspace
    {
      map v | v in known && v.workspace != null :: v.workspace
    }

    ghost function Enabled(): set<View>
      reads this`known, known`enabled
    {
      set v | v in known && v.enabled
    }

    ghost function Focused(): set<View>
      reads this`known, known`focused
    {
      set v | v in known && v.focused
    }

    /** What the objects amount to. */
    ghost function Abs(): D.State
      reads this, monitors, known, live
    {
      D.State(views, active, pointer, focus, MonitorViews(), Workspaces(), Current(), Order(), FocusOrder(),
              MonitorOf(), WorkspaceOf(), Enabled(), Focused())
    }

    /** The views linked here are ones that were created. */
    ghost predicate Owns()
      reads this`views, this`focus, this`known
    {
      (forall v :: v in views ==> v in known) && (focus.Some? ==> focus.value in known)
    }

    ghost predicate Valid()
      reads this, monitors, known, live
    {
      Owns() && D.Structured(Abs())
    }

    /** A server with its first output, as server_handle_new_output sets it up. */
    constructor ()
      ensures Valid() && D.Inv(Abs()) && views == [] && focus.None? && |monitors| == 1
      ensures fresh(monitors[0]) && fresh(monitors[0].current) && live == {monitors[0].current} && known == {}
    {
      var first := new Workspace();
      var monitor := new Monitor(first);
      views, monitors, active, pointer, focus := [], [monitor], monitor, None, None;
      known, live := {}, {first};
      new;
      hide MonitorViews, Workspaces, Current, Order, FocusOrder, MonitorOf, WorkspaceOf, Enabled, Focused, D.Inv;
      hide D.Structured;
      FirstMonitor(monitor, first);
      FirstWorkspace(first);
      NoViews();
      D.InitialInv(Abs(), monitor, first);
    }

    lemma FirstMonitor(monitor: Monitor, first: Workspace)
      requires monitors == [monitor] && monitor.views == [] && monitor.workspaces == [first] && monitor.current == first
      ensures MonitorViews() == map[monitor := []] && Workspaces() == map[monitor := [first]]
      ensures Current() == map[monitor := first]
    {
    }

    lemma FirstWorkspace(first: Workspace)
      requires live == {first} && first.viewsOrder == [] && first.viewsFocus == []
      ensures Order() == map[first := []] && FocusOrder() == map[first := []]
    {
    }

    lemma NoViews()
      requires known == {}
      ensures MonitorOf() == map[] && WorkspaceOf() == map[] && Enabled() == {} && Focused() == {}
    {
    }

    /** A mapped view's objects are the server's own. */
    lemma Owned(v: View)
      requires Valid() && v in views
      ensures v.workspace != null && v.workspace in live
      ensures v.monitor != null && v.monitor in monitors && v in known && Distinct(views)
      ensures v in WorkspaceOf() && WorkspaceOf()[v] == v.workspace && v in MonitorOf() && MonitorOf()[v] == v.monitor
      ensures D.Get(Order(), v.workspace) == v.workspace.viewsOrder
      ensures D.Get(FocusOrder(), v.workspace) == v.workspace.viewsFocus
    {
      D.InList(Abs().order, Abs().views, Abs().workspaceOf, v);
      D.InList(Abs().monitorViews, Abs().views, Abs().monitorOf, v);
    }

    /** ptychite_server_check_cursor */
    method CheckCursor()
      modifies this`active
      ensures Abs() == D.CheckCursor(old(Abs()))
    {
      hide MonitorViews, Workspaces, Current, Order, FocusOrder, MonitorOf, WorkspaceOf, Enabled, Focused;
      if pointer.Some? {
        active := pointer.value;
      }
    }

    /** ptychite_surface_unfocus */
    method Unfocus(v: View)
      requires v in known
      modifies v`focused
      ensures !v.focused && Abs() == old(Abs()).(focused := old(Focused()) - {v})
    {
      hide MonitorViews, Workspaces, Current, Order, FocusOrder, MonitorOf, WorkspaceOf, Enabled;
      v.focused := false;
      assert Focused() == old(Focused()) - {v};
    }

    method Mark(v: View)
      requires v in known
      modifies v`focused
      ensures Abs() == old(Abs()).(focused := old(Focused()) + {v})
    {
      hide MonitorViews, Workspaces, Current, Order, FocusOrder, MonitorOf, WorkspaceOf, Enabled;
      v.focused := true;
      assert Focused() == old(Focused()) + {v};
    }

    method SetFocus(to: Option<View>)
      modifies this`focus
      ensures Abs() == old(Abs()).(focus := to) && focus == to
    {
      hide MonitorViews, Workspaces, Current, Order, FocusOrder, MonitorOf, WorkspaceOf, Enabled, Focused;
      focus := to;
    }

    /** The marks and the keyboard focus move to v. */
    method TakeKeyboard(v: View)
      requires v in known && (focus.Some? ==> focus.value in known)
      modifies this`focus, known`focused
      ensures Abs() == old(Abs()).(focus := Some(v), focused := D.Unmarked(old(Abs())) + {v}) && focus == Some(v)
    {
      hide MonitorViews, Workspaces, Current, Order, FocusOrder, MonitorOf, WorkspaceOf, Enabled, Focused;
      if focus.Some? {
        Unfocus(focus.value);
      }
      Mark(v);
      SetFocus(Some(v));
    }

    /** wlr_seat_keyboard_notify_clear_focus, after the surface's own unfocusing */
    method DropKeyboard()
      requires focus.Some? ==> focus.value in known
      modifies this`focus, known`focused
      ensures Abs() == D.ClearFocus(old(Abs())) && focus.None?
    {
      hide MonitorViews, Workspaces, Current, Order, FocusOrder, MonitorOf, WorkspaceOf, Enabled, Focused;
      if focus.Some? {
        Unfocus(focus.value);
        SetFocus(None);
      }
    }

    method MoveToTop(v: View)
      modifies this`views
      ensures Abs() == old(Abs()).(views := ToFront(old(views), v)) && views == ToFront(old(views), v)
    {
      hide MonitorViews, Workspaces, Current, Order, FocusOrder, MonitorOf, WorkspaceOf, Enabled, Focused, ToFront;
      views := ToFront(views, v);
    }

    method SetFocusOrder(w: Workspace, list: seq<View>)
      requires w in live
      modifies w`viewsFocus
      ensures Abs() == old(Abs()).(focusOrder := old(FocusOrder())[w := list])
    {
      hide MonitorViews, Workspaces, Order, MonitorOf, WorkspaceOf, Focused, Enabled, Current;
      w.viewsFocus := list;
    }

    /** ptychite_view_focus up to the keyboard enter */
    method Raise(v: View)
      requires Valid() && v in views
      modifies this`views, this`focus, known`focused, live`viewsFocus
      ensures Abs() == D.Raise(old(Abs()), v)
    {
      hide D.Structured, ToFront;
      hide MonitorViews, Workspaces, Current, Order, FocusOrder, MonitorOf, WorkspaceOf, Enabled, Focused;
      Owned(v);
      TakeKeyboard(v);
      MoveToTop(v);
      SetFocusOrder(v.workspace, ToFront(v.workspace.viewsFocus, v));
    }

    method RaiseValid(v: View)
      requires Valid() && v in views && D.Marked(Abs())
      modifies this`views, this`focus, known`focused, live`viewsFocus
      ensures Abs() == D.Raise(old(Abs()), v) && Valid() && focus == Some(v)
      ensures v in views && v.monitor != null && v.monitor in monitors
      ensures v.workspace != null && v.workspace in v.monitor.workspaces
      ensures D.Marked(Abs()) && D.LeadsBut(Abs(), v.monitor) && D.FrontFocused(Abs(), v.workspace)
    {
      hide D.Structured, D.Raise, D.LeadsBut;
      hide MonitorViews, Workspaces, Order, FocusOrder, MonitorOf, WorkspaceOf, Focused, Enabled, Current;
      Owned(v);
      PlacedView(v);
      D.RaiseKeeps(Abs(), v);
      D.RaiseMarks(Abs(), v);
      D.RaiseLeads(Abs(), v);
      ToFrontFacts(views, v);
      Raise(v);
    }

    lemma PlacedView(v: View)
      requires Valid() && v in views
      ensures v.workspace != null && v.monitor != null && v.monitor in monitors && v.workspace in v.monitor.workspaces
      ensures D.IsCurrent(Abs(), v.monitor, v.workspace) <==> v.monitor.current == v.workspace
    {
      Owned(v);
    }

    lemma ListKnown(w: Workspace)
      requires Valid() && w in live
      ensures forall v :: v in w.viewsOrder ==> v in known
      ensures D.Get(Order(), w) == w.viewsOrder
    {
      forall v | v in w.viewsOrder ensures v in known {
        D.FromList(Abs().order, Abs().views, Abs().workspaceOf, w, v);
      }
    }

    lemma MonitorLists(m: Monitor)
      requires Valid() && m in monitors
      ensures m.workspaces != [] && Distinct(m.workspaces) && m.current in m.workspaces
      ensures forall w :: w in m.workspaces ==>
                w in live && D.Get(Order(), w) == w.viewsOrder && D.Get(FocusOrder(), w) == w.viewsFocus
      ensures m in Workspaces() && Workspaces()[m] == m.workspaces && m in Current() && Current()[m] == m.current
    {
      hide D.Structured;
      D.ListAllocated(Abs(), m);
      forall w | w in m.workspaces
        ensures w in live && D.Get(Order(), w) == w.viewsOrder && D.Get(FocusOrder(), w) == w.viewsFocus
      {
        assert w in Order();
      }
    }

    /** The loops of ptychite_monitor_switch_workspace over a workspace's views. */
    method SetEnabled(list: seq<View>, on: bool)
      requires forall v :: v in list ==> v in known
      modifies known`enabled
      ensures Enabled() == if on then old(Enabled()) + D.ViewSet(list) else old(Enabled()) - D.ViewSet(list)
    {
      for i := 0 to |list|
        invariant forall v :: v in known ==> v.enabled == if v in list[..i] then on else old(v.enabled)
      {
        list[i].enabled := on;
        assert list[..i + 1] == list[..i] + [list[i]];
      }
      assert list[..|list|] == list;
    }

    method HideThenShow(last: Workspace, w: Workspace)
      requires forall v :: v in last.viewsOrder || v in w.viewsOrder ==> v in known
      modifies known`enabled
      ensures Enabled() == old(Enabled()) - D.ViewSet(last.viewsOrder) + D.ViewSet(w.viewsOrder)
    {
      SetEnabled(last.viewsOrder, false);
      SetEnabled(w.viewsOrder, true);
    }

    method SetCurrent(m: Monitor, w: Workspace)
      requires m in monitors
      modifies m`current
      ensures Abs() == old(Abs()).(current := old(Current())[m := w]) && m.current == w
    {
      hide MonitorViews, Workspaces, Order, FocusOrder, MonitorOf, WorkspaceOf, Focused, Enabled;
      m.current := w;
    }

    lemma ShowFacts(m: Monitor, w: Workspace)
      requires Valid() && m in monitors && w in m.workspaces
      ensures D.Get(Order(), m.current) == m.current.viewsOrder && D.Get(Order(), w) == w.viewsOrder
      ensures m in Current() && Current()[m] == m.current
      ensures forall v :: v in m.current.viewsOrder || v in w.viewsOrder ==> v in known
    {
      hide D.Structured;
      MonitorLists(m);
      ListKnown(m.current);
      ListKnown(w);
    }

    /** ptychite_monitor_switch_workspace up to the clean-up */
    method Show(m: Monitor, w: Workspace)
      requires Valid() && m in monitors && w in m.workspaces
      modifies m`current, known`enabled
      ensures Abs() == D.Show(old(Abs()), m, w) && m.current == w
    {
      hide D.Structured;
      hide MonitorViews, Workspaces, Order, FocusOrder, MonitorOf, WorkspaceOf, Focused, Enabled, Current;
      ShowFacts(m, w);
      var last := m.current;
      SetCurrent(m, w);
      HideThenShow(last, w);
    }

    /** ptychite_monitor_fix_workspaces */
    method FixWorkspaces(m: Monitor)
      requires Valid() && m in monitors
      modifies m`workspaces, this`live
      ensures Abs() == D.FixWorkspaces(old(Abs()), m) && live <= old(live)
    {
      hide D.Structured, Workspaces, Order, FocusOrder, MonitorViews, Current, MonitorOf, WorkspaceOf, Enabled, Focused;
      hide D.Fixed, D.Freed, D.Kept, Dropped;
      MonitorLists(m);
      FixedSplits(m.workspaces, m.current, Order());
      FreeWorkspaces(m, Order());
    }

    /** The same on the tables. */
    method FreeWorkspaces(m: Monitor, ghost order: map<Workspace, seq<View>>)
      requires m in monitors && m.workspaces != [] && Distinct(m.workspaces)
      requires forall w :: w in m.workspaces ==> D.Get(order, w) == w.viewsOrder
      modifies m`workspaces, this`live
      ensures Workspaces() == old(Workspaces())[m := D.Fixed(old(m.workspaces), m.current, order)]
      ensures var freed := Dropped(old(m.workspaces)[..|old(m.workspaces)| - 1], m.current, order);
        Order() == old(Order()) - freed && FocusOrder() == old(FocusOrder()) - freed && live <= old(live)
    {
      hide D.Kept, D.Fixed, Dropped, Distinct;
      FreeEmpty(m, order);
    }

    /** The workspaces of ws that the clean-up drops. */
    static ghost function Dropped(ws: seq<Workspace>, current: Workspace, order: map<Workspace, seq<View>>): set<Workspace> {
      set w | w in ws && w !in D.Kept(ws, current, order)
    }

    lemma FixedSplits(ws: seq<Workspace>, current: Workspace, order: map<Workspace, seq<View>>)
      requires Distinct(ws) && ws != []
      ensures D.Freed(ws, current, order) == Dropped(ws[..|ws| - 1], current, order)
    {
      var front, last := ws[..|ws| - 1], ws[|ws| - 1];
      assert ws == front + [last];
      assert last !in front;
    }

    /** wl_list_remove and free */
    method Free(m: Monitor, i: nat)
      requires i < |m.workspaces|
      modifies m`workspaces, this`live
      ensures m.workspaces == old(m.workspaces)[..i] + old(m.workspaces)[i + 1..]
      ensures live == old(live) - {old(m.workspaces)[i]}
    {
      live := live - {m.workspaces[i]};
      m.workspaces := m.workspaces[..i] + m.workspaces[i + 1..];
    }

    /** One turn of the loop, at a workspace between those kept and the rest; the place of the next one is returned. */
    method KeepOrFree(m: Monitor, i: nat, ghost kept: seq<Workspace>, ghost w: Workspace, ghost rest: seq<Workspace>)
      returns (next: nat)
      requires m.workspaces == kept + ([w] + rest) && i == |kept|
      modifies m`workspaces, this`live
      ensures var stays := w == m.current || w.viewsOrder != [];
        && m.workspaces == (kept + if stays then [w] else []) + rest
        && live == old(live) - (if stays then {} else {w})
        && next == |kept| + if stays then 1 else 0
    {
      CutAt(kept, w, rest);
      var workspace := m.workspaces[i];
      next := i;
      if workspace != m.current && workspace.viewsOrder == [] {
        Free(m, i);
      } else {
        next := i + 1;
      }
    }

    method FreeTurn(m: Monitor, i: nat, ghost ws: seq<Workspace>, ghost n: nat, ghost order: map<Workspace, seq<View>>)
      returns (next: nat)
      requires n < |ws| && Distinct(ws) && D.Get(order, ws[n]) == ws[n].viewsOrder
      requires var kept := D.Kept(ws[..n], m.current, order); i == |kept| && m.workspaces == kept + ws[n..]
      modifies m`workspaces, this`live
      ensures var kept := D.Kept(ws[..n + 1], m.current, order);
        next == |kept| && m.workspaces == kept + ws[n + 1..]
      ensures live == old(live) - (Dropped(ws[..n + 1], m.current, order) - Dropped(ws[..n], m.current, order))
      ensures Dropped(ws[..n], m.current, order) <= Dropped(ws[..n + 1], m.current, order)
    {
      hide Dropped, D.Kept, Distinct;
      FreeStep(ws, n, m.current, order);
      next := KeepOrFree(m, i, D.Kept(ws[..n], m.current, order), ws[n], ws[n + 1..]);
    }

    /** The loop of ptychite_monitor_fix_workspaces. */
    method FreeEmpty(m: Monitor, ghost order: map<Workspace, seq<View>>)
      requires m.workspaces != [] && Distinct(m.workspaces)
      requires forall w :: w in m.workspaces ==> D.Get(order, w) == w.viewsOrder
      modifies m`workspaces, this`live
      ensures m.workspaces == D.Fixed(old(m.workspaces), m.current, order)
      ensures live == old(live) - Dropped(old(m.workspaces)[..|old(m.workspaces)| - 1], m.current, order)
    {
      hide Dropped, D.Kept, D.Fixed, Distinct;
      var end := m.workspaces[|m.workspaces| - 1];
      var i := 0;
      ghost var ws, n := m.workspaces, 0;
      FreeNone(ws, m.current, order);
      while m.workspaces[i] != end
        invariant n < |ws| && i == |D.Kept(ws[..n], m.current, order)|
        invariant m.workspaces == D.Kept(ws[..n], m.current, order) + ws[n..]
        invariant live == old(live) - Dropped(ws[..n], m.current, order)
        decreases |ws| - n
      {
        i := FreeTurn(m, i, ws, n, order);
        n := n + 1;
      }
      LastIndex(ws, n, m.current, order);
    }

    lemma CutAt<T>(kept: seq<T>, x: T, rest: seq<T>)
      ensures var s := kept + ([x] + rest);
        s[..|kept|] + s[|kept| + 1..] == kept + rest && s == (kept + [x]) + rest
    {
    }

    lemma LastIndex(ws: seq<Workspace>, n: nat, current: Workspace, order: map<Workspace, seq<View>>)
      requires Distinct(ws) && n < |ws| && ws[n] == ws[|ws| - 1]
      ensures n == |ws| - 1 && D.Fixed(ws, current, order) == D.Kept(ws[..n], current, order) + ws[n..]
    {
      hide D.Kept;
      assert ws[n..] == [ws[n]];
    }

    lemma FreeNone(ws: seq<Workspace>, current: Workspace, order: map<Workspace, seq<View>>)
      ensures D.Kept(ws[..0], current, order) == [] && Dropped(ws[..0], current, order) == {} && ws[0..] == ws
    {
    }

    lemma FreeStep(ws: seq<Workspace>, n: nat, current: Workspace, order: map<Workspace, seq<View>>)
      requires n < |ws| && Distinct(ws)
      ensures ws[n..] == [ws[n]] + ws[n + 1..]
      ensures var stays := ws[n] == current || D.Get(order, ws[n]) != [];
        && D.Kept(ws[..n + 1], current, order) == D.Kept(ws[..n], current, order) + (if stays then [ws[n]] else [])
        && Dropped(ws[..n + 1], current, order) == Dropped(ws[..n], current, order) + (if stays then {} else {ws[n]})
        && ws[n] !in Dropped(ws[..n], current, order)
    {
      assert ws[..n + 1] == ws[..n] + [ws[n]];
      D.KeptAppend(ws[..n], ws[n], current, order);
      assert ws[n] !in ws[..n];
      D.KeptHas(ws[..n], current, order, ws[n]);
    }

    // ---- Reading the state ------------------------------------------------------------------------------

    lemma ActiveFacts()
      requires Valid()
      ensures active in monitors && active.current in live && active in Current() && Current()[active] == active.current
      ensures D.Get(Order(), active.current) == active.current.viewsOrder
      ensures D.Get(FocusOrder(), active.current) == active.current.viewsFocus
    {
      hide D.Structured;
      D.ActiveListed(Abs());
      MonitorLists(active);
    }

    /** ptychite_server_get_top_view */
    method GetTopView() returns (r: Option<View>)
      requires Valid()
      ensures r == D.TopView(Abs())
    {
      ActiveFacts();
      if active.current.viewsFocus == [] {
        return None;
      }
      return Some(active.current.viewsFocus[0]);
    }

    /** ptychite_server_get_front_view */
    method GetFrontView() returns (r: Option<View>)
      requires Valid()
      ensures r == D.FrontView(Abs())
    {
      ActiveFacts();
      if active.current.viewsOrder == [] {
        return None;
      }
      return Some(active.current.viewsOrder[0]);
    }

    /** ptychite_server_get_focused_view */
    method GetFocusedView() returns (r: Option<View>)
      requires Valid()
      ensures r == D.FocusedView(Abs())
    {
      if focus.None? {
        return None;
      }
      var view := GetTopView();
      if view.None? || view != focus {
        return None;
      }
      return view;
    }

    // ---- Focusing and switching, which call each other --------------------------------------------------

    /** ptychite_monitor_switch_workspace up to and with the clean-up */
    method Tidy(m: Monitor, w: Workspace)
      requires Valid() && m in monitors && w in m.workspaces && D.Marked(Abs()) && D.LeadsBut(Abs(), m)
      modifies m`current, m`workspaces, known`enabled, this`live
      ensures Abs() == D.Tidy(old(Abs()), m, w) && Valid() && m.current == w && live <= old(live)
      ensures D.Marked(Abs()) && D.LeadsBut(Abs(), m) && D.FrontFocused(Abs(), w) == D.FrontFocused(old(Abs()), w)
    {
      hide D.Structured, D.LeadsBut, D.Show, D.FixWorkspaces;
      hide MonitorViews, Workspaces, Order, FocusOrder, MonitorOf, WorkspaceOf, Focused, Enabled, Current;
      MonitorLists(m);
      D.ShowKeeps(Abs(), m, w);
      D.TidyKeeps(Abs(), m, w);
      D.TidyFront(Abs(), m, w);
      D.TidyLeads(Abs(), m, w);
      Show(m, w);
      FixWorkspaces(m);
    }

    method Activate(m: Monitor)
      modifies this`active
      ensures Abs() == old(Abs()).(active := m) && active == m
    {
      hide MonitorViews, Workspaces, Current, Order, FocusOrder, MonitorOf, WorkspaceOf, Enabled, Focused;
      active := m;
    }

    /** ptychite_view_focus with the view's own surface */
    method Focus(v: View)
      requires Valid() && D.Marked(Abs()) && v in views && (focus == Some(v) ==> D.FocusLeads(Abs()))
      modifies this`views, this`focus, this`active, this`live, known`focused, known`enabled
      modifies live`viewsFocus, monitors`current, monitors`workspaces
      ensures Abs() == D.Focus(old(Abs()), v) && Valid() && D.Inv(Abs()) && live <= old(live)
      decreases if focus == Some(v) then 0 else 2, 0
    {
      hide D.Structured, D.FocusLeads, D.Raise, D.LeadsBut, D.Switch, D.Marked, D.FrontFocused;
      hide MonitorViews, Workspaces, Order, FocusOrder, MonitorOf, WorkspaceOf, Focused, Enabled, Current;
      D.FocusKeeps(Abs(), v);
      if focus == Some(v) {
        return;
      }
      Owned(v);
      D.FocusParts(Abs(), v);
      hide D.Focus, D.IsCurrent;
      RaiseValid(v);
      Reveal(v);
    }

    /** The end of ptychite_view_focus: the view's workspace is shown and its monitor is active. */
    method Reveal(v: View)
      requires Valid() && D.Marked(Abs()) && v in views && v.monitor != null && v.workspace != null
      requires D.LeadsBut(Abs(), v.monitor) && D.FrontFocused(Abs(), v.workspace)
      modifies this`views, this`focus, this`active, this`live, known`focused, known`enabled
      modifies live`viewsFocus, monitors`current, monitors`workspaces
      ensures var s, m, w := old(Abs()), v.monitor, v.workspace;
        Abs() == (if !D.IsCurrent(s, m, w) then D.Switch(s, m, w) else s).(active := m)
      ensures Owns() && live <= old(live)
      decreases 1, 2
    {
      hide D.Structured, D.LeadsBut, D.Switch, D.Marked, D.FocusLeads, D.FrontFocused, Owns;
      hide MonitorViews, Workspaces, Order, FocusOrder, MonitorOf, WorkspaceOf, Focused, Enabled, Current;
      PlacedView(v);
      if v.workspace != v.monitor.current {
        Switch(v.monitor, v.workspace);
      }
      Activate(v.monitor);
    }

    /** ptychite_monitor_switch_workspace */
    method Switch(m: Monitor, w: Workspace)
      requires Valid() && D.Marked(Abs()) && D.LeadsBut(Abs(), m) && m in monitors && w in m.workspaces
      modifies this`views, this`focus, this`active, this`live, known`focused, known`enabled
      modifies live`viewsFocus, monitors`current, monitors`workspaces
      ensures Abs() == D.Switch(old(Abs()), m, w) && Valid() && D.Inv(Abs()) && live <= old(live)
      decreases if D.FrontFocused(Abs(), w) then 1 else 3, 1
    {
      hide D.Structured, D.LeadsBut, D.Tidy, D.Refocus, D.Marked, D.FocusLeads, D.FrontFocused, D.Trim, Owns;
      hide MonitorViews, Workspaces, Order, FocusOrder, MonitorOf, WorkspaceOf, Focused, Enabled, Current;
      MonitorLists(m);
      D.SwitchKeeps(Abs(), m, w);
      D.SwitchParts(Abs(), m, w);
      hide D.Switch, D.CheckCursor;
      Tidy(m, w);
      Refocus(m, w);
      CheckCursor();
    }

    /** The part of ptychite_monitor_switch_workspace that gives the keyboard to the workspace it shows. */
    method Refocus(m: Monitor, w: Workspace)
      requires Valid() && D.Marked(Abs()) && D.LeadsBut(Abs(), m) && m in monitors && m.current == w
      modifies this`views, this`focus, this`active, this`live, known`focused, known`enabled
      modifies live`viewsFocus, monitors`current, monitors`workspaces
      ensures Abs() == D.Refocus(old(Abs()), w) && Valid() && D.Inv(Abs()) && live <= old(live)
      decreases if D.FrontFocused(Abs(), w) then 1 else 3, 0
    {
      hide D.Structured, D.LeadsBut, D.Focus;
      hide MonitorViews, Workspaces, Order, FocusOrder, MonitorOf, WorkspaceOf, Focused, Enabled, Current;
      MonitorLists(m);
      D.RefocusKeeps(Abs(), m, w);
      var fv := GetFocusedView();
      if fv.Some? {
        D.FocusedIsMapped(Abs());
        Owned(fv.value);
      }
      if fv.None? || fv.value.workspace != w {
        if w.viewsFocus == [] {
          DropKeyboard();
        } else {
          D.RefocusTarget(Abs(), m, w);
          Focus(w.viewsFocus[0]);
        }
      }
    }

    // ---- Events -----------------------------------------------------------------------------------------

    /** The part of ptychite_monitor_tile that the window-management state sees. */
    method Tile(m: Monitor)
      requires m in monitors && m.current in live
      modifies this`active
      ensures Abs() == D.Tiled(old(Abs()), m) && views == old(views) && focus == old(focus)
    {
      if m.current.viewsOrder == [] {
        return;
      }
      CheckCursor();
    }

    /** ptychite_server_focus_any */
    method FocusAny()
      requires Valid() && D.Inv(Abs())
      modifies this`views, this`focus, this`active, this`live, known`focused, known`enabled
      modifies live`viewsFocus, monitors`current, monitors`workspaces
      ensures Abs() == D.FocusAny(old(Abs())) && Valid() && D.Inv(Abs()) && live <= old(live)
    {
      hide D.Structured, D.Focus, D.FocusLeads;
      var top := GetTopView();
      if top.Some? {
        D.TopIsMapped(Abs());
        Focus(top.value);
      }
    }

    /** server_action_focus_next_view and server_action_focus_previous_view */
    method StepView(forward: bool)
      requires Valid() && D.Inv(Abs())
      modifies this`views, this`focus, this`active, this`live, known`focused, known`enabled
      modifies live`viewsFocus, monitors`current, monitors`workspaces
      ensures Abs() == D.StepView(old(Abs()), forward) && Valid() && D.Inv(Abs()) && live <= old(live)
    {
      hide D.Structured, D.Focus, D.FocusLeads;
      hide MonitorViews, Workspaces, Order, FocusOrder, MonitorOf, WorkspaceOf, Focused, Enabled, Current;
      var holder := GetFocusedView();
      if holder.None? {
        FocusAny();
        return;
      }
      D.FocusedIsMapped(Abs());
      Owned(holder.value);
      ListOrder(holder.value);
      var list := holder.value.workspace.viewsOrder;
      var next := if forward then After(list, holder.value) else Before(list, holder.value);
      Focus(next);
    }

    lemma ListOrder(v: View)
      requires Valid() && v in views
      ensures v.workspace != null && v.workspace in Order() && Order()[v.workspace] == v.workspace.viewsOrder
      ensures v in v.workspace.viewsOrder
      ensures After(v.workspace.viewsOrder, v) in views && Before(v.workspace.viewsOrder, v) in views
    {
      hide D.Structured;
      Owned(v);
      D.NeighboursMapped(Abs(), v);
    }

    /** server_action_goto_next_workspace and server_action_goto_previous_workspace */
    method StepWorkspace(forward: bool)
      requires Valid() && D.Inv(Abs())
      modifies this`views, this`focus, this`active, this`live, known`focused, known`enabled
      modifies live`viewsFocus, monitors`current, monitors`workspaces
      ensures Abs() == D.StepWorkspace(old(Abs()), forward) && Valid() && D.Inv(Abs()) && live <= old(live)
    {
      hide D.Structured, D.Switch;
      hide MonitorViews, Workspaces, Order, FocusOrder, MonitorOf, WorkspaceOf, Focused, Enabled, Current;
      ActiveFacts();
      MonitorLists(active);
      var list, w := active.workspaces, active.current;
      BeforeAfter(list, w);
      var next := if forward then After(list, w) else Before(list, w);
      Switch(active, next);
    }

    /** panel_handle_pointer_button on the region of a workspace */
    method ClickWorkspace(m: Monitor, w: Workspace)
      requires Valid() && D.Inv(Abs()) && m in monitors && w in m.workspaces
      modifies this`views, this`focus, this`active, this`live, known`focused, known`enabled
      modifies live`viewsFocus, monitors`current, monitors`workspaces
      ensures Abs() == D.Next(old(Abs()), D.ClickWorkspace(m, w)) && Valid() && D.Inv(Abs()) && live <= old(live)
    {
      hide D.Structured, D.Switch;
      hide MonitorViews, Workspaces, Order, FocusOrder, MonitorOf, WorkspaceOf, Focused, Enabled, Current;
      MonitorLists(m);
      if w != m.current {
        Switch(m, w);
      }
    }

    /** The view that swap_front moves: the focused one, or the one after it if it is first already. */
    method NewFront() returns (r: Option<View>)
      requires Valid() && D.Inv(Abs())
      ensures r == D.NewFront(Abs()) && (r.Some? ==> r.value in views)
    {
      hide D.Structured;
      hide MonitorViews, Workspaces, MonitorOf, WorkspaceOf, Focused, Enabled;
      D.NewFrontMapped(Abs());
      var view := GetFocusedView();
      if view.None? {
        return None;
      }
      var front := GetFrontView();
      ActiveFacts();
      FocusedOnActive();
      if front == view {
        if |view.value.workspace.viewsOrder| == 1 {
          return None;
        }
        return Some(view.value.workspace.viewsOrder[1]);
      }
      return view;
    }

    lemma FocusedOnActive()
      requires Valid() && D.FocusedView(Abs()).Some?
      ensures var v := D.FocusedView(Abs()).value;
        v.workspace == active.current && v.workspace != null && v in v.workspace.viewsOrder
    {
      hide D.Structured;
      D.FocusedIsMapped(Abs());
      Owned(D.FocusedView(Abs()).value);
      ListOrder(D.FocusedView(Abs()).value);
      ActiveFacts();
    }

    /** server_action_swap_front */
    method SwapFront()
      requires Valid() && D.Inv(Abs())
      modifies this`active, live`viewsOrder
      ensures Abs() == D.SwapFront(old(Abs())) && Valid() && D.Inv(Abs())
    {
      hide D.Structured, D.NewFront, D.MovedToFront;
      hide MonitorViews, Workspaces, Order, FocusOrder, MonitorOf, WorkspaceOf, Focused, Enabled, Current;
      var newFront := NewFront();
      if newFront.Some? {
        MoveToFront(newFront.value);
      }
    }

    method MoveToFront(v: View)
      requires Valid() && D.Inv(Abs()) && v in views
      modifies this`active, live`viewsOrder
      ensures Abs() == D.MovedToFront(old(Abs()), v) && Valid() && D.Inv(Abs())
    {
      hide D.Structured, D.FocusLeads, D.Marked;
      hide MonitorViews, Workspaces, Order, FocusOrder, MonitorOf, WorkspaceOf, Focused, Enabled, Current;
      Owned(v);
      D.ReorderKeeps(Abs(), v);
      SetOrder(v.workspace, ToFront(v.workspace.viewsOrder, v));
      D.CheckCursorKeeps(Abs());
      MonitorLists(v.monitor);
      Tile(v.monitor);
    }

    method SetOrder(w: Workspace, list: seq<View>)
      requires w in live
      modifies w`viewsOrder
      ensures Abs() == old(Abs()).(order := old(Order())[w := list])
    {
      hide MonitorViews, Workspaces, FocusOrder, MonitorOf, WorkspaceOf, Focused, Enabled, Current;
      w.viewsOrder := list;
    }

    /** A view without monitor, workspace or marks changes no table. */
    method Know(v: View)
      requires v !in known && v.monitor == null && v.workspace == null && !v.enabled && !v.focused
      modifies this`known
      ensures Abs() == old(Abs()) && known == old(known) + {v}
    {
      hide MonitorViews, Workspaces, Order, FocusOrder, Current;
      known := known + {v};
      assert MonitorOf() == old(MonitorOf());
      assert WorkspaceOf() == old(WorkspaceOf());
      assert Enabled() == old(Enabled());
      assert Focused() == old(Focused());
    }

    /** A new toplevel surface: a view that is not mapped yet. */
    method CreateView() returns (v: View)
      requires Valid()
      modifies this`known
      ensures Abs() == old(Abs()) && Valid() && fresh(v) && known == old(known) + {v} && v !in views
    {
      hide D.Structured, MonitorViews, Workspaces, Order, FocusOrder, Current, MonitorOf, WorkspaceOf, Enabled, Focused;
      v := new View();
      Know(v);
    }

    /** A workspace without views joins the live ones. */
    method Track(workspace: Workspace)
      requires workspace !in live && workspace.viewsOrder == [] && workspace.viewsFocus == []
      modifies this`live
      ensures live == old(live) + {workspace}
      ensures Abs() == old(Abs()).(order := old(Order())[workspace := []], focusOrder := old(FocusOrder())[workspace := []])
    {
      hide MonitorViews, Workspaces, MonitorOf, WorkspaceOf, Focused, Enabled, Current;
      live := live + {workspace};
      assert Order() == old(Order())[workspace := []];
      assert FocusOrder() == old(FocusOrder())[workspace := []];
    }

    method Allocate() returns (workspace: Workspace)
      modifies this`live
      ensures fresh(workspace) && live == old(live) + {workspace}
      ensures Abs() == old(Abs()).(order := old(Order())[workspace := []], focusOrder := old(FocusOrder())[workspace := []])
    {
      hide MonitorViews, Workspaces, Order, FocusOrder, MonitorOf, WorkspaceOf, Focused, Enabled, Current;
      workspace := new Workspace();
      Track(workspace);
    }

    method SetWorkspaces(m: Monitor, list: seq<Workspace>)
      requires m in monitors
      modifies m`workspaces
      ensures Abs() == old(Abs()).(workspaces := old(Workspaces())[m := list]) && m.workspaces == list
    {
      hide MonitorViews, Order, FocusOrder, MonitorOf, WorkspaceOf, Focused, Enabled, Current;
      m.workspaces := list;
    }

    lemma ListedWorkspaces(m: Monitor)
      requires m in monitors
      ensures m in Workspaces() && Workspaces()[m] == m.workspaces
    {
    }

    /** ptychite_monitor_add_workspace */
    method AddWorkspace(m: Monitor) returns (workspace: Workspace)
      requires m in monitors
      modifies this`live, m`workspaces
      ensures fresh(workspace) && live == old(live) + {workspace}
      ensures Abs() == D.AddWorkspace(old(Abs()), m, workspace)
    {
      hide MonitorViews, Workspaces, Order, FocusOrder, MonitorOf, WorkspaceOf, Focused, Enabled, Current;
      ListedWorkspaces(m);
      workspace := Allocate();
      SetWorkspaces(m, m.workspaces + [workspace]);
    }

    method Adopt(v: View, m: Monitor, w: Workspace)
      requires v in known
      modifies this`views, v`monitor, v`workspace
      ensures Abs() == old(Abs()).(views := [v] + old(views), monitorOf := old(MonitorOf())[v := m],
                                   workspaceOf := old(WorkspaceOf())[v := w])
      ensures v.workspace == w && v.monitor == m
    {
      hide MonitorViews, Workspaces, Order, FocusOrder, Focused, Enabled, Current;
      views := [v] + views;
      v.monitor := m;
      v.workspace := w;
      assert MonitorOf() == old(MonitorOf())[v := m];
      assert WorkspaceOf() == old(WorkspaceOf())[v := w];
    }

    method JoinMonitor(v: View, m: Monitor)
      requires m in monitors
      modifies m`views
      ensures Abs() == old(Abs()).(monitorViews := old(MonitorViews())[m := [v] + D.Get(old(MonitorViews()), m)])
    {
      hide MonitorOf, WorkspaceOf, Workspaces, Order, FocusOrder, Focused, Enabled, Current;
      m.views := [v] + m.views;
    }

    lemma ListedViews(w: Workspace)
      requires w in live
      ensures w in Order() && Order()[w] == w.viewsOrder && w in FocusOrder() && FocusOrder()[w] == w.viewsFocus
    {
    }

    method JoinWorkspace(v: View, w: Workspace, toFront: bool)
      requires w in live
      modifies w`viewsOrder, w`viewsFocus
      ensures var list := D.Get(old(Order()), w);
        Abs() == old(Abs()).(order := old(Order())[w := if toFront then [v] + list else list + [v]],
                             focusOrder := old(FocusOrder())[w := [v] + D.Get(old(FocusOrder()), w)])
    {
      hide MonitorViews, Workspaces, Order, FocusOrder, MonitorOf, WorkspaceOf, Focused, Enabled, Current;
      ListedViews(w);
      SetOrder(w, if toFront then [v] + w.viewsOrder else w.viewsOrder + [v]);
      SetFocusOrder(w, [v] + w.viewsFocus);
    }

    /** The list insertions of view_handle_map. */
    method Link(v: View, toFront: bool)
      requires Valid() && v in known
      modifies this`views, v`monitor, v`workspace, active`views, active.current`viewsOrder, active.current`viewsFocus
      ensures Abs() == D.Link(old(Abs()), v, active, active.current, toFront)
      ensures v.workspace == active.current && v.monitor == active
    {
      hide D.Structured;
      hide MonitorViews, Workspaces, Order, FocusOrder, MonitorOf, WorkspaceOf, Focused, Enabled, Current;
      ActiveFacts();
      Adopt(v, active, active.current);
      JoinMonitor(v, active);
      JoinWorkspace(v, active.current, toFront);
    }

    lemma OrderKeys()
      ensures Order().Keys == live
    {
    }

    /** A workspace is added after the last one if the view is on that. */
    method Spare(v: View) returns (ghost extra: Workspace)
      requires v.monitor == active && v.workspace == active.current && active in monitors && active.workspaces != []
      modifies this`live, active`workspaces
      ensures D.FillsLast(old(Abs())) ==> fresh(extra)
      ensures Abs() == if D.FillsLast(old(Abs())) then D.AddWorkspace(old(Abs()), active, extra) else old(Abs())
      ensures old(live) <= live && fresh(live - old(live))
    {
      hide MonitorViews, Workspaces, Order, FocusOrder, MonitorOf, WorkspaceOf, Focused, Enabled, Current;
      hide D.AddWorkspace;
      ListedWorkspaces(active);
      ListedCurrent(active);
      extra := active.current;
      if v.workspace == v.monitor.workspaces[|v.monitor.workspaces| - 1] {
        extra := AddWorkspace(v.monitor);
      }
    }

    lemma ListedCurrent(m: Monitor)
      requires m in monitors
      ensures m in Current() && Current()[m] == m.current
    {
    }

    /** The list changes of view_handle_map. */
    method LinkAndSpare(v: View, toFront: bool) returns (ghost extra: Workspace)
      requires Valid() && v in known && v !in views
      modifies this`views, this`live, v`monitor, v`workspace
      modifies monitors`views, monitors`workspaces, live`viewsOrder, live`viewsFocus
      ensures D.NewMemory(old(Abs()), extra) && fresh(live - old(live)) && old(live) <= live
      ensures Abs() == D.Spared(old(Abs()), v, toFront, extra) && v.monitor == active && active.current in live
    {
      hide D.Structured, D.Link, D.AddWorkspace, D.FillsLast;
      hide MonitorViews, Workspaces, Order, FocusOrder, MonitorOf, WorkspaceOf, Focused, Enabled, Current;
      ActiveFacts();
      MonitorLists(active);
      OrderKeys();
      D.LinkFills(Abs(), v, active, active.current, toFront);
      D.ActiveListed(Abs());
      Link(v, toFront);
      extra := Spare(v);
    }

    /** The part of view_handle_map before the view is enabled and focused. */
    method Enlist(v: View, toFront: bool, tiling: bool) returns (ghost extra: Workspace)
      requires Valid() && v in known && v !in views
      modifies this`views, this`live, this`active, v`monitor, v`workspace
      modifies monitors`views, monitors`workspaces, live`viewsOrder, live`viewsFocus
      ensures D.NewMemory(old(Abs()), extra) && fresh(live - old(live)) && known == old(known)
      ensures Abs().(enabled := Enabled() + {v}) == D.Mapped(old(Abs()), v, toFront, tiling, extra)
    {
      hide D.Structured, D.Spared, D.Tiled, D.NewMemory;
      hide MonitorViews, Workspaces, Order, FocusOrder, MonitorOf, WorkspaceOf, Focused, Enabled, Current;
      ActiveFacts();
      MonitorLists(active);
      extra := LinkAndSpare(v, toFront);
      if tiling {
        Tile(v.monitor);
      }
    }

    /** view_handle_map */
    method MapView(v: View, toFront: bool, tiling: bool) returns (ghost extra: Workspace)
      requires Valid() && D.Inv(Abs()) && v in known && v !in views
      modifies this`views, this`live, this`active, this`focus, v`monitor, v`workspace
      modifies monitors`views, monitors`workspaces, monitors`current
      modifies live`viewsOrder, live`viewsFocus, known`enabled, known`focused
      ensures D.NewMemory(old(Abs()), extra) && fresh(live - old(live))
      ensures Abs() == D.MapView(old(Abs()), v, toFront, tiling, extra) && Valid() && D.Inv(Abs())
    {
      hide D.Structured, D.Focus, D.Mapped, D.Foremost;
      hide MonitorViews, Workspaces, Order, FocusOrder, MonitorOf, WorkspaceOf, Focused, Enabled, Current;
      ghost var s := Abs();
      extra := Enlist(v, toFront, tiling);
      D.MapKeeps(s, v, toFront, tiling, extra);
      D.MappedKeeps(s, v, toFront, tiling, extra);
      D.ActiveListed(s);
      D.ExtraNotCurrent(s, extra);
      D.MappedLeads(s, v, toFront, tiling, extra);
      Enable(v);
      Focus(v);
    }

    method Enable(v: View)
      requires v in known
      modifies v`enabled
      ensures Abs() == old(Abs()).(enabled := old(Enabled()) + {v})
    {
      hide MonitorViews, Workspaces, Order, FocusOrder, MonitorOf, WorkspaceOf, Focused, Current;
      v.enabled := true;
      assert Enabled() == old(Enabled()) + {v};
    }

    /** The list removals of view_handle_unmap. */
    method Unlink(v: View)
      requires Valid() && v in views
      modifies this`views, monitors`views, live`viewsOrder, live`viewsFocus, v`enabled
      ensures Abs() == D.Unlink(old(Abs()), v) && Valid()
    {
      hide D.Structured;
      hide MonitorViews, Workspaces, Order, FocusOrder, MonitorOf, WorkspaceOf, Focused, Enabled, Current;
      Owned(v);
      OrderKeys();
      D.UnlinkKeeps(Abs(), v);
      WithoutFacts(views, v);
      LeaveWorkspace(v, v.workspace);
      LeaveMonitor(v, v.monitor);
      LeaveServer(v);
    }

    method LeaveWorkspace(v: View, w: Workspace)
      requires w in live
      modifies w`viewsOrder, w`viewsFocus
      ensures Abs() == old(Abs()).(order := D.Drop(old(Order()), w, v), focusOrder := D.Drop(old(FocusOrder()), w, v))
    {
      hide MonitorViews, Workspaces, Order, FocusOrder, MonitorOf, WorkspaceOf, Focused, Enabled, Current, Without;
      ListedViews(w);
      SetOrder(w, Without(w.viewsOrder, v));
      SetFocusOrder(w, Without(w.viewsFocus, v));
    }

    lemma ListedOn(m: Monitor)
      requires m in monitors
      ensures m in MonitorViews() && MonitorViews()[m] == m.views
    {
    }

    method SetViews(m: Monitor, list: seq<View>)
      requires m in monitors
      modifies m`views
      ensures Abs() == old(Abs()).(monitorViews := old(MonitorViews())[m := list])
    {
      hide MonitorOf, WorkspaceOf, Workspaces, Order, FocusOrder, Focused, Enabled, Current;
      m.views := list;
    }

    method LeaveMonitor(v: View, m: Monitor)
      requires m in monitors
      modifies m`views
      ensures Abs() == old(Abs()).(monitorViews := D.Drop(old(MonitorViews()), m, v))
    {
      hide MonitorViews, Workspaces, Order, FocusOrder, MonitorOf, WorkspaceOf, Focused, Enabled, Current, Without;
      ListedOn(m);
      SetViews(m, Without(m.views, v));
    }

    method LeaveServer(v: View)
      requires v in known
      modifies this`views, v`enabled
      ensures Abs() == old(Abs()).(views := Without(old(views), v), enabled := old(Enabled()) - {v})
    {
      hide MonitorViews, Workspaces, Order, FocusOrder, MonitorOf, WorkspaceOf, Focused, Current;
      views := Without(views, v);
      v.enabled := false;
      assert Enabled() == old(Enabled()) - {v};
    }

    lemma FocusedMark(v: View)
      requires v in known
      ensures v in Focused() <==> v.focused
    {
    }

    /** The end of view_handle_unmap. */
    method HandOver(v: View, m: Monitor)
      requires Valid() && D.Inv(Abs()) && v in known && m in monitors
      modifies this`views, this`live, this`active, this`focus, monitors`workspaces, monitors`current
      modifies live`viewsFocus, known`enabled, known`focused
      ensures Abs() == D.HandOver(old(Abs()), v, m) && Valid() && D.Inv(Abs()) && live <= old(live)
    {
      hide D.Structured, D.Focus, D.FocusLeads;
      hide MonitorViews, Workspaces, Order, FocusOrder, MonitorOf, WorkspaceOf, Focused, Enabled, Current;
      MonitorLists(m);
      FocusedMark(v);
      D.UnmapTarget(Abs(), m);
      D.HandOverKeeps(Abs(), v, m);
      if v.focused && m.current.viewsOrder != [] {
        Focus(m.current.viewsFocus[0]);
      }
    }

    /** view_handle_unmap */
    method UnmapView(v: View)
      requires Valid() && D.Inv(Abs()) && v in views
      modifies this`views, this`live, this`active, this`focus
      modifies monitors`views, monitors`workspaces, monitors`current
      modifies live`viewsOrder, live`viewsFocus, known`enabled, known`focused
      ensures Abs() == D.UnmapView(old(Abs()), v) && Valid() && D.Inv(Abs()) && live <= old(live)
    {
      hide D.Structured, D.Unlink, D.FocusLeads, D.HandOver, D.Marked, D.Tiled;
      hide MonitorViews, Workspaces, Order, FocusOrder, MonitorOf, WorkspaceOf, Focused, Enabled, Current;
      Owned(v);
      D.UnmapKeeps(Abs(), v);
      Unlink(v);
      MonitorLists(v.monitor);
      Tile(v.monitor);
      HandOver(v, v.monitor);
    }

    /** wlroots drops the keyboard focus of a surface that is destroyed. */
    method DestroySurface(v: View)
      requires Valid() && D.Inv(Abs()) && v in known && v !in views
      modifies this`focus, v`focused
      ensures Abs() == D.DestroySurface(old(Abs()), v) && Valid() && D.Inv(Abs())
    {
      hide D.Structured;
      hide MonitorViews, Workspaces, Order, FocusOrder, MonitorOf, WorkspaceOf, Enabled, Current;
      D.DestroyKeeps(Abs(), v);
      if focus == Some(v) {
        Unfocus(v);
        SetFocus(None);
      }
    }

    method SetPointer(to: Option<Monitor>)
      modifies this`pointer
      ensures Abs() == old(Abs()).(pointer := to)
    {
      hide MonitorViews, Workspaces, Order, FocusOrder, MonitorOf, WorkspaceOf, Focused, Enabled, Current;
      pointer := to;
    }

    /** The cursor moves to another monitor, or off all of them. */
    method MovePointer(to: Option<Monitor>)
      requires Valid() && D.Inv(Abs()) && (to.Some? ==> to.value in monitors)
      modifies this`pointer, this`active
      ensures Abs() == D.MovePointer(old(Abs()), to) && Valid() && D.Inv(Abs())
    {
      hide D.Structured;
      hide Workspaces, Order, FocusOrder, MonitorOf, WorkspaceOf, Enabled, Focused;
      D.PointKeeps(Abs(), to);
      SetPointer(to);
      CheckCursor();
    }

    /** The loop of server_update_monitors that tiles. */
    method TileAll()
      requires Valid()
      modifies this`active
      ensures Abs() == D.Retiled(old(Abs()))
    {
      hide D.Structured, D.TiledAll, D.Tiled, D.Retiled, Owns;
      hide MonitorViews, Workspaces, Order, FocusOrder, MonitorOf, WorkspaceOf, Focused, Enabled, Current;
      ghost var s := Abs();
      D.TiledNone(s);
      for i := 0 to |monitors|
        invariant Valid() && Abs() == D.TiledAll(s, monitors[..i])
      {
        assert monitors[i] in monitors;
        MonitorLists(monitors[i]);
        D.TiledNext(s, monitors[..i], monitors[i]);
        D.TiledAllKeeps(s, monitors[..i + 1]);
        assert monitors[..i + 1] == monitors[..i] + [monitors[i]];
        Tile(monitors[i]);
      }
      CurrentKeys();
      D.TiledEvery(s, monitors);
      assert monitors[..|monitors|] == monitors;
    }

    lemma CurrentKeys()
      ensures Current().Keys == set m | m in monitors
    {
    }

    method ListMonitor(m: Monitor)
      requires m !in monitors
      modifies this`monitors
      ensures Abs() == old(Abs()).(monitorViews := old(MonitorViews())[m := m.views],
                                   workspaces := old(Workspaces())[m := m.workspaces],
                                   current := old(Current())[m := m.current])
      ensures monitors == [m] + old(monitors)
    {
      hide Order, FocusOrder, MonitorOf, WorkspaceOf, Focused, Enabled, MonitorViews, Workspaces, Current;
      AllListed();
      ghost var was := monitors;
      ghost var lists, workspaces, current := MonitorViews(), Workspaces(), Current();
      monitors := [m] + monitors;
      NewViews(was, lists, m);
      NewWorkspaces(was, workspaces, m);
      NewCurrent(was, current, m);
    }

    lemma AllListed()
      ensures MonitorViews().Keys == Workspaces().Keys == Current().Keys == set m | m in monitors
      ensures forall m <- monitors :: MonitorViews()[m] == m.views
      ensures forall m <- monitors :: Workspaces()[m] == m.workspaces
      ensures forall m <- monitors :: Current()[m] == m.current
    {
    }

    lemma NewViews(was: seq<Monitor>, lists: map<Monitor, seq<View>>, m: Monitor)
      requires monitors == [m] + was && lists.Keys == set x | x in was
      requires forall x <- was :: lists[x] == x.views
      ensures MonitorViews() == lists[m := m.views]
    {
    }

    lemma NewWorkspaces(was: seq<Monitor>, workspaces: map<Monitor, seq<Workspace>>, m: Monitor)
      requires monitors == [m] + was && workspaces.Keys == set x | x in was
      requires forall x <- was :: workspaces[x] == x.workspaces
      ensures Workspaces() == workspaces[m := m.workspaces]
    {
    }

    lemma NewCurrent(was: seq<Monitor>, current: map<Monitor, Workspace>, m: Monitor)
      requires monitors == [m] + was && current.Keys == set x | x in was
      requires forall x <- was :: current[x] == x.current
      ensures Current() == current[m := m.current]
    {
    }

    /** The list part of server_handle_new_output. */
    method AddMonitor() returns (m: Monitor, ghost w: Workspace)
      modifies this`monitors, this`live
      ensures fresh(m) && fresh(w) && monitors == [m] + old(monitors) && live == old(live) + {w}
      ensures m !in old(Current()) && w !in old(Order()) && Abs() == D.AddMonitor(old(Abs()), m, w)
    {
      hide MonitorViews, Workspaces, Order, FocusOrder, MonitorOf, WorkspaceOf, Focused, Enabled, Current;
      CurrentKeys();
      OrderKeys();
      var workspace := Allocate();
      w := workspace;
      m := new Monitor(workspace);
      ListMonitor(m);
    }

    /** A new output, and the tiling that the changed layout asks for. */
    method PlugMonitor() returns (m: Monitor, ghost w: Workspace)
      requires Valid() && D.Inv(Abs())
      modifies this`monitors, this`live, this`active
      ensures fresh(m) && fresh(w) && monitors == [m] + old(monitors) && live == old(live) + {w}
      ensures D.Possible(old(Abs()), D.Plug(m, w))
      ensures Abs() == D.PlugMonitor(old(Abs()), m, w) && Valid() && D.Inv(Abs())
    {
      hide D.Structured, D.Retiled, D.Marked, D.FocusLeads, D.AddMonitor, Owns;
      hide MonitorViews, Workspaces, Order, FocusOrder, MonitorOf, WorkspaceOf, Focused, Enabled, Current;
      ghost var s := Abs();
      m, w := AddMonitor();
      D.AddMonitorKeeps(s, m, w);
      D.PlugKeeps(s, m, w);
      TileAll();
    }
  }
}
