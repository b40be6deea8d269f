/** The window-management objects that the compositor links into lists. */
module Objects {
  import opened Lists

  class View {
    var monitor: Monitor?
    var workspace: Workspace?
    var enabled: bool    // the scene node's switch
    var focused: bool
    constructor ()
      ensures monitor == null && workspace == null && !enabled && !focused
    {
      monitor, workspace, enabled, focused := null, null, false, false;
    }
  }

  class Workspace {
    var viewsOrder: seq<View>
    var viewsFocus: seq<View>
    constructor ()
      ensures viewsOrder == [] && viewsFocus == []
    {
      viewsOrder, viewsFocus := [], [];
    }
  }

  class Monitor {
    var views: seq<View>
    var workspaces: seq<Workspace>
    var current: Workspace
    constructor (first: Workspace)
      ensures views == [] && workspaces == [first] && current == first
    {
      views, workspaces, current := [], [first], first;
    }
  }
}

/**
 The window-management state (src/ptychite/monitor.c, view.c, server.c, action.c) as a value, and its steps as
 functions on it. The classes in Compositor.dfy are proved to take exactly these steps.
 */
module Desktop {
  import opened Lists
  import opened Objects

  datatype State = State(
    views: seq<View>,                    // server->views, top first
    active: Monitor,                     // server->active_monitor
    pointer: Option<Monitor>,            // the monitor under the cursor
    focus: Option<View>,                 // the view whose surface has keyboard focus
    monitorViews: map<Monitor, seq<View>>,
    workspaces: map<Monitor, seq<Workspace>>,
    current: map<Monitor, Workspace>,
    order: map<Workspace, seq<View>>,    // views_order of the workspaces that are not freed
    focusOrder: map<Workspace, seq<View>>,
    monitorOf: map<View, Monitor>,       // view->monitor, set at the first map
    workspaceOf: map<View, Workspace>,
    enabled: set<View>,
    focused: set<View>
  )

  // ---- Reading the state --------------------------------------------------------------------------------

  function Get<K>(lists: map<K, seq<View>>, k: K): seq<View> { if k in lists then lists[k] else [] }

  function Last<T>(s: seq<T>): T
    requires s != []
  {
    s[|s| - 1]
  }

  function First(list: seq<View>): Option<View> { if list == [] then None else Some(list[0]) }

  ghost predicate IsCurrent(s: State, m: Monitor, w: Workspace) { m in s.current && s.current[m] == w }

  ghost predicate LivesOn(s: State, v: View, w: Workspace) { v in s.workspaceOf && s.workspaceOf[v] == w }

  /** ptychite_server_get_top_view, with an active monitor */
  ghost function TopView(s: State): Option<View> {
    if s.active in s.current then First(Get(s.focusOrder, s.current[s.active])) else None
  }

  /** ptychite_server_get_front_view */
  ghost function FrontView(s: State): Option<View> {
    if s.active in s.current then First(Get(s.order, s.current[s.active])) else None
  }

  /** ptychite_server_get_focused_view */
  ghost function FocusedView(s: State): Option<View> {
    if s.focus.Some? && TopView(s) == s.focus then s.focus else None
  }

  /** The view that is first in the focus list of w already has the keyboard. */
  ghost predicate FrontFocused(s: State, w: Workspace) {
    s.focus.Some? && First(Get(s.focusOrder, w)) == s.focus
  }

  // ---- The parts of focusing and of switching -----------------------------------------------------------

  /** ptychite_server_check_cursor, as far as it moves the active monitor */
  ghost function CheckCursor(s: State): State {
    if s.pointer.Some? then s.(active := s.pointer.value) else s
  }

  /** The marks after ptychite_surface_unfocus on the focused surface. */
  ghost function Unmarked(s: State): set<View> {
    if s.focus.Some? then s.focused - {s.focus.value} else s.focused
  }

  ghost function ClearFocus(s: State): State { s.(focus := None, focused := Unmarked(s)) }

  /** ptychite_view_focus up to the keyboard enter */
  ghost function Raise(s: State, v: View): State {
    s.(views := ToFront(s.views, v),
       focusOrder := if v in s.workspaceOf then
                       s.focusOrder[s.workspaceOf[v] := ToFront(Get(s.focusOrder, s.workspaceOf[v]), v)]
                     else s.focusOrder,
       focus := Some(v), focused := Unmarked(s) + {v})
  }

  ghost function ViewSet(list: seq<View>): set<View> { set v | v in list }

  /** ptychite_monitor_switch_workspace up to the clean-up */
  ghost function Show(s: State, m: Monitor, w: Workspace): State {
    var hidden := if m in s.current then s.enabled - ViewSet(Get(s.order, s.current[m])) else s.enabled;
    s.(current := s.current[m := w], enabled := hidden + ViewSet(Get(s.order, w)))
  }

  /** The workspaces that ptychite_monitor_fix_workspaces keeps among those before the last one. */
  ghost function Kept(ws: seq<Workspace>, current: Workspace, order: map<Workspace, seq<View>>): seq<Workspace> {
    if ws == [] then []
    else if ws[0] == current || Get(order, ws[0]) != [] then [ws[0]] + Kept(ws[1..], current, order)
    else Kept(ws[1..], current, order)
  }

  /** The list after the clean-up: the last workspace always stays. */
  ghost function Fixed(ws: seq<Workspace>, current: Workspace, order: map<Workspace, seq<View>>): seq<Workspace> {
    if ws == [] then [] else Kept(ws[..|ws| - 1], current, order) + [ws[|ws| - 1]]
  }

  ghost function Freed(ws: seq<Workspace>, current: Workspace, order: map<Workspace, seq<View>>): set<Workspace> {
    set w | w in ws && w !in Fixed(ws, current, order)
  }

  /** ptychite_monitor_fix_workspaces */
  ghost function FixWorkspaces(s: State, m: Monitor): State {
    if m in s.workspaces && m in s.current then
      var ws, freed := s.workspaces[m], Freed(s.workspaces[m], s.current[m], s.order);
      s.(workspaces := s.workspaces[m := Fixed(ws, s.current[m], s.order)],
         order := s.order - freed, focusOrder := s.focusOrder - freed)
    else s
  }

  ghost function Tidy(s: State, m: Monitor, w: Workspace): State { FixWorkspaces(Show(s, m, w), m) }

  lemma {:induction false} KeptHas(ws: seq<Workspace>, current: Workspace, order: map<Workspace, seq<View>>, w: Workspace)
    ensures w in Kept(ws, current, order) <==> w in ws && (w == current || Get(order, w) != [])
  {
    if ws != [] { KeptHas(ws[1..], current, order, w); }
  }

  lemma FixedHas(ws: seq<Workspace>, current: Workspace, order: map<Workspace, seq<View>>, w: Workspace)
    ensures w in Fixed(ws, current, order) <==>
            w in ws && (w == Last(ws) || w == current || Get(order, w) != [])
  {
    if ws != [] { KeptHas(ws[..|ws| - 1], current, order, w); }
  }

  lemma TidyFrame(s: State, m: Monitor, w: Workspace)
    ensures var r := Tidy(s, m, w);
      && r.views == s.views && r.focus == s.focus && r.focused == s.focused && r.current == s.current[m := w]
      && r.workspaceOf == s.workspaceOf && r.monitorOf == s.monitorOf && r.monitorViews == s.monitorViews
      && r.active == s.active && r.pointer == s.pointer
      && Get(r.focusOrder, w) == Get(s.focusOrder, w) && Get(r.order, w) == Get(s.order, w)
  {
    if m in s.workspaces { FixedHas(s.workspaces[m], w, s.order, w); }
  }

  lemma TidyFront(s: State, m: Monitor, w: Workspace)
    ensures FrontFocused(Tidy(s, m, w), w) == FrontFocused(s, w)
  {
    TidyFrame(s, m, w);
  }

  // ---- Focusing and switching, which call each other ----------------------------------------------------

  /** ptychite_view_focus with the view's own surface */
  ghost function Focus(s: State, v: View): State
    decreases if s.focus == Some(v) then 0 else 2, 0
  {
    if s.focus == Some(v) then s
    else
      var raised := Raise(s, v);
      if v in s.monitorOf && v in s.workspaceOf then
        var m, w := s.monitorOf[v], s.workspaceOf[v];
        (if !IsCurrent(raised, m, w) then Switch(raised, m, w) else raised).(active := m)
      else raised
  }

  /** ptychite_monitor_switch_workspace */
  ghost function Switch(s: State, m: Monitor, w: Workspace): State
    decreases if FrontFocused(s, w) then 1 else 3, 1
  {
    TidyFrame(s, m, w);
    CheckCursor(Refocus(Tidy(s, m, w), w))
  }

  /** The part of ptychite_monitor_switch_workspace that gives the keyboard to the workspace it shows. */
  ghost function Refocus(s: State, w: Workspace): State
    decreases if FrontFocused(s, w) then 1 else 3, 0
  {
    var fv := FocusedView(s);
    var list := Get(s.focusOrder, w);
    if fv.Some? && LivesOn(s, fv.value, w) then s
    else if list == [] then ClearFocus(s)
    else Focus(s, list[0])
  }

  lemma FocusParts(s: State, v: View)
    requires s.focus != Some(v) && v in s.monitorOf && v in s.workspaceOf
    ensures var raised, m, w := Raise(s, v), s.monitorOf[v], s.workspaceOf[v];
      Focus(s, v) == (if !IsCurrent(raised, m, w) then Switch(raised, m, w) else raised).(active := m)
  {
    hide Raise, Switch;
  }

  lemma SwitchParts(s: State, m: Monitor, w: Workspace)
    ensures Switch(s, m, w) == CheckCursor(Refocus(Tidy(s, m, w), w))
  {
    hide Tidy, Refocus, CheckCursor;
  }

  // ---- What focusing does -------------------------------------------------------------------------------

  /** v is at the head of the server's list and of its workspace's focus list, and its workspace is shown. */
  ghost predicate Foremost(s: State, v: View) {
    && First(s.views) == Some(v)
    && v in s.workspaceOf && First(Get(s.focusOrder, s.workspaceOf[v])) == Some(v)
    && v in s.monitorOf && IsCurrent(s, s.monitorOf[v], s.workspaceOf[v])
  }

  /** A switch made to show the focused view moves no focus. */
  lemma RefocusIdle(s: State, w: Workspace)
    requires FrontFocused(s, w) && LivesOn(s, s.focus.value, w)
    ensures Refocus(s, w) == s
  {
  }

  lemma RaiseFacts(s: State, v: View)
    requires v in s.monitorOf && v in s.workspaceOf
    ensures var r, w := Raise(s, v), s.workspaceOf[v];
      && r.focus == Some(v) && First(r.views) == Some(v) && First(Get(r.focusOrder, w)) == Some(v)
      && FrontFocused(r, w) && r.monitorOf == s.monitorOf && r.workspaceOf == s.workspaceOf && r.current == s.current
  {
  }

  /** A view at the head of its lists, with the keyboard, on a shown workspace of the active monitor. */
  lemma ShownLeads(s: State, v: View)
    requires s.focus == Some(v) && First(s.views) == Some(v) && v in s.monitorOf && v in s.workspaceOf
    requires First(Get(s.focusOrder, s.workspaceOf[v])) == Some(v) && IsCurrent(s, s.monitorOf[v], s.workspaceOf[v])
    ensures var r := s.(active := s.monitorOf[v]); Foremost(r, v) && FocusedView(r) == Some(v)
  {
  }

  lemma SwitchBringsForward(s: State, v: View)
    requires v in s.monitorOf && v in s.workspaceOf
    ensures var m, w := s.monitorOf[v], s.workspaceOf[v];
      var r := Switch(Raise(s, v), m, w).(active := m);
      r.focus == Some(v) && Foremost(r, v) && FocusedView(r) == Some(v)
  {
    hide Raise, Tidy, FrontFocused, Refocus, Foremost, FocusedView;
    var m, w := s.monitorOf[v], s.workspaceOf[v];
    var raised := Raise(s, v);
    RaiseFacts(s, v);
    var tidy := Tidy(raised, m, w);
    TidyFrame(raised, m, w);
    TidyFront(raised, m, w);
    RefocusIdle(tidy, w);
    ShownLeads(CheckCursor(tidy), v);
  }

  /** Focusing a view that does not hold the keyboard puts it in front everywhere. */
  lemma FocusBringsForward(s: State, v: View)
    requires v in s.monitorOf && v in s.workspaceOf && s.focus != Some(v)
    ensures var r := Focus(s, v);
      r.focus == Some(v) && Foremost(r, v) && r.active == s.monitorOf[v] && FocusedView(r) == Some(v)
  {
    hide Raise, Foremost, FocusedView, Switch;
    var m, w := s.monitorOf[v], s.workspaceOf[v];
    var raised := Raise(s, v);
    RaiseFacts(s, v);
    if IsCurrent(raised, m, w) {
      ShownLeads(raised, v);
    } else {
      SwitchBringsForward(s, v);
    }
  }

  // ---- The events ---------------------------------------------------------------------------------------

  /** ptychite_monitor_add_workspace; fresh is the new allocation. */
  ghost function AddWorkspace(s: State, m: Monitor, extra: Workspace): State {
    if m in s.workspaces then
      s.(workspaces := s.workspaces[m := s.workspaces[m] + [extra]],
         order := s.order[extra := []], focusOrder := s.focusOrder[extra := []])
    else s
  }

  /** The list insertions of view_handle_map. */
  ghost function Link(s: State, v: View, m: Monitor, w: Workspace, toFront: bool): State {
    var list := Get(s.order, w);
    s.(views := [v] + s.views,
       monitorOf := s.monitorOf[v := m], workspaceOf := s.workspaceOf[v := w],
       monitorViews := s.monitorViews[m := [v] + Get(s.monitorViews, m)],
       order := s.order[w := if toFront then [v] + list else list + [v]],
       focusOrder := s.focusOrder[w := [v] + Get(s.focusOrder, w)])
  }

  /** ptychite_monitor_tile, as far as it concerns this state: a tiled monitor checks the cursor at the end. */
  ghost function Tiled(s: State, m: Monitor): State {
    if m in s.current && Get(s.order, s.current[m]) != [] then CheckCursor(s) else s
  }

  /** The view to be mapped will be on its monitor's last workspace. */
  ghost predicate FillsLast(s: State) {
    && s.active in s.current && s.active in s.workspaces && s.workspaces[s.active] != []
    && s.current[s.active] == Last(s.workspaces[s.active])
  }

  /** If view_handle_map allocates a workspace, it gets new memory. */
  ghost predicate NewMemory(s: State, extra: Workspace) { FillsLast(s) ==> extra !in s.order }

  /** The state after view_handle_map's list changes, with a workspace added after the last one if v is on that. */
  ghost function Spared(s: State, v: View, toFront: bool, extra: Workspace): State {
    if s.active in s.current && s.active in s.workspaces then
      var linked := Link(s, v, s.active, s.current[s.active], toFront);
      if FillsLast(s) then AddWorkspace(linked, s.active, extra) else linked
    else s
  }

  /** The state view_handle_map has built when it gives the new view the keyboard. */
  ghost function Mapped(s: State, v: View, toFront: bool, tiling: bool, extra: Workspace): State {
    if s.active in s.current && s.active in s.workspaces then
      var spare := Spared(s, v, toFront, extra);
      var tiled := if tiling then Tiled(spare, s.active) else spare;
      tiled.(enabled := tiled.enabled + {v})
    else s
  }

  /** view_handle_map with an active monitor */
  ghost function MapView(s: State, v: View, toFront: bool, tiling: bool, extra: Workspace): State {
    Focus(Mapped(s, v, toFront, tiling, extra), v)
  }

  ghost function Drop<K>(lists: map<K, seq<View>>, k: K, v: View): map<K, seq<View>> {
    if k in lists then lists[k := Without(lists[k], v)] else lists
  }

  /** The list removals of view_handle_unmap. */
  ghost function Unlink(s: State, v: View): State {
    if v in s.monitorOf && v in s.workspaceOf then
      s.(views := Without(s.views, v),
         monitorViews := Drop(s.monitorViews, s.monitorOf[v], v),
         order := Drop(s.order, s.workspaceOf[v], v),
         focusOrder := Drop(s.focusOrder, s.workspaceOf[v], v),
         enabled := s.enabled - {v})
    else s
  }

  /** If v held the keyboard, the most recently focused view of m's current workspace takes it. */
  ghost function HandOver(s: State, v: View, m: Monitor): State {
    if v in s.focused && m in s.current && Get(s.order, s.current[m]) != [] && Get(s.focusOrder, s.current[m]) != [] then
      Focus(s, Get(s.focusOrder, s.current[m])[0])
    else s
  }

  /** view_handle_unmap */
  ghost function UnmapView(s: State, v: View): State {
    if v in s.monitorOf then HandOver(Tiled(Unlink(s, v), s.monitorOf[v]), v, s.monitorOf[v]) else s
  }

  /** wlroots drops the keyboard focus of a surface that is destroyed. */
  ghost function DestroySurface(s: State, v: View): State {
    if s.focus == Some(v) then s.(focus := None, focused := s.focused - {v}) else s
  }

  /** server_action_goto_next_workspace and server_action_goto_previous_workspace */
  ghost function StepWorkspace(s: State, forward: bool): State {
    var m := s.active;
    if m in s.workspaces && m in s.current && s.current[m] in s.workspaces[m] then
      var ws, w := s.workspaces[m], s.current[m];
      Switch(s, m, if forward then After(ws, w) else Before(ws, w))
    else s
  }

  /** ptychite_server_focus_any */
  ghost function FocusAny(s: State): State {
    var top := TopView(s);
    if top.Some? then Focus(s, top.value) else s
  }

  /** server_action_focus_next_view and server_action_focus_previous_view */
  ghost function StepView(s: State, forward: bool): State {
    var holder := FocusedView(s);
    if holder.None? then FocusAny(s)
    else if holder.value in s.workspaceOf && holder.value in Get(s.order, s.workspaceOf[holder.value]) then
      var list := s.order[s.workspaceOf[holder.value]];
      Focus(s, if forward then After(list, holder.value) else Before(list, holder.value))
    else s
  }

  /** The view that server_action_swap_front moves to the front, if any. */
  ghost function NewFront(s: State): Option<View> {
    var v := FocusedView(s);
    if v.None? then None
    else if FrontView(s) != v then v
    else
      var list := Get(s.order, s.current[s.active]);
      if |list| == 1 then None else Some(list[1])
  }

  ghost function MovedToFront(s: State, v: View): State {
    if v in s.workspaceOf && v in s.monitorOf then
      var w := s.workspaceOf[v];
      Tiled(s.(order := s.order[w := ToFront(Get(s.order, w), v)]), s.monitorOf[v])
    else s
  }

  /** server_action_swap_front */
  ghost function SwapFront(s: State): State {
    var v := NewFront(s);
    if v.Some? then MovedToFront(s, v.value) else s
  }

  /** The cursor moves to another monitor, or off all of them. */
  ghost function MovePointer(s: State, to: Option<Monitor>): State { CheckCursor(s.(pointer := to)) }

  /** The list part of server_handle_new_output while another monitor is active. */
  ghost function AddMonitor(s: State, m: Monitor, w: Workspace): State {
    s.(monitorViews := s.monitorViews[m := []], workspaces := s.workspaces[m := [w]], current := s.current[m := w],
       order := s.order[w := []], focusOrder := s.focusOrder[w := []])
  }

  /** Some monitor shows a view. */
  ghost predicate SomeShown(s: State) { exists m :: m in s.current && Get(s.order, s.current[m]) != [] }

  /** server_update_monitors: every monitor is tiled, and one that shows a view checks the cursor. */
  ghost function Retiled(s: State): State { if SomeShown(s) then CheckCursor(s) else s }

  /** A new output, which also changes the layout. */
  ghost function PlugMonitor(s: State, m: Monitor, w: Workspace): State { Retiled(AddMonitor(s, m, w)) }

  datatype Event =
    | Map(view: View, toFront: bool, tiling: bool, workspace: Workspace)
    | Unmap(view: View)
    | Destroy(view: View)
    | FocusOn(view: View)                      // title bar, click, switcher
    | ClickWorkspace(monitor: Monitor, workspace: Workspace)
    | StepWorkspaces(forward: bool)
    | StepViews(forward: bool)
    | SwapToFront
    | Point(to: Option<Monitor>)
    | Plug(monitor: Monitor, workspace: Workspace)

  /** When the event can occur at all: what it refers to exists, and an allocation returns new memory. */
  ghost predicate Possible(s: State, e: Event) {
    match e
    case Map(v, _, _, w) => v !in s.views && NewMemory(s, w)
    case Unmap(v) => v in s.views
    case Destroy(v) => v !in s.views
    case FocusOn(v) => v in s.views
    case ClickWorkspace(m, w) => m in s.workspaces && w in s.workspaces[m]
    case Point(to) => to.Some? ==> to.value in s.current
    case Plug(m, w) => m !in s.current && w !in s.order
    case _ => true
  }

  ghost function Next(s: State, e: Event): State {
    match e
    case Map(v, toFront, tiling, w) => MapView(s, v, toFront, tiling, w)
    case Unmap(v) => UnmapView(s, v)
    case Destroy(v) => DestroySurface(s, v)
    case FocusOn(v) => Focus(s, v)
    case ClickWorkspace(m, w) => if IsCurrent(s, m, w) then s else Switch(s, m, w)
    case StepWorkspaces(forward) => StepWorkspace(s, forward)
    case StepViews(forward) => StepView(s, forward)
    case SwapToFront => SwapFront(s)
    case Point(to) => MovePointer(s, to)
    case Plug(m, w) => PlugMonitor(s, m, w)
  }

  // ---- The invariant ------------------------------------------------------------------------------------

  /** Each list holds exactly the views whose key it is, each once. */
  ghost predicate Partition<K>(lists: map<K, seq<View>>, views: seq<View>, keyOf: map<View, K>) {
    && (forall k :: k in lists ==> Distinct(lists[k]))
    && (forall k, v :: k in lists && v in lists[k] ==> v in views && v in keyOf && keyOf[v] == k)
    && (forall v :: v in views ==> v in keyOf && keyOf[v] in lists && v in lists[keyOf[v]])
  }

  /** Monitors own disjoint workspace lists, each with its current workspace. */
  ghost predicate WorkspacesOk(workspaces: map<Monitor, seq<Workspace>>, current: map<Monitor, Workspace>) {
    && workspaces.Keys == current.Keys
    && (forall m :: m in workspaces ==> Distinct(workspaces[m]) && current[m] in workspaces[m])
    && (forall m, n, w :: m in workspaces && n in workspaces && w in workspaces[m] && w in workspaces[n] ==> m == n)
  }

  /** The workspaces on the lists are allocated, and no others; the last one of each monitor is empty. */
  ghost predicate Allocated(workspaces: map<Monitor, seq<Workspace>>, order: map<Workspace, seq<View>>) {
    && (forall m, w :: m in workspaces && w in workspaces[m] ==> w in order)
    && (forall w :: w in order ==> exists m :: m in workspaces && w in workspaces[m])
  }

  ghost predicate SpareLast(workspaces: map<Monitor, seq<Workspace>>, order: map<Workspace, seq<View>>) {
    forall m :: m in workspaces ==> workspaces[m] != [] && Get(order, Last(workspaces[m])) == []
  }

  /** A mapped view's workspace is on its monitor's list. */
  ghost predicate Placed(views: seq<View>, monitorOf: map<View, Monitor>, workspaceOf: map<View, Workspace>,
                         workspaces: map<Monitor, seq<Workspace>>) {
    forall v :: v in views ==>
      && v in monitorOf && v in workspaceOf && monitorOf[v] in workspaces
      && workspaceOf[v] in workspaces[monitorOf[v]]
  }

  /** A mapped view is enabled exactly if its workspace is the current one of its monitor. */
  ghost predicate Visible(enabled: set<View>, views: seq<View>, current: map<Monitor, Workspace>,
                          monitorOf: map<View, Monitor>, workspaceOf: map<View, Workspace>) {
    && (forall v :: v in enabled ==> v in views && v in monitorOf && v in workspaceOf && monitorOf[v] in current
                                     && current[monitorOf[v]] == workspaceOf[v])
    && (forall v | v in views && v in monitorOf && v in workspaceOf && monitorOf[v] in current
                   && current[monitorOf[v]] == workspaceOf[v] :: v in enabled)
  }

  ghost predicate Domains(s: State) {
    && s.active in s.current
    && (s.pointer.Some? ==> s.pointer.value in s.current)
    && s.monitorViews.Keys == s.current.Keys
    && s.order.Keys == s.focusOrder.Keys
  }

  ghost predicate Structured(s: State) {
    && Domains(s)
    && WorkspacesOk(s.workspaces, s.current)
    && Allocated(s.workspaces, s.order)
    && SpareLast(s.workspaces, s.order)
    && Distinct(s.views)
    && Placed(s.views, s.monitorOf, s.workspaceOf, s.workspaces)
    && Partition(s.monitorViews, s.views, s.monitorOf)
    && Partition(s.order, s.views, s.workspaceOf)
    && Partition(s.focusOrder, s.views, s.workspaceOf)
    && Visible(s.enabled, s.views, s.current, s.monitorOf, s.workspaceOf)
  }

  /** Exactly the view with the keyboard is marked as focused. */
  ghost predicate Marked(s: State) {
    s.focused == if s.focus.Some? then {s.focus.value} else {}
  }

  /** A mapped view with the keyboard is at the head of its lists, on a workspace that is shown. */
  ghost predicate FocusLeads(s: State) {
    s.focus.Some? && s.focus.value in s.views ==> Foremost(s, s.focus.value)
  }

  ghost predicate Inv(s: State) { Structured(s) && Marked(s) && FocusLeads(s) }

  /** Every workspace of m other than the current and the last one has a view. */
  ghost predicate Trim(s: State, m: Monitor) {
    forall w :: m in s.workspaces && w in s.workspaces[m] ==>
      IsCurrent(s, m, w) || w == Last(s.workspaces[m]) || Get(s.order, w) != []
  }

  // ---- Lists, one at a time -----------------------------------------------------------------------------

  lemma PartitionReordered<K>(lists: map<K, seq<View>>, views: seq<View>, keyOf: map<View, K>, k: K, list: seq<View>)
    requires Partition(lists, views, keyOf) && k in lists && Distinct(list) && SameElements(list, lists[k])
    ensures Partition(lists[k := list], views, keyOf)
  {
  }

  lemma PartitionOfSame<K>(lists: map<K, seq<View>>, views: seq<View>, views': seq<View>, keyOf: map<View, K>)
    requires Partition(lists, views, keyOf) && SameElements(views', views)
    ensures Partition(lists, views', keyOf)
  {
  }

  lemma PartitionWithout<K>(lists: map<K, seq<View>>, views: seq<View>, keyOf: map<View, K>, ks: set<K>)
    requires Partition(lists, views, keyOf) && forall k :: k in ks && k in lists ==> lists[k] == []
    ensures Partition(lists - ks, views, keyOf)
  {
  }

  lemma PartitionGains<K>(lists: map<K, seq<View>>, views: seq<View>, keyOf: map<View, K>, k: K, v: View, list: seq<View>)
    requires Partition(lists, views, keyOf) && v !in views && k in lists
    requires list == [v] + lists[k] || list == lists[k] + [v]
    ensures Partition(lists[k := list], [v] + views, keyOf[v := k])
  {
  }

  lemma PartitionGainsKey<K>(lists: map<K, seq<View>>, views: seq<View>, keyOf: map<View, K>, k: K)
    requires Partition(lists, views, keyOf) && k !in lists
    ensures Partition(lists[k := []], views, keyOf)
  {
  }

  lemma PartitionLoses<K>(lists: map<K, seq<View>>, views: seq<View>, keyOf: map<View, K>, v: View)
    requires Partition(lists, views, keyOf) && Distinct(views) && v in views
    ensures Partition(Drop(lists, keyOf[v], v), Without(views, v), keyOf)
  {
    WithoutFacts(views, v);
    WithoutFacts(lists[keyOf[v]], v);
  }

  lemma EmptyTogether(order: map<Workspace, seq<View>>, focusOrder: map<Workspace, seq<View>>, views: seq<View>,
                      workspaceOf: map<View, Workspace>, w: Workspace)
    requires Partition(order, views, workspaceOf) && Partition(focusOrder, views, workspaceOf)
    ensures Get(order, w) == [] <==> Get(focusOrder, w) == []
  {
    if Get(order, w) != [] {
      var v := order[w][0];
      assert v in order[w];
      assert v in focusOrder[workspaceOf[v]];
    }
    if Get(focusOrder, w) != [] {
      var v := focusOrder[w][0];
      assert v in focusOrder[w];
      assert v in order[workspaceOf[v]];
    }
  }

  // ---- Every primitive step keeps the structure ---------------------------------------------------------

  lemma VisibleReordered(enabled: set<View>, views: seq<View>, views': seq<View>, current: map<Monitor, Workspace>,
                         monitorOf: map<View, Monitor>, workspaceOf: map<View, Workspace>)
    requires Visible(enabled, views, current, monitorOf, workspaceOf) && SameElements(views', views)
    ensures Visible(enabled, views', current, monitorOf, workspaceOf)
  {
  }

  lemma PlacedReordered(views: seq<View>, views': seq<View>, monitorOf: map<View, Monitor>,
                        workspaceOf: map<View, Workspace>, workspaces: map<Monitor, seq<Workspace>>)
    requires Placed(views, monitorOf, workspaceOf, workspaces) && SameElements(views', views)
    ensures Placed(views', monitorOf, workspaceOf, workspaces)
  {
  }

  lemma InList<K>(lists: map<K, seq<View>>, views: seq<View>, keyOf: map<View, K>, v: View)
    requires Partition(lists, views, keyOf) && v in views
    ensures v in keyOf && keyOf[v] in lists && v in lists[keyOf[v]] && Distinct(lists[keyOf[v]])
  {
  }

  lemma FromList<K>(lists: map<K, seq<View>>, views: seq<View>, keyOf: map<View, K>, k: K, v: View)
    requires Partition(lists, views, keyOf) && v in Get(lists, k)
    ensures v in views && v in keyOf && keyOf[v] == k
  {
  }

  /** The lists of a workspace hold each view once. */
  lemma ListDistinct(s: State, w: Workspace)
    requires Inv(s) && w in s.order
    ensures Distinct(s.order[w]) && w in s.focusOrder && Distinct(s.focusOrder[w])
  {
    hide SpareLast, Placed, Visible, Allocated, WorkspacesOk, FocusLeads, Marked;
  }

  lemma RaiseKeeps(s: State, v: View)
    requires Structured(s) && v in s.views
    ensures Structured(Raise(s, v))
  {
    hide Partition, Placed, Visible, WorkspacesOk, Allocated, SpareLast, Distinct, SameElements;
    InList(s.focusOrder, s.views, s.workspaceOf, v);
    var w, views := s.workspaceOf[v], ToFront(s.views, v);
    var list := ToFront(s.focusOrder[w], v);
    ToFrontFacts(s.views, v);
    ToFrontFacts(s.focusOrder[w], v);
    PartitionReordered(s.focusOrder, s.views, s.workspaceOf, w, list);
    PartitionOfSame(s.focusOrder[w := list], s.views, views, s.workspaceOf);
    PartitionOfSame(s.order, s.views, views, s.workspaceOf);
    PartitionOfSame(s.monitorViews, s.views, views, s.monitorOf);
    VisibleReordered(s.enabled, s.views, views, s.current, s.monitorOf, s.workspaceOf);
    PlacedReordered(s.views, views, s.monitorOf, s.workspaceOf, s.workspaces);
  }

  lemma ShowKeepsVisible(enabled: set<View>, views: seq<View>, current: map<Monitor, Workspace>,
                         monitorOf: map<View, Monitor>, workspaceOf: map<View, Workspace>,
                         workspaces: map<Monitor, seq<Workspace>>, order: map<Workspace, seq<View>>,
                         m: Monitor, w: Workspace)
    requires Visible(enabled, views, current, monitorOf, workspaceOf) && WorkspacesOk(workspaces, current)
    requires Placed(views, monitorOf, workspaceOf, workspaces) && Partition(order, views, workspaceOf)
    requires m in current && w in workspaces[m]
    ensures Visible(enabled - ViewSet(Get(order, current[m])) + ViewSet(Get(order, w)), views, current[m := w],
                    monitorOf, workspaceOf)
  {
    var enabled', current' := enabled - ViewSet(Get(order, current[m])) + ViewSet(Get(order, w)), current[m := w];
    forall v | v in views && monitorOf[v] in current' && current'[monitorOf[v]] == workspaceOf[v]
      ensures v in enabled'
    {
      if monitorOf[v] != m {
        assert workspaceOf[v] in workspaces[monitorOf[v]] && current[m] in workspaces[m];
        assert v !in Get(order, current[m]);
      }
    }
    forall v | v in enabled'
      ensures v in views && v in monitorOf && v in workspaceOf && monitorOf[v] in current'
              && current'[monitorOf[v]] == workspaceOf[v]
    {
      if v in Get(order, w) {
        assert workspaceOf[v] in workspaces[monitorOf[v]];
      } else {
        assert v in enabled && v !in Get(order, current[m]);
        assert v in order[workspaceOf[v]];
      }
    }
  }

  lemma ShowKeepsWorkspaces(workspaces: map<Monitor, seq<Workspace>>, current: map<Monitor, Workspace>, m: Monitor,
                            w: Workspace)
    requires WorkspacesOk(workspaces, current) && m in workspaces && w in workspaces[m]
    ensures WorkspacesOk(workspaces, current[m := w]) && m in current
  {
  }

  lemma ShowKeeps(s: State, m: Monitor, w: Workspace)
    requires Structured(s) && m in s.workspaces && w in s.workspaces[m]
    ensures Structured(Show(s, m, w))
  {
    hide Partition, Placed, Visible, Allocated, SpareLast, Distinct;
    ShowKeepsWorkspaces(s.workspaces, s.current, m, w);
    hide WorkspacesOk;
    ShowKeepsVisible(s.enabled, s.views, s.current, s.monitorOf, s.workspaceOf, s.workspaces, s.order, m, w);
  }

  lemma {:induction false} KeptDistinct(ws: seq<Workspace>, current: Workspace, order: map<Workspace, seq<View>>)
    requires Distinct(ws)
    ensures Distinct(Kept(ws, current, order))
  {
    if ws != [] {
      KeptDistinct(ws[1..], current, order);
      KeptHas(ws[1..], current, order, ws[0]);
      assert ws[0] !in ws[1..];
    }
  }

  lemma FixedDistinct(ws: seq<Workspace>, current: Workspace, order: map<Workspace, seq<View>>)
    requires Distinct(ws) && ws != []
    ensures Distinct(Fixed(ws, current, order)) && Last(Fixed(ws, current, order)) == Last(ws)
  {
    KeptDistinct(ws[..|ws| - 1], current, order);
    KeptHas(ws[..|ws| - 1], current, order, Last(ws));
    assert Last(ws) !in ws[..|ws| - 1];
  }

  /** kept is ws without the freed workspaces, still distinct and with the same last one. */
  ghost predicate Shortened(ws: seq<Workspace>, kept: seq<Workspace>, freed: set<Workspace>) {
    && Distinct(kept) && ws != [] && kept != [] && Last(kept) == Last(ws)
    && (forall w :: w in kept ==> w in ws && w !in freed)
    && (forall w :: w in ws && w !in freed ==> w in kept)
    && (forall w :: w in freed ==> w in ws)
  }

  lemma FixShortens(ws: seq<Workspace>, current: Workspace, order: map<Workspace, seq<View>>)
    requires Distinct(ws) && current in ws
    ensures Shortened(ws, Fixed(ws, current, order), Freed(ws, current, order))
    ensures current in Fixed(ws, current, order)
    ensures forall w :: w in Freed(ws, current, order) ==> Get(order, w) == []
  {
    FixedDistinct(ws, current, order);
    FixedHas(ws, current, order, current);
    forall w | w in Fixed(ws, current, order) ensures w in ws { FixedHas(ws, current, order, w); }
    forall w | w in Freed(ws, current, order) ensures Get(order, w) == [] { FixedHas(ws, current, order, w); }
  }

  lemma ShorteningKeepsWorkspaces(workspaces: map<Monitor, seq<Workspace>>, current: map<Monitor, Workspace>,
                                  m: Monitor, kept: seq<Workspace>, freed: set<Workspace>)
    requires WorkspacesOk(workspaces, current) && m in workspaces && Shortened(workspaces[m], kept, freed)
    requires current[m] in kept
    ensures WorkspacesOk(workspaces[m := kept], current)
  {
  }

  lemma ShorteningKeepsAllocated(workspaces: map<Monitor, seq<Workspace>>, current: map<Monitor, Workspace>,
                                 order: map<Workspace, seq<View>>,
                                 m: Monitor, kept: seq<Workspace>, freed: set<Workspace>)
    requires WorkspacesOk(workspaces, current) && Allocated(workspaces, order)
    requires m in workspaces && Shortened(workspaces[m], kept, freed)
    ensures Allocated(workspaces[m := kept], order - freed)
  {
    var workspaces' := workspaces[m := kept];
    forall w | w in order - freed ensures exists n :: n in workspaces' && w in workspaces'[n] {
      var n: Monitor :| n in workspaces && w in workspaces[n];
      assert n in workspaces' && w in workspaces'[n];
    }
  }

  lemma ShorteningKeepsSpare(workspaces: map<Monitor, seq<Workspace>>, order: map<Workspace, seq<View>>,
                             m: Monitor, kept: seq<Workspace>, freed: set<Workspace>)
    requires SpareLast(workspaces, order) && m in workspaces && Shortened(workspaces[m], kept, freed)
    ensures SpareLast(workspaces[m := kept], order - freed)
  {
  }

  lemma ShorteningKeepsPlaces(views: seq<View>, monitorOf: map<View, Monitor>, workspaceOf: map<View, Workspace>,
                              workspaces: map<Monitor, seq<Workspace>>, order: map<Workspace, seq<View>>,
                              m: Monitor, kept: seq<Workspace>, freed: set<Workspace>)
    requires Placed(views, monitorOf, workspaceOf, workspaces) && Partition(order, views, workspaceOf)
    requires m in workspaces && Shortened(workspaces[m], kept, freed)
    requires forall w :: w in freed ==> Get(order, w) == []
    ensures Placed(views, monitorOf, workspaceOf, workspaces[m := kept])
  {
  }

  lemma FixKeeps(s: State, m: Monitor)
    requires Structured(s) && m in s.current
    ensures Structured(FixWorkspaces(s, m)) && Trim(FixWorkspaces(s, m), m)
  {
    hide Partition, Placed, Visible, Allocated, SpareLast, Distinct, Shortened, Fixed, Freed;
    var ws, current := s.workspaces[m], s.current[m];
    var kept, freed := Fixed(ws, current, s.order), Freed(ws, current, s.order);
    FixShortens(ws, current, s.order);
    forall w | w in freed ensures Get(s.focusOrder, w) == [] {
      EmptyTogether(s.order, s.focusOrder, s.views, s.workspaceOf, w);
    }
    PartitionWithout(s.order, s.views, s.workspaceOf, freed);
    PartitionWithout(s.focusOrder, s.views, s.workspaceOf, freed);
    ShorteningKeepsWorkspaces(s.workspaces, s.current, m, kept, freed);
    ShorteningKeepsAllocated(s.workspaces, s.current, s.order, m, kept, freed);
    ShorteningKeepsSpare(s.workspaces, s.order, m, kept, freed);
    ShorteningKeepsPlaces(s.views, s.monitorOf, s.workspaceOf, s.workspaces, s.order, m, kept, freed);
    FixTrims(s, m);
  }

  lemma FixTrims(s: State, m: Monitor)
    requires m in s.current && m in s.workspaces && s.workspaces[m] != [] && Distinct(s.workspaces[m])
    ensures Trim(FixWorkspaces(s, m), m)
  {
    var ws, current := s.workspaces[m], s.current[m];
    FixedDistinct(ws, current, s.order);
    forall w | w in Fixed(ws, current, s.order) && w != Last(ws) && w != current
      ensures Get(s.order, w) != [] && w !in Freed(ws, current, s.order)
    {
      FixedHas(ws, current, s.order, w);
    }
  }

  lemma TidyKeeps(s: State, m: Monitor, w: Workspace)
    requires Structured(s) && m in s.workspaces && w in s.workspaces[m]
    ensures Structured(Tidy(s, m, w)) && Trim(Tidy(s, m, w), m)
  {
    hide Structured, Trim, FixWorkspaces;
    ShowKeeps(s, m, w);
    FixKeeps(Show(s, m, w), m);
  }

  // ---- Focusing and switching keep the invariant --------------------------------------------------------

  /** As FocusLeads, except that the view may be hidden if it is on monitor m. */
  ghost predicate LeadsBut(s: State, m: Monitor) {
    s.focus.Some? && s.focus.value in s.views ==>
      var v := s.focus.value;
      && First(s.views) == Some(v)
      && v in s.workspaceOf && FrontFocused(s, s.workspaceOf[v])
      && v in s.monitorOf && (s.monitorOf[v] == m || IsCurrent(s, s.monitorOf[v], s.workspaceOf[v]))
  }

  lemma InvLeadsBut(s: State, m: Monitor)
    requires Inv(s)
    ensures LeadsBut(s, m)
  {
  }

  /** A mapped view on a workspace of m is on m. */
  lemma OnMonitor(s: State, v: View, m: Monitor, w: Workspace)
    requires Structured(s) && v in s.views && LivesOn(s, v, w) && m in s.workspaces && w in s.workspaces[m]
    ensures v in s.monitorOf && s.monitorOf[v] == m
  {
  }

  lemma RaiseMarks(s: State, v: View)
    requires Marked(s)
    ensures Marked(Raise(s, v))
  {
  }

  /** Focusing a view of a workspace that is already shown. */
  lemma FocusInPlace(s: State, v: View)
    requires Structured(s) && Marked(s) && v in s.views
    requires v in s.monitorOf && v in s.workspaceOf && IsCurrent(s, s.monitorOf[v], s.workspaceOf[v])
    requires s.focus == Some(v) ==> FocusLeads(s)
    ensures var r := Focus(s, v);
      Inv(r) && r.order == s.order && r.workspaces == s.workspaces && r.current == s.current
      && r.workspaceOf == s.workspaceOf && r.monitorOf == s.monitorOf
  {
    hide Partition, Placed, Visible, Allocated, SpareLast, Distinct, WorkspacesOk;
    if s.focus != Some(v) {
      FocusBringsForward(s, v);
      RaiseKeeps(s, v);
      RaiseMarks(s, v);
    }
  }

  lemma RefocusKeeps(s: State, m: Monitor, w: Workspace)
    requires Structured(s) && Marked(s) && LeadsBut(s, m) && IsCurrent(s, m, w)
    ensures var r := Refocus(s, w);
      Inv(r) && r.order == s.order && r.workspaces == s.workspaces && r.current == s.current
      && r.workspaceOf == s.workspaceOf && r.monitorOf == s.monitorOf
  {
    hide Partition, Placed, Visible, Allocated, SpareLast, Distinct, Focus, Foremost;
    var fv, list := FocusedView(s), Get(s.focusOrder, w);
    if fv.Some? && LivesOn(s, fv.value, w) {
      FocusedIsMapped(s);
      LeaderShown(s, m, w);
    } else if list != [] {
      FromList(s.focusOrder, s.views, s.workspaceOf, w, list[0]);
      OnMonitor(s, list[0], m, w);
      if s.focus == Some(list[0]) { LeaderShown(s, m, w); }
      FocusInPlace(s, list[0]);
    }
  }

  lemma LeaderShown(s: State, m: Monitor, w: Workspace)
    requires Structured(s) && LeadsBut(s, m) && IsCurrent(s, m, w)
    requires s.focus.Some? && s.focus.value in s.views && LivesOn(s, s.focus.value, w)
    ensures FocusLeads(s)
  {
    hide Partition, Placed, Visible, Allocated, SpareLast, Distinct;
    OnMonitor(s, s.focus.value, m, w);
  }

  lemma FocusedIsMapped(s: State)
    requires Structured(s) && FocusedView(s).Some?
    ensures s.focus.value in s.views && s.active in s.current && LivesOn(s, s.focus.value, s.current[s.active])
  {
    hide Placed, Visible, Allocated, SpareLast, Distinct, WorkspacesOk, Partition;
    FromList(s.focusOrder, s.views, s.workspaceOf, s.current[s.active], s.focus.value);
  }

  lemma TidyLeads(s: State, m: Monitor, w: Workspace)
    requires Structured(s) && m in s.workspaces && w in s.workspaces[m] && LeadsBut(s, m)
    ensures LeadsBut(Tidy(s, m, w), m)
  {
    hide Placed, Visible, Allocated, SpareLast, Distinct, WorkspacesOk, Partition;
    if s.focus.Some? && s.focus.value in s.views {
      var v := s.focus.value;
      InList(s.order, s.views, s.workspaceOf, v);
      if m in s.workspaces { FixedHas(s.workspaces[m], w, s.order, s.workspaceOf[v]); }
    }
  }

  lemma CheckCursorKeeps(s: State)
    ensures Structured(s) ==> Structured(CheckCursor(s))
    ensures Inv(s) ==> Inv(CheckCursor(s))
  {
    hide Partition, Placed, Visible, Allocated, SpareLast, Distinct, WorkspacesOk;
  }

  lemma SwitchKeeps(s: State, m: Monitor, w: Workspace)
    requires Structured(s) && Marked(s) && LeadsBut(s, m) && m in s.workspaces && w in s.workspaces[m]
    ensures var r := Switch(s, m, w);
      Inv(r) && Trim(r, m) && r.current == s.current[m := w]
      && r.workspaceOf == s.workspaceOf && r.monitorOf == s.monitorOf
  {
    hide Partition, Placed, Visible, Allocated, SpareLast, Distinct, WorkspacesOk, Tidy, Refocus, LeadsBut, Foremost;
    TidyKeeps(s, m, w);
    TidyFrame(s, m, w);
    TidyLeads(s, m, w);
    RefocusKeeps(Tidy(s, m, w), m, w);
    CheckCursorKeeps(Refocus(Tidy(s, m, w), w));
    assert Trim(Refocus(Tidy(s, m, w), w), m);
  }

  lemma FocusKeeps(s: State, v: View)
    requires Structured(s) && Marked(s) && v in s.views && (s.focus == Some(v) ==> FocusLeads(s))
    ensures Inv(Focus(s, v)) && Focus(s, v).workspaceOf == s.workspaceOf && Focus(s, v).monitorOf == s.monitorOf
  {
    hide Partition, Visible, Allocated, SpareLast, Distinct, WorkspacesOk, Switch;
    if s.focus != Some(v) {
      var m, w := s.monitorOf[v], s.workspaceOf[v];
      if IsCurrent(s, m, w) {
        FocusInPlace(s, v);
      } else {
        RaiseKeeps(s, v);
        RaiseMarks(s, v);
        SwitchKeeps(Raise(s, v), m, w);
        FocusBringsForward(s, v);
      }
    }
  }

  // ---- Every event keeps the invariant ------------------------------------------------------------------

  lemma VisibleGains(enabled: set<View>, views: seq<View>, current: map<Monitor, Workspace>,
                     monitorOf: map<View, Monitor>, workspaceOf: map<View, Workspace>, v: View, m: Monitor)
    requires Visible(enabled, views, current, monitorOf, workspaceOf) && v !in views && m in current
    ensures Visible(enabled + {v}, [v] + views, current, monitorOf[v := m], workspaceOf[v := current[m]])
  {
  }

  lemma PlacedGains(views: seq<View>, monitorOf: map<View, Monitor>, workspaceOf: map<View, Workspace>,
                    workspaces: map<Monitor, seq<Workspace>>, v: View, m: Monitor, w: Workspace)
    requires Placed(views, monitorOf, workspaceOf, workspaces) && v !in views && m in workspaces && w in workspaces[m]
    ensures Placed([v] + views, monitorOf[v := m], workspaceOf[v := w], workspaces)
  {
  }

  /** Filling a workspace that is not the last one of its monitor. */
  lemma FillKeepsSpare(workspaces: map<Monitor, seq<Workspace>>, current: map<Monitor, Workspace>,
                       order: map<Workspace, seq<View>>, m: Monitor, w: Workspace, list: seq<View>)
    requires WorkspacesOk(workspaces, current) && SpareLast(workspaces, order)
    requires m in workspaces && w in workspaces[m] && w != Last(workspaces[m])
    ensures SpareLast(workspaces, order[w := list])
  {
    forall n | n in workspaces ensures Last(workspaces[n]) != w {
      assert Last(workspaces[n]) in workspaces[n];
    }
  }

  lemma OtherLasts(workspaces: map<Monitor, seq<Workspace>>, current: map<Monitor, Workspace>,
                   order: map<Workspace, seq<View>>, m: Monitor, w: Workspace, extra: Workspace, n: Monitor)
    requires WorkspacesOk(workspaces, current) && Allocated(workspaces, order) && SpareLast(workspaces, order)
    requires m in workspaces && w in workspaces[m] && extra !in order && n in workspaces && n != m
    ensures workspaces[n] != [] && Last(workspaces[n]) != w && Last(workspaces[n]) != extra
  {
    assert Last(workspaces[n]) in workspaces[n];
  }

  lemma AddKeepsSpare(workspaces: map<Monitor, seq<Workspace>>, current: map<Monitor, Workspace>,
                      order: map<Workspace, seq<View>>, m: Monitor, w: Workspace, list: seq<View>, extra: Workspace)
    requires WorkspacesOk(workspaces, current) && Allocated(workspaces, order) && SpareLast(workspaces, order)
    requires m in workspaces && w in workspaces[m] && extra !in order
    ensures SpareLast(workspaces[m := workspaces[m] + [extra]], order[w := list][extra := []])
  {
    hide WorkspacesOk, Allocated;
    var workspaces', order' := workspaces[m := workspaces[m] + [extra]], order[w := list][extra := []];
    forall n | n in workspaces' ensures workspaces'[n] != [] && Get(order', Last(workspaces'[n])) == [] {
      if n != m { OtherLasts(workspaces, current, order, m, w, extra, n); }
    }
  }

  lemma ExtraIsNew(workspaces: map<Monitor, seq<Workspace>>, order: map<Workspace, seq<View>>, extra: Workspace)
    requires Allocated(workspaces, order) && extra !in order
    ensures forall m :: m in workspaces ==> extra !in workspaces[m]
  {
  }

  lemma AddKeepsWorkspaces(workspaces: map<Monitor, seq<Workspace>>, current: map<Monitor, Workspace>,
                           order: map<Workspace, seq<View>>, m: Monitor, extra: Workspace)
    requires WorkspacesOk(workspaces, current) && Allocated(workspaces, order) && m in workspaces && extra !in order
    ensures WorkspacesOk(workspaces[m := workspaces[m] + [extra]], current)
  {
    ExtraIsNew(workspaces, order, extra);
  }

  lemma AddKeepsAllocated(workspaces: map<Monitor, seq<Workspace>>, order: map<Workspace, seq<View>>,
                          m: Monitor, extra: Workspace)
    requires Allocated(workspaces, order) && m in workspaces
    ensures Allocated(workspaces[m := workspaces[m] + [extra]], order[extra := []])
  {
    var workspaces', order' := workspaces[m := workspaces[m] + [extra]], order[extra := []];
    assert extra in workspaces'[m];
    forall w | w in order' ensures exists n :: n in workspaces' && w in workspaces'[n] {
      if w == extra {
        assert m in workspaces' && w in workspaces'[m];
      } else {
        var n: Monitor :| n in workspaces && w in workspaces[n];
        assert n in workspaces' && w in workspaces'[n];
      }
    }
  }

  lemma AddKeepsPlaces(views: seq<View>, monitorOf: map<View, Monitor>, workspaceOf: map<View, Workspace>,
                       workspaces: map<Monitor, seq<Workspace>>, m: Monitor, extra: Workspace)
    requires Placed(views, monitorOf, workspaceOf, workspaces) && m in workspaces
    ensures Placed(views, monitorOf, workspaceOf, workspaces[m := workspaces[m] + [extra]])
  {
  }

  /** The structure but for the empty last workspace, once the new view is enabled. */
  ghost predicate Linked(s: State, v: View) {
    && Domains(s) && WorkspacesOk(s.workspaces, s.current) && Allocated(s.workspaces, s.order) && Distinct(s.views)
    && Placed(s.views, s.monitorOf, s.workspaceOf, s.workspaces)
    && Partition(s.monitorViews, s.views, s.monitorOf)
    && Partition(s.order, s.views, s.workspaceOf) && Partition(s.focusOrder, s.views, s.workspaceOf)
    && Visible(s.enabled + {v}, s.views, s.current, s.monitorOf, s.workspaceOf)
  }

  lemma LinkKeepsLists(s: State, v: View, m: Monitor, w: Workspace, toFront: bool)
    requires Structured(s) && v !in s.views && m in s.workspaces && IsCurrent(s, m, w)
    ensures var r := Link(s, v, m, w, toFront);
            && Partition(r.monitorViews, r.views, r.monitorOf)
            && Partition(r.order, r.views, r.workspaceOf) && Partition(r.focusOrder, r.views, r.workspaceOf)
  {
    hide Partition, SpareLast, Placed, Visible, Allocated;
    var list := Get(s.order, w);
    var list' := if toFront then [v] + list else list + [v];
    CurrentAllocated(s, m, w);
    PartitionGains(s.monitorViews, s.views, s.monitorOf, m, v, [v] + s.monitorViews[m]);
    PartitionGains(s.order, s.views, s.workspaceOf, w, v, list');
    PartitionGains(s.focusOrder, s.views, s.workspaceOf, w, v, [v] + s.focusOrder[w]);
  }

  lemma LinkKeepsDomains(s: State, v: View, m: Monitor, w: Workspace, toFront: bool)
    requires Domains(s) && m in s.current && w in s.order && w in s.focusOrder
    ensures Domains(Link(s, v, m, w, toFront)) && Get(s.order, w) == s.order[w]
  {
  }

  lemma LinkKeepsRest(s: State, v: View, m: Monitor, w: Workspace, toFront: bool)
    requires Structured(s) && v !in s.views && m in s.workspaces && IsCurrent(s, m, w)
    ensures var r := Link(s, v, m, w, toFront);
            && Domains(r) && WorkspacesOk(r.workspaces, r.current) && Allocated(r.workspaces, r.order)
            && Distinct(r.views) && Placed(r.views, r.monitorOf, r.workspaceOf, r.workspaces)
            && Visible(r.enabled + {v}, r.views, r.current, r.monitorOf, r.workspaceOf)
  {
    hide Partition, SpareLast, Placed, Visible, Allocated, WorkspacesOk, Domains;
    var list := Get(s.order, w);
    var list' := if toFront then [v] + list else list + [v];
    CurrentAllocated(s, m, w);
    LinkKeepsDomains(s, v, m, w, toFront);
    VisibleGains(s.enabled, s.views, s.current, s.monitorOf, s.workspaceOf, v, m);
    PlacedGains(s.views, s.monitorOf, s.workspaceOf, s.workspaces, v, m, w);
    SameKeysAllocated(s.workspaces, s.order, s.order[w := list']);
  }

  lemma LinkKeeps(s: State, v: View, m: Monitor, w: Workspace, toFront: bool)
    requires Structured(s) && v !in s.views && m in s.workspaces && IsCurrent(s, m, w)
    ensures Linked(Link(s, v, m, w, toFront), v)
  {
    hide Partition, SpareLast, Placed, Visible, Allocated, WorkspacesOk, Domains, Link, Structured;
    LinkKeepsLists(s, v, m, w, toFront);
    LinkKeepsRest(s, v, m, w, toFront);
  }

  lemma CurrentAllocated(s: State, m: Monitor, w: Workspace)
    requires Structured(s) && m in s.workspaces && IsCurrent(s, m, w)
    ensures w in s.workspaces[m] && w in s.order && w in s.focusOrder
  {
  }

  lemma ActiveListed(s: State)
    requires Structured(s)
    ensures s.active in s.workspaces && s.active in s.current
  {
  }

  lemma LinkFills(s: State, v: View, m: Monitor, w: Workspace, toFront: bool)
    ensures FillsLast(Link(s, v, m, w, toFront)) == FillsLast(s)
    ensures Link(s, v, m, w, toFront).active == s.active
  {
  }

  lemma ExtraNotCurrent(s: State, extra: Workspace)
    requires Structured(s) && NewMemory(s, extra)
    ensures s.active in s.current && (FillsLast(s) ==> extra != s.current[s.active])
  {
    hide Partition, Placed, Visible, SpareLast, Distinct;
    ListAllocated(s, s.active);
  }

  lemma LinkLeads(s: State, v: View, m: Monitor, w: Workspace, toFront: bool)
    requires IsCurrent(s, m, w)
    ensures var r := Link(s, v, m, w, toFront);
      && r.views == [v] + s.views && r.focus == s.focus && r.focused == s.focused && LivesOn(r, v, w) && Foremost(r, v)
  {
  }

  lemma AddLeads(s: State, m: Monitor, extra: Workspace, v: View)
    requires Foremost(s, v) && extra != s.workspaceOf[v]
    ensures var r := AddWorkspace(s, m, extra);
      r.views == s.views && r.focus == s.focus && r.focused == s.focused && Foremost(r, v)
  {
  }

  lemma TiledLeads(s: State, m: Monitor, v: View)
    requires Foremost(s, v)
    ensures var r := Tiled(s, m);
      r.views == s.views && r.focus == s.focus && r.focused == s.focused && Foremost(r, v)
  {
  }

  lemma MappedLeads(s: State, v: View, toFront: bool, tiling: bool, extra: Workspace)
    requires s.active in s.workspaces && s.active in s.current && (FillsLast(s) ==> extra != s.current[s.active])
    ensures var r := Mapped(s, v, toFront, tiling, extra);
      r.views == [v] + s.views && r.focus == s.focus && r.focused == s.focused && Foremost(r, v)
  {
    var m, w := s.active, s.current[s.active];
    var linked := Link(s, v, m, w, toFront);
    LinkLeads(s, v, m, w, toFront);
    var spare := if FillsLast(s) then AddWorkspace(linked, m, extra) else linked;
    hide Link;
    if FillsLast(s) { AddLeads(linked, m, extra, v); }
    hide AddWorkspace, FillsLast;
    TiledLeads(spare, m, v);
    hide Tiled;
  }

  lemma MappedKeeps(s: State, v: View, toFront: bool, tiling: bool, extra: Workspace)
    requires Structured(s) && v !in s.views && NewMemory(s, extra)
    ensures var r := Mapped(s, v, toFront, tiling, extra);
      && Structured(r) && v in r.views && r.focus == s.focus && r.focused == s.focused && Foremost(r, v)
  {
    hide Partition, SpareLast, Placed, Visible, Allocated, Distinct, Structured, WorkspacesOk, Foremost;
    ActiveListed(s);
    CurrentAllocated(s, s.active, s.current[s.active]);
    LinkKeeps(s, v, s.active, s.current[s.active], toFront);
    SpareKeeps(s, v, toFront, extra);
    MappedLeads(s, v, toFront, tiling, extra);
    MappedStructured(s, v, toFront, tiling, extra);
  }

  lemma MappedStructured(s: State, v: View, toFront: bool, tiling: bool, extra: Workspace)
    requires s.active in s.workspaces && s.active in s.current
    requires var m, w := s.active, s.current[s.active];
      var linked := Link(s, v, m, w, toFront);
      var r := if FillsLast(s) then AddWorkspace(linked, m, extra) else linked;
      Linked(r, v) && SpareLast(r.workspaces, r.order)
    ensures Structured(Mapped(s, v, toFront, tiling, extra))
  {
    hide Partition, SpareLast, Placed, Visible, Allocated, Distinct, WorkspacesOk;
  }

  lemma SpareKeeps(s: State, v: View, toFront: bool, extra: Workspace)
    requires Structured(s) && v !in s.views && NewMemory(s, extra)
    requires s.active in s.workspaces && Linked(Link(s, v, s.active, s.current[s.active], toFront), v)
    ensures var m, w := s.active, s.current[s.active];
      var linked := Link(s, v, m, w, toFront);
      var r := if FillsLast(s) then AddWorkspace(linked, m, extra) else linked;
      Linked(r, v) && SpareLast(r.workspaces, r.order)
  {
    hide Partition, SpareLast, Placed, Visible, Allocated, WorkspacesOk, Distinct;
    var m, w := s.active, s.current[s.active];
    var linked := Link(s, v, m, w, toFront);
    CurrentAllocated(s, m, w);
    if FillsLast(s) {
      AddKeepsSpare(s.workspaces, s.current, s.order, m, w, linked.order[w], extra);
      AddKeepsWorkspaces(s.workspaces, s.current, linked.order, m, extra);
      AddKeepsAllocated(s.workspaces, linked.order, m, extra);
      AddKeepsPlaces(linked.views, linked.monitorOf, linked.workspaceOf, s.workspaces, m, extra);
      PartitionGainsKey(linked.order, linked.views, linked.workspaceOf, extra);
      PartitionGainsKey(linked.focusOrder, linked.views, linked.workspaceOf, extra);
    } else {
      NotEmptyList(s, m);
      FillKeepsSpare(s.workspaces, s.current, s.order, m, w, linked.order[w]);
    }
  }

  lemma NotEmptyList(s: State, m: Monitor)
    requires Structured(s) && m in s.workspaces
    ensures s.workspaces[m] != []
  {
  }

  lemma VisibleLoses(enabled: set<View>, views: seq<View>, current: map<Monitor, Workspace>,
                     monitorOf: map<View, Monitor>, workspaceOf: map<View, Workspace>, v: View)
    requires Visible(enabled, views, current, monitorOf, workspaceOf) && Distinct(views)
    ensures Visible(enabled - {v}, Without(views, v), current, monitorOf, workspaceOf)
  {
    WithoutFacts(views, v);
  }

  lemma PlacedLoses(views: seq<View>, monitorOf: map<View, Monitor>, workspaceOf: map<View, Workspace>,
                    workspaces: map<Monitor, seq<Workspace>>, v: View)
    requires Placed(views, monitorOf, workspaceOf, workspaces) && Distinct(views)
    ensures Placed(Without(views, v), monitorOf, workspaceOf, workspaces) && Distinct(Without(views, v))
  {
    WithoutFacts(views, v);
  }

  lemma SameKeysAllocated(workspaces: map<Monitor, seq<Workspace>>, order: map<Workspace, seq<View>>,
                          order': map<Workspace, seq<View>>)
    requires Allocated(workspaces, order) && order'.Keys == order.Keys
    ensures Allocated(workspaces, order')
  {
    assert forall w :: w in order' <==> w in order;
  }

  lemma DropKeepsSpare(workspaces: map<Monitor, seq<Workspace>>, order: map<Workspace, seq<View>>,
                       w: Workspace, v: View)
    requires SpareLast(workspaces, order)
    ensures SpareLast(workspaces, Drop(order, w, v)) && Drop(order, w, v).Keys == order.Keys
  {
  }

  lemma UnlinkKeeps(s: State, v: View)
    requires Structured(s) && v in s.views
    ensures Structured(Unlink(s, v)) && Unlink(s, v).workspaces == s.workspaces
  {
    hide Partition, SpareLast, Placed, Visible, Allocated, Distinct, WorkspacesOk;
    InList(s.order, s.views, s.workspaceOf, v);
    InList(s.monitorViews, s.views, s.monitorOf, v);
    PartitionLoses(s.monitorViews, s.views, s.monitorOf, v);
    PartitionLoses(s.order, s.views, s.workspaceOf, v);
    PartitionLoses(s.focusOrder, s.views, s.workspaceOf, v);
    VisibleLoses(s.enabled, s.views, s.current, s.monitorOf, s.workspaceOf, v);
    PlacedLoses(s.views, s.monitorOf, s.workspaceOf, s.workspaces, v);
    DropKeepsSpare(s.workspaces, s.order, s.workspaceOf[v], v);
    SameKeysAllocated(s.workspaces, s.order, Drop(s.order, s.workspaceOf[v], v));
  }

  lemma UnlinkLeads(s: State, v: View)
    requires Inv(s) && v in s.views
    ensures var r := Unlink(s, v); Marked(r) && FocusLeads(r)
  {
    hide Partition, SpareLast, Placed, Visible, Allocated, WorkspacesOk;
    WithoutFacts(s.views, v);
  }

  lemma HandOverKeeps(s: State, v: View, m: Monitor)
    requires Inv(s) && m in s.workspaces
    ensures Inv(HandOver(s, v, m))
  {
    hide Structured, Marked, FocusLeads, Focus;
    UnmapTarget(s, m);
    if Get(s.focusOrder, s.current[m]) != [] {
      FocusKeeps(s, Get(s.focusOrder, s.current[m])[0]);
    }
  }

  lemma UnmapKeeps(s: State, v: View)
    requires Inv(s) && v in s.views
    ensures Inv(UnmapView(s, v)) && Inv(Tiled(Unlink(s, v), s.monitorOf[v]))
  {
    hide Partition, SpareLast, Placed, Visible, Allocated, Distinct, Unlink, Foremost, HandOver;
    UnlinkKeeps(s, v);
    UnlinkLeads(s, v);
    CheckCursorKeeps(Unlink(s, v));
    InList(s.monitorViews, s.views, s.monitorOf, v);
    HandOverKeeps(Tiled(Unlink(s, v), s.monitorOf[v]), v, s.monitorOf[v]);
  }

  lemma ReorderKeeps(s: State, v: View)
    requires Inv(s) && v in s.views
    ensures v in s.workspaceOf && s.workspaceOf[v] in s.order
    ensures Inv(s.(order := s.order[s.workspaceOf[v] := ToFront(s.order[s.workspaceOf[v]], v)]))
  {
    hide Partition, SpareLast, Placed, Visible, Allocated, WorkspacesOk, Distinct, SameElements;
    InList(s.order, s.views, s.workspaceOf, v);
    var w := s.workspaceOf[v];
    var list := ToFront(s.order[w], v);
    ToFrontFacts(s.order[w], v);
    PartitionReordered(s.order, s.views, s.workspaceOf, w, list);
    SameKeysAllocated(s.workspaces, s.order, s.order[w := list]);
    ReorderKeepsSpare(s.workspaces, s.order, w, list);
  }

  lemma SwapKeeps(s: State)
    requires Inv(s)
    ensures Inv(SwapFront(s)) && SwapFront(s).focusOrder == s.focusOrder
  {
    hide Structured, FocusLeads;
    var v := NewFront(s);
    if v.Some? {
      NewFrontMapped(s);
      ReorderKeeps(s, v.value);
      var w := s.workspaceOf[v.value];
      CheckCursorKeeps(s.(order := s.order[w := ToFront(s.order[w], v.value)]));
    }
  }

  lemma ReorderKeepsSpare(workspaces: map<Monitor, seq<Workspace>>, order: map<Workspace, seq<View>>,
                          w: Workspace, list: seq<View>)
    requires SpareLast(workspaces, order) && Get(order, w) != []
    ensures SpareLast(workspaces, order[w := list])
  {
  }

  lemma NewFrontMapped(s: State)
    requires Structured(s)
    ensures NewFront(s).Some? ==> NewFront(s).value in s.views
  {
    hide SpareLast, Placed, Visible, Allocated, WorkspacesOk, Distinct, Partition;
    if FocusedView(s).Some? {
      FocusedIsMapped(s);
      var list := Get(s.order, s.current[s.active]);
      if |list| > 1 { FromList(s.order, s.views, s.workspaceOf, s.current[s.active], list[1]); }
    }
  }

  lemma StepWorkspaceKeeps(s: State, forward: bool)
    requires Inv(s)
    ensures Inv(StepWorkspace(s, forward)) && Trim(StepWorkspace(s, forward), s.active)
  {
    hide Partition, SpareLast, Placed, Visible, Allocated, Switch, Trim;
    ActiveListed(s);
    var ws, w := s.workspaces[s.active], s.current[s.active];
    BeforeAfter(ws, w);
    SwitchKeeps(s, s.active, if forward then After(ws, w) else Before(ws, w));
  }

  lemma StepViewKeeps(s: State, forward: bool)
    requires Inv(s)
    ensures Inv(StepView(s, forward))
  {
    hide Partition, SpareLast, Placed, Visible, Allocated, Focus, WorkspacesOk, Foremost;
    var focused := FocusedView(s);
    if focused.None? {
      if TopView(s).Some? {
        FromList(s.focusOrder, s.views, s.workspaceOf, s.current[s.active], TopView(s).value);
        FocusKeeps(s, TopView(s).value);
      }
    } else {
      FocusedIsMapped(s);
      InList(s.order, s.views, s.workspaceOf, focused.value);
      var w := s.workspaceOf[focused.value];
      var list := s.order[w];
      BeforeAfter(list, focused.value);
      var next := if forward then After(list, focused.value) else Before(list, focused.value);
      FromList(s.order, s.views, s.workspaceOf, w, next);
      FocusKeeps(s, next);
    }
  }

  lemma MapKeeps(s: State, v: View, toFront: bool, tiling: bool, extra: Workspace)
    requires Inv(s) && v !in s.views && NewMemory(s, extra)
    ensures Inv(MapView(s, v, toFront, tiling, extra))
  {
    hide Structured, Mapped, Focus;
    MappedKeeps(s, v, toFront, tiling, extra);
    FocusKeeps(Mapped(s, v, toFront, tiling, extra), v);
  }

  /** Every event keeps the invariant. */
  lemma NextKeeps(s: State, e: Event)
    requires Inv(s) && Possible(s, e)
    ensures Inv(Next(s, e))
  {
    hide Inv, Focus, Switch, MapView, UnmapView, StepWorkspace, StepView, SwapFront, DestroySurface, MovePointer,
         PlugMonitor;
    match e
    case Map(v, toFront, tiling, w) => MapKeeps(s, v, toFront, tiling, w);
    case Unmap(v) => UnmapKeeps(s, v);
    case Destroy(v) => DestroyKeeps(s, v);
    case FocusOn(v) => FocusFromInv(s, v);
    case ClickWorkspace(m, w) => SwitchFromInv(s, m, w);
    case StepWorkspaces(forward) => StepWorkspaceKeeps(s, forward);
    case StepViews(forward) => StepViewKeeps(s, forward);
    case SwapToFront => SwapKeeps(s);
    case Point(to) => PointKeeps(s, to);
    case Plug(m, w) => PlugKeeps(s, m, w);
  }

  // ---- Tiling every monitor ----------------------------------------------------------------------------

  /** One of these monitors shows a view. */
  ghost predicate ShownAmong(s: State, monitors: seq<Monitor>) {
    exists m <- monitors :: m in s.current && Get(s.order, s.current[m]) != []
  }

  /** The state after tiling these monitors. */
  ghost function TiledAll(s: State, monitors: seq<Monitor>): State {
    if ShownAmong(s, monitors) then CheckCursor(s) else s
  }

  lemma TiledNone(s: State)
    ensures TiledAll(s, []) == s
  {
  }

  lemma TiledNext(s: State, front: seq<Monitor>, m: Monitor)
    ensures Tiled(TiledAll(s, front), m) == TiledAll(s, front + [m])
  {
    ShownNext(s, front, m);
    hide ShownAmong;
  }

  lemma ShownNext(s: State, front: seq<Monitor>, m: Monitor)
    ensures ShownAmong(s, front + [m]) <==> ShownAmong(s, front) || (m in s.current && Get(s.order, s.current[m]) != [])
  {
    assert forall n :: n in front + [m] <==> n in front || n == m;
  }

  lemma TiledEvery(s: State, monitors: seq<Monitor>)
    requires s.current.Keys == set m | m in monitors
    ensures TiledAll(s, monitors) == Retiled(s)
  {
  }

  lemma TiledAllKeeps(s: State, monitors: seq<Monitor>)
    requires Structured(s)
    ensures Structured(TiledAll(s, monitors))
  {
    hide Structured, ShownAmong;
    CheckCursorKeeps(s);
  }

  // ---- A new monitor ------------------------------------------------------------------------------------

  lemma NewMonitorWorkspaces(workspaces: map<Monitor, seq<Workspace>>, current: map<Monitor, Workspace>,
                             order: map<Workspace, seq<View>>, m: Monitor, w: Workspace)
    requires WorkspacesOk(workspaces, current) && Allocated(workspaces, order) && m !in current && w !in order
    ensures WorkspacesOk(workspaces[m := [w]], current[m := w])
  {
    ExtraIsNew(workspaces, order, w);
  }

  lemma NewMonitorAllocated(workspaces: map<Monitor, seq<Workspace>>, order: map<Workspace, seq<View>>, m: Monitor,
                            w: Workspace)
    requires Allocated(workspaces, order) && m !in workspaces
    ensures Allocated(workspaces[m := [w]], order[w := []])
  {
    var workspaces', order' := workspaces[m := [w]], order[w := []];
    forall x | x in order' ensures exists n :: n in workspaces' && x in workspaces'[n] {
      if x == w {
        assert m in workspaces' && w in workspaces'[m];
      } else {
        var n: Monitor :| n in workspaces && x in workspaces[n];
        assert n in workspaces' && x in workspaces'[n];
      }
    }
  }

  lemma NewMonitorSpare(workspaces: map<Monitor, seq<Workspace>>, order: map<Workspace, seq<View>>, m: Monitor,
                        w: Workspace)
    requires SpareLast(workspaces, order)
    ensures SpareLast(workspaces[m := [w]], order[w := []])
  {
  }

  lemma NewMonitorPlaces(views: seq<View>, monitorOf: map<View, Monitor>, workspaceOf: map<View, Workspace>,
                         workspaces: map<Monitor, seq<Workspace>>, m: Monitor, w: Workspace)
    requires Placed(views, monitorOf, workspaceOf, workspaces) && m !in workspaces
    ensures Placed(views, monitorOf, workspaceOf, workspaces[m := [w]])
  {
  }

  lemma NewMonitorVisible(enabled: set<View>, views: seq<View>, current: map<Monitor, Workspace>,
                          monitorOf: map<View, Monitor>, workspaceOf: map<View, Workspace>,
                          workspaces: map<Monitor, seq<Workspace>>, m: Monitor, w: Workspace)
    requires Visible(enabled, views, current, monitorOf, workspaceOf) && m !in current
    requires Placed(views, monitorOf, workspaceOf, workspaces) && workspaces.Keys == current.Keys
    ensures Visible(enabled, views, current[m := w], monitorOf, workspaceOf)
  {
  }

  lemma AddMonitorKeeps(s: State, m: Monitor, w: Workspace)
    requires Structured(s) && m !in s.current && w !in s.order
    ensures Structured(AddMonitor(s, m, w))
  {
    NewMonitorDomains(s, m, w);
    hide Partition, Placed, Visible, Allocated, SpareLast, Domains;
    NewMonitorWorkspaces(s.workspaces, s.current, s.order, m, w);
    NewMonitorAllocated(s.workspaces, s.order, m, w);
    NewMonitorSpare(s.workspaces, s.order, m, w);
    NewMonitorPlaces(s.views, s.monitorOf, s.workspaceOf, s.workspaces, m, w);
    NewMonitorVisible(s.enabled, s.views, s.current, s.monitorOf, s.workspaceOf, s.workspaces, m, w);
    PartitionGainsKey(s.monitorViews, s.views, s.monitorOf, m);
    PartitionGainsKey(s.order, s.views, s.workspaceOf, w);
    PartitionGainsKey(s.focusOrder, s.views, s.workspaceOf, w);
  }

  lemma NewMonitorDomains(s: State, m: Monitor, w: Workspace)
    requires Domains(s)
    ensures Domains(AddMonitor(s, m, w)) && (m !in s.current ==> m !in s.monitorViews)
    ensures w !in s.order ==> w !in s.focusOrder
  {
  }

  lemma AddMonitorLeads(s: State, m: Monitor, w: Workspace)
    requires Structured(s) && FocusLeads(s) && m !in s.current && w !in s.order
    ensures FocusLeads(AddMonitor(s, m, w))
  {
    hide Visible, Allocated, SpareLast, Distinct, WorkspacesOk, Partition;
    if s.focus.Some? && s.focus.value in s.views {
      InList(s.focusOrder, s.views, s.workspaceOf, s.focus.value);
    }
  }

  lemma PlugKeeps(s: State, m: Monitor, w: Workspace)
    requires Inv(s) && m !in s.current && w !in s.order
    ensures Inv(PlugMonitor(s, m, w))
  {
    hide Structured, FocusLeads, SomeShown;
    AddMonitorKeeps(s, m, w);
    AddMonitorLeads(s, m, w);
    CheckCursorKeeps(AddMonitor(s, m, w));
  }

  lemma PointKeeps(s: State, to: Option<Monitor>)
    requires Inv(s) && (to.Some? ==> to.value in s.current)
    ensures Inv(MovePointer(s, to))
  {
    hide Partition, SpareLast, Placed, Visible, Allocated, WorkspacesOk, Distinct;
    CheckCursorKeeps(s.(pointer := to));
  }

  lemma DestroyKeeps(s: State, v: View)
    requires Inv(s)
    ensures Inv(DestroySurface(s, v))
  {
    hide Partition, SpareLast, Placed, Visible, Allocated, WorkspacesOk, Distinct;
  }

  lemma FocusFromInv(s: State, v: View)
    requires Inv(s) && v in s.views
    ensures Inv(Focus(s, v))
  {
    hide Structured, Marked, FocusLeads, Focus;
    FocusKeeps(s, v);
  }

  lemma SwitchFromInv(s: State, m: Monitor, w: Workspace)
    requires Inv(s) && m in s.workspaces && w in s.workspaces[m]
    ensures Inv(Switch(s, m, w)) && Trim(Switch(s, m, w), m)
  {
    hide Structured, Switch, Trim;
    SwitchKeeps(s, m, w);
  }

  // ---- Whole runs ---------------------------------------------------------------------------------------

  ghost predicate IsRun(states: seq<State>, events: seq<Event>) {
    && |states| == |events| + 1
    && forall i :: 0 <= i < |events| ==> Possible(states[i], events[i]) && states[i + 1] == Next(states[i], events[i])
  }

  /** Whatever happens, in whatever order, the lists, the marks and what is shown stay consistent. */
  lemma {:induction false} RunKeeps(states: seq<State>, events: seq<Event>, i: nat)
    requires IsRun(states, events) && Inv(states[0]) && i <= |events|
    ensures Inv(states[i])
  {
    hide Inv, Next, Possible;
    if i > 0 {
      RunKeeps(states, events, i - 1);
      NextKeeps(states[i - 1], events[i - 1]);
    }
  }

  lemma EmptyPartition<K>(k: K)
    ensures Partition(map[k := []], [], map[])
  {
  }

  lemma OneWorkspace(m: Monitor, w: Workspace)
    ensures WorkspacesOk(map[m := [w]], map[m := w]) && SpareLast(map[m := [w]], map[w := []])
  {
  }

  lemma OneAllocated(m: Monitor, w: Workspace)
    ensures Allocated(map[m := [w]], map[w := []])
  {
    var workspaces := map[m := [w]];
    assert m in workspaces && w in workspaces[m];
  }

  lemma NoneShown(m: Monitor, w: Workspace)
    ensures Placed([], map[], map[], map[m := [w]]) && Visible({}, [], map[m := w], map[], map[])
  {
  }

  /** One monitor with one workspace and no view. */
  ghost predicate Started(s: State, m: Monitor, w: Workspace) {
    s == State([], m, None, None, map[m := []], map[m := [w]], map[m := w], map[w := []], map[w := []], map[], map[],
               {}, {})
  }

  lemma InitialInv(s: State, m: Monitor, w: Workspace)
    requires Started(s, m, w)
    ensures Inv(s)
  {
    hide Partition, WorkspacesOk, SpareLast, Allocated, Placed, Visible;
    EmptyPartition(m);
    EmptyPartition(w);
    OneWorkspace(m, w);
    OneAllocated(m, w);
    NoneShown(m, w);
  }

  lemma {:induction false} KeptAppend(ws: seq<Workspace>, x: Workspace, current: Workspace,
                                      order: map<Workspace, seq<View>>)
    ensures Kept(ws + [x], current, order) ==
            Kept(ws, current, order) + (if x == current || Get(order, x) != [] then [x] else [])
  {
    if ws != [] {
      KeptAppend(ws[1..], x, current, order);
      assert (ws + [x])[1..] == ws[1..] + [x];
    }
  }

  lemma ListAllocated(s: State, m: Monitor)
    requires Structured(s) && m in s.workspaces
    ensures forall w :: w in s.workspaces[m] ==> w in s.order && w in s.focusOrder
    ensures m in s.current && s.current[m] in s.workspaces[m] && s.workspaces[m] != [] && Distinct(s.workspaces[m])
  {
    hide Partition, Placed, Visible;
  }

  lemma RaiseLeads(s: State, v: View)
    requires v in s.workspaceOf && v in s.monitorOf
    ensures LeadsBut(Raise(s, v), s.monitorOf[v]) && FrontFocused(Raise(s, v), s.workspaceOf[v])
    ensures Raise(s, v).focus == Some(v) && Raise(s, v).views == ToFront(s.views, v)
  {
  }

  lemma RefocusTarget(s: State, m: Monitor, w: Workspace)
    requires Structured(s) && LeadsBut(s, m) && IsCurrent(s, m, w) && Get(s.focusOrder, w) != []
    ensures var v := Get(s.focusOrder, w)[0]; v in s.views && (s.focus == Some(v) ==> FocusLeads(s))
  {
    hide Partition, Placed, Visible, Allocated, SpareLast, Distinct, LeadsBut, FocusLeads;
    var v := Get(s.focusOrder, w)[0];
    FromList(s.focusOrder, s.views, s.workspaceOf, w, v);
    if s.focus == Some(v) { LeaderShown(s, m, w); }
  }

  lemma TopIsMapped(s: State)
    requires Structured(s) && TopView(s).Some?
    ensures TopView(s).value in s.views
  {
    hide Partition, Placed, Visible, Allocated, SpareLast, Distinct, WorkspacesOk;
    FromList(s.focusOrder, s.views, s.workspaceOf, s.current[s.active], TopView(s).value);
  }

  lemma NeighboursMapped(s: State, v: View)
    requires Structured(s) && v in s.views
    ensures v in s.workspaceOf && s.workspaceOf[v] in s.order && v in s.order[s.workspaceOf[v]]
    ensures var list := s.order[s.workspaceOf[v]]; After(list, v) in s.views && Before(list, v) in s.views
  {
    hide Partition, Placed, Visible, Allocated, SpareLast, Distinct, WorkspacesOk;
    InList(s.order, s.views, s.workspaceOf, v);
    var list := s.order[s.workspaceOf[v]];
    BeforeAfter(list, v);
    FromList(s.order, s.views, s.workspaceOf, s.workspaceOf[v], After(list, v));
    FromList(s.order, s.views, s.workspaceOf, s.workspaceOf[v], Before(list, v));
  }

  /** The view that takes over after an unmap. */
  lemma UnmapTarget(s: State, m: Monitor)
    requires Structured(s) && m in s.workspaces
    ensures m in s.current && (Get(s.order, s.current[m]) == [] <==> Get(s.focusOrder, s.current[m]) == [])
    ensures Get(s.focusOrder, s.current[m]) != [] ==> Get(s.focusOrder, s.current[m])[0] in s.views
  {
    hide Partition, Placed, Visible, Allocated, SpareLast, Distinct;
    var w := s.current[m];
    EmptyTogether(s.order, s.focusOrder, s.views, s.workspaceOf, w);
    if Get(s.focusOrder, w) != [] {
      FromList(s.focusOrder, s.views, s.workspaceOf, w, Get(s.focusOrder, w)[0]);
    }
  }
}
