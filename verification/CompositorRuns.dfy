/** Whole runs of the window manager's objects. */
module CompositorRuns {
  import opened Lists
  import opened Objects
  import opened Compositor
  import D = Desktop

  /**
   What clients, the user and the outputs may ask for. Views go by the order of their creation, monitors and workspaces
   by their places in the lists. A request for something that is not there, or not in the state for it, does nothing.
   */
  datatype Request =
    | NewView
    | Map(view: nat, toFront: bool, tiling: bool)
    | Unmap(view: nat)
    | Destroy(view: nat)
    | FocusOn(view: nat)
    | ClickWorkspace(monitor: nat, place: nat)
    | StepWorkspaces(forward: bool)
    | StepViews(forward: bool)
    | SwapToFront
    | PointAt(monitor: nat)
    | PointNowhere
    | NewOutput

  /** The objects as a request sees them. */
  datatype World = World(state: D.State, monitors: seq<Monitor>, created: seq<View>)

  /** The workspace and the monitor that a request may allocate. */
  datatype Memory = Memory(workspace: Workspace, monitor: Monitor)

  ghost function Places(s: D.State, m: Monitor): seq<Workspace> {
    if m in s.workspaces then s.workspaces[m] else []
  }

  /** The event that a request stands for. */
  ghost function Asked(a: World, r: Request, memory: Memory): Option<D.Event> {
    match r
    case NewView => None
    case Map(i, toFront, tiling) =>
      if i < |a.created| then Some(D.Map(a.created[i], toFront, tiling, memory.workspace)) else None
    case Unmap(i) => if i < |a.created| then Some(D.Unmap(a.created[i])) else None
    case Destroy(i) => if i < |a.created| then Some(D.Destroy(a.created[i])) else None
    case FocusOn(i) => if i < |a.created| then Some(D.FocusOn(a.created[i])) else None
    case ClickWorkspace(i, j) =>
      if i < |a.monitors| && j < |Places(a.state, a.monitors[i])|
      then Some(D.ClickWorkspace(a.monitors[i], Places(a.state, a.monitors[i])[j]))
      else None
    case StepWorkspaces(forward) => Some(D.StepWorkspaces(forward))
    case StepViews(forward) => Some(D.StepViews(forward))
    case SwapToFront => Some(D.SwapToFront)
    case PointAt(i) => if i < |a.monitors| then Some(D.Point(Some(a.monitors[i]))) else None
    case PointNowhere => Some(D.Point(None))
    case NewOutput => Some(D.Plug(memory.monitor, memory.workspace))
  }

  /** There is an event, and it can occur. */
  ghost predicate Happens(s: D.State, e: Option<D.Event>) { e.Some? && D.Possible(s, e.value) }

  ghost function Then(s: D.State, e: Option<D.Event>): D.State { if Happens(s, e) then D.Next(s, e.value) else s }

  /** The request r leads from a to b. */
  ghost predicate Answers(a: World, r: Request, memory: Memory, b: World) {
    && b.state == Then(a.state, Asked(a, r, memory))
    && b.monitors == (if r.NewOutput? then [memory.monitor] else []) + a.monitors
    && a.created <= b.created && |b.created| == |a.created| + (if r.NewView? then 1 else 0)
    && (r.NewView? ==> b.created[|a.created|] !in a.created)
  }

  lemma Plain(server: Server)
    ensures server.Abs().views == server.views && server.Abs().current == server.Current()
    ensures server.Abs().workspaces == server.Workspaces()
  {
  }

  lemma InvFocus(s: D.State)
    requires D.Inv(s)
    ensures D.Marked(s) && D.FocusLeads(s)
  {
  }

  lemma Listed(server: Server, m: Monitor)
    requires m in server.monitors
    ensures m in server.Abs().workspaces && server.Abs().workspaces[m] == m.workspaces && m in server.Abs().current
    ensures Places(server.Abs(), m) == m.workspaces
  {
  }

  lemma Clickable(server: Server, m: Monitor, w: Workspace)
    requires m in server.monitors && w in m.workspaces
    ensures D.Possible(server.Abs(), D.ClickWorkspace(m, w))
  {
    Listed(server, m);
  }

  // ---- One request ------------------------------------------------------------------------------------------
  // Each takes the step of its event if that is possible, and otherwise leaves the objects alone.

  method ServeMap(server: Server, v: View, toFront: bool, tiling: bool) returns (ghost w: Workspace)
    requires server.Valid() && D.Inv(server.Abs()) && v in server.known
    modifies server, server.monitors, server.known, server.live
    ensures server.Valid() && D.Inv(server.Abs()) && fresh(server.live - old(server.live))
    ensures server.monitors == old(server.monitors) && server.known == old(server.known)
    ensures server.Abs() == Then(old(server.Abs()), Some(D.Map(v, toFront, tiling, w)))
  {
    hide D.Inv, Server.Abs, Server.Valid, D.MapView, D.UnmapView, D.DestroySurface, D.Focus, D.Switch, D.StepWorkspace;
    hide D.StepView, D.SwapFront, D.MovePointer, D.PlugMonitor, D.NewMemory, D.IsCurrent;
    Plain(server);
    w := server.active.current;
    if v !in server.views {
      w := server.MapView(v, toFront, tiling);
    }
  }

  method ServeUnmap(server: Server, v: View)
    requires server.Valid() && D.Inv(server.Abs()) && v in server.known
    modifies server, server.monitors, server.known, server.live
    ensures server.Valid() && D.Inv(server.Abs()) && server.live <= old(server.live)
    ensures server.monitors == old(server.monitors) && server.known == old(server.known)
    ensures server.Abs() == Then(old(server.Abs()), Some(D.Unmap(v)))
  {
    hide D.Inv, Server.Abs, Server.Valid, D.MapView, D.UnmapView, D.DestroySurface, D.Focus, D.Switch, D.StepWorkspace;
    hide D.StepView, D.SwapFront, D.MovePointer, D.PlugMonitor, D.NewMemory, D.IsCurrent;
    Plain(server);
    if v in server.views {
      server.UnmapView(v);
    }
  }

  method ServeDestroy(server: Server, v: View)
    requires server.Valid() && D.Inv(server.Abs()) && v in server.known
    modifies server, server.monitors, server.known, server.live
    ensures server.Valid() && D.Inv(server.Abs()) && server.live <= old(server.live)
    ensures server.monitors == old(server.monitors) && server.known == old(server.known)
    ensures server.Abs() == Then(old(server.Abs()), Some(D.Destroy(v)))
  {
    hide D.Inv, Server.Abs, Server.Valid, D.MapView, D.UnmapView, D.DestroySurface, D.Focus, D.Switch, D.StepWorkspace;
    hide D.StepView, D.SwapFront, D.MovePointer, D.PlugMonitor, D.NewMemory, D.IsCurrent;
    Plain(server);
    if v !in server.views {
      server.DestroySurface(v);
    }
  }

  method ServeFocus(server: Server, v: View)
    requires server.Valid() && D.Inv(server.Abs()) && v in server.known
    modifies server, server.monitors, server.known, server.live
    ensures server.Valid() && D.Inv(server.Abs()) && server.live <= old(server.live)
    ensures server.monitors == old(server.monitors) && server.known == old(server.known)
    ensures server.Abs() == Then(old(server.Abs()), Some(D.FocusOn(v)))
  {
    hide D.Inv, Server.Abs, Server.Valid, D.MapView, D.UnmapView, D.DestroySurface, D.Focus, D.Switch, D.StepWorkspace;
    hide D.StepView, D.SwapFront, D.MovePointer, D.PlugMonitor, D.NewMemory, D.IsCurrent, D.Marked, D.FocusLeads;
    Plain(server);
    InvFocus(server.Abs());
    if v in server.views {
      server.Focus(v);
    }
  }

  method ServeClick(server: Server, m: Monitor, w: Workspace)
    requires server.Valid() && D.Inv(server.Abs()) && m in server.monitors && w in m.workspaces
    modifies server, server.monitors, server.known, server.live
    ensures server.Valid() && D.Inv(server.Abs()) && server.live <= old(server.live)
    ensures server.monitors == old(server.monitors) && server.known == old(server.known)
    ensures server.Abs() == Then(old(server.Abs()), Some(D.ClickWorkspace(m, w)))
  {
    hide D.Inv, D.Next, D.Possible, Server.Abs, Server.Valid;
    Plain(server);
    Clickable(server, m, w);
    server.ClickWorkspace(m, w);
  }

  method ServeStepWorkspaces(server: Server, forward: bool)
    requires server.Valid() && D.Inv(server.Abs())
    modifies server, server.monitors, server.known, server.live
    ensures server.Valid() && D.Inv(server.Abs()) && server.live <= old(server.live)
    ensures server.monitors == old(server.monitors) && server.known == old(server.known)
    ensures server.Abs() == Then(old(server.Abs()), Some(D.StepWorkspaces(forward)))
  {
    hide D.Inv, Server.Abs, Server.Valid, D.MapView, D.UnmapView, D.DestroySurface, D.Focus, D.Switch, D.StepWorkspace;
    hide D.StepView, D.SwapFront, D.MovePointer, D.PlugMonitor, D.NewMemory, D.IsCurrent;
    Plain(server);
    server.StepWorkspace(forward);
  }

  method ServeStepViews(server: Server, forward: bool)
    requires server.Valid() && D.Inv(server.Abs())
    modifies server, server.monitors, server.known, server.live
    ensures server.Valid() && D.Inv(server.Abs()) && server.live <= old(server.live)
    ensures server.monitors == old(server.monitors) && server.known == old(server.known)
    ensures server.Abs() == Then(old(server.Abs()), Some(D.StepViews(forward)))
  {
    hide D.Inv, Server.Abs, Server.Valid, D.MapView, D.UnmapView, D.DestroySurface, D.Focus, D.Switch, D.StepWorkspace;
    hide D.StepView, D.SwapFront, D.MovePointer, D.PlugMonitor, D.NewMemory, D.IsCurrent;
    Plain(server);
    server.StepView(forward);
  }

  method ServeSwap(server: Server)
    requires server.Valid() && D.Inv(server.Abs())
    modifies server, server.monitors, server.known, server.live
    ensures server.Valid() && D.Inv(server.Abs()) && server.live <= old(server.live)
    ensures server.monitors == old(server.monitors) && server.known == old(server.known)
    ensures server.Abs() == Then(old(server.Abs()), Some(D.SwapToFront))
  {
    hide D.Inv, Server.Abs, Server.Valid, D.MapView, D.UnmapView, D.DestroySurface, D.Focus, D.Switch, D.StepWorkspace;
    hide D.StepView, D.SwapFront, D.MovePointer, D.PlugMonitor, D.NewMemory, D.IsCurrent;
    Plain(server);
    server.SwapFront();
  }

  method ServePoint(server: Server, to: Option<Monitor>)
    requires server.Valid() && D.Inv(server.Abs()) && (to.Some? ==> to.value in server.monitors)
    modifies server, server.monitors, server.known, server.live
    ensures server.Valid() && D.Inv(server.Abs()) && server.live <= old(server.live)
    ensures server.monitors == old(server.monitors) && server.known == old(server.known)
    ensures server.Abs() == Then(old(server.Abs()), Some(D.Point(to)))
  {
    hide D.Inv, Server.Abs, Server.Valid, D.MapView, D.UnmapView, D.DestroySurface, D.Focus, D.Switch, D.StepWorkspace;
    hide D.StepView, D.SwapFront, D.MovePointer, D.PlugMonitor, D.NewMemory, D.IsCurrent;
    Plain(server);
    if to.Some? { Listed(server, to.value); }
    server.MovePointer(to);
  }

  method ServePlug(server: Server) returns (m: Monitor, ghost w: Workspace)
    requires server.Valid() && D.Inv(server.Abs())
    modifies server, server.monitors, server.known, server.live
    ensures server.Valid() && D.Inv(server.Abs()) && fresh(server.live - old(server.live)) && fresh(m)
    ensures server.monitors == [m] + old(server.monitors) && server.known == old(server.known)
    ensures server.Abs() == Then(old(server.Abs()), Some(D.Plug(m, w)))
  {
    hide D.Inv, Server.Abs, Server.Valid, D.MapView, D.UnmapView, D.DestroySurface, D.Focus, D.Switch, D.StepWorkspace;
    hide D.StepView, D.SwapFront, D.MovePointer, D.PlugMonitor, D.NewMemory, D.IsCurrent;
    m, w := server.PlugMonitor();
  }

  ghost function Look(server: Server, created: seq<View>): World
    reads server, server.monitors, server.known, server.live
  {
    World(server.Abs(), server.monitors, created)
  }

  /** The server is consistent and knows the views created so far. */
  ghost predicate Ready(server: Server, created: seq<View>)
    reads server, server.monitors, server.known, server.live
  {
    server.Valid() && D.Inv(server.Abs()) && forall v :: v in created ==> v in server.known
  }

  lemma NothingAsked(s: D.State)
    ensures Then(s, None) == s
  {
  }

  /** A request about a view. */
  method ServeView(server: Server, created: seq<View>, r: Request) returns (ghost memory: Memory)
    requires Ready(server, created) && (r.Map? || r.Unmap? || r.Destroy? || r.FocusOn?)
    modifies server, server.monitors, server.known, server.live
    ensures Ready(server, created) && Answers(old(Look(server, created)), r, memory, Look(server, created))
    ensures fresh(server.live - old(server.live)) && server.known == old(server.known)
    ensures server.monitors == old(server.monitors)
  {
    hide D.Inv, Then, Server.Abs, Server.Valid;
    memory := Memory(server.active.current, server.active);
    if r.view >= |created| {
      NothingAsked(server.Abs());
      return;
    }
    match r
    case Map(i, toFront, tiling) =>
      ghost var w := ServeMap(server, created[i], toFront, tiling);
      memory := Memory(w, server.active);
    case Unmap(i) => ServeUnmap(server, created[i]);
    case Destroy(i) => ServeDestroy(server, created[i]);
    case FocusOn(i) => ServeFocus(server, created[i]);
  }

  /** A request about a place on the screen. */
  method ServePlace(server: Server, ghost created: seq<View>, r: Request, ghost memory: Memory)
    requires Ready(server, created) && (r.ClickWorkspace? || r.PointAt? || r.PointNowhere?)
    modifies server, server.monitors, server.known, server.live
    ensures Ready(server, created) && Answers(old(Look(server, created)), r, memory, Look(server, created))
    ensures server.live <= old(server.live) && server.known == old(server.known)
    ensures server.monitors == old(server.monitors)
  {
    hide D.Inv, Then, Server.Abs, Server.Valid, Places;
    NothingAsked(server.Abs());
    match r
    case ClickWorkspace(i, j) =>
      if i < |server.monitors| {
        Listed(server, server.monitors[i]);
        if j < |server.monitors[i].workspaces| {
          ServeClick(server, server.monitors[i], server.monitors[i].workspaces[j]);
        }
      }
    case PointAt(i) => if i < |server.monitors| { ServePoint(server, Some(server.monitors[i])); }
    case PointNowhere => ServePoint(server, None);
  }

  /** A request for an action. */
  method ServeAction(server: Server, ghost created: seq<View>, r: Request, ghost memory: Memory)
    requires Ready(server, created) && (r.StepWorkspaces? || r.StepViews? || r.SwapToFront?)
    modifies server, server.monitors, server.known, server.live
    ensures Ready(server, created) && Answers(old(Look(server, created)), r, memory, Look(server, created))
    ensures server.live <= old(server.live) && server.known == old(server.known)
    ensures server.monitors == old(server.monitors)
  {
    hide D.Inv, Then, Server.Abs, Server.Valid;
    match r
    case StepWorkspaces(forward) => ServeStepWorkspaces(server, forward);
    case StepViews(forward) => ServeStepViews(server, forward);
    case SwapToFront => ServeSwap(server);
  }

  method ServeNewView(server: Server, created: seq<View>, ghost memory: Memory) returns (after: seq<View>)
    requires Ready(server, created)
    modifies server, server.monitors, server.known, server.live
    ensures Ready(server, after) && Answers(old(Look(server, created)), NewView, memory, Look(server, after))
    ensures server.live <= old(server.live) && fresh(server.known - old(server.known))
    ensures server.monitors == old(server.monitors)
  {
    hide D.Inv, Then, Server.Abs, Server.Valid;
    NothingAsked(server.Abs());
    var v := server.CreateView();
    after := created + [v];
  }

  method ServeNewOutput(server: Server, ghost created: seq<View>) returns (ghost memory: Memory)
    requires Ready(server, created)
    modifies server, server.monitors, server.known, server.live
    ensures Ready(server, created) && Answers(old(Look(server, created)), NewOutput, memory, Look(server, created))
    ensures fresh(server.live - old(server.live)) && server.known == old(server.known)
    ensures forall m <- server.monitors :: m in old(server.monitors) || fresh(m)
  {
    hide D.Inv, Then, Server.Abs, Server.Valid;
    var m; ghost var w;
    m, w := ServePlug(server);
    memory := Memory(w, m);
  }

  /** One request on the objects. */
  method Serve(server: Server, created: seq<View>, r: Request) returns (after: seq<View>, ghost memory: Memory)
    requires Ready(server, created)
    modifies server, server.monitors, server.known, server.live
    ensures Ready(server, after) && Answers(old(Look(server, created)), r, memory, Look(server, after))
    ensures fresh(server.live - old(server.live)) && fresh(server.known - old(server.known))
    ensures forall m <- server.monitors :: m in old(server.monitors) || fresh(m)
  {
    hide Ready, Answers, Server.Abs, Look;
    after := created;
    memory := Memory(server.active.current, server.active);
    match r
    case NewView => after := ServeNewView(server, created, memory);
    case Map(_, _, _) => memory := ServeView(server, created, r);
    case Unmap(_) => memory := ServeView(server, created, r);
    case Destroy(_) => memory := ServeView(server, created, r);
    case FocusOn(_) => memory := ServeView(server, created, r);
    case ClickWorkspace(_, _) => ServePlace(server, created, r, memory);
    case PointAt(_) => ServePlace(server, created, r, memory);
    case PointNowhere => ServePlace(server, created, r, memory);
    case NewOutput => memory := ServeNewOutput(server, created);
    case _ => ServeAction(server, created, r, memory);
  }

  // ---- Many requests ----------------------------------------------------------------------------------------

  /** The requests lead from each world to the next one. */
  ghost predicate Answered(worlds: seq<World>, requests: seq<Request>, news: seq<Memory>) {
    && |worlds| == |requests| + 1 && |news| == |requests|
    && forall i :: 0 <= i < |requests| ==> Answers(worlds[i], requests[i], news[i], worlds[i + 1])
  }

  /** The events of the first n requests, without those that do nothing. */
  ghost function Events(worlds: seq<World>, requests: seq<Request>, news: seq<Memory>, n: nat): seq<D.Event>
    requires Answered(worlds, requests, news) && n <= |requests|
  {
    if n == 0 then [] else
      var e := Asked(worlds[n - 1], requests[n - 1], news[n - 1]);
      Events(worlds, requests, news, n - 1) + if Happens(worlds[n - 1].state, e) then [e.value] else []
  }

  /** The states that those events lead through. */
  ghost function States(worlds: seq<World>, requests: seq<Request>, news: seq<Memory>, n: nat): seq<D.State>
    requires Answered(worlds, requests, news) && n <= |requests|
  {
    if n == 0 then [worlds[0].state] else
      var e := Asked(worlds[n - 1], requests[n - 1], news[n - 1]);
      States(worlds, requests, news, n - 1) + if Happens(worlds[n - 1].state, e) then [worlds[n].state] else []
  }

  /** Serving requests goes through a run of the window manager. */
  lemma {:induction false} AnsweredIsRun(worlds: seq<World>, requests: seq<Request>, news: seq<Memory>, n: nat)
    requires Answered(worlds, requests, news) && n <= |requests|
    ensures D.IsRun(States(worlds, requests, news, n), Events(worlds, requests, news, n))
    ensures States(worlds, requests, news, n)[0] == worlds[0].state
    ensures States(worlds, requests, news, n)[|Events(worlds, requests, news, n)|] == worlds[n].state
  {
    hide Asked, D.Possible, D.Next;
    if n > 0 {
      AnsweredIsRun(worlds, requests, news, n - 1);
      assert Answers(worlds[n - 1], requests[n - 1], news[n - 1], worlds[n]);
    }
  }

  /** So everything that holds of runs holds of what the objects go through. */
  lemma AnsweredKeeps(worlds: seq<World>, requests: seq<Request>, news: seq<Memory>, n: nat)
    requires Answered(worlds, requests, news) && D.Inv(worlds[0].state) && n <= |requests|
    ensures D.Inv(worlds[n].state)
  {
    hide D.Inv, D.IsRun, Answered;
    AnsweredIsRun(worlds, requests, news, n);
    var states, events := States(worlds, requests, news, n), Events(worlds, requests, news, n);
    D.RunKeeps(states, events, |events|);
  }

  lemma AnsweredSnoc(
    worlds: seq<World>, requests: seq<Request>, news: seq<Memory>, r: Request, memory: Memory, b: World)
    requires Answered(worlds, requests, news) && Answers(worlds[|requests|], r, memory, b)
    ensures Answered(worlds + [b], requests + [r], news + [memory])
  {
  }

  lemma AnsweredNone(a: World)
    ensures Answered([a], [], [])
  {
  }

  method Start() returns (server: Server)
    ensures fresh(server) && fresh(server.live) && fresh(server.known) && forall m <- server.monitors :: fresh(m)
    ensures Ready(server, []) && server.views == [] && |server.monitors| == 1
  {
    hide D.Inv, Server.Valid, Server.Abs;
    server := new Server();
  }

  /** Any sequence of requests to a server that has just started. */
  method Run(requests: seq<Request>)
    returns (server: Server, created: seq<View>, ghost worlds: seq<World>, ghost news: seq<Memory>)
    ensures Ready(server, created) && Answered(worlds, requests, news) && |worlds| == |requests| + 1
    ensures worlds[0].state.views == [] && |worlds[0].monitors| == 1 && worlds[0].created == []
    ensures D.Inv(worlds[0].state)
    ensures worlds[|requests|] == Look(server, created)
  {
    hide D.Inv, Server.Valid, Answers, Server.Abs, Answered;
    server := Start();
    created := [];
    worlds, news := [Look(server, created)], [];
    Plain(server);
    AnsweredNone(Look(server, created));
    for i := 0 to |requests|
      invariant fresh(server) && fresh(server.live) && fresh(server.known) && forall m <- server.monitors :: fresh(m)
      invariant Ready(server, created) && Answered(worlds, requests[..i], news)
      invariant |worlds| == i + 1 && worlds[i] == Look(server, created)
      invariant worlds[0].state.views == [] && D.Inv(worlds[0].state) && |worlds[0].monitors| == 1
      invariant worlds[0].created == []
    {
      ghost var memory;
      assert fresh(set m | m in server.monitors);
      created, memory := Serve(server, created, requests[i]);
      assert requests[..i + 1] == requests[..i] + [requests[i]];
      AnsweredSnoc(worlds, requests[..i], news, requests[i], memory, Look(server, created));
      worlds, news := worlds + [Look(server, created)], news + [memory];
    }
    assert requests[..|requests|] == requests;
  }
}
