/** The `wallpaper_render_plugin` copy's runner: the same persistent state and world as the
    `mwinit` copy, one method per arm of its event handler, and its `change_window` and
    `handle_create_window_events` systems. Device events reach the handler's catch-all and
    change nothing, so they have no method. Each method's new state is a function of the old
    one that `WallpaperSpec`, `WindowWorld` and `UpdatePolicy` define and reason about. */
module WallpaperRunner {
  import opened WinitTypes
  import opened UpdatePolicy
  import Registry
  import VideoModes
  import opened WindowWorld
  import WallpaperWindows
  import opened WallpaperSpec

  class WinitRunner {
    // WinitPersistentState
    var active: bool
    var lowPowerEvent: bool
    var redrawRequestSent: bool
    var timeoutReached: bool
    var lastUpdate: nat

    /** The `WinitSettings` resource, read through `update_mode(focused)`. */
    const settings: WinitSettings
    /** The parent handle every window is created under (the result of `get_workerw()`). */
    const workerW: Hwnd
    /** The `WinitWindows` registry. */
    const winitWindows: WallpaperWindows.WinitWindows
    /** The engine's `Windows` resource. */
    var windows: map<WindowId, Window<WindowCommand>>
    /** Every engine event sent, of all kinds, in order. */
    var events: seq<EngineEvent>
    /** Every call made on a native window, in order. */
    var osCalls: seq<OsCall>
    /** The `CreateWindow` events sent so far and the reader's position in them. */
    var createRequests: seq<CreateWindow>
    var createCursor: nat
    /** How many times `app.update()` ran. */
    var updates: nat

    ghost predicate Valid()
      reads this
    {
      createCursor <= |createRequests|
    }

    /** The world as one value. */
    function World(): World
      reads this, winitWindows
    {
      WorldState(winitWindows.State(), windows, events, osCalls)
    }

    /** `update_mode(focused)` with `focused` read from the windows as they are now. */
    function Mode(): UpdateMode
      reads this
    {
      settings.UpdateModeFor(AnyFocused(windows))
    }

    /** The runner as `winit_runner_with` sets it up: the persistent state's defaults, with
        `last_update` at the instant `now`, an empty registry and no windows yet. */
    constructor (settings: WinitSettings, workerW: Hwnd, now: nat)
      ensures Valid()
      ensures active && !lowPowerEvent && !redrawRequestSent && !timeoutReached
      ensures lastUpdate == now
      ensures this.settings == settings && this.workerW == workerW
      ensures fresh(winitWindows) && winitWindows.State() == Registry.Empty
      ensures windows == map[] && events == [] && osCalls == []
      ensures createRequests == [] && createCursor == 0 && updates == 0
    {
      this.settings := settings;
      this.workerW := workerW;
      winitWindows := new WallpaperWindows.WinitWindows();
      active := true;
      lowPowerEvent := false;
      redrawRequestSent := false;
      timeoutReached := false;
      lastUpdate := now;
      windows := map[];
      events := [];
      osCalls := [];
      createRequests := [];
      createCursor := 0;
      updates := 0;
    }

    /** `Event::NewEvents(start)` at instant `now`: reset the per-frame low-power flag and
        record whether a timeout has been reached. */
    method OnNewEvents(start: StartCause, now: nat)
      modifies this`lowPowerEvent, this`timeoutReached
      ensures !lowPowerEvent
      ensures timeoutReached == TimeoutReached(start, Mode(), now, lastUpdate)
    {
      var focused := AnyFocused(windows);
      var autoTimeoutReached := start.ResumeTimeReached?;
      var manualTimeoutReached;
      match settings.UpdateModeFor(focused) {
        case Continuous => manualTimeoutReached := false;
        case Reactive(maxWait) => manualTimeoutReached := DurationSince(now, lastUpdate) >= maxWait;
        case ReactiveLowPower(maxWait) => manualTimeoutReached := DurationSince(now, lastUpdate) >= maxWait;
      }
      lowPowerEvent := false;
      timeoutReached := autoTimeoutReached || manualTimeoutReached;
    }

    /** `Event::WindowEvent`: an event that is not routed changes nothing; a routed one sets
        the low-power flag and applies its arm to the window it was routed to. */
    method OnWindowEvent(winitId: WinitId, event: WindowEvent)
      modifies this`lowPowerEvent, this`windows, this`events
      ensures var route := Route(winitWindows.State(), old(windows), winitId);
              if route.None? then
                lowPowerEvent == old(lowPowerEvent) && windows == old(windows) && events == old(events)
              else
                var d := DispatchWindowEvent(route.value, old(windows)[route.value], event);
                && lowPowerEvent
                && windows == old(windows)[route.value := d.window]
                && events == old(events) + d.emitted
    {
      var windowId;
      match winitWindows.GetWindowId(winitId) {
        case None => return;
        case Some(id) => windowId := id;
      }
      if windowId !in windows {
        return;
      }
      var window := windows[windowId];
      lowPowerEvent := true;
      match event
      case Resized(width, height) =>
        window := window.(physicalWidth := width, physicalHeight := height);
        windows := windows[windowId := window];
        events := events + [WindowResized(windowId, window.physicalWidth, window.physicalHeight)];
      case CloseRequested =>
        events := events + [WindowCloseRequested(windowId)];
      case ScaleFactorChanged(factor) =>
        events := events + [WindowBackendScaleFactorChanged(windowId, factor)];
        windows := windows[windowId := window.(scaleFactor := factor)];
      case Focused(focused) =>
        window := window.(focused := focused);
        windows := windows[windowId := window];
        events := events + [WindowFocused(windowId, focused)];
      case Moved(x, y) =>
        window := window.(position := Some((x, y)));
        windows := windows[windowId := window];
        events := events + [WindowMoved(windowId, x, y)];
      case _ =>
    }

    method OnSuspended()
      modifies this`active
      ensures !active
    {
      active := false;
    }

    method OnResumed()
      modifies this`active
      ensures active
    {
      active := true;
    }

    /** One iteration of `handle_create_window_events`: `create_window` for the request
        (closing the native window it displaces), `windows.add`, and one `WindowCreated`. */
    method CreateFromRequest(req: CreateWindow, obs: Observed)
      modifies this`windows, this`events, this`osCalls, winitWindows
      ensures World() == CreateOne(old(World()), req, WinitIdOfHandle(workerW),
                                   WallpaperWindows.Build(workerW), obs)
    {
      var key := WinitIdOfHandle(workerW);
      var window, displaced := winitWindows.CreateWindow<WindowCommand>(workerW, req, obs);
      if displaced.Some? {
        osCalls := osCalls + [OsDestroy(key)];
      }
      windows := windows[req.id := window];
      events := events + [WindowCreated(req.id)];
    }

    /** `handle_create_window_events`: every unread `CreateWindow` request, in order, goes
        through `create_window` under the parent handle, and the reader ends up past all of
        them. `obs` is what the OS reports about each native window built. */
    method HandleCreateWindowEvents(obs: Observed)
      requires Valid()
      modifies this`windows, this`events, this`osCalls, this`createCursor, winitWindows
      ensures Valid()
      ensures World() == CreateAll(old(World()), old(createRequests[createCursor..]),
                                   WinitIdOfHandle(workerW), WallpaperWindows.Build(workerW), obs)
      ensures createCursor == |createRequests|
    {
      ghost var w0 := World();
      var pending := createRequests[createCursor..];
      var key := WinitIdOfHandle(workerW);
      ghost var done: seq<CreateWindow> := [];
      var k := 0;
      while k < |pending|
        invariant k <= |pending| && done == pending[..k]
        invariant World() == CreateAll(w0, done, key, WallpaperWindows.Build(workerW), obs)
      {
        CreateFromRequest(pending[k], obs);
        CreateAllStep(w0, done, pending[k], key, WallpaperWindows.Build(workerW), obs);
        SliceStep(pending, 0, k);
        done := done + [pending[k]];
        k := k + 1;
      }
      assert pending[..k] == pending;
      createCursor := |createRequests|;
    }

    /** `Event::MainEventsCleared` at instant `now`: create the requested windows first, then
        decide whether to update (reading the focus flag of the windows as they are after
        the creation), and on an update record `now` and run `app.update()` once. */
    method OnMainEventsCleared(now: nat, obs: Observed) returns (update: bool)
      requires Valid()
      modifies this`windows, this`events, this`osCalls, this`createCursor, winitWindows
      modifies this`lastUpdate, this`updates
      ensures Valid()
      ensures World() == CreateAll(old(World()), old(createRequests[createCursor..]),
                                   WinitIdOfHandle(workerW), WallpaperWindows.Build(workerW), obs)
      ensures createCursor == |createRequests|
      ensures update == ShouldUpdate(active, Mode(), lowPowerEvent, redrawRequestSent, timeoutReached)
      ensures lastUpdate == (if update then now else old(lastUpdate))
      ensures updates == old(updates) + (if update then 1 else 0)
    {
      HandleCreateWindowEvents(obs);
      if active {
        var focused := AnyFocused(windows);
        match settings.UpdateModeFor(focused)
        case Continuous => update := true;
        case Reactive(_) => update := true;
        case ReactiveLowPower(_) => update := lowPowerEvent || redrawRequestSent || timeoutReached;
      } else {
        update := false;
      }
      if update {
        lastUpdate := now;
        updates := updates + 1;
      }
    }

    /** `Event::RedrawEventsCleared` at instant `now`: set the mode's directive, override it
        with `Poll` when a redraw request is unread, then with `Exit` when an exit request is
        unread, and remember whether a redraw was requested. */
    method OnRedrawEventsCleared(now: nat, redrawPending: bool, exitPending: bool)
      returns (controlFlow: ControlFlow)
      modifies this`redrawRequestSent
      ensures controlFlow == FinalControlFlow(Mode(), now, redrawPending, exitPending)
      ensures redrawRequestSent == redrawPending
    {
      var focused := AnyFocused(windows);
      match settings.UpdateModeFor(focused) {
        case Continuous => controlFlow := Poll;
        case Reactive(maxWait) => controlFlow := WaitUntil(now + maxWait);
        case ReactiveLowPower(maxWait) => controlFlow := WaitUntil(now + maxWait);
      }
      var redraw := false;
      if redrawPending {
        controlFlow := Poll;
        redraw := true;
      }
      if exitPending {
        controlFlow := Exit;
      }
      redrawRequestSent := redraw;
    }

    /** One command of `change_window`'s drain, on the engine window `id`. */
    method ExecuteCommand(id: WindowId, command: WindowCommand, monitors: Monitors)
      requires Runnable(Target(winitWindows.State(), id), command, monitors)
      modifies this`osCalls, this`events
      ensures var e := CommandEffect(Target(winitWindows.State(), id), id, command, monitors);
              osCalls == old(osCalls) + e.calls && events == old(events) + e.events
    {
      var target := Target(winitWindows.State(), id);
      match command
      case SetWindowMode(mode, width, height) =>
        var fullscreen: Option<FullscreenSetting>;
        match mode {
          case BorderlessFullscreen => fullscreen := Some(Borderless);
          case Fullscreen =>
            var m := VideoModes.GetBestVideoMode(monitors.current.value.modes);
            fullscreen := Some(Exclusive(m));
          case SizedFullscreen =>
            var m := VideoModes.GetFittingVideoMode(monitors.current.value.modes, width, height);
            fullscreen := Some(Exclusive(m));
          case Windowed => fullscreen := None;
        }
        osCalls := osCalls + [OsSetFullscreen(target.value, fullscreen)];
      case SetTitle(title) => osCalls := osCalls + [OsSetTitle(target.value, title)];
      case SetScaleFactor(factor) => events := events + [WindowScaleFactorChanged(id, factor)];
      case SetResolution(w, h, factor) => osCalls := osCalls + [OsSetInnerSize(target.value, w, h, factor)];
      case SetPresentMode =>
      case SetResizable(b) => osCalls := osCalls + [OsSetResizable(target.value, b)];
      case SetMaximized(b) => osCalls := osCalls + [OsSetMaximized(target.value, b)];
      case SetMinimized(b) => osCalls := osCalls + [OsSetMinimized(target.value, b)];
      case SetPosition(selection, x, y) =>
        var monitor;
        match selection {
          case Current => monitor := monitors.current;
          case Primary => monitor := monitors.primary;
          case Index(n) =>
            monitor := if n < |monitors.available| then Some(monitors.available[n]) else None;
        }
        if monitor.Some? {
          var position := (monitor.value.position.0 + x, monitor.value.position.1 + y);
          osCalls := osCalls + [OsSetOuterLogicalPosition(target.value, position.0, position.1)];
        }
      case SetResizeConstraints(rc) => osCalls := osCalls + [OsSetResizeConstraints(target.value, rc)];
      case Close =>
      case OtherCommand =>
    }

    /** Drain one window's queue: every command runs, in order, a `Close` included (as a
        no-op). */
    method DrainCommands(id: WindowId, cmds: seq<WindowCommand>, monitors: Monitors)
      requires AllRunnable(Target(winitWindows.State(), id), cmds, monitors)
      modifies this`osCalls, this`events
      ensures var e := Effects(Target(winitWindows.State(), id), id, cmds, monitors);
              osCalls == old(osCalls) + e.calls && events == old(events) + e.events
    {
      ghost var target := Target(winitWindows.State(), id);
      var j := 0;
      while j < |cmds|
        invariant j <= |cmds|
        invariant var e := Effects(target, id, cmds[..j], monitors);
                  osCalls == old(osCalls) + e.calls && events == old(events) + e.events
      {
        ghost var e := Effects(target, id, cmds[..j], monitors);
        ghost var c := CommandEffect(target, id, cmds[j], monitors);
        ExecuteCommand(id, cmds[j], monitors);
        EffectsStep(target, id, cmds, j, monitors);
        SeqAssoc(old(osCalls), e.calls, c.calls);
        SeqAssoc(old(events), e.events, c.events);
        j := j + 1;
      }
      assert cmds[..j] == cmds;
    }

    /** One visit of the drain loop: drain the queue of `id`, which is still the queue `w0`
        holds for it, and empty it. `d` is what the loop had produced on top of `calls0` and
        `events0`; afterwards the calls and events are those of `DrainOne`. */
    method VisitWindow(id: WindowId, monitors: Monitors, ghost reg: Registry.RegistryState,
                       ghost w0: map<WindowId, Window<WindowCommand>>, ghost d: Effect,
                       ghost calls0: seq<OsCall>, ghost events0: seq<EngineEvent>)
      requires reg == winitWindows.State() && QueueRunnable(reg, w0, id, monitors)
      requires id in windows && windows[id] == w0[id]
      requires osCalls == calls0 + d.calls && events == events0 + d.events
      modifies this`windows, this`osCalls, this`events
      ensures var next := DrainOne(d, reg, w0, id, monitors);
              osCalls == calls0 + next.calls && events == events0 + next.events
      ensures windows == old(windows)[id := w0[id].(commands := [])]
    {
      var window := windows[id];
      DrainCommands(id, window.commands, monitors);
      ghost var e := Effects(Target(reg, id), id, window.commands, monitors);
      SeqAssoc(calls0, d.calls, e.calls);
      SeqAssoc(events0, d.events, e.events);
      windows := windows[id := window.(commands := [])];
    }

    /** `change_window`, visiting the windows in `order`: drain every window's queue. The
        registry is only read and no window is removed. */
    method ChangeWindow(order: seq<WindowId>, monitors: Monitors)
      requires IsOrderOf(order, windows)
      requires CanChange(winitWindows.State(), windows, order, monitors)
      modifies this`windows, this`events, this`osCalls
      ensures World() == WallpaperSpec.ChangeWindow(old(World()), order, monitors)
    {
      ghost var w0 := World();
      ghost var d := Effect([], []);
      var i := 0;
      while i < |order|
        invariant 0 <= i <= |order|
        invariant windows == ClearQueuesOf(w0.windows, order[..i])
        invariant winitWindows.State() == w0.registry
        invariant d == DrainPrefix(w0.registry, w0.windows, order, i, monitors)
        invariant osCalls == w0.osCalls + d.calls && events == w0.events + d.events
      {
        var id := order[i];
        ClearStep(w0.windows, order, i);
        VisitWindow(id, monitors, w0.registry, w0.windows, d, w0.osCalls, w0.events);
        d := DrainOne(d, w0.registry, w0.windows, id, monitors);
        i := i + 1;
      }
      assert order[..|order|] == order;
      DrainClearsAll(w0.windows, order);
    }

    /** Another system sending one `CreateWindow` event into the queue that
        `handle_create_window_events` reads: the request joins the unread ones, last. */
    method SendCreateWindow(req: CreateWindow)
      requires Valid()
      modifies this`createRequests
      ensures Valid()
      ensures createRequests == old(createRequests) + [req]
      ensures createRequests[createCursor..] == old(createRequests[createCursor..]) + [req]
    {
      createRequests := createRequests + [req];
    }

    /** Another system queueing command `c` on engine window `id`; `change_window` drains
        the queue in the order the commands were pushed. Every other window is unchanged. */
    method PushCommand(id: WindowId, c: WindowCommand)
      requires id in windows
      modifies this`windows
      ensures windows.Keys == old(windows).Keys
      ensures windows[id] == old(windows)[id].(commands := old(windows)[id].commands + [c])
      ensures forall x :: x in windows && x != id ==> windows[x] == old(windows)[x]
    {
      windows := windows[id := windows[id].(commands := windows[id].commands + [c])];
    }
  }
}
