/** The `mwinit` copy's runner: the state that persists between frames
    (`WinitPersistentState`), the parts of the application world the handler reads and
    writes, one method per arm of the event handler, and the `change_window` and
    `handle_create_window_events` systems. Each method's new state is a function of the old
    one that `MwinitSpec`, `WindowWorld` and `UpdatePolicy` define and reason about. */
module MwinitRunner {
  import opened WinitTypes
  import opened UpdatePolicy
  import Registry
  import VideoModes
  import opened WindowWorld
  import MwinitWindows
  import opened MwinitSpec

  class WinitRunner {
    // WinitPersistentState
    var active: bool
    var lowPowerEvent: bool
    var redrawRequestSent: bool
    var timeoutReached: bool
    var lastUpdate: nat

    /** The `WinitSettings` resource, read through `update_mode(focused)`. */
    const settings: WinitSettings
    /** The parent handle every window is created under (`WORKER_W`). */
    const workerW: Hwnd
    /** The `WinitWindows` registry. */
    const winitWindows: MwinitWindows.WinitWindows
    /** The engine's `Windows` resource. */
    var windows: map<WindowId, Window<WindowCommand>>
    /** Every engine event sent, of all kinds, in order. */
    var events: seq<EngineEvent>
    /** Every call made on a native window, in order. */
    var osCalls: seq<OsCall>
    /** The `CreateWindow` events sent so far and the reader's position in them. */
    var createRequests: seq<CreateWindow>
    var createCursor: nat
    /** How many times `app.update()` ran. */
    var updates: nat

    ghost predicate Valid()
      reads this
    {
      createCursor <= |createRequests|
    }

    /** The world as one value. */
    function World(): World
      reads this, winitWindows
    {
      WorldState(winitWindows.State(), windows, events, osCalls)
    }

    /** `update_mode(focused)` with `focused` read from the windows as they are now. */
    function Mode(): UpdateMode
      reads this
    {
      settings.UpdateModeFor(AnyFocused(windows))
    }

    /** The runner as `winit_runner_with` sets it up: the persistent state's defaults, with
        `last_update` at the instant `now`, an empty registry and no windows yet. */
    constructor (settings: WinitSettings, workerW: Hwnd, now: nat)
      ensures Valid()
      ensures active && !lowPowerEvent && !redrawRequestSent && !timeoutReached
      ensures lastUpdate == now
      ensures this.settings == settings && this.workerW == workerW
      ensures fresh(winitWindows) && winitWindows.State() == Registry.Empty
      ensures windows == map[] && events == [] && osCalls == []
      ensures createRequests == [] && createCursor == 0 && updates == 0
    {
      this.settings := settings;
      this.workerW := workerW;
      winitWindows := new MwinitWindows.WinitWindows();
      active := true;
      lowPowerEvent := false;
      redrawRequestSent := false;
      timeoutReached := false;
      lastUpdate := now;
      windows := map[];
      events := [];
      osCalls := [];
      createRequests := [];
      createCursor := 0;
      updates := 0;
    }

    /** `Event::NewEvents(start)` at instant `now`: reset the per-frame low-power flag and
        record whether a timeout has been reached. */
    method OnNewEvents(start: StartCause, now: nat)
      modifies this`lowPowerEvent, this`timeoutReached
      ensures !lowPowerEvent
      ensures timeoutReached == TimeoutReached(start, Mode(), now, lastUpdate)
    {
      var focused := AnyFocused(windows);
      var autoTimeoutReached := start.ResumeTimeReached?;
      var manualTimeoutReached;
      match settings.UpdateModeFor(focused) {
        case Continuous => manualTimeoutReached := false;
        case Reactive(maxWait) => manualTimeoutReached := DurationSince(now, lastUpdate) >= maxWait;
        case ReactiveLowPower(maxWait) => manualTimeoutReached := DurationSince(now, lastUpdate) >= maxWait;
      }
      lowPowerEvent := false;
      timeoutReached := autoTimeoutReached || manualTimeoutReached;
    }

    /** The `CursorMoved` arm unwraps `get_window(window_id)`: a routed cursor event needs the
        engine window to resolve to a native window. */
    predicate CursorEventRunnable(winitId: WinitId, event: WindowEvent)
      reads this, winitWindows
    {
      var route := Route(winitWindows.State(), windows, winitId);
      (event.CursorMovedTo? && route.Some?) ==> winitWindows.GetWindow(route.value).Some?
    }

    /** `Event::WindowEvent`: an event that is not routed changes nothing; a routed one sets
        the low-power flag and applies its arm to the window it was routed to. */
    method OnWindowEvent(winitId: WinitId, event: WindowEvent)
      requires CursorEventRunnable(winitId, event)
      modifies this`lowPowerEvent, this`windows, this`events
      ensures var route := Route(winitWindows.State(), old(windows), winitId);
              if route.None? then
                lowPowerEvent == old(lowPowerEvent) && windows == old(windows) && events == old(events)
              else
                var d := DispatchWindowEvent(route.value, old(windows)[route.value], event);
                && lowPowerEvent
                && windows == old(windows)[route.value := d.window]
                && events == old(events) + d.emitted
    {
      var windowId;
      match winitWindows.GetWindowId(winitId) {
        case None => return;
        case Some(id) => windowId := id;
      }
      if windowId !in windows {
        return;
      }
      var window := windows[windowId];
      lowPowerEvent := true;
      match event
      case Resized(width, height) =>
        window := window.(physicalWidth := width, physicalHeight := height);
        windows := windows[windowId := window];
        events := events + [WindowResized(windowId, window.physicalWidth, window.physicalHeight)];
      case CloseRequested =>
        events := events + [WindowCloseRequested(windowId)];
      case CursorMovedTo(_, _) =>
        var winitWindow := winitWindows.GetWindow(windowId);
        assert winitWindow.Some?;
        events := events + [CursorMoved(windowId)];
      case ScaleFactorChanged(factor) =>
        events := events + [WindowBackendScaleFactorChanged(windowId, factor)];
        windows := windows[windowId := window.(scaleFactor := factor)];
      case Focused(focused) =>
        window := window.(focused := focused);
        windows := windows[windowId := window];
        events := events + [WindowFocused(windowId, focused)];
      case Moved(x, y) =>
        window := window.(position := Some((x, y)));
        windows := windows[windowId := window];
        events := events + [WindowMoved(windowId, x, y)];
      case OtherWindowEvent =>
    }

    /** `Event::DeviceEvent`: raw mouse motion becomes one `MouseMotion`; any other device
        event reaches the handler's catch-all and changes nothing. */
    method OnDeviceEvent(event: DeviceEvent)
      modifies this`events
      ensures event.RawMouseMotion? ==> events == old(events) + [MouseMotion(event.dx, event.dy)]
      ensures event.OtherDeviceEvent? ==> events == old(events)
    {
      match event
      case RawMouseMotion(dx, dy) => events := events + [MouseMotion(dx, dy)];
      case OtherDeviceEvent =>
    }

    method OnSuspended()
      modifies this`active
      ensures !active
    {
      active := false;
    }

    method OnResumed()
      modifies this`active
      ensures active
    {
      active := true;
    }

    /** One iteration of `handle_create_window_events`: `create_window` for the request
        (closing the native window it displaces), `windows.add`, and one `WindowCreated`. */
    method CreateFromRequest(req: CreateWindow, obs: Observed)
      modifies this`windows, this`events, this`osCalls, winitWindows
      ensures World() == CreateOne(old(World()), req, WinitIdOfHandle(workerW),
                                   MwinitWindows.Build(workerW), obs)
    {
      var key := WinitIdOfHandle(workerW);
      var window, displaced := winitWindows.CreateWindow<WindowCommand>(workerW, req, obs);
      if displaced.Some? {
        osCalls := osCalls + [OsDestroy(key)];
      }
      windows := windows[req.id := window];
      events := events + [WindowCreated(req.id)];
    }

    /** `handle_create_window_events`: every unread `CreateWindow` request, in order, goes
        through `create_window` under the parent handle, and the reader ends up past all of
        them. `obs` is what the OS reports about each native window built. */
    method HandleCreateWindowEvents(obs: Observed)
      requires Valid()
      modifies this`windows, this`events, this`osCalls, this`createCursor, winitWindows
      ensures Valid()
      ensures World() == CreateAll(old(World()), old(createRequests[createCursor..]),
                                   WinitIdOfHandle(workerW), MwinitWindows.Build(workerW), obs)
      ensures createCursor == |createRequests|
    {
      ghost var w0 := World();
      var pending := createRequests[createCursor..];
      var key := WinitIdOfHandle(workerW);
      ghost var done: seq<CreateWindow> := [];
      var k := 0;
      while k < |pending|
        invariant k <= |pending| && done == pending[..k]
        invariant World() == CreateAll(w0, done, key, MwinitWindows.Build(workerW), obs)
      {
        CreateFromRequest(pending[k], obs);
        CreateAllStep(w0, done, pending[k], key, MwinitWindows.Build(workerW), obs);
        SliceStep(pending, 0, k);
        done := done + [pending[k]];
        k := k + 1;
      }
      assert pending[..k] == pending;
      createCursor := |createRequests|;
    }

    /** `Event::MainEventsCleared` at instant `now`: create the requested windows first, then
        decide whether to update (reading the focus flag of the windows as they are after
        the creation), and on an update record `now` and run `app.update()` once. */
    method OnMainEventsCleared(now: nat, obs: Observed) returns (update: bool)
      requires Valid()
      modifies this`windows, this`events, this`osCalls, this`createCursor, winitWindows
      modifies this`lastUpdate, this`updates
      ensures Valid()
      ensures World() == CreateAll(old(World()), old(createRequests[createCursor..]),
                                   WinitIdOfHandle(workerW), MwinitWindows.Build(workerW), obs)
      ensures createCursor == |createRequests|
      ensures update == ShouldUpdate(active, Mode(), lowPowerEvent, redrawRequestSent, timeoutReached)
      ensures lastUpdate == (if update then now else old(lastUpdate))
      ensures updates == old(updates) + (if update then 1 else 0)
    {
      HandleCreateWindowEvents(obs);
      if active {
        var focused := AnyFocused(windows);
        match settings.UpdateModeFor(focused)
        case Continuous => update := true;
        case Reactive(_) => update := true;
        case ReactiveLowPower(_) => update := lowPowerEvent || redrawRequestSent || timeoutReached;
      } else {
        update := false;
      }
      if update {
        lastUpdate := now;
        updates := updates + 1;
      }
    }

    /** `Event::RedrawEventsCleared` at instant `now`: set the mode's directive, override it
        with `Poll` when a redraw request is unread, then with `Exit` when an exit request is
        unread, and remember whether a redraw was requested. */
    method OnRedrawEventsCleared(now: nat, redrawPending: bool, exitPending: bool)
      returns (controlFlow: ControlFlow)
      modifies this`redrawRequestSent
      ensures controlFlow == FinalControlFlow(Mode(), now, redrawPending, exitPending)
      ensures redrawRequestSent == redrawPending
    {
      var focused := AnyFocused(windows);
      match settings.UpdateModeFor(focused) {
        case Continuous => controlFlow := Poll;
        case Reactive(maxWait) => controlFlow := WaitUntil(now + maxWait);
        case ReactiveLowPower(maxWait) => controlFlow := WaitUntil(now + maxWait);
      }
      var redraw := false;
      if redrawPending {
        controlFlow := Poll;
        redraw := true;
      }
      if exitPending {
        controlFlow := Exit;
      }
      redrawRequestSent := redraw;
    }

    /** One command of `change_window`'s drain, on the engine window `id`. */
    method ExecuteCommand(id: WindowId, command: WindowCommand, monitors: Monitors)
      requires Runnable(Target(winitWindows.State(), id), command, monitors) && !command.Close?
      modifies this`osCalls, this`events
      ensures var e := CommandEffect(Target(winitWindows.State(), id), id, command, monitors);
              osCalls == old(osCalls) + e.calls && events == old(events) + e.events
    {
      var target := Target(winitWindows.State(), id);
      match command
      case SetWindowMode(mode, width, height) =>
        var fullscreen: Option<FullscreenSetting>;
        match mode {
          case BorderlessFullscreen => fullscreen := Some(Borderless);
          case Fullscreen =>
            var m := VideoModes.GetBestVideoMode(monitors.current.value.modes);
            fullscreen := Some(Exclusive(m));
          case SizedFullscreen =>
            var m := VideoModes.GetFittingVideoMode(monitors.current.value.modes, width, height);
            fullscreen := Some(Exclusive(m));
          case Windowed => fullscreen := None;
        }
        osCalls := osCalls + [OsSetFullscreen(target.value, fullscreen)];
      case SetTitle(title) => osCalls := osCalls + [OsSetTitle(target.value, title)];
      case SetScaleFactor(factor) => events := events + [WindowScaleFactorChanged(id, factor)];
      case SetResolution(w, h, factor) => osCalls := osCalls + [OsSetInnerSize(target.value, w, h, factor)];
      case SetPresentMode =>
      case SetResizable(b) => osCalls := osCalls + [OsSetResizable(target.value, b)];
      case SetMaximized(b) => osCalls := osCalls + [OsSetMaximized(target.value, b)];
      case SetMinimized(b) => osCalls := osCalls + [OsSetMinimized(target.value, b)];
      case SetPosition(x, y) => osCalls := osCalls + [OsSetOuterPhysicalPosition(target.value, x, y)];
      case SetResizeConstraints(rc) => osCalls := osCalls + [OsSetResizeConstraints(target.value, rc)];
      case OtherCommand =>
    }

    /** Drain one window's queue: run its commands up to the first `Close`; report whether a
        `Close` was met. */
    method DrainCommands(id: WindowId, cmds: seq<WindowCommand>, monitors: Monitors)
      returns (closed: bool)
      requires AllRunnable(Target(winitWindows.State(), id), Executed(cmds), monitors)
      modifies this`osCalls, this`events
      ensures closed == (Close in cmds)
      ensures var e := Effects(Target(winitWindows.State(), id), id, Executed(cmds), monitors);
              osCalls == old(osCalls) + e.calls && events == old(events) + e.events
    {
      ghost var target := Target(winitWindows.State(), id);
      ghost var run := Executed(cmds);
      var j := 0;
      closed := false;
      while j < |cmds|
        invariant j <= |run|
        invariant var e := Effects(target, id, run[..j], monitors);
                  osCalls == old(osCalls) + e.calls && events == old(events) + e.events
      {
        if cmds[j].Close? {
          closed := true;
          break;
        }
        ExecutedStep(cmds, j);
        ghost var e := Effects(target, id, run[..j], monitors);
        ghost var c := CommandEffect(target, id, cmds[j], monitors);
        ExecuteCommand(id, cmds[j], monitors);
        EffectsStep(target, id, run, j, monitors);
        SeqAssoc(old(osCalls), e.calls, c.calls);
        SeqAssoc(old(events), e.events, c.events);
        j := j + 1;
      }
      ExecutedEnd(cmds, j);
      assert run[..j] == run;
    }

    /** One visit of the drain loop: drain the queue of `id`, which is still the queue `w0`
        holds for it, and empty it. `d` is what the loop had produced on top of `calls0` and
        `events0`; afterwards the calls and events are those of `DrainOne`, and `closed` says
        whether `DrainOne` queued `id` for removal. */
    method VisitWindow(id: WindowId, monitors: Monitors, ghost reg: Registry.RegistryState,
                       ghost w0: map<WindowId, Window<WindowCommand>>, ghost d: Drained,
                       ghost calls0: seq<OsCall>, ghost events0: seq<EngineEvent>)
      returns (closed: bool)
      requires reg == winitWindows.State() && QueueRunnable(reg, w0, id, monitors)
      requires id in windows && windows[id] == w0[id]
      requires osCalls == calls0 + d.calls && events == events0 + d.events
      modifies this`windows, this`osCalls, this`events
      ensures var next := DrainOne(d, reg, w0, id, monitors);
              && osCalls == calls0 + next.calls && events == events0 + next.events
              && next.removed == d.removed + (if closed then [id] else [])
      ensures windows == old(windows)[id := w0[id].(commands := [])]
    {
      var window := windows[id];
      closed := DrainCommands(id, window.commands, monitors);
      ghost var e := Effects(Target(reg, id), id, Executed(window.commands), monitors);
      SeqAssoc(calls0, d.calls, e.calls);
      SeqAssoc(events0, d.events, e.events);
      windows := windows[id := window.(commands := [])];
    }

    /** The first loop of `change_window`: drain every window's queue in `order`, and
        return the removal queue. The registry is only read. */
    method DrainWindows(order: seq<WindowId>, monitors: Monitors)
      returns (removedWindows: seq<WindowId>)
      requires IsOrderOf(order, windows)
      requires CanChange(winitWindows.State(), windows, order, monitors)
      modifies this`windows, this`events, this`osCalls
      ensures var d := DrainAll(old(winitWindows.State()), old(windows), order, monitors);
              && windows == ClearQueues(old(windows))
              && osCalls == old(osCalls) + d.calls && events == old(events) + d.events
              && removedWindows == d.removed
    {
      ghost var w0 := World();
      ghost var d := Drained([], [], []);
      removedWindows := [];
      var i := 0;
      while i < |order|
        invariant 0 <= i <= |order|
        invariant windows == ClearQueuesOf(w0.windows, order[..i])
        invariant winitWindows.State() == w0.registry
        invariant d == DrainPrefix(w0.registry, w0.windows, order, i, monitors)
        invariant osCalls == w0.osCalls + d.calls && events == w0.events + d.events
        invariant removedWindows == d.removed
      {
        var id := order[i];
        ClearStep(w0.windows, order, i);
        var closed := VisitWindow(id, monitors, w0.registry, w0.windows, d, w0.osCalls, w0.events);
        removedWindows := removedWindows + if closed then [id] else [];
        d := DrainOne(d, w0.registry, w0.windows, id, monitors);
        i := i + 1;
      }
      assert order[..|order|] == order;
      DrainClearsAll(w0.windows, order);
    }

    /** One iteration of the removal loop: `remove_window` (dropping the native window it
        returns closes it), `windows.remove(id)`, and one `WindowClosed`. */
    method RemoveClosedWindow(id: WindowId)
      modifies this`windows, this`events, this`osCalls, winitWindows
      ensures World() == RemoveOne(old(World()), id)
    {
      if id in winitWindows.windowIdToWinit {
        var key := winitWindows.windowIdToWinit[id];
        var dropped := winitWindows.RemoveWindow(id);
        if dropped.Some? {
          osCalls := osCalls + [OsDestroy(key)];
        }
      } else {
        var _ := winitWindows.RemoveWindow(id);
      }
      windows := windows - {id};
      events := events + [WindowClosed(id)];
    }

    /** `change_window`, visiting the windows in `order`: drain every queue, queueing the
        windows that met a `Close`, then remove each queued window from the registry and from
        `Windows` and send its `WindowClosed`, in queue order. */
    method ChangeWindow(order: seq<WindowId>, monitors: Monitors)
      requires IsOrderOf(order, windows)
      requires CanChange(winitWindows.State(), windows, order, monitors)
      modifies this`windows, this`events, this`osCalls, winitWindows
      ensures World() == MwinitSpec.ChangeWindow(old(World()), order, monitors)
    {
      var removedWindows := DrainWindows(order, monitors);
      RemoveClosedWindows(removedWindows);
    }

    /** The second loop of `change_window`: one removal per queued id, in queue order. */
    method RemoveClosedWindows(removedWindows: seq<WindowId>)
      modifies this`windows, this`events, this`osCalls, winitWindows
      ensures World() == RemoveAll(old(World()), removedWindows)
    {
      ghost var w1 := World();
      var k := 0;
      ghost var done: seq<WindowId> := [];
      while k < |removedWindows|
        invariant k <= |removedWindows| && done == removedWindows[..k]
        invariant World() == RemoveAll(w1, done)
      {
        RemoveClosedWindow(removedWindows[k]);
        RemoveAllStep(w1, done, removedWindows[k]);
        SliceStep(removedWindows, 0, k);
        done := done + [removedWindows[k]];
        k := k + 1;
      }
      assert removedWindows[..k] == removedWindows;
    }

    /** Another system sending one `CreateWindow` event into the queue that
        `handle_create_window_events` reads: the request joins the unread ones, last. */
    method SendCreateWindow(req: CreateWindow)
      requires Valid()
      modifies this`createRequests
      ensures Valid()
      ensures createRequests == old(createRequests) + [req]
      ensures createRequests[createCursor..] == old(createRequests[createCursor..]) + [req]
    {
      createRequests := createRequests + [req];
    }

    /** Another system queueing command `c` on engine window `id`; `change_window` drains
        the queue in the order the commands were pushed. Every other window is unchanged. */
    method PushCommand(id: WindowId, c: WindowCommand)
      requires id in windows
      modifies this`windows
      ensures windows.Keys == old(windows).Keys
      ensures windows[id] == old(windows)[id].(commands := old(windows)[id].commands + [c])
      ensures forall x :: x in windows && x != id ==> windows[x] == old(windows)[x]
    {
      windows := windows[id := windows[id].(commands := windows[id].commands + [c])];
    }
  }
}
