/** What the `mwinit` copy's event handler and `change_window` system do, as functions on
    values: the dispatch of one window event to its engine window, the effect of each window
    command, the drain of every command queue with `Close` deferred to a removal queue, and
    the removal loop that follows. The runner class of this copy is proved against these. */
module MwinitSpec {
  import opened WinitTypes
  import VideoModes
  import Registry
  import opened WindowWorld

  /** The engine's `WindowCommand`, with the arms this copy of `change_window` handles;
      `OtherCommand` stands for the kinds that reach its catch-all. */
  datatype WindowCommand =
    | SetWindowMode(mode: WindowMode, width: U32, height: U32)
    | SetTitle(title: string)
    | SetScaleFactor(scaleFactor: real)
    | SetResolution(logicalWidth: real, logicalHeight: real, scaleFactor: real)
    | SetPresentMode
    | SetResizable(resizable: bool)
    | SetMaximized(maximized: bool)
    | SetMinimized(minimized: bool)
    | SetPosition(x: int, y: int)
    | SetResizeConstraints(constraints: ResizeConstraints)
    | Close
    | OtherCommand

  type World = WorldState<WindowCommand>

  // ---------------------------------------------------------------- window events

  /** One arm of the `WindowEvent` match, for an event already routed to engine window `w`
      with id `id`. Sizes are physical pixels; cursor positions and the float arithmetic of
      the scale-factor arm are not represented. */
  function DispatchWindowEvent<C>(id: WindowId, w: Window<C>, ev: WindowEvent): (d: Dispatched<C>)
    ensures |d.emitted| <= 1
    ensures forall e :: e in d.emitted ==> !e.MouseMotion? && e.id == id
    ensures d.window.id == w.id && d.window.commands == w.commands
    ensures d.window.descriptor == w.descriptor
  {
    match ev
    case Resized(width, height) =>
      var w' := w.(physicalWidth := width, physicalHeight := height);
      Dispatched(w', [WindowResized(id, w'.physicalWidth, w'.physicalHeight)])
    case CloseRequested => Dispatched(w, [WindowCloseRequested(id)])
    case CursorMovedTo(_, _) => Dispatched(w, [CursorMoved(id)])
    case ScaleFactorChanged(factor) =>
      Dispatched(w.(scaleFactor := factor), [WindowBackendScaleFactorChanged(id, factor)])
    case Focused(focused) =>
      var w' := w.(focused := focused);
      Dispatched(w', [WindowFocused(id, w'.focused)])
    case Moved(x, y) =>
      var w' := w.(position := Some((x, y)));
      Dispatched(w', [WindowMoved(id, x, y)])
    case OtherWindowEvent => Dispatched(w, [])
  }

  /** Every handled kind sends exactly one event, about the routed window; the ignored kinds
      send none and leave the window alone. The window's identity and command queue are never
      touched by an event. */
  lemma DispatchSendsOne<C>(id: WindowId, w: Window<C>, ev: WindowEvent)
    ensures var d := DispatchWindowEvent(id, w, ev);
            && |d.emitted| == (if ev.OtherWindowEvent? then 0 else 1)
            && (forall e :: e in d.emitted ==> !e.MouseMotion? && e.id == id)
            && d.window.id == w.id && d.window.commands == w.commands
            && d.window.descriptor == w.descriptor
            && (ev.OtherWindowEvent? ==> d.window == w)
  {
  }

  /** `Focused`, `Moved` and `Resized` store the new value in the window first, and the one
      event they send carries exactly the stored value. */
  lemma DispatchStoresThenSends<C>(id: WindowId, w: Window<C>, ev: WindowEvent)
    ensures var d := DispatchWindowEvent(id, w, ev);
            && (ev.Focused? ==> d.window == w.(focused := ev.focused)
                                && d.emitted == [WindowFocused(id, d.window.focused)])
            && (ev.Moved? ==> d.window == w.(position := Some((ev.x, ev.y)))
                              && d.emitted == [WindowMoved(id, d.window.position.value.0,
                                                           d.window.position.value.1)])
            && (ev.Resized? ==> d.window == w.(physicalWidth := ev.width, physicalHeight := ev.height)
                                && d.emitted == [WindowResized(id, d.window.physicalWidth,
                                                               d.window.physicalHeight)])
  {
  }

  // ---------------------------------------------------------------- window commands

  /** The arms that start with `get_window(id).unwrap()`. */
  predicate NeedsNativeWindow(c: WindowCommand)
  {
    !(c.SetScaleFactor? || c.SetPresentMode? || c.Close? || c.OtherCommand?)
  }

  /** The arms that also unwrap `current_monitor()` and pick one of its modes. */
  predicate NeedsMonitor(c: WindowCommand)
  {
    c.SetWindowMode? && (c.mode.Fullscreen? || c.mode.SizedFullscreen?)
  }

  /** A command runs without panicking: every `unwrap` in its arm succeeds, and the mode
      selection has at least one mode to choose from. */
  predicate Runnable(target: Option<WinitId>, c: WindowCommand, monitors: Monitors)
  {
    && (NeedsNativeWindow(c) ==> target.Some?)
    && (NeedsMonitor(c) ==> monitors.current.Some? && |monitors.current.value.modes| > 0)
  }

  /** One arm of the command match (a `Close` never reaches here: it ends the drain). An arm
      that needs the native window makes exactly one call, on that window; `SetScaleFactor`
      only sends one `WindowScaleFactorChanged` with the same id and factor;
      `SetPresentMode` and the catch-all do nothing. */
  function CommandEffect(target: Option<WinitId>, id: WindowId, c: WindowCommand,
                         monitors: Monitors): (e: Effect)
    requires Runnable(target, c, monitors) && !c.Close?
    ensures |e.calls| == (if NeedsNativeWindow(c) then 1 else 0)
    ensures forall call :: call in e.calls ==> target.Some? && call.target == target.value
    ensures e.events == (if c.SetScaleFactor? then [WindowScaleFactorChanged(id, c.scaleFactor)] else [])
    ensures (c.SetPresentMode? || c.OtherCommand?) ==> e == Effect([], [])
  {
    match c
    case SetWindowMode(mode, width, height) =>
      Effect([OsSetFullscreen(target.value, FullscreenFor(mode, width, height, monitors))], [])
    case SetTitle(title) => Effect([OsSetTitle(target.value, title)], [])
    case SetScaleFactor(factor) => Effect([], [WindowScaleFactorChanged(id, factor)])
    case SetResolution(w, h, factor) => Effect([OsSetInnerSize(target.value, w, h, factor)], [])
    case SetPresentMode => Effect([], [])
    case SetResizable(b) => Effect([OsSetResizable(target.value, b)], [])
    case SetMaximized(b) => Effect([OsSetMaximized(target.value, b)], [])
    case SetMinimized(b) => Effect([OsSetMinimized(target.value, b)], [])
    case SetPosition(x, y) => Effect([OsSetOuterPhysicalPosition(target.value, x, y)], [])
    case SetResizeConstraints(rc) => Effect([OsSetResizeConstraints(target.value, rc)], [])
    case OtherCommand => Effect([], [])
  }

  /** The position of the first `Close` in a queue, or its length when there is none. */
  function FirstClose(cmds: seq<WindowCommand>): (k: nat)
    ensures k <= |cmds|
    ensures forall j :: 0 <= j < k ==> !cmds[j].Close?
    ensures k < |cmds| ==> cmds[k].Close?
  {
    if cmds == [] || cmds[0].Close? then 0 else 1 + FirstClose(cmds[1..])
  }

  /** The commands of a queue that run: those before the first `Close`. */
  function Executed(cmds: seq<WindowCommand>): (run: seq<WindowCommand>)
    ensures run <= cmds
    ensures forall c :: c in run ==> !c.Close?
    ensures |run| < |cmds| <==> Close in cmds
  {
    cmds[..FirstClose(cmds)]
  }

  /** The drain loop, within the executed commands and at a command that is not a `Close`,
      is not at their end yet. */
  lemma ExecutedStep(cmds: seq<WindowCommand>, j: nat)
    requires j <= |Executed(cmds)| && j < |cmds| && !cmds[j].Close?
    ensures j < |Executed(cmds)| && Executed(cmds)[j] == cmds[j]
  {
  }

  /** The drain loop stops at the first `Close`, or at the end when there is none: in either
      case it has gone through exactly the executed commands. */
  lemma ExecutedEnd(cmds: seq<WindowCommand>, j: nat)
    requires j <= |Executed(cmds)| && (j == |cmds| || cmds[j].Close?)
    ensures j == |Executed(cmds)|
  {
  }

  /** A `Close` skips everything after it, whatever that is. */
  lemma {:induction false} CloseSkipsRest(before: seq<WindowCommand>, after: seq<WindowCommand>)
    requires Close !in before
    ensures Executed(before + [Close] + after) == before
  {
    var cmds := before + [Close] + after;
    assert cmds[|before|].Close?;
    assert forall j :: 0 <= j < |before| ==> cmds[j] == before[j];
    assert cmds[..|before|] == before;
  }

  /** All runnable: every command of the list can run against `target`. */
  predicate AllRunnable(target: Option<WinitId>, cmds: seq<WindowCommand>, monitors: Monitors)
  {
    forall k :: 0 <= k < |cmds| ==> !cmds[k].Close? && Runnable(target, cmds[k], monitors)
  }

  /** The combined effect of a list of executed commands, in order. */
  function Effects(target: Option<WinitId>, id: WindowId, cmds: seq<WindowCommand>,
                   monitors: Monitors): Effect
    requires AllRunnable(target, cmds, monitors)
  {
    if cmds == [] then Effect([], [])
    else
      var e := Effects(target, id, cmds[..|cmds| - 1], monitors);
      var last := CommandEffect(target, id, cmds[|cmds| - 1], monitors);
      Effect(e.calls + last.calls, e.events + last.events)
  }

  /** One more executed command is one more step of the drain. */
  lemma EffectsStep(target: Option<WinitId>, id: WindowId, cmds: seq<WindowCommand>, j: nat,
                    monitors: Monitors)
    requires j < |cmds| && AllRunnable(target, cmds, monitors)
    ensures AllRunnable(target, cmds[..j], monitors) && AllRunnable(target, cmds[..j + 1], monitors)
    ensures var e := Effects(target, id, cmds[..j], monitors);
            var c := CommandEffect(target, id, cmds[j], monitors);
            Effects(target, id, cmds[..j + 1], monitors) == Effect(e.calls + c.calls, e.events + c.events)
  {
    assert cmds[..j + 1][..j] == cmds[..j];
  }

  /** Draining a queue: at most one call per command, every call on the native window of this
      engine window, and the only engine events sent are scale-factor changes for it. */
  lemma {:induction false} EffectsShape(target: Option<WinitId>, id: WindowId,
                                        cmds: seq<WindowCommand>, monitors: Monitors)
    requires AllRunnable(target, cmds, monitors)
    ensures var e := Effects(target, id, cmds, monitors);
            && |e.calls| <= |cmds|
            && (forall call :: call in e.calls ==> target.Some? && call.target == target.value)
            && (forall ev :: ev in e.events ==> ev.WindowScaleFactorChanged? && ev.id == id)
  {
    if cmds != [] {
      EffectsShape(target, id, cmds[..|cmds| - 1], monitors);
    }
  }

  /** The queue of window `id` can be drained without panicking: the window is in
      `Windows` and every command that runs (those before a `Close`) is runnable. */
  predicate QueueRunnable(reg: Registry.RegistryState, windows: map<WindowId, Window<WindowCommand>>,
                          id: WindowId, monitors: Monitors)
  {
    id in windows && AllRunnable(Target(reg, id), Executed(windows[id].commands), monitors)
  }

  /** `change_window` can run to completion: every window of the iteration order can be
      drained. */
  predicate CanChange(reg: Registry.RegistryState, windows: map<WindowId, Window<WindowCommand>>,
                      order: seq<WindowId>, monitors: Monitors)
  {
    forall i :: 0 <= i < |order| ==> QueueRunnable(reg, windows, order[i], monitors)
  }

  /** What the drain loop has produced: the calls and events so far, and the removal queue. */
  datatype Drained = Drained(calls: seq<OsCall>, events: seq<EngineEvent>, removed: seq<WindowId>)

  /** The drain of one window's queue appended to what the loop had produced. */
  function DrainOne(d: Drained, reg: Registry.RegistryState,
                    windows: map<WindowId, Window<WindowCommand>>, id: WindowId,
                    monitors: Monitors): Drained
    requires QueueRunnable(reg, windows, id, monitors)
  {
    var cmds := windows[id].commands;
    var e := Effects(Target(reg, id), id, Executed(cmds), monitors);
    Drained(d.calls + e.calls, d.events + e.events, d.removed + (if Close in cmds then [id] else []))
  }

  /** The drain loop after visiting the first `n` windows of `order`, the order in which
      `windows.iter_mut()` visits them. */
  function DrainPrefix(reg: Registry.RegistryState, windows: map<WindowId, Window<WindowCommand>>,
                       order: seq<WindowId>, n: nat, monitors: Monitors): Drained
    requires n <= |order| && CanChange(reg, windows, order, monitors)
  {
    if n == 0 then Drained([], [], [])
    else DrainOne(DrainPrefix(reg, windows, order, n - 1, monitors), reg, windows, order[n - 1], monitors)
  }

  /** A visit queues the window for removal exactly when its queue holds a `Close`. */
  lemma DrainOneRemoved(d: Drained, reg: Registry.RegistryState,
                        windows: map<WindowId, Window<WindowCommand>>, id: WindowId,
                        monitors: Monitors)
    requires QueueRunnable(reg, windows, id, monitors)
    ensures DrainOne(d, reg, windows, id, monitors).removed
            == d.removed + (if Close in windows[id].commands then [id] else [])
  {
  }

  /** The whole drain loop. */
  function DrainAll(reg: Registry.RegistryState, windows: map<WindowId, Window<WindowCommand>>,
                    order: seq<WindowId>, monitors: Monitors): Drained
    requires CanChange(reg, windows, order, monitors)
  {
    DrainPrefix(reg, windows, order, |order|, monitors)
  }

  /** The window `id` is in `Windows` and its queue holds a `Close`. */
  predicate ClosesIn(windows: map<WindowId, Window<WindowCommand>>, id: WindowId)
  {
    id in windows && Close in windows[id].commands
  }

  /** After `n` visits the removal queue holds exactly the visited windows whose queue
      contains a `Close`, each once (the iteration visits every window once). */
  lemma {:induction false} DrainPrefixRemoved(reg: Registry.RegistryState,
                                              windows: map<WindowId, Window<WindowCommand>>,
                                              order: seq<WindowId>, n: nat, monitors: Monitors)
    requires n <= |order| && CanChange(reg, windows, order, monitors)
    requires Distinct(order)
    ensures var d := DrainPrefix(reg, windows, order, n, monitors);
            && (forall id :: id in d.removed <==> id in order[..n] && ClosesIn(windows, id))
            && Distinct(d.removed)
  {
    if n > 0 {
      DrainPrefixRemoved(reg, windows, order, n - 1, monitors);
      var id := order[n - 1];
      var prev := DrainPrefix(reg, windows, order, n - 1, monitors);
      var d := DrainPrefix(reg, windows, order, n, monitors);
      assert d == DrainOne(prev, reg, windows, id, monitors);
      DrainOneRemoved(prev, reg, windows, id, monitors);
      PrefixStep(order, n);
      if Close in windows[id].commands {
        assert d.removed == prev.removed + [id];
        DistinctAppend(prev.removed, id);
      } else {
        assert d.removed == prev.removed;
      }
      forall x ensures x in d.removed <==> x in order[..n] && ClosesIn(windows, x) {
        assert x in d.removed <==> x in prev.removed || (x == id && ClosesIn(windows, id));
      }
    }
  }

  lemma DrainAllRemoved(reg: Registry.RegistryState, windows: map<WindowId, Window<WindowCommand>>,
                        order: seq<WindowId>, monitors: Monitors)
    requires CanChange(reg, windows, order, monitors)
    requires Distinct(order)
    ensures var d := DrainAll(reg, windows, order, monitors);
            && (forall id :: id in d.removed <==> id in order && ClosesIn(windows, id))
            && Distinct(d.removed)
  {
    DrainPrefixRemoved(reg, windows, order, |order|, monitors);
    assert order[..|order|] == order;
  }

  // ---------------------------------------------------------------- removal loop

  /** One iteration of the removal loop: `remove_window` (dropping the native window it
      returns closes it), `windows.remove(id)`, and one `WindowClosed`. */
  function RemoveOne(w: World, id: WindowId): (r: World)
    ensures id !in r.windows && Registry.GetWindow(r.registry, id).None?
    ensures forall x :: x in r.windows <==> x in w.windows && x != id
    ensures r.windows == w.windows - {id}
    ensures r.events == w.events + [WindowClosed(id)]
    ensures r.registry.windowIdToWinit == w.registry.windowIdToWinit - {id}
    ensures r.registry.windows == if id in w.registry.windowIdToWinit
                                  then w.registry.windows - {w.registry.windowIdToWinit[id]}
                                  else w.registry.windows
    ensures r.registry.winitToWindowId == w.registry.winitToWindowId
    ensures r.osCalls == w.osCalls + (if Registry.GetWindow(w.registry, id).Some?
                                      then [OsDestroy(w.registry.windowIdToWinit[id])] else [])
  {
    var rem := Registry.Remove(w.registry, id);
    WorldState(rem.state, w.windows - {id}, w.events + [WindowClosed(id)],
               w.osCalls + (if rem.window.Some? then [OsDestroy(w.registry.windowIdToWinit[id])] else []))
  }

  function RemoveAll(w: World, ids: seq<WindowId>): (r: World)
    ensures r.windows.Keys <= w.windows.Keys
    ensures |r.events| == |w.events| + |ids| && w.events <= r.events
    ensures w.osCalls <= r.osCalls && |r.osCalls| <= |w.osCalls| + |ids|
  {
    if ids == [] then w else RemoveOne(RemoveAll(w, ids[..|ids| - 1]), ids[|ids| - 1])
  }

  /** One more queued id is one more iteration. */
  lemma RemoveAllStep(w: World, ids: seq<WindowId>, id: WindowId)
    ensures RemoveAll(w, ids + [id]) == RemoveOne(RemoveAll(w, ids), id)
  {
    assert (ids + [id])[..|ids|] == ids;
  }

  function ClosedEvents(ids: seq<WindowId>): (es: seq<EngineEvent>)
    ensures |es| == |ids|
    ensures forall i :: 0 <= i < |ids| ==> es[i] == WindowClosed(ids[i])
  {
    seq(|ids|, i requires 0 <= i < |ids| => WindowClosed(ids[i]))
  }

  /** After the removal loop: the queued windows are gone from `Windows` and no longer
      resolve to a native window, all other windows are untouched, one `WindowClosed` was
      sent per queued id in queue order, and the reverse map still holds every entry. */
  lemma {:induction false} RemoveAllEffect(w: World, ids: seq<WindowId>)
    ensures var r := RemoveAll(w, ids);
            && (forall id :: id in r.windows <==> id in w.windows && id !in ids)
            && (forall id :: id in r.windows ==> r.windows[id] == w.windows[id])
            && (forall id :: id in ids ==> Registry.GetWindow(r.registry, id).None?)
            && r.events == w.events + ClosedEvents(ids)
            && r.registry.winitToWindowId == w.registry.winitToWindowId
  {
    if ids != [] {
      var init := ids[..|ids| - 1];
      RemoveAllEffect(w, init);
      assert ClosedEvents(ids) == ClosedEvents(init) + [WindowClosed(ids[|ids| - 1])];
      assert forall x :: x in ids <==> x in init || x == ids[|ids| - 1] by {
        assert ids == init + [ids[|ids| - 1]];
      }
    }
  }

  /** Each native window is closed at most once: the calls the removal loop adds are all
      `OsDestroy`, on keys that held a native window before, pairwise distinct, and whose
      slot is empty afterwards. With the shared parent key this means at most one close,
      however many windows are removed. */
  lemma {:induction false} RemoveAllDestroysOnce(w: World, ids: seq<WindowId>)
    ensures var r := RemoveAll(w, ids);
            && w.osCalls <= r.osCalls
            && r.registry.windows.Keys <= w.registry.windows.Keys
            && var added := r.osCalls[|w.osCalls|..];
               && (forall i :: 0 <= i < |added| ==>
                     added[i].OsDestroy? && added[i].target in w.registry.windows
                     && added[i].target !in r.registry.windows)
               && Distinct(added)
  {
    if ids != [] {
      var init := ids[..|ids| - 1];
      RemoveAllDestroysOnce(w, init);
      var p := RemoveAll(w, init);
      var id := ids[|ids| - 1];
      var rem := Registry.Remove(p.registry, id);
      var before := p.osCalls[|w.osCalls|..];
      var r := RemoveOne(p, id);
      if rem.window.Some? {
        var key := p.registry.windowIdToWinit[id];
        assert key in p.registry.windows;
        assert r.osCalls[|w.osCalls|..] == before + [OsDestroy(key)];
      } else {
        assert r.osCalls == p.osCalls;
      }
    }
  }

  /** Every queued window that had a native window gets it closed: its key holds no native
      window after the loop, and an `OsDestroy` of that key is among the calls the loop adds.
      Together with `RemoveAllDestroysOnce`, each such key is closed exactly once. Along the
      way: the loop only deletes forward entries, and only those of queued ids. */
  lemma {:induction false} RemoveAllDestroysEach(w: World, ids: seq<WindowId>)
    ensures var r := RemoveAll(w, ids);
            var fwd, fwd' := w.registry.windowIdToWinit, r.registry.windowIdToWinit;
            && w.osCalls <= r.osCalls
            && r.registry.windows.Keys <= w.registry.windows.Keys
            && (forall id :: id in fwd' ==> id in fwd && fwd'[id] == fwd[id])
            && (forall id :: id in fwd && id !in fwd' ==> id in ids)
            && (forall id :: id in ids ==> id !in fwd')
            && (forall id :: id in ids && id in fwd ==> fwd[id] !in r.registry.windows)
            && (forall k :: k in w.registry.windows && k !in r.registry.windows ==>
                  OsDestroy(k) in r.osCalls[|w.osCalls|..])
            && (forall id :: id in ids && Registry.GetWindow(w.registry, id).Some? ==>
                  OsDestroy(fwd[id]) in r.osCalls[|w.osCalls|..])
  {
    if ids != [] {
      var init := ids[..|ids| - 1];
      var id := ids[|ids| - 1];
      RemoveAllDestroysEach(w, init);
      var p := RemoveAll(w, init);
      var r := RemoveOne(p, id);
      assert forall x :: x in ids <==> x in init || x == id by {
        assert ids == init + [id];
      }
      var rem := Registry.Remove(p.registry, id);
      var before := p.osCalls[|w.osCalls|..];
      if id in p.registry.windowIdToWinit {
        var key := p.registry.windowIdToWinit[id];
        assert r.registry.windows == p.registry.windows - {key};
        if rem.window.Some? {
          assert r.osCalls[|w.osCalls|..] == before + [OsDestroy(key)];
        } else {
          assert key !in p.registry.windows;
          assert r.osCalls == p.osCalls;
        }
      } else {
        assert r.registry == p.registry && r.osCalls == p.osCalls;
      }
    }
  }

  /** The whole of `change_window`: drain every queue in `order`, then run the removal loop
      over the removal queue. */
  function ChangeWindow(w: World, order: seq<WindowId>, monitors: Monitors): (r: World)
    requires CanChange(w.registry, w.windows, order, monitors)
    ensures r.windows.Keys <= w.windows.Keys
    ensures w.events <= r.events && w.osCalls <= r.osCalls
  {
    var d := DrainAll(w.registry, w.windows, order, monitors);
    var drained := WorldState(w.registry, ClearQueues(w.windows), w.events + d.events,
                              w.osCalls + d.calls);
    RemoveAll(drained, d.removed)
  }

  /** The outcome of `change_window`: a window survives exactly when its queue held no
      `Close`; every survivor's queue is empty and it is otherwise unchanged; no closed window
      resolves to a native window any more; the events are the drain's, then one
      `WindowClosed` per closed window; the reverse map keeps every entry; and after the
      drain's calls, the removal loop closes the native window of every closed window that
      had one, each native window exactly once. */
  lemma ChangeWindowOutcome(w: World, order: seq<WindowId>, monitors: Monitors)
    requires IsOrderOf(order, w.windows)
    requires CanChange(w.registry, w.windows, order, monitors)
    ensures var r := ChangeWindow(w, order, monitors);
            var d := DrainAll(w.registry, w.windows, order, monitors);
            && (forall id :: id in r.windows <==> id in w.windows && Close !in w.windows[id].commands)
            && (forall id :: id in r.windows ==> r.windows[id] == w.windows[id].(commands := []))
            && (forall id :: id in w.windows && Close in w.windows[id].commands
                  ==> Registry.GetWindow(r.registry, id).None?)
            && r.events == w.events + d.events + ClosedEvents(d.removed)
            && r.registry.winitToWindowId == w.registry.winitToWindowId
            && w.osCalls + d.calls <= r.osCalls
            && var added := r.osCalls[|w.osCalls + d.calls|..];
               && (forall i :: 0 <= i < |added| ==>
                     added[i].OsDestroy? && added[i].target in w.registry.windows
                     && added[i].target !in r.registry.windows)
               && Distinct(added)
               && (forall id :: id in w.windows && Close in w.windows[id].commands
                     && Registry.GetWindow(w.registry, id).Some?
                     ==> OsDestroy(w.registry.windowIdToWinit[id]) in added)
  {
    var d := DrainAll(w.registry, w.windows, order, monitors);
    DrainAllRemoved(w.registry, w.windows, order, monitors);
    var drained := WorldState(w.registry, ClearQueues(w.windows), w.events + d.events,
                              w.osCalls + d.calls);
    RemoveAllEffect(drained, d.removed);
    RemoveAllDestroysOnce(drained, d.removed);
    RemoveAllDestroysEach(drained, d.removed);
  }
}
