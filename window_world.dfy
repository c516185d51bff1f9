/** The part of the application's world the window backend reads and writes, as a value:
    the registry, the engine's `Windows`, the engine events sent so far and the calls made on
    native windows. `handle_create_window_events` is specified here, since both copies share
    it, and so are the other pieces both copies' systems use alike: the routing of a window
    event, the target of a window command, the fullscreen setting of `SetWindowMode`, and the
    emptying of command queues. `C` is the copy's window-command type. */
module WindowWorld {
  import opened WinitTypes
  import Registry
  import VideoModes

  datatype WorldState<C> = WorldState(registry: Registry.RegistryState,
                                      windows: map<WindowId, Window<C>>,
                                      events: seq<EngineEvent>,
                                      osCalls: seq<OsCall>)

  /** Dropping a native window closes it: an `OsDestroy` call when there is one. */
  function DestroyCalls(key: WinitId, dropped: Option<OsWindow>): seq<OsCall>
  {
    if dropped.Some? then [OsDestroy(key)] else []
  }

  /** One iteration of `handle_create_window_events`: `create_window` registers a native
      window `os` under `key` (dropping any native window already there), `windows.add` stores
      the new engine window, and one `WindowCreated` for the request's id is sent. */
  function CreateOne<C>(w: WorldState<C>, req: CreateWindow, key: WinitId, os: OsWindow,
                        obs: Observed): (r: WorldState<C>)
    ensures Registry.GetWindow(r.registry, req.id) == Some(os)
    ensures Registry.GetWindowId(r.registry, key) == Some(req.id)
    ensures r.registry.windows.Keys == w.registry.windows.Keys + {key}
    ensures req.id in r.windows && r.windows[req.id] == NewWindow(req, obs)
    ensures forall id :: id in w.windows && id != req.id ==>
              id in r.windows && r.windows[id] == w.windows[id]
    ensures r.events == w.events + [WindowCreated(req.id)]
    ensures r.osCalls == w.osCalls + (if key in w.registry.windows then [OsDestroy(key)] else [])
  {
    var ins := Registry.Insert(w.registry, req.id, key, os);
    WorldState(ins.state, w.windows[req.id := NewWindow(req, obs)],
               w.events + [WindowCreated(req.id)],
               w.osCalls + DestroyCalls(key, ins.displaced))
  }

  /** All iterations, over the unread requests in the order they were sent. */
  function CreateAll<C>(w: WorldState<C>, reqs: seq<CreateWindow>, key: WinitId, os: OsWindow,
                        obs: Observed): (r: WorldState<C>)
    ensures reqs != [] ==> Registry.GetWindow(r.registry, reqs[|reqs| - 1].id) == Some(os)
    ensures |r.events| == |w.events| + |reqs|
    ensures w.osCalls <= r.osCalls && |r.osCalls| <= |w.osCalls| + |reqs|
  {
    if reqs == [] then w
    else CreateOne(CreateAll(w, reqs[..|reqs| - 1], key, os, obs), reqs[|reqs| - 1], key, os, obs)
  }

  /** One more request is one more iteration. */
  lemma CreateAllStep<C>(w: WorldState<C>, reqs: seq<CreateWindow>, req: CreateWindow,
                         key: WinitId, os: OsWindow, obs: Observed)
    ensures CreateAll(w, reqs + [req], key, os, obs)
            == CreateOne(CreateAll(w, reqs, key, os, obs), req, key, os, obs)
  {
    assert (reqs + [req])[..|reqs|] == reqs;
  }

  function CreatedEvents(reqs: seq<CreateWindow>): (es: seq<EngineEvent>)
    ensures |es| == |reqs|
    ensures forall i :: 0 <= i < |reqs| ==> es[i] == WindowCreated(reqs[i].id)
  {
    seq(|reqs|, i requires 0 <= i < |reqs| => WindowCreated(reqs[i].id))
  }

  function Ids(reqs: seq<CreateWindow>): set<WindowId>
  {
    set i | 0 <= i < |reqs| :: reqs[i].id
  }

  /** Each request, in order, yields exactly one `WindowCreated` carrying its id. */
  lemma {:induction false} CreateAllEvents<C>(w: WorldState<C>, reqs: seq<CreateWindow>,
                                              key: WinitId, os: OsWindow, obs: Observed)
    ensures CreateAll(w, reqs, key, os, obs).events == w.events + CreatedEvents(reqs)
  {
    if reqs != [] {
      var init := reqs[..|reqs| - 1];
      CreateAllEvents(w, init, key, os, obs);
      var p := CreateAll(w, init, key, os, obs);
      var last := reqs[|reqs| - 1];
      CreatedEventsStep(reqs);
      SeqAssoc(w.events, CreatedEvents(init), [WindowCreated(last.id)]);
    }
  }

  /** One more request is one more `WindowCreated`. */
  lemma CreatedEventsStep(reqs: seq<CreateWindow>)
    requires reqs != []
    ensures CreatedEvents(reqs)
            == CreatedEvents(reqs[..|reqs| - 1]) + [WindowCreated(reqs[|reqs| - 1].id)]
  {
    var init := reqs[..|reqs| - 1];
    assert forall i :: 0 <= i < |init| ==> init[i] == reqs[i];
  }

  /** Afterwards every requested id has an engine window for it, with that id and no
      queued commands, and every id not requested keeps its window. */
  lemma {:induction false} CreateAllWindows<C>(w: WorldState<C>, reqs: seq<CreateWindow>,
                                               key: WinitId, os: OsWindow, obs: Observed)
    ensures var r := CreateAll(w, reqs, key, os, obs);
            && r.windows.Keys == w.windows.Keys + Ids(reqs)
            && (forall id :: id in Ids(reqs) ==> r.windows[id].id == id && r.windows[id].commands == [])
            && (forall id :: id in w.windows && id !in Ids(reqs) ==> r.windows[id] == w.windows[id])
  {
    if reqs != [] {
      var init := reqs[..|reqs| - 1];
      CreateAllWindows(w, init, key, os, obs);
      var p := CreateAll(w, init, key, os, obs);
      var last := reqs[|reqs| - 1];
      assert CreateOne(p, last, key, os, obs).windows == p.windows[last.id := NewWindow(last, obs)];
      IdsStep(reqs);
    }
  }

  /** Every requested id's engine window is `Window::new` of one of the requests for that id
      (the last one, when an id is requested twice) and of what the OS reported. */
  lemma {:induction false} CreateAllBuildsWindows<C>(w: WorldState<C>, reqs: seq<CreateWindow>,
                                                     key: WinitId, os: OsWindow, obs: Observed)
    ensures var r := CreateAll(w, reqs, key, os, obs);
            forall id :: id in Ids(reqs) ==>
              id in r.windows
              && exists i :: 0 <= i < |reqs| && reqs[i].id == id && r.windows[id] == NewWindow(reqs[i], obs)
  {
    if reqs != [] {
      var init := reqs[..|reqs| - 1];
      CreateAllBuildsWindows(w, init, key, os, obs);
      var p := CreateAll(w, init, key, os, obs);
      var r := CreateAll(w, reqs, key, os, obs);
      var last := reqs[|reqs| - 1];
      IdsStep(reqs);
      forall id | id in Ids(reqs)
        ensures id in r.windows
                && exists i :: 0 <= i < |reqs| && reqs[i].id == id && r.windows[id] == NewWindow(reqs[i], obs)
      {
        if id == last.id {
          assert reqs[|reqs| - 1].id == id && r.windows[id] == NewWindow(reqs[|reqs| - 1], obs);
        } else {
          var i :| 0 <= i < |init| && init[i].id == id && p.windows[id] == NewWindow(init[i], obs);
          assert reqs[i] == init[i];
        }
      }
    }
  }

  /** Afterwards every requested id maps forward to the shared key. */
  lemma {:induction false} CreateAllForward<C>(w: WorldState<C>, reqs: seq<CreateWindow>,
                                               key: WinitId, os: OsWindow, obs: Observed)
    ensures var r := CreateAll(w, reqs, key, os, obs);
            && r.registry.windowIdToWinit.Keys == w.registry.windowIdToWinit.Keys + Ids(reqs)
            && (forall id :: id in Ids(reqs) ==> r.registry.windowIdToWinit[id] == key)
  {
    if reqs != [] {
      var init := reqs[..|reqs| - 1];
      CreateAllForward(w, init, key, os, obs);
      var p := CreateAll(w, init, key, os, obs);
      var last := reqs[|reqs| - 1];
      assert CreateOne(p, last, key, os, obs).registry.windowIdToWinit
             == p.registry.windowIdToWinit[last.id := key];
      IdsStep(reqs);
    }
  }

  /** The ids of a list of requests are those of all but the last, plus the last one's. */
  lemma IdsStep(reqs: seq<CreateWindow>)
    requires reqs != []
    ensures Ids(reqs) == Ids(reqs[..|reqs| - 1]) + {reqs[|reqs| - 1].id}
  {
    var init := reqs[..|reqs| - 1];
    forall id | id in Ids(reqs) ensures id in Ids(init) + {reqs[|reqs| - 1].id} {
      var i :| 0 <= i < |reqs| && reqs[i].id == id;
      if i < |reqs| - 1 { assert init[i] == reqs[i]; }
    }
    forall id | id in Ids(init) ensures id in Ids(reqs) {
      var i :| 0 <= i < |init| && init[i].id == id;
      assert reqs[i] == init[i];
    }
  }

  /** With at least one request, the reverse entry of the shared key names the LAST
      request, the native-window slot holds the last native window built, and every creation
      except possibly the first displaced (and so closed) the native window before it. */
  lemma {:induction false} CreateAllSharedKey<C>(w: WorldState<C>, reqs: seq<CreateWindow>,
                                                 key: WinitId, os: OsWindow, obs: Observed)
    requires reqs != []
    ensures var r := CreateAll(w, reqs, key, os, obs);
            && Registry.GetWindowId(r.registry, key) == Some(reqs[|reqs| - 1].id)
            && key in r.registry.windows && r.registry.windows[key] == os
            && r.osCalls == w.osCalls + seq(if key in w.registry.windows then |reqs| else |reqs| - 1,
                                            _ => OsDestroy(key))
  {
    var init := reqs[..|reqs| - 1];
    if init != [] {
      CreateAllSharedKey(w, init, key, os, obs);
      var n := if key in w.registry.windows then |init| else |init| - 1;
      assert seq(n, _ => OsDestroy(key)) + [OsDestroy(key)] == seq(n + 1, _ => OsDestroy(key));
    } else {
      assert CreateAll(w, init, key, os, obs) == w;
    }
  }

  /** Every window is registered under the parent's key, so after creating at least one
      window into a registry whose reverse map was empty, the reverse map knows exactly one
      winit id: the parent's. An event that carried any other winit id would be dropped. */
  lemma {:induction false} CreateAllRoutesOnlyParent<C>(w: WorldState<C>, reqs: seq<CreateWindow>,
                                                        key: WinitId, os: OsWindow, obs: Observed)
    requires w.registry.winitToWindowId == map[] && reqs != []
    ensures var r := CreateAll(w, reqs, key, os, obs);
            && r.registry.winitToWindowId.Keys == {key}
            && forall k :: Registry.GetWindowId(r.registry, k).Some? <==> k == key
  {
    var init := reqs[..|reqs| - 1];
    var p := CreateAll(w, init, key, os, obs);
    if init == [] {
      assert p == w;
    } else {
      CreateAllRoutesOnlyParent(w, init, key, os, obs);
    }
    assert p.registry.winitToWindowId.Keys + {key} == {key};
  }

  /** Creation never unmaps anything: every engine id, key and engine window present before
      is still present afterwards (the registry of the wallpaper copy has no removal). */
  lemma {:induction false} CreateAllKeepsEntries<C>(w: WorldState<C>, reqs: seq<CreateWindow>,
                                                    key: WinitId, os: OsWindow, obs: Observed)
    ensures var r := CreateAll(w, reqs, key, os, obs);
            && w.registry.windowIdToWinit.Keys <= r.registry.windowIdToWinit.Keys
            && w.registry.winitToWindowId.Keys <= r.registry.winitToWindowId.Keys
            && w.registry.windows.Keys <= r.registry.windows.Keys
            && w.windows.Keys <= r.windows.Keys
            && w.events <= r.events
  {
    if reqs != [] {
      CreateAllKeepsEntries(w, reqs[..|reqs| - 1], key, os, obs);
    }
  }

  // ---------------------------------------------------------------- shared by both copies' systems

  /** The engine window after a window event and the engine events the arm sends. */
  datatype Dispatched<C> = Dispatched(window: Window<C>, emitted: seq<EngineEvent>)

  /** A window event winit delivers is routed (`get_window_id`, then `Windows::get_mut`)
      only when the reverse map knows its winit id and the engine still has that window. */
  function Route<C>(reg: Registry.RegistryState, windows: map<WindowId, Window<C>>,
                    winitId: WinitId): (r: Option<WindowId>)
    ensures r.Some? <==> winitId in reg.winitToWindowId && reg.winitToWindowId[winitId] in windows
    ensures r.Some? ==> r.value == reg.winitToWindowId[winitId] && r.value in windows
  {
    match Registry.GetWindowId(reg, winitId)
    case None => None
    case Some(id) => if id in windows then Some(id) else None
  }

  /** The winit id of the native window `get_window(id)` finds, if it finds one. */
  function Target(reg: Registry.RegistryState, id: WindowId): (t: Option<WinitId>)
    ensures t.Some? <==> Registry.GetWindow(reg, id).Some?
    ensures t.Some? ==> id in reg.windowIdToWinit && t.value == reg.windowIdToWinit[id]
                        && t.value in reg.windows
  {
    if Registry.GetWindow(reg, id).Some? then Some(reg.windowIdToWinit[id]) else None
  }

  /** The `Fullscreen` setting the `SetWindowMode` arm asks for: none, borderless, the best
      mode of the current monitor, or its mode fitting the requested size. */
  function FullscreenFor(mode: WindowMode, width: U32, height: U32, monitors: Monitors)
    : (f: Option<FullscreenSetting>)
    requires (mode.Fullscreen? || mode.SizedFullscreen?) ==>
               monitors.current.Some? && |monitors.current.value.modes| > 0
    ensures f.None? <==> mode.Windowed?
    ensures mode.BorderlessFullscreen? <==> f == Some(Borderless)
    ensures f.Some? && f.value.Exclusive? ==> f.value.mode in monitors.current.value.modes
    ensures mode.Fullscreen? ==>
              f == Some(Exclusive(VideoModes.BestVideoMode(monitors.current.value.modes)))
    ensures mode.SizedFullscreen? ==>
              f == Some(Exclusive(VideoModes.FittingVideoMode(monitors.current.value.modes,
                                                              width, height)))
  {
    match mode
    case BorderlessFullscreen => Some(Borderless)
    case Fullscreen => Some(Exclusive(VideoModes.BestVideoMode(monitors.current.value.modes)))
    case SizedFullscreen =>
      Some(Exclusive(VideoModes.FittingVideoMode(monitors.current.value.modes, width, height)))
    case Windowed => None
  }

  /** What the exclusive settings mean on the current monitor: `Fullscreen` takes its
      widest, then tallest, then fastest mode; `SizedFullscreen` the mode closest to the
      requested size in width, then in height, then the fastest of those. */
  lemma FullscreenModeChoice(mode: WindowMode, width: U32, height: U32, monitors: Monitors)
    requires (mode.Fullscreen? || mode.SizedFullscreen?)
    requires monitors.current.Some? && |monitors.current.value.modes| > 0
    ensures var f := FullscreenFor(mode, width, height, monitors);
            var modes := monitors.current.value.modes;
            && f.Some? && f.value.Exclusive? && f.value.mode in modes
            && (mode.Fullscreen? ==>
                  && (forall x :: x in modes ==> x.width <= f.value.mode.width)
                  && (forall x :: x in modes && x.width == f.value.mode.width
                        ==> x.height <= f.value.mode.height))
            && (mode.SizedFullscreen? ==>
                  && (forall x :: x in modes ==> VideoModes.AbsDiff(f.value.mode.width, width)
                                                  <= VideoModes.AbsDiff(x.width, width))
                  && (forall x :: x in modes && VideoModes.AbsDiff(x.width, width)
                                                == VideoModes.AbsDiff(f.value.mode.width, width)
                        ==> VideoModes.AbsDiff(f.value.mode.height, height)
                            <= VideoModes.AbsDiff(x.height, height)))
  {
    var modes := monitors.current.value.modes;
    if mode.Fullscreen? {
      VideoModes.BestVideoModeIsLargest(modes);
    } else {
      VideoModes.FittingVideoModeIsClosest(modes, width, height);
    }
  }

  /** The native-window calls and engine events one executed command produces. */
  datatype Effect = Effect(calls: seq<OsCall>, events: seq<EngineEvent>)

  predicate Distinct<T(==)>(s: seq<T>)
  {
    forall i, j :: 0 <= i < j < |s| ==> s[i] != s[j]
  }

  /** The first `n` elements are the first `n - 1` and the `n`-th, which, in a list without
      repetitions, is not among the first `n - 1`. */
  lemma PrefixStep<T>(s: seq<T>, n: nat)
    requires 0 < n <= |s| && Distinct(s)
    ensures forall x :: x in s[..n] <==> x in s[..n - 1] || x == s[n - 1]
    ensures s[n - 1] !in s[..n - 1]
  {
    assert s[..n] == s[..n - 1] + [s[n - 1]];
    var pre := s[..n - 1];
    forall j | 0 <= j < |pre| ensures pre[j] != s[n - 1] {
      assert pre[j] == s[j];
    }
  }

  lemma DistinctAppend<T>(s: seq<T>, x: T)
    requires Distinct(s) && x !in s
    ensures Distinct(s + [x])
  {
  }

  /** Every queue is empty after a drain: `drain_commands` takes every command out of the
      queue, whether or not it then runs. */
  function ClearQueues<C>(windows: map<WindowId, Window<C>>)
    : (r: map<WindowId, Window<C>>)
    ensures r.Keys == windows.Keys
    ensures forall id :: id in r ==> r[id] == windows[id].(commands := [])
  {
    map id | id in windows :: windows[id].(commands := [])
  }

  /** The windows after the drain has visited `visited`: their queues are empty. */
  function ClearQueuesOf<C>(windows: map<WindowId, Window<C>>, visited: seq<WindowId>)
    : map<WindowId, Window<C>>
  {
    map id | id in windows :: if id in visited then windows[id].(commands := []) else windows[id]
  }

  /** One visit of the drain loop clears the visited window's queue, which it finds untouched
      because the order visits each window once. */
  lemma ClearStep<C>(windows: map<WindowId, Window<C>>, order: seq<WindowId>, i: nat)
    requires Distinct(order) && i < |order| && order[i] in windows
    ensures order[i] !in order[..i]
    ensures ClearQueuesOf(windows, order[..i])[order[i]] == windows[order[i]]
    ensures ClearQueuesOf(windows, order[..i + 1])
            == ClearQueuesOf(windows, order[..i])[order[i] := windows[order[i]].(commands := [])]
  {
    assert order[..i + 1] == order[..i] + [order[i]];
    forall j | 0 <= j < i ensures order[..i][j] != order[i] {
      assert order[..i][j] == order[j];
    }
  }

  /** Once every window has been visited, every queue is empty. */
  lemma DrainClearsAll<C>(windows: map<WindowId, Window<C>>, order: seq<WindowId>)
    requires forall id :: id in windows ==> id in order
    ensures ClearQueuesOf(windows, order) == ClearQueues(windows)
  {
  }

  /** `order` visits every window of `Windows` exactly once. */
  predicate IsOrderOf<C>(order: seq<WindowId>, windows: map<WindowId, Window<C>>)
  {
    && Distinct(order)
    && (forall id :: id in windows ==> id in order)
    && (forall i :: 0 <= i < |order| ==> order[i] in windows)
  }

  /** Appending is associative. */
  lemma SeqAssoc<T>(a: seq<T>, b: seq<T>, c: seq<T>)
    ensures a + (b + c) == a + b + c
  {
  }

  /** Extending a slice by one element. */
  lemma SliceStep<T>(s: seq<T>, a: nat, b: nat)
    requires a <= b < |s|
    ensures s[a..b + 1] == s[a..b] + [s[b]]
  {
  }
}
