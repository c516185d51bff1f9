# A model of the wallpaper window backend

The desktop-wallpaper program renders a bevy scene into a native window. That window is
parented to the Windows `WorkerW` window, which sits behind the desktop icons. Two
near-duplicate copies carry the winit window backend: `src/mwinit` and
`src/wallpaper_render_plugin`. Each copy has four parts, and this project models all four in
both copies:

- **The runner frame state machine (`winit_runner_with`).**
  - `WinitPersistentState` holds `active`, `low_power_event`, `redraw_request_sent`,
    `timeout_reached` and `last_update`.
  - The handler closure updates these fields one event at a time.
  - At `MainEventsCleared` it decides whether to run `app.update()`.
  - At `RedrawEventsCleared` it leaves a `ControlFlow` directive.
  - Each copy's runner is a class, `MwinitRunner.WinitRunner` and
    `WallpaperRunner.WinitRunner`, with one method per event kind.
  - The pure decisions are functions in `UpdatePolicy`.
  - Instants are `nat` ticks.
  - `update_mode(focused)` is any pair of modes, one per focus value (`WinitSettings`).
  - The unread `RequestRedraw` and `AppExit` events are booleans passed in.
- **Window-event dispatch.**
  - The handler routes a winit window event through `get_window_id` and then
    `Windows::get_mut`, and drops it when either lookup fails (`WindowWorld.Route`).
  - A routed event sets the low-power flag and then runs one arm of the event match.
  - `MwinitSpec.DispatchWindowEvent`, `WallpaperSpec.DispatchWindowEvent`: each arm stores
    the new value in the engine window and then sends one engine event.
  - Every engine event goes into one log, in sending order.
- **The `change_window` system.**
  - It drains every window's command queue in the order `windows.iter_mut()` visits them.
    That order is the parameter `order`.
  - Every call on a native window goes into an abstract call log (`OsCall`).
  - In `mwinit`, a `Close` ends the window's drain and queues the window for removal. The
    removal loop then drops the native window (logged as `OsDestroy`), removes the engine
    window and sends one `WindowClosed`.
  - In `wallpaper_render_plugin`, `Close` falls to the catch-all, and `SetPosition` places
    the window relative to a selected monitor.
- **The `WinitWindows` registry and `handle_create_window_events`.**
  - The registry has three maps (`Registry.RegistryState`), and each copy has a class with
    the source's methods.
  - `create_window` keys every insert by the parent handle reinterpreted as a winit id, so
    every window created under the same parent handle shares a single key. In `mwinit` that
    handle is the one value `WORKER_W`. The wallpaper copy asks `get_workerw()` again on
    every creation, and the model takes every such call to return the same handle.
    Consequently, in that copy, the shared key and the two results below hold only under
    that assumption.
  - `mwinit`'s `remove_window` keeps the reverse entry as a tombstone. The wallpaper copy
    has no removal.
- **Video-mode selection.**
  - `get_fitting_videomode`, `get_best_videomode` and `abs_diff` are lexicographic
    choices of a best element.

Two consequences of the shared key are proved, for windows created under one parent
handle:

- **Displaced windows.** Each creation after the first displaces the earlier native window,
  and dropping that window closes it (`WindowWorld.CreateAllSharedKey`).
- **Routing.** Once windows exist, the only winit id the reverse map knows is the parent's
  (`WindowWorld.CreateAllRoutesOnlyParent`). A window event carrying any other winit id is
  dropped.

Where a runner needs to see a whole step, the step is a function of the old state
(`WindowWorld.CreateAll`, `MwinitSpec.ChangeWindow`, `WallpaperSpec.ChangeWindow`), and
the lemmas are proved about those functions. `Copies` states how the two copies differ.

## Model

| member | source | states |
|---|---|---|
| WinitTypes.WinitIdOfHandle | src/mwinit/winit_windows.rs:36 | the winit id made from a handle carries the handle's raw value unchanged |
| WinitTypes.AnyFocused | src/mwinit/mod.rs:279 | the definition of `windows.iter().any(|w| w.is_focused())` as an `exists` over the map; its ensures spell out the two directions: true when some engine window has focus, false when none has, in particular when there are no windows |
| WinitTypes.WinitIdOfHandleInjective | src/mwinit/winit_windows.rs:36 | reinterpreting a handle as a winit id keeps its bits, so two handles give the same id exactly when they are the same handle |
| WinitTypes.NewWindow | src/mwinit/winit_windows.rs:41-60 | the engine window built for a request has the request's id and descriptor, the native window's inner size, scale factor and position as the OS reports them, starts focused, and has no queued commands |
| VideoModes.AbsDiff | src/mwinit/winit_windows.rs:87-92 | the result is the distance between the two `u32`s, a `u32` itself: adding it to the smaller gives the larger, so the subtraction never underflows |
| VideoModes.AbsDiffSymmetric | src/wallpaper_render_plugin/winit_windows.rs:81-86 | `abs_diff` is symmetric and is zero exactly on equal arguments |
| VideoModes.CompareFitting | src/mwinit/winit_windows.rs:94-105 | two modes tie exactly when their width distances, height distances and refresh rates are equal; a mode strictly closer in width always sorts first |
| VideoModes.CompareBest | src/mwinit/winit_windows.rs:112-121 | two modes tie exactly when width, height and refresh rate are equal; a wider mode always sorts first |
| VideoModes.CompareFittingIsKeyOrder | src/mwinit/winit_windows.rs:94-105 | the fitting comparator says Less (Greater) exactly when the key (width distance, height distance, negated refresh) of the first mode is lexicographically smaller (larger) |
| VideoModes.CompareBestIsKeyOrder | src/mwinit/winit_windows.rs:112-121 | the best-mode comparator says Less (Greater) exactly when the key (negated width, height, refresh) of the first mode is lexicographically smaller (larger) |
| VideoModes.FirstLeastIndex | src/mwinit/winit_windows.rs:94-107 | the position a stable sort puts first: no key is smaller, and every earlier key is strictly larger |
| VideoModes.FirstLeast | src/mwinit/winit_windows.rs:94-107 | the one-pass loop finds that same position |
| VideoModes.FittingVideoMode | src/mwinit/winit_windows.rs:80-108 | on a non-empty list the mode chosen is a member, no mode compares before it, and every earlier mode compares after it |
| VideoModes.BestVideoMode | src/mwinit/winit_windows.rs:110-124 | on a non-empty list the mode chosen is a member, no mode compares before it, and every earlier mode compares after it |
| VideoModes.GetFittingVideoMode | src/mwinit/winit_windows.rs:80-108 | on a non-empty list (the source unwraps) the result is a member, no mode compares before it, and every earlier mode compares after it, i.e. it is the first element of the stable sort |
| VideoModes.GetBestVideoMode | src/mwinit/winit_windows.rs:110-124 | on a non-empty list the result is a member, no mode compares before it, and every earlier mode compares after it |
| VideoModes.FittingIsClosest | src/wallpaper_render_plugin/winit_windows.rs:88-104 | the fitting mode minimises the width distance, then the height distance among those as close in width, then maximises the refresh rate among those as close in both |
| VideoModes.BestIsLargest | src/wallpaper_render_plugin/winit_windows.rs:106-122 | the best mode is the widest, the tallest among the widest, and the fastest among those |
| VideoModes.FittingVideoModeIsClosest | src/mwinit/winit_windows.rs:80-108 | the mode `FittingVideoMode` chooses is the closest in width, then in height, then the fastest |
| VideoModes.BestVideoModeIsLargest | src/mwinit/winit_windows.rs:110-124 | the mode `BestVideoMode` chooses is the widest, then the tallest, then the fastest |
| Registry.GetWindow | src/mwinit/winit_windows.rs:63-67 | an id without a forward entry finds nothing; an id with one finds the native window stored under its key, or nothing when that key holds none (a removed sharer) |
| Registry.GetWindowId | src/mwinit/winit_windows.rs:69-71 | a winit id finds an engine id exactly when the reverse map holds it, and then the one stored there |
| Registry.Insert | src/mwinit/winit_windows.rs:36-51 | after the three inserts the new id resolves to the new native window and the key to the new id; other keys and ids not sharing the key resolve as before; the native window previously under the key is handed back as displaced |
| Registry.Remove | src/mwinit/winit_windows.rs:73-77 | an unknown id changes nothing and returns None; a known id loses its forward entry, the native-window store loses exactly that id's key and keeps every other key's window, the reverse map is unchanged, and the native window `get_window` found is returned |
| Registry.SecondCreateOverwrites | src/mwinit/winit_windows.rs:38-51 | a second creation under the shared key takes over the reverse entry and the native slot, displaces the first native window, and makes the first id resolve to the second native window |
| Registry.CreateThenRemoveLeavesTombstone | src/mwinit/winit_windows.rs:73-77 | after creating and removing an id, `get_window(id)` is None while `get_window_id(key)` is still that id, and the created native window is returned |
| Registry.RemoveTwiceReturnsNothing | src/mwinit/winit_windows.rs:74 | a second removal of the same id returns nothing and changes nothing |
| Registry.RemoveStrandsSharers | src/mwinit/winit_windows.rs:74-76 | removing one id leaves every other id sharing its key with a forward entry but no native window |
| UpdatePolicy.DurationSince | src/mwinit/mod.rs:290 | `duration_since` is the elapsed ticks, saturating at zero |
| UpdatePolicy.TimeoutReached | src/mwinit/mod.rs:284-295 | a timeout is reached when winit resumed for a passed deadline, or, in a reactive mode, when at least `max_wait` ticks passed since the last update; in `Continuous` mode only the first reason counts |
| UpdatePolicy.ShouldUpdate | src/mwinit/mod.rs:447-462 | no update while inactive; always while active under `Continuous` or `Reactive`; under `ReactiveLowPower` exactly when one of the three flags is set |
| UpdatePolicy.BaseControlFlow | src/mwinit/mod.rs:475-480 | the directive is `Poll` exactly for `Continuous`, otherwise `WaitUntil(now + max_wait)` |
| UpdatePolicy.FinalControlFlow | src/mwinit/mod.rs:468-497 | an unread exit wins with `Exit`, else an unread redraw gives `Poll`, else the mode's directive; never `Wait`, and a deadline is never before now |
| UpdatePolicy.LowPowerIdleWaitsForTimeout | src/mwinit/mod.rs:284-295 | in low-power mode with no event, redraw or passed deadline, the frame updates exactly when `max_wait` ticks have passed since the last update |
| UpdatePolicy.ContinuousAlwaysUpdates | src/mwinit/mod.rs:450-454 | under `Continuous` an active runner updates on every frame |
| WindowWorld.CreateOne | src/mwinit/mod.rs:521-529 | afterwards the request's id finds the new native window and the key finds the id; the key joins the native-window store; the id's engine window is `NewWindow` of the request and of what the OS reported and every other window is unchanged; one `WindowCreated` is sent; and one `OsDestroy` is logged exactly when the key already held a native window |
| WindowWorld.CreateAll | src/mwinit/mod.rs:520-530 | after one or more requests the last one's id finds the new native window; one event is sent per request; at most one `OsDestroy` per request is appended to the calls |
| WindowWorld.CreateAllEvents | src/mwinit/mod.rs:520-530 | each unread request, in order, yields exactly one `WindowCreated` with its id, appended to the events sent before |
| WindowWorld.CreateAllWindows | src/mwinit/mod.rs:520-530 | afterwards `Windows` holds the old windows plus one per requested id, with that id and an empty queue; windows not requested are unchanged |
| WindowWorld.CreateAllBuildsWindows | src/mwinit/winit_windows.rs:41-60 | every requested id's engine window is `Window::new` of a request for that id and of what the OS reported |
| WindowWorld.CreateAllForward | src/mwinit/winit_windows.rs:21-61 | afterwards the forward map holds the old ids plus every requested id, and every requested id maps to the shared key |
| WindowWorld.CreateAllSharedKey | src/mwinit/winit_windows.rs:36-51 | after one or more creations the shared key's reverse entry names the last request, the native slot holds the last native window, and each creation that found the slot occupied closed the native window there, one `OsDestroy` each |
| WindowWorld.CreateAllRoutesOnlyParent | src/wallpaper_render_plugin/winit_windows.rs:35-38 | creating windows into a registry with an empty reverse map leaves exactly one routable winit id: the parent's |
| WindowWorld.CreateAllKeepsEntries | src/wallpaper_render_plugin/winit_windows.rs:19-72 | creation unmaps nothing: every id, key, native window and engine window present before is still present, and events are only appended |
| WindowWorld.Route | src/mwinit/mod.rs:305-322 | an event is routed exactly when the reverse map knows its winit id and `Windows` still holds that engine window; then it goes to that window |
| WindowWorld.Target | src/mwinit/winit_windows.rs:63-67 | a command has a native window exactly when `get_window` finds one, and then targets the key of the forward entry |
| WindowWorld.FullscreenFor | src/mwinit/mod.rs:63-87 | `Windowed` asks for no fullscreen and `BorderlessFullscreen` for borderless; `Fullscreen` asks for exclusive mode in `get_best_videomode` of the current monitor, `SizedFullscreen` in its `get_fitting_videomode` for the requested size; either is a mode of that monitor |
| WindowWorld.FullscreenModeChoice | src/mwinit/mod.rs:73-84 | `Fullscreen` takes the current monitor's widest mode, the tallest among those; `SizedFullscreen` takes its mode closest in width to the request, the closest in height among those |
| WindowWorld.ClearQueues | src/mwinit/mod.rs:61 | draining leaves every engine window with an empty queue and otherwise unchanged |
| MwinitWindows.Build | src/mwinit/winit_windows.rs:27-35 | the native window is parented to `WORKER_W`, always on top, maximized, with decorations |
| MwinitWindows.WinitWindows.constructor | src/mwinit/winit_windows.rs:9-18 | a new registry has three empty maps |
| MwinitWindows.WinitWindows.CreateWindow | src/mwinit/winit_windows.rs:21-61 | the three maps become those of `Registry.Insert` under the parent's key, the displaced native window is returned, and the engine window is `Window::new` of what the OS reports |
| MwinitWindows.WinitWindows.GetWindow | src/mwinit/winit_windows.rs:63-67 | Some exactly when the forward map knows the id and the store holds its key, and then that native window |
| MwinitWindows.WinitWindows.GetWindowId | src/mwinit/winit_windows.rs:69-71 | exactly the reverse-map lookup |
| MwinitWindows.WinitWindows.RemoveWindow | src/mwinit/winit_windows.rs:73-77 | the maps become those of `Registry.Remove` and the removed native window is returned |
| WallpaperWindows.Build | src/wallpaper_render_plugin/winit_windows.rs:26-34 | the native window is parented to `get_workerw()`, always on top, maximized and without decorations |
| WallpaperWindows.WinitWindows.constructor | src/wallpaper_render_plugin/winit_windows.rs:8-17 | a new registry has three empty maps |
| WallpaperWindows.WinitWindows.CreateWindow | src/wallpaper_render_plugin/winit_windows.rs:20-61 | the three maps become those of `Registry.Insert` under the parent's key, the displaced native window is returned, and the engine window is `Window::new` of what the OS reports |
| WallpaperWindows.WinitWindows.GetWindow | src/wallpaper_render_plugin/winit_windows.rs:63-67 | Some exactly when the forward map knows the id and the store holds its key, and then that native window |
| WallpaperWindows.WinitWindows.GetWindowId | src/wallpaper_render_plugin/winit_windows.rs:69-71 | exactly the reverse-map lookup |
| WallpaperWindows.CreateOnlyGrows | src/wallpaper_render_plugin/winit_windows.rs:19-72 | with no removal, a creation keeps every key of the three maps, and every lookup that succeeded still succeeds |
| MwinitSpec.DispatchWindowEvent | src/mwinit/mod.rs:326-424 | a routed event sends at most one engine event, about the routed window, and never changes the window's id, descriptor or command queue |
| MwinitSpec.DispatchSendsOne | src/mwinit/mod.rs:326-424 | every handled kind sends exactly one event, about the routed window; the ignored kinds send none and leave the window alone; no event changes the window's id, descriptor or queue |
| MwinitSpec.DispatchStoresThenSends | src/mwinit/mod.rs:326-334 | `Resized`, `Focused` and `Moved` store the new value in the window, and the one event sent carries the stored value |
| MwinitSpec.CommandEffect | src/mwinit/mod.rs:62-151 | an arm that unwraps the native window makes exactly one call, on that window; `SetScaleFactor` sends only one `WindowScaleFactorChanged` with its id and factor; `SetPresentMode` and the catch-all do nothing |
| MwinitSpec.FirstClose | src/mwinit/mod.rs:142-148 | the position of the first `Close` in a queue, or its length |
| MwinitSpec.Executed | src/mwinit/mod.rs:61-148 | the commands that run are a prefix of the queue, hold no `Close`, and are shorter than the queue exactly when it holds a `Close` |
| MwinitSpec.CloseSkipsRest | src/mwinit/mod.rs:142-148 | whatever follows the first `Close` never runs |
| MwinitSpec.EffectsShape | src/mwinit/mod.rs:59-153 | draining a queue makes at most one call per command, all on the window's own native window, and sends only scale-factor changes for that window |
| MwinitSpec.DrainPrefixRemoved | src/mwinit/mod.rs:58-153 | after any number of visits, the removal queue holds exactly the visited windows whose queue contains a `Close`, each once |
| MwinitSpec.DrainAllRemoved | src/mwinit/mod.rs:58-153 | after the drain loop, the removal queue holds exactly the windows whose queue contains a `Close`, each once |
| MwinitSpec.RemoveOne | src/mwinit/mod.rs:156-162 | one removal: the window leaves `Windows` and resolves to no native window, every other engine window is unchanged, the id loses only its own forward entry, the store loses only that id's key, one `WindowClosed` is sent, the reverse map is kept, and one `OsDestroy` of its key is logged exactly when `get_window` found a native window for it |
| MwinitSpec.RemoveAll | src/mwinit/mod.rs:155-163 | the removal loop removes windows and adds none, sends one event per queued id, and only appends calls, at most one per queued id |
| MwinitSpec.RemoveAllEffect | src/mwinit/mod.rs:155-163 | after the removal loop the queued windows are gone from `Windows` and resolve to no native window, all others are unchanged, one `WindowClosed` per queued id was sent in queue order, and the reverse map is unchanged |
| MwinitSpec.RemoveAllDestroysOnce | src/mwinit/mod.rs:155-163 | the removal loop only adds `OsDestroy` calls, on keys that held a native window and no longer do, and no two alike: each native window is closed at most once |
| MwinitSpec.RemoveAllDestroysEach | src/mwinit/mod.rs:155-163 | the removal loop closes at least once every native window it takes out of the store, and in particular the one `get_window` found for each queued id; every queued id loses its forward entry, and no other forward entry is removed or changed |
| MwinitSpec.ChangeWindow | src/mwinit/mod.rs:52-164 | `change_window` removes windows and adds none, and only appends events and calls |
| MwinitSpec.ChangeWindowOutcome | src/mwinit/mod.rs:52-164 | a window survives `change_window` exactly when its queue held no `Close`; survivors keep everything but their queue, which is emptied; closed windows resolve to no native window; the events are the drain's followed by one `WindowClosed` per closed window; the reverse map keeps every entry; after the drain's calls, the removal loop logs `OsDestroy` for the native window of every closed window that had one, never twice for the same window, and nothing else |
| MwinitRunner.WinitRunner.constructor | src/mwinit/mod.rs:237-247 | the runner starts active with the other three flags false, `last_update` at the start instant, and an empty registry and world |
| MwinitRunner.WinitRunner.OnNewEvents | src/mwinit/mod.rs:276-296 | the low-power flag is reset and `timeout_reached` is `TimeoutReached` of the start cause and the elapsed ticks |
| MwinitRunner.WinitRunner.OnWindowEvent | src/mwinit/mod.rs:297-426 | an unrouted event changes nothing; a routed one sets the low-power flag, replaces the routed window by the arm's window, and appends the arm's events |
| MwinitRunner.WinitRunner.OnDeviceEvent | src/mwinit/mod.rs:427-435 | raw mouse motion sends one `MouseMotion` with its delta; any other device event changes nothing |
| MwinitRunner.WinitRunner.OnSuspended | src/mwinit/mod.rs:436-438 | the runner becomes inactive |
| MwinitRunner.WinitRunner.OnResumed | src/mwinit/mod.rs:439-441 | the runner becomes active |
| MwinitRunner.WinitRunner.CreateFromRequest | src/mwinit/mod.rs:521-529 | one iteration: the world becomes `CreateOne` of the request under the parent's key |
| MwinitRunner.WinitRunner.HandleCreateWindowEvents | src/mwinit/mod.rs:510-531 | the world becomes `CreateAll` of the unread requests in order, and the reader is past all of them |
| MwinitRunner.WinitRunner.OnMainEventsCleared | src/mwinit/mod.rs:442-467 | the requested windows are created first; the decision is `ShouldUpdate` of the flags and the mode for the windows after creation; `last_update` becomes now and `app.update()` runs once exactly when updating |
| MwinitRunner.WinitRunner.OnRedrawEventsCleared | src/mwinit/mod.rs:468-498 | the directive is `FinalControlFlow` of the mode, the unread redraw and the unread exit, and `redraw_request_sent` becomes whether a redraw was unread |
| MwinitRunner.WinitRunner.ExecuteCommand | src/mwinit/mod.rs:62-151 | one command appends exactly `CommandEffect`'s calls and events |
| MwinitRunner.WinitRunner.DrainCommands | src/mwinit/mod.rs:61-152 | the loop appends the effects of exactly the commands before the first `Close`, and reports whether a `Close` was met |
| MwinitRunner.WinitRunner.VisitWindow | src/mwinit/mod.rs:59-153 | one visit appends that window's drain, empties its queue, and queues it for removal exactly when the drain reports a `Close` |
| MwinitRunner.WinitRunner.DrainWindows | src/mwinit/mod.rs:58-153 | the first loop empties every queue, appends `DrainAll`'s calls and events, and returns its removal queue |
| MwinitRunner.WinitRunner.RemoveClosedWindow | src/mwinit/mod.rs:156-162 | one removal iteration: the world becomes `RemoveOne` of the id |
| MwinitRunner.WinitRunner.SendCreateWindow | src/mwinit/mod.rs:516-520 | a `CreateWindow` sent by another system joins the end of the requests the reader has not yet read |
| MwinitRunner.WinitRunner.PushCommand | src/mwinit/mod.rs:59-61 | a command queued on a window goes to the end of that window's queue, which the drain reads in order; no other window changes |
| MwinitRunner.WinitRunner.RemoveClosedWindows | src/mwinit/mod.rs:155-163 | the removal loop: the world becomes `RemoveAll` of the removal queue, one `RemoveOne` per id in queue order |
| MwinitRunner.WinitRunner.ChangeWindow | src/mwinit/mod.rs:52-164 | the world becomes `MwinitSpec.ChangeWindow` of the old world, whose outcome `ChangeWindowOutcome` states |
| WallpaperSpec.DispatchWindowEvent | src/wallpaper_render_plugin/mod.rs:325-414 | a routed event sends at most one engine event, about the routed window, and never changes the window's id, descriptor or command queue |
| WallpaperSpec.DispatchSendsOne | src/wallpaper_render_plugin/mod.rs:325-414 | every handled kind sends exactly one event, about the routed window; a cursor move and the other unlisted kinds send none and leave the window alone |
| WallpaperSpec.SelectedMonitor | src/wallpaper_render_plugin/mod.rs:127-131 | the current monitor, the primary one, or the `n`-th available one, which exists exactly when `n` is below their number |
| WallpaperSpec.CommandEffect | src/wallpaper_render_plugin/mod.rs:56-160 | an arm that unwraps the native window makes exactly one call, on that window, except a `SetPosition` whose monitor is missing; a positioned window moves to the monitor's position plus the requested offset; `SetScaleFactor` sends only its `WindowScaleFactorChanged`; `SetPresentMode`, `Close` and the catch-all do nothing |
| WallpaperSpec.EffectsShape | src/wallpaper_render_plugin/mod.rs:53-163 | draining a queue makes at most one call per command, all on the window's own native window, and sends only scale-factor changes for that window |
| WallpaperSpec.EffectsAppend | src/wallpaper_render_plugin/mod.rs:55-162 | the drain of a queue in two parts is the drain of the first part followed by that of the second |
| WallpaperSpec.CloseChangesNothing | src/wallpaper_render_plugin/mod.rs:158-160 | a `Close` anywhere in a queue has no effect: the queue drains as if it were absent, and the commands after it still run |
| WallpaperSpec.DrainPrefixShape | src/wallpaper_render_plugin/mod.rs:53-163 | after any number of visits every call is on the native window of a visited window and every event is a scale-factor change of a visited window |
| WallpaperSpec.ChangeWindow | src/wallpaper_render_plugin/mod.rs:48-164 | `change_window` leaves the registry as it was, keeps every window with an emptied queue, and only appends events and calls |
| WallpaperSpec.ChangeWindowOutcome | src/wallpaper_render_plugin/mod.rs:48-164 | `change_window` leaves the registry untouched, keeps every window (a `Close` included) with only its queue emptied, only appends calls and events, and the added events are scale-factor changes for windows in `Windows` |
| WallpaperRunner.WinitRunner.constructor | src/wallpaper_render_plugin/mod.rs:237-247 | the runner starts active with the other three flags false, `last_update` at the start instant, and an empty registry and world |
| WallpaperRunner.WinitRunner.OnNewEvents | src/wallpaper_render_plugin/mod.rs:276-296 | the low-power flag is reset and `timeout_reached` is `TimeoutReached` of the start cause and the elapsed ticks |
| WallpaperRunner.WinitRunner.OnWindowEvent | src/wallpaper_render_plugin/mod.rs:297-415 | an unrouted event changes nothing; a routed one sets the low-power flag, replaces the routed window by the arm's window, and appends the arm's events |
| WallpaperRunner.WinitRunner.OnSuspended | src/wallpaper_render_plugin/mod.rs:416-418 | the runner becomes inactive |
| WallpaperRunner.WinitRunner.OnResumed | src/wallpaper_render_plugin/mod.rs:419-421 | the runner becomes active |
| WallpaperRunner.WinitRunner.CreateFromRequest | src/wallpaper_render_plugin/mod.rs:501-509 | one iteration: the world becomes `CreateOne` of the request under the parent's key |
| WallpaperRunner.WinitRunner.HandleCreateWindowEvents | src/wallpaper_render_plugin/mod.rs:490-511 | the world becomes `CreateAll` of the unread requests in order, and the reader is past all of them |
| WallpaperRunner.WinitRunner.OnMainEventsCleared | src/wallpaper_render_plugin/mod.rs:422-447 | the requested windows are created first; the decision is `ShouldUpdate` of the flags and the mode; `last_update` becomes now and `app.update()` runs once exactly when updating |
| WallpaperRunner.WinitRunner.OnRedrawEventsCleared | src/wallpaper_render_plugin/mod.rs:448-478 | the directive is `FinalControlFlow` of the mode, the unread redraw and the unread exit, and `redraw_request_sent` becomes whether a redraw was unread |
| WallpaperRunner.WinitRunner.ExecuteCommand | src/wallpaper_render_plugin/mod.rs:56-160 | one command appends exactly `CommandEffect`'s calls and events |
| WallpaperRunner.WinitRunner.DrainCommands | src/wallpaper_render_plugin/mod.rs:55-162 | the loop appends the effects of every command of the queue, in order |
| WallpaperRunner.WinitRunner.VisitWindow | src/wallpaper_render_plugin/mod.rs:53-163 | one visit appends that window's drain and empties its queue |
| WallpaperRunner.WinitRunner.SendCreateWindow | src/wallpaper_render_plugin/mod.rs:496-500 | a `CreateWindow` sent by another system joins the end of the requests the reader has not yet read |
| WallpaperRunner.WinitRunner.PushCommand | src/wallpaper_render_plugin/mod.rs:52-54 | a command queued on a window goes to the end of that window's queue, which the drain reads in order; no other window changes |
| WallpaperRunner.WinitRunner.ChangeWindow | src/wallpaper_render_plugin/mod.rs:48-164 | the world becomes `WallpaperSpec.ChangeWindow` of the old world, whose outcome `ChangeWindowOutcome` states |
| Copies.BuildDiffersInDecorations | src/wallpaper_render_plugin/winit_windows.rs:27-34 | the two copies build the same native window under the same parent except that the wallpaper copy turns decorations off |
| Copies.DispatchDiffersOnlyOnCursor | src/wallpaper_render_plugin/mod.rs:325-414 | the two copies dispatch every window event alike except a cursor move, which `mwinit` reports as one `CursorMoved` and the wallpaper copy ignores |

## Left out

- `src/wallpaper_render_plugin/windows_voodoo.rs` (finding `WorkerW` through Win32 calls)
  is not part of this model. The parent handle is an input, `workerW`.
- WallpaperWindows.WinitWindows.CreateWindow: the source calls `get_workerw()` on every
  creation, and that search can find a different `WorkerW` each time. The model takes one
  handle per runner, so `WindowWorld.CreateAllSharedKey` and
  `WindowWorld.CreateAllRoutesOnlyParent` cover this copy only when every search returns the
  same handle.
- `src/main.rs` is not part of this model: scene setup, plugin wiring and the alternate
  runner. `src/mwinit/winit_windows.rs:7` imports `WORKER_W` and `RAW_HANDLE` from the
  crate root, but `src/main.rs` declares `mod mwinit` and neither static, so the model
  takes the handle as an input.
- `Plugin::build`, `run`, `run_return` and the winit event loop are not modelled. Each
  handler arm is a method that a caller invokes in any order.
- Floating-point geometry is left out:
  - Sizes are physical pixels. `WindowResized` carries the stored physical size rather than
    the logical `width()`/`height()`.
  - A cursor event carries no position.
- MwinitSpec.DispatchWindowEvent: the `ScaleFactorChanged` arm stores the factor and sends
  the `WindowBackendScaleFactorChanged`. The model does not include the scale-factor
  override, the `relative_ne!` comparisons, or the `WindowScaleFactorChanged` and
  `WindowResized` events the source may send after it. With an override set, the source
  also rewrites `*new_inner_size` to the requested logical size converted with the override
  factor (src/mwinit/mod.rs:370-379),
  and the arm ends by storing `new_inner_size` as the window's physical size
  (src/mwinit/mod.rs:402-405). The model leaves `physicalWidth` and `physicalHeight`
  unchanged in this arm.
- MwinitSpec.DispatchSendsOne: "exactly one event" holds for `ScaleFactorChanged` only
  because of the simplification above. The source can send up to three events there.
- WallpaperSpec.DispatchWindowEvent: the same simplification of the `ScaleFactorChanged`
  arm. That arm too ends by storing `new_inner_size` as the physical size
  (src/wallpaper_render_plugin/mod.rs:390-393), which the model leaves unchanged.
- WallpaperSpec.DispatchSendsOne: the same caveat as for the `mwinit` copy.
- MwinitSpec.CommandEffect: `SetResolution` and `SetResizeConstraints` are logged as one
  call with their float arguments. The model does not include the logical-size conversion,
  the separate min/max setter calls, or the `is_finite` test that decides whether the
  maximum is set.
- WallpaperSpec.CommandEffect: the same abstraction of `SetResolution` and
  `SetResizeConstraints`. The `SetPosition` offset is added in integers, not as `f64`
  logical coordinates.
- `sort_by` followed by `first()` is modelled as a one-pass search for the element that a
  stable sort puts first. The in-place sort of a local `Vec` is not modelled. Both give the
  same result.
- The native-window builder is not modelled. `.expect("can create window")` is taken never
  to fail, and `Window::new` starts focused.
- Each call reads one `Observed` value: what the OS reports about a freshly built window.
- Each call receives one `Monitors` value: the monitors a window can see.
- Unwraps that can panic are preconditions rather than error results, because the source
  does not handle the `None` case:
  - `get_window(id).unwrap()` in a command arm and in the `CursorMoved` arm (`Runnable`,
    `CursorEventRunnable`);
  - `current_monitor().unwrap()` for the exclusive fullscreen modes;
  - `modes.first().unwrap()`.
- Dropping a native window is logged as `OsDestroy`. The core drops a native window in
  two places, and the model logs both:
  - the window `remove_window` returns;
  - the window displaced by `create_window`'s insert.
- Logging (`println!`, `warn!`, `info!`, `trace!`) is not modelled.
- The ECS `Events` double buffer is not modelled. Sent events form one log in sending
  order, and the `CreateWindow` reader is a cursor into the list of requests. The unread
  `RequestRedraw` and `AppExit` checks are booleans passed in.
- `Instant::now()` is the parameter `now`, in ticks. `last_update` is set to the `now` of
  the `MainEventsCleared` call.
- In the wallpaper copy, device events reach the handler's catch-all and change nothing, so
  that copy's runner has no method for them.
