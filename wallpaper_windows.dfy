/** The `WinitWindows` registry of the `wallpaper_render_plugin` copy: the same three maps as
    the `mwinit` copy, with `create_window` and the two lookups but no removal. The parent
    handle (the result of `get_workerw()`) is an input: the code that finds it talks to the OS
    and is not part of this model. */
module WallpaperWindows {
  import opened WinitTypes
  import Registry

  /** The native window `create_window` builds under `parent`: always on top, maximized, and
      without decorations. */
  function Build(parent: Hwnd): (w: OsWindow)
    ensures w.parent == parent && w.alwaysOnTop && w.maximized && !w.decorations
  {
    OsWindow(parent, true, true, false)
  }

  class WinitWindows {
    var windows: map<WinitId, OsWindow>
    var windowIdToWinit: map<WindowId, WinitId>
    var winitToWindowId: map<WinitId, WindowId>

    /** The three maps as one value. */
    function State(): Registry.RegistryState
      reads this
    {
      Registry.RegistryState(windows, windowIdToWinit, winitToWindowId)
    }

    /** `WinitWindows::default()`: all three maps empty. */
    constructor ()
      ensures State() == Registry.Empty
    {
      windows := map[];
      windowIdToWinit := map[];
      winitToWindowId := map[];
    }

    /** `create_window`: as in the `mwinit` copy, every insert is keyed by the parent handle
        reinterpreted as a winit id; `displaced` is the native window the insert into
        `windows` replaced, which the source drops (and so closes). */
    method CreateWindow<C>(workerW: Hwnd, req: CreateWindow, obs: Observed)
      returns (window: Window<C>, displaced: Option<OsWindow>)
      modifies this
      ensures var ins := Registry.Insert(old(State()), req.id, WinitIdOfHandle(workerW), Build(workerW));
              State() == ins.state && displaced == ins.displaced
      ensures window == NewWindow(req, obs)
    {
      var winitWindow := Build(workerW);
      var winitId := WinitIdOfHandle(workerW);
      windowIdToWinit := windowIdToWinit[req.id := winitId];
      winitToWindowId := winitToWindowId[winitId := req.id];
      displaced := if winitId in windows then Some(windows[winitId]) else None;
      windows := windows[winitId := winitWindow];
      window := NewWindow(req, obs);
    }

    /** `get_window(id)`: a native window exactly when the forward map knows `id` and the
        store holds a window under its key; then it is that window. */
    function GetWindow(id: WindowId): (r: Option<OsWindow>)
      reads this
      ensures r.Some? <==> id in windowIdToWinit && windowIdToWinit[id] in windows
      ensures r.Some? ==> r.value == windows[windowIdToWinit[id]]
      ensures r == Registry.GetWindow(State(), id)
    {
      if id in windowIdToWinit && windowIdToWinit[id] in windows
      then Some(windows[windowIdToWinit[id]])
      else None
    }

    /** `get_window_id(key)`: exactly the reverse-map entry. */
    function GetWindowId(key: WinitId): (r: Option<WindowId>)
      reads this
      ensures r.Some? <==> key in winitToWindowId
      ensures r.Some? ==> r.value == winitToWindowId[key]
      ensures r == Registry.GetWindowId(State(), key)
    {
      if key in winitToWindowId then Some(winitToWindowId[key]) else None
    }
  }

  /** With no removal, the registry only grows: after any creation every engine id and key
      mapped before is still mapped, and a lookup that succeeded still succeeds (possibly
      resolving to the newer native window under the shared key). */
  lemma CreateOnlyGrows(s: Registry.RegistryState, id: WindowId, key: WinitId, parent: Hwnd)
    ensures var r := Registry.Insert(s, id, key, Build(parent)).state;
            && s.windowIdToWinit.Keys <= r.windowIdToWinit.Keys
            && s.winitToWindowId.Keys <= r.winitToWindowId.Keys
            && s.windows.Keys <= r.windows.Keys
            && (forall i :: Registry.GetWindow(s, i).Some? ==> Registry.GetWindow(r, i).Some?)
            && (forall k :: Registry.GetWindowId(s, k).Some? ==> Registry.GetWindowId(r, k).Some?)
  {
  }
}
