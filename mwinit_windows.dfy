/** The `WinitWindows` registry of the `mwinit` copy: three maps updated in place, with
    `create_window`, the two lookups and `remove_window`. The parent handle (`WORKER_W`) is
    an input: its value comes from code that is not part of this model. */
module MwinitWindows {
  import opened WinitTypes
  import Registry

  /** The native window `create_window` builds under `parent`: always on top, maximized, and
      with winit's default decorations. */
  function Build(parent: Hwnd): (w: OsWindow)
    ensures w.parent == parent && w.alwaysOnTop && w.maximized && w.decorations
  {
    OsWindow(parent, true, true, true)
  }

  class WinitWindows {
    var windows: map<WinitId, OsWindow>
    var windowIdToWinit: map<WindowId, WinitId>
    var winitToWindowId: map<WinitId, WindowId>

    /** The three maps as one value. */
    function State(): Registry.RegistryState
      reads this
    {
      Registry.RegistryState(windows, windowIdToWinit, winitToWindowId)
    }

    /** `WinitWindows::default()`: all three maps empty. */
    constructor ()
      ensures State() == Registry.Empty
    {
      windows := map[];
      windowIdToWinit := map[];
      winitToWindowId := map[];
    }

    /** `create_window`: builds the native window under the parent handle `workerW`, keys
        all three inserts by that handle reinterpreted as a winit id, and returns the engine
        window built from what the OS reports (`obs`). `displaced` is the native window the
        insert into `windows` replaced; the source drops it, which closes it. */
    method CreateWindow<C>(workerW: Hwnd, req: CreateWindow, obs: Observed)
      returns (window: Window<C>, displaced: Option<OsWindow>)
      modifies this
      ensures var ins := Registry.Insert(old(State()), req.id, WinitIdOfHandle(workerW), Build(workerW));
              State() == ins.state && displaced == ins.displaced
      ensures window == NewWindow(req, obs)
    {
      var winitWindow := Build(workerW);
      var winitId := WinitIdOfHandle(workerW);
      windowIdToWinit := windowIdToWinit[req.id := winitId];
      winitToWindowId := winitToWindowId[winitId := req.id];
      displaced := if winitId in windows then Some(windows[winitId]) else None;
      windows := windows[winitId := winitWindow];
      window := NewWindow(req, obs);
    }

    /** `get_window(id)`: a native window exactly when the forward map knows `id` and the
        store holds a window under its key; then it is that window. */
    function GetWindow(id: WindowId): (r: Option<OsWindow>)
      reads this
      ensures r.Some? <==> id in windowIdToWinit && windowIdToWinit[id] in windows
      ensures r.Some? ==> r.value == windows[windowIdToWinit[id]]
      ensures r == Registry.GetWindow(State(), id)
    {
      if id in windowIdToWinit && windowIdToWinit[id] in windows
      then Some(windows[windowIdToWinit[id]])
      else None
    }

    /** `get_window_id(key)`: exactly the reverse-map entry. */
    function GetWindowId(key: WinitId): (r: Option<WindowId>)
      reads this
      ensures r.Some? <==> key in winitToWindowId
      ensures r.Some? ==> r.value == winitToWindowId[key]
      ensures r == Registry.GetWindowId(State(), key)
    {
      if key in winitToWindowId then Some(winitToWindowId[key]) else None
    }

    /** `remove_window(id)`: an unknown id returns `None` and changes nothing; a known id
        loses its forward entry and the store's entry under its key, and the reverse entry is
        kept as a tombstone. The native window removed is returned. */
    method RemoveWindow(id: WindowId) returns (r: Option<OsWindow>)
      modifies this
      ensures var rem := Registry.Remove(old(State()), id);
              State() == rem.state && r == rem.window
    {
      if id !in windowIdToWinit {
        return None;
      }
      var winitId := windowIdToWinit[id];
      windowIdToWinit := windowIdToWinit - {id};
      r := if winitId in windows then Some(windows[winitId]) else None;
      windows := windows - {winitId};
    }
  }
}
