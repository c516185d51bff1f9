/** The state of a `WinitWindows` registry as a value, and the effect of each of its
    operations on that value. Both copies keep the same three maps:
    - `windows`: the native windows, keyed by winit id;
    - `windowIdToWinit`: engine id to winit id (the forward map);
    - `winitToWindowId`: winit id to engine id (the reverse map).
    `create_window` keys all three by the parent `WorkerW` handle reinterpreted as a winit id,
    so every window created shares one key. */
module Registry {
  import opened WinitTypes

  datatype RegistryState = RegistryState(
    windows: map<WinitId, OsWindow>,
    windowIdToWinit: map<WindowId, WinitId>,
    winitToWindowId: map<WinitId, WindowId>)

  /** `WinitWindows::default()`. */
  const Empty := RegistryState(map[], map[], map[])

  /** `get_window(id)`: follow the forward map, then look the native window up. */
  function GetWindow(s: RegistryState, id: WindowId): (r: Option<OsWindow>)
    ensures id !in s.windowIdToWinit ==> r.None?
    ensures id in s.windowIdToWinit ==>
              r == (if s.windowIdToWinit[id] in s.windows
                    then Some(s.windows[s.windowIdToWinit[id]]) else None)
  {
    if id in s.windowIdToWinit && s.windowIdToWinit[id] in s.windows
    then Some(s.windows[s.windowIdToWinit[id]])
    else None
  }

  /** `get_window_id(key)`: the reverse-map lookup. */
  function GetWindowId(s: RegistryState, key: WinitId): (r: Option<WindowId>)
    ensures r.Some? <==> key in s.winitToWindowId
    ensures r.Some? ==> r.value == s.winitToWindowId[key]
  {
    if key in s.winitToWindowId then Some(s.winitToWindowId[key]) else None
  }

  /** The new state after `create_window`'s three inserts, and the native window that the
      insert into `windows` displaced (Rust drops it at once, which closes it). */
  datatype Inserted = Inserted(state: RegistryState, displaced: Option<OsWindow>)

  function Insert(s: RegistryState, id: WindowId, key: WinitId, w: OsWindow): (r: Inserted)
    ensures GetWindow(r.state, id) == Some(w)
    ensures GetWindowId(r.state, key) == Some(id)
    ensures r.displaced == (if key in s.windows then Some(s.windows[key]) else None)
    ensures forall other :: other != key ==> GetWindowId(r.state, other) == GetWindowId(s, other)
    ensures forall other :: (other != id && other in s.windowIdToWinit
              && s.windowIdToWinit[other] != key) ==> GetWindow(r.state, other) == GetWindow(s, other)
    ensures r.state.windowIdToWinit.Keys == s.windowIdToWinit.Keys + {id}
    ensures r.state.winitToWindowId.Keys == s.winitToWindowId.Keys + {key}
  {
    Inserted(RegistryState(s.windows[key := w],
                           s.windowIdToWinit[id := key],
                           s.winitToWindowId[key := id]),
             if key in s.windows then Some(s.windows[key]) else None)
  }

  /** The new state after `remove_window(id)` and the native window it returned. */
  datatype Removed = Removed(state: RegistryState, window: Option<OsWindow>)

  /** `remove_window(id)`: an unknown id changes nothing and returns `None`; a known id loses
      its forward entry and the native window under its key, while the reverse entry stays
      behind as a tombstone. */
  function Remove(s: RegistryState, id: WindowId): (r: Removed)
    ensures id !in s.windowIdToWinit ==> r == Removed(s, None)
    ensures id in s.windowIdToWinit ==>
              && r.state.windowIdToWinit == s.windowIdToWinit - {id}
              && r.state.winitToWindowId == s.winitToWindowId
              && r.window == GetWindow(s, id)
              && r.state.windows == s.windows - {s.windowIdToWinit[id]}
              && s.windowIdToWinit[id] !in r.state.windows
    ensures GetWindow(r.state, id) == None
  {
    if id !in s.windowIdToWinit then Removed(s, None)
    else
      var key := s.windowIdToWinit[id];
      Removed(RegistryState(s.windows - {key}, s.windowIdToWinit - {id}, s.winitToWindowId),
              if key in s.windows then Some(s.windows[key]) else None)
  }

  /** Creating two windows under the shared key: the second takes over the reverse entry and
      the native-window slot, and displaces the first native window, so the first engine id
      now resolves to the second native window. */
  lemma SecondCreateOverwrites(s: RegistryState, id1: WindowId, id2: WindowId, key: WinitId,
                               w1: OsWindow, w2: OsWindow)
    requires id1 != id2
    ensures var r1 := Insert(s, id1, key, w1);
            var r2 := Insert(r1.state, id2, key, w2);
            && GetWindowId(r2.state, key) == Some(id2)
            && GetWindow(r2.state, id1) == Some(w2)
            && GetWindow(r2.state, id2) == Some(w2)
            && r2.displaced == Some(w1)
  {
  }

  /** Removing a created window leaves a tombstone: the engine id no longer resolves to a
      native window, but the key still resolves to the engine id, and the native window that
      was created is the one handed back. */
  lemma CreateThenRemoveLeavesTombstone(s: RegistryState, id: WindowId, key: WinitId, w: OsWindow)
    ensures var r := Remove(Insert(s, id, key, w).state, id);
            && GetWindow(r.state, id) == None
            && GetWindowId(r.state, key) == Some(id)
            && r.window == Some(w)
  {
  }

  /** A second removal of the same id finds nothing and returns no native window, so a
      native window is handed back (and dropped) at most once. */
  lemma RemoveTwiceReturnsNothing(s: RegistryState, id: WindowId)
    ensures var r := Remove(s, id);
            Remove(r.state, id) == Removed(r.state, None)
  {
  }

  /** Removing one id also strands every other id that shares its key: their forward entries
      remain, but `get_window` finds no native window for them any more. */
  lemma RemoveStrandsSharers(s: RegistryState, id: WindowId, other: WindowId)
    requires id in s.windowIdToWinit && other in s.windowIdToWinit && other != id
    requires s.windowIdToWinit[other] == s.windowIdToWinit[id]
    ensures var r := Remove(s, id);
            other in r.state.windowIdToWinit && GetWindow(r.state, other) == None
  {
  }
}
