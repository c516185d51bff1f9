/** How the two copies of the backend relate where they differ only slightly: the native
    window they build and the dispatch of a routed window event. */
module Copies {
  import opened WinitTypes
  import opened WindowWorld
  import MwinitWindows
  import WallpaperWindows
  import MwinitSpec
  import WallpaperSpec

  /** The two copies build the same native window under the same parent, except that the
      wallpaper copy turns decorations off. */
  lemma BuildDiffersInDecorations(parent: Hwnd)
    ensures MwinitWindows.Build(parent).(decorations := false) == WallpaperWindows.Build(parent)
    ensures MwinitWindows.Build(parent) != WallpaperWindows.Build(parent)
  {
  }

  /** The two copies dispatch every window event alike except a cursor move, which the
      `mwinit` copy reports as one `CursorMoved` and the wallpaper copy ignores. */
  lemma DispatchDiffersOnlyOnCursor<C>(id: WindowId, w: Window<C>, ev: WindowEvent)
    ensures !ev.CursorMovedTo? ==>
              WallpaperSpec.DispatchWindowEvent(id, w, ev) == MwinitSpec.DispatchWindowEvent(id, w, ev)
    ensures ev.CursorMovedTo? ==>
              && WallpaperSpec.DispatchWindowEvent(id, w, ev) == Dispatched(w, [])
              && MwinitSpec.DispatchWindowEvent(id, w, ev) == Dispatched(w, [CursorMoved(id)])
  {
  }
}
