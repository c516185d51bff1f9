/** Types shared by both copies of the wallpaper window backend: identifiers, the winit
    events the event loop delivers, the engine (bevy) events and windows it maintains, and
    the abstract log of calls made on native (winit) windows. */
module WinitTypes {

  datatype Option<T> = None | Some(value: T)

  /** An unsigned 32-bit integer (Rust `u32`). */
  type U32 = x: int | 0 <= x < 0x1_0000_0000

  /** A native window handle (`HWND`); `raw` is its `isize` payload. */
  datatype Hwnd = Hwnd(raw: int)

  /** A winit window identifier. On this platform it has the same bits as an `HWND`. */
  datatype WinitId = WinitId(raw: int)

  /** The engine's window identifier (`bevy::window::WindowId`), opaque here. */
  datatype WindowId = WindowId(uuid: nat)

  /** `std::mem::transmute` of a handle into a winit id: the bits are kept as they are. */
  function WinitIdOfHandle(h: Hwnd): (k: WinitId)
    ensures k.raw == h.raw
  {
    WinitId(h.raw)
  }

  /** Reinterpreting bits loses nothing: distinct handles give distinct ids. */
  lemma WinitIdOfHandleInjective(h1: Hwnd, h2: Hwnd)
    ensures WinitIdOfHandle(h1) == WinitIdOfHandle(h2) <==> h1 == h2
  {
  }

  /** A monitor video mode: size in pixels and refresh rate (Hz in one copy,
      millihertz in the other; only its order matters). */
  datatype VideoMode = VideoMode(width: U32, height: U32, refresh: nat, bitDepth: nat)

  /** The part of a `WindowDescriptor` the model keeps. */
  datatype WindowDescriptor = WindowDescriptor(title: string, width: real, height: real)

  /** A native window as built by `create_window`'s `WindowBuilder`. */
  datatype OsWindow = OsWindow(parent: Hwnd, alwaysOnTop: bool, maximized: bool, decorations: bool)

  /** What the OS reports about a freshly built native window. */
  datatype Observed = Observed(innerWidth: U32, innerHeight: U32, scaleFactor: real,
                               position: Option<(int, int)>)

  /** winit's `Fullscreen` setting. */
  datatype FullscreenSetting = Borderless | Exclusive(mode: VideoMode)

  /** A monitor: its position on the desktop and the video modes it offers, in the order the
      OS lists them. */
  datatype Monitor = Monitor(position: (int, int), modes: seq<VideoMode>)

  /** The monitors a native window can see: its current monitor, the primary monitor and
      all available monitors, each as the OS reports it. */
  datatype Monitors = Monitors(current: Option<Monitor>, primary: Option<Monitor>,
                               available: seq<Monitor>)

  /** Window modes and resize constraints as the engine's commands carry them. */
  datatype WindowMode = BorderlessFullscreen | Fullscreen | SizedFullscreen | Windowed
  datatype ResizeConstraints = ResizeConstraints(minWidth: real, minHeight: real,
                                                 maxWidth: real, maxHeight: real)

  /** The abstract log of calls on native windows, each naming the winit id of its target. */
  datatype OsCall =
    | OsSetFullscreen(target: WinitId, fullscreen: Option<FullscreenSetting>)
    | OsSetTitle(target: WinitId, title: string)
    | OsSetInnerSize(target: WinitId, logicalWidth: real, logicalHeight: real, scaleFactor: real)
    | OsSetResizable(target: WinitId, resizable: bool)
    | OsSetMaximized(target: WinitId, maximized: bool)
    | OsSetMinimized(target: WinitId, minimized: bool)
    | OsSetOuterPhysicalPosition(target: WinitId, x: int, y: int)
    | OsSetOuterLogicalPosition(target: WinitId, x: int, y: int)
    | OsSetResizeConstraints(target: WinitId, constraints: ResizeConstraints)
    | OsDestroy(target: WinitId)

  /** Engine-level events, all kinds in one log in emission order. */
  datatype EngineEvent =
    | WindowCreated(id: WindowId)
    | WindowResized(id: WindowId, width: U32, height: U32)
    | WindowCloseRequested(id: WindowId)
    | WindowClosed(id: WindowId)
    | CursorMoved(id: WindowId)
    | WindowFocused(id: WindowId, focused: bool)
    | WindowMoved(id: WindowId, x: int, y: int)
    | WindowScaleFactorChanged(id: WindowId, scaleFactor: real)
    | WindowBackendScaleFactorChanged(id: WindowId, scaleFactor: real)
    | MouseMotion(dx: real, dy: real)

  /** winit's `WindowEvent`, reduced to the kinds the runners look at. */
  datatype WindowEvent =
    | Resized(width: U32, height: U32)
    | CloseRequested
    | CursorMovedTo(cursorX: real, cursorY: real)
    | ScaleFactorChanged(scaleFactor: real)
    | Focused(focused: bool)
    | Moved(x: int, y: int)
    | OtherWindowEvent

  /** winit's `DeviceEvent`. */
  datatype DeviceEvent = RawMouseMotion(dx: real, dy: real) | OtherDeviceEvent

  /** winit's `StartCause`, with instants as ticks. */
  datatype StartCause =
    | ResumeTimeReached(start: nat, requestedResume: nat)
    | WaitCancelled(start: nat, resumeIfAny: Option<nat>)
    | PollStart
    | Init

  /** The events the handler closure receives, one constructor per arm it distinguishes. */
  datatype Event =
    | NewEvents(cause: StartCause)
    | WindowEventOf(windowId: WinitId, event: WindowEvent)
    | DeviceEventOf(device: DeviceEvent)
    | Suspended
    | Resumed
    | MainEventsCleared
    | RedrawEventsCleared
    | OtherEvent

  /** A request to create a window (`CreateWindow`). */
  datatype CreateWindow = CreateWindow(id: WindowId, descriptor: WindowDescriptor)

  /** The engine's window (`bevy::window::Window`): the mirrored OS state and the queue
      of commands that application code issued against it. */
  datatype Window<C> = Window(id: WindowId, descriptor: WindowDescriptor,
                              physicalWidth: U32, physicalHeight: U32, scaleFactor: real,
                              position: Option<(int, int)>, focused: bool, commands: seq<C>)

  /** `Window::new`: a window with the observed size, scale factor and position, focused
      and with no queued commands. */
  function NewWindow<C>(req: CreateWindow, obs: Observed): (w: Window<C>)
    ensures w.id == req.id && w.descriptor == req.descriptor && w.commands == []
    ensures w.physicalWidth == obs.innerWidth && w.physicalHeight == obs.innerHeight
    ensures w.scaleFactor == obs.scaleFactor && w.position == obs.position && w.focused
  {
    Window(req.id, req.descriptor, obs.innerWidth, obs.innerHeight, obs.scaleFactor,
           obs.position, true, [])
  }

  /** `windows.iter().any(|w| w.is_focused())`: true when some window has focus, false when
      none does (in particular when there are no windows). */
  predicate AnyFocused<C>(windows: map<WindowId, Window<C>>): (b: bool)
    ensures forall id :: id in windows && windows[id].focused ==> b
    ensures (forall id :: id in windows ==> !windows[id].focused) ==> !b
    ensures windows == map[] ==> !b
  {
    exists id :: id in windows && windows[id].focused
  }
}
