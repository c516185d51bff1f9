/** The pure decisions of the runner's frame state machine, identical in both copies:
    the timeout check at the start of a frame, the update decision once the main events are
    cleared, and the control-flow directive once the redraw events are cleared.
    Instants are ticks (`nat`) and durations are tick counts. */
module UpdatePolicy {
  import opened WinitTypes

  /** `UpdateMode` of the runner's settings. */
  datatype UpdateMode = Continuous | Reactive(maxWait: nat) | ReactiveLowPower(maxWait: nat)

  /** The runner's settings as far as `update_mode(focused)` reads them: any function from
      the focus flag to a mode is a pair of modes, one for each flag value. */
  datatype WinitSettings = WinitSettings(focusedMode: UpdateMode, unfocusedMode: UpdateMode)
  {
    function UpdateModeFor(focused: bool): UpdateMode
    {
      if focused then focusedMode else unfocusedMode
    }
  }

  /** winit's `ControlFlow`, with the deadline of `WaitUntil` as a tick. */
  datatype ControlFlow = Poll | Wait | WaitUntil(deadline: nat) | Exit

  /** `Instant::duration_since`, which saturates at zero for a later `earlier`. */
  function DurationSince(now: nat, earlier: nat): (d: nat)
    ensures earlier <= now ==> earlier + d == now
    ensures now < earlier ==> d == 0
  {
    if earlier <= now then now - earlier else 0
  }

  /** The `timeout_reached` flag computed on `NewEvents`: winit woke the loop because a
      `WaitUntil` deadline passed, or (in a reactive mode) at least `max_wait` ticks have
      passed since the last update. In `Continuous` mode only the first reason counts. */
  function TimeoutReached(cause: StartCause, mode: UpdateMode, now: nat, lastUpdate: nat): (r: bool)
    ensures cause.ResumeTimeReached? ==> r
    ensures mode.Continuous? ==> (r <==> cause.ResumeTimeReached?)
    ensures (!mode.Continuous? && !cause.ResumeTimeReached?) ==>
              (r <==> DurationSince(now, lastUpdate) >= mode.maxWait)
  {
    var autoTimeoutReached := cause.ResumeTimeReached?;
    var manualTimeoutReached :=
      match mode
      case Continuous => false
      case Reactive(maxWait) => DurationSince(now, lastUpdate) >= maxWait
      case ReactiveLowPower(maxWait) => DurationSince(now, lastUpdate) >= maxWait;
    autoTimeoutReached || manualTimeoutReached
  }

  /** The update decision of `MainEventsCleared`: never while suspended; always under
      `Continuous` and `Reactive`; under `ReactiveLowPower` only when a window event, a redraw
      request or a timeout happened this frame. */
  function ShouldUpdate(active: bool, mode: UpdateMode, lowPowerEvent: bool,
                        redrawRequestSent: bool, timeoutReached: bool): (r: bool)
    ensures !active ==> !r
    ensures active && !mode.ReactiveLowPower? ==> r
    ensures (active && mode.ReactiveLowPower?) ==>
              (r <==> lowPowerEvent || redrawRequestSent || timeoutReached)
  {
    if active then
      match mode
      case Continuous => true
      case Reactive(_) => true
      case ReactiveLowPower(_) => lowPowerEvent || redrawRequestSent || timeoutReached
    else false
  }

  /** The directive the mode asks for on `RedrawEventsCleared`: keep polling, or sleep until
      `max_wait` ticks from now. */
  function BaseControlFlow(mode: UpdateMode, now: nat): (cf: ControlFlow)
    ensures mode.Continuous? <==> cf == Poll
    ensures !mode.Continuous? ==> cf == WaitUntil(now + mode.maxWait)
  {
    match mode
    case Continuous => Poll
    case Reactive(maxWait) => WaitUntil(now + maxWait)
    case ReactiveLowPower(maxWait) => WaitUntil(now + maxWait)
  }

  /** The directive left in `*control_flow` after `RedrawEventsCleared`: the mode's
      directive, overridden by `Poll` when a redraw was requested and by `Exit` when an exit
      was requested. The runner never asks winit simply to `Wait`, and a deadline is never in
      the past. */
  function FinalControlFlow(mode: UpdateMode, now: nat, redraw: bool, exit: bool): (cf: ControlFlow)
    ensures exit ==> cf == Exit
    ensures !exit && redraw ==> cf == Poll
    ensures !exit && !redraw ==> cf == BaseControlFlow(mode, now)
    ensures cf != Wait
    ensures cf.WaitUntil? ==> now <= cf.deadline
  {
    if exit then Exit else if redraw then Poll else BaseControlFlow(mode, now)
  }

  /** The low-power policy: with no window event and no redraw request, and woken for any
      reason other than a passed deadline, the runner updates exactly when `max_wait` ticks
      have passed since the last update (instants are monotonic, so the last update is not
      later than now). */
  lemma LowPowerIdleWaitsForTimeout(maxWait: nat, cause: StartCause, now: nat, lastUpdate: nat)
    requires !cause.ResumeTimeReached?
    requires lastUpdate <= now
    ensures var mode := ReactiveLowPower(maxWait);
            ShouldUpdate(true, mode, false, false, TimeoutReached(cause, mode, now, lastUpdate))
            <==> lastUpdate + maxWait <= now
  {
  }

  /** Under `Continuous` the runner updates on every frame while active, whatever happened. */
  lemma ContinuousAlwaysUpdates(lowPowerEvent: bool, redraw: bool, cause: StartCause,
                                now: nat, lastUpdate: nat)
    ensures ShouldUpdate(true, Continuous, lowPowerEvent, redraw,
                         TimeoutReached(cause, Continuous, now, lastUpdate))
  {
  }
}
