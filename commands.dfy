/** The command surface and the event handlers of the thermostat, as functions
    on its state: mode, temperature and preset commands, the window, motion,
    switch, temperature and power handlers, the keep-alive tick, a cycle timer
    firing, the restore of the last saved state, and the reported action. */
module Commands {
  import opened Types
  import opened ThermostatState
  import Orchestrator
  import PhaseMachine
  import Presets

  /** `async_set_hvac_mode`. `req` is None for a mode the thermostat does not
      recognise. Heat and Cool run a forced pass; Off drops the cycle to phase
      None and switches off a running device, without a pass. */
  function SetHvacModeStep(cfg: Config, s: State, req: Option<Mode>, now: int): (r: State)
    requires Ready(s)
    ensures Ready(r)
  {
    match req
    case None => s
    case Some(Off) =>
      var s1 := s.(mode := Some(Off), phase := PhaseNone);
      if DeviceActive(s1) then Issue(s1, TurnOff) else s1
    case Some(m) => Orchestrator.ControlStep(cfg, s.(mode := Some(m)), false, true, false, now)
  }

  /** `async_set_temperature`: a new target clears the preset and runs a forced pass. */
  function SetTemperatureStep(cfg: Config, s: State, temperature: Option<real>, now: int): (r: State)
    requires Ready(s)
    ensures Ready(r)
  {
    match temperature
    case None => s
    case Some(_) => Orchestrator.ControlStep(cfg, s.(target := temperature, preset := NoPreset), false, true, false, now)
  }

  /** `async_set_preset_mode`: None is the ValueError for an unsupported preset.
      A change of preset runs a forced pass. */
  function SetPresetStep(cfg: Config, s: State, p: Preset, now: int): (r: Option<State>)
    requires ValidConfig(cfg) && Ready(s)
    ensures r.Some? ==> Ready(r.value)
  {
    match Presets.SelectPreset(cfg, Presets.SetpointOf(s), p)
    case Unsupported => None
    case Unchanged => Some(s)
    case Selected(sp) =>
      Some(Orchestrator.ControlStep(cfg, s.(preset := sp.preset, target := sp.target, savedTarget := sp.saved),
                                    false, true, false, now))
  }

  /** `_async_windows_changed`: opening the window (its sensor turning `on`)
      saves the mode and switches to Off; closing it restores the saved mode. */
  function WindowStep(cfg: Config, s: State, oldState: Option<string>, newState: Option<string>, now: int): (r: State)
    requires Ready(s)
    ensures Ready(r)
  {
    if newState.None? || oldState.None? || newState == oldState then s
    else
      var s1 := if s.savedMode.None? then s.(savedMode := s.mode) else s;
      if newState.value == StateOff then SetHvacModeStep(cfg, s1, s1.savedMode, now)
      else if newState.value == StateOn then SetHvacModeStep(cfg, s1.(savedMode := s1.mode), Some(Off), now)
      else s1
  }

  /** `_check_switch_initial_state`: a device found on while the mode is Off is switched off. */
  function CheckSwitchStep(s: State): (r: State)
    ensures s.mode == Some(Off) && DeviceActive(s) ==> r == Issue(s, TurnOff)
    ensures !(s.mode == Some(Off) && DeviceActive(s)) ==> r == s
    ensures s.mode == Some(Off) ==> !DeviceActive(r)
    ensures r.commands == s.commands + (if s.mode == Some(Off) && DeviceActive(s) then [TurnOff] else [])
  {
    if s.mode == Some(Off) && DeviceActive(s) then Issue(s, TurnOff) else s
  }

  /** `_async_switch_changed`: the host reports a new switch state (None: the
      switch entity disappeared); the first report after startup (no old state)
      triggers the initial-state check. */
  function SwitchChangedStep(s: State, oldState: Option<Device>, newState: Option<Device>): (r: State)
    ensures newState.None? ==> r == s.(device := DeviceUnknown)
    ensures newState.Some? && oldState.Some? ==> r == s.(device := newState.value)
    ensures newState.Some? && oldState.None? ==>
              r == (if s.mode == Some(Off) && newState.value == DeviceOn then Issue(s, TurnOff)
                    else s.(device := newState.value))
  {
    var s1 := s.(device := if newState.Some? then newState.value else DeviceUnknown);
    if newState.Some? && oldState.None? then CheckSwitchStep(s1) else s1
  }

  /** `_async_update_temp`: only a finite reading replaces the current temperature. */
  function UpdateTemp(s: State, reading: Reading): (r: State)
    ensures reading.Finite? ==> r == s.(cur := Some(reading.value))
    ensures !reading.Finite? ==> r == s
  {
    match reading
    case Finite(v) => s.(cur := Some(v))
    case _ => s
  }

  /** `_async_temperature_changed`: an unavailable or unknown sensor is ignored;
      otherwise the reading is taken (if valid) and an event-driven pass runs. */
  function TemperatureChangedStep(cfg: Config, s: State, newState: Option<SensorState>, held: bool, now: int): (r: State)
    requires Ready(s)
    ensures Ready(r)
  {
    if newState.None? || newState.value.text == StateUnavailable || newState.value.text == StateUnknown then s
    else Orchestrator.ControlStep(cfg, UpdateTemp(s, newState.value.reading), false, false, held, now)
  }

  /** A power reading handler: a new state whose text differs from the old one
      replaces the stored value when it parses to a finite number. No pass runs.
      A missing old state makes the handler's `old_state.state` raise, so the
      value is kept then too. */
  function NewPowerValue(stored: real, oldState: Option<SensorState>, newState: Option<SensorState>): (v: real)
    ensures ChangedFiniteReading(oldState, newState) ==> v == newState.value.reading.value
    ensures newState.None? || oldState.None? ==> v == stored
    ensures newState.Some? && oldState.Some? && newState.value.text == oldState.value.text ==> v == stored
    ensures !newState.Some? || !newState.value.reading.Finite? ==> v == stored
  {
    if newState.None? || oldState.None? || newState.value.text == oldState.value.text then stored
    else match newState.value.reading
      case Finite(x) => x
      case _ => stored
  }

  /** Both states are present, their texts differ, and the new text is a finite number. */
  predicate ChangedFiniteReading(oldState: Option<SensorState>, newState: Option<SensorState>) {
    && newState.Some? && oldState.Some? && newState.value.text != oldState.value.text
    && newState.value.reading.Finite?
  }

  /** `_async_pmax_power_changed`. */
  function PowerChangedStep(s: State, oldState: Option<SensorState>, newState: Option<SensorState>): (r: State)
    ensures r == s.(power := r.power)
    ensures ChangedFiniteReading(oldState, newState) ==> r.power == newState.value.reading.value
    ensures !ChangedFiniteReading(oldState, newState) ==> r == s
  {
    s.(power := NewPowerValue(s.power, oldState, newState))
  }

  /** `_async_pmax_max_power_changed`. */
  function PowerMaxChangedStep(s: State, oldState: Option<SensorState>, newState: Option<SensorState>): (r: State)
    ensures r == s.(powerMax := r.powerMax)
    ensures ChangedFiniteReading(oldState, newState) ==> r.powerMax == newState.value.reading.value
    ensures !ChangedFiniteReading(oldState, newState) ==> r == s
  {
    s.(powerMax := NewPowerValue(s.powerMax, oldState, newState))
  }

  /** The motion-detected branch of `_async_motion_changed`: under the `activity`
      preset, motion sets the motion preset's temperature and runs a pass. */
  function MotionStep(cfg: Config, s: State, newState: Option<string>, held: bool, now: int): (r: State)
    requires ValidConfig(cfg) && cfg.supportMotion && Ready(s)
    ensures Ready(r)
  {
    if s.preset != Activity || newState.None? || newState.value != StateOn then s
    else Orchestrator.ControlStep(cfg, s.(target := Some(cfg.presets[cfg.motionMode.value])), false, false, held, now)
  }

  /** The keep-alive tick: a pass with its `time` argument set. */
  function KeepAliveStep(cfg: Config, s: State, now: int): (r: State)
    requires Ready(s)
    ensures Ready(r)
  {
    Orchestrator.ControlStep(cfg, s, true, false, false, now)
  }

  /** The timer armed with deadline `s.timers[k]` fires, at that deadline or
      later, and calls `start_cycle` directly (no latch, no minimum-cycle check). */
  function TimerFiredStep(cfg: Config, s: State, k: nat, now: int): (r: State)
    requires Ready(s) && k < |s.timers| && s.timers[k] <= now as real
    ensures Ready(r)
  {
    PhaseMachine.CycleStep(cfg, s.(timers := s.timers[..k] + s.timers[k + 1..]), now)
  }

  /** What the host saved of the entity before a restart. */
  datatype LastState = LastState(temperature: Option<real>, preset: Option<Preset>, mode: Option<Mode>)

  /** The restore in `async_added_to_hass`: an unset target is taken from the
      saved state or falls back to the maximum (air conditioner) or minimum
      temperature; a selectable saved preset and, if none is set, the saved mode
      are taken over; a mode still unset defaults to Off. */
  function RestoreStep(cfg: Config, s: State, last: Option<LastState>): (r: State)
    ensures r.target.Some? && r.mode.Some?
    ensures s.target.Some? ==> r.target == s.target
    ensures s.target.None? && (last.None? || last.value.temperature.None?) ==>
              r.target == Some(if cfg.acMode then cfg.maxTemp else cfg.minTemp)
    ensures s.mode.Some? ==> r.mode == s.mode
    ensures s.target.None? && last.Some? && last.value.temperature.Some? ==> r.target == last.value.temperature
    ensures last.Some? && last.value.preset.Some? && last.value.preset.value in cfg.presetModes ==>
              r.preset == last.value.preset.value
    ensures !(last.Some? && last.value.preset.Some? && last.value.preset.value in cfg.presetModes) ==>
              r.preset == s.preset
    ensures s.mode.None? && last.Some? && last.value.mode.Some? ==> r.mode == last.value.mode
    ensures s.mode.None? && (last.None? || last.value.mode.None?) ==> r.mode == Some(Off)
    ensures r == s.(target := r.target, preset := r.preset, mode := r.mode)
  {
    var fallback := if cfg.acMode then cfg.maxTemp else cfg.minTemp;
    var s1 := match last
      case None => if s.target.None? then s.(target := Some(fallback)) else s
      case Some(l) =>
        var t := if s.target.Some? then s.target else if l.temperature.None? then Some(fallback) else l.temperature;
        var p := if l.preset.Some? && l.preset.value in cfg.presetModes then l.preset.value else s.preset;
        var m := if s.mode.None? then l.mode else s.mode;
        s.(target := t, preset := p, mode := m);
    if s1.mode.None? then s1.(mode := Some(Off)) else s1
  }

  /** `hvac_action`. */
  function HvacAction(cfg: Config, s: State): (a: Action)
    ensures a == ActionOff <==> s.mode == Some(Off)
    ensures a == ActionIdle <==> s.mode != Some(Off) && !DeviceActive(s)
    ensures (a == ActionHeat || a == ActionCool) ==> DeviceActive(s) && (a == ActionCool <==> cfg.acMode)
  {
    if s.mode == Some(Off) then ActionOff
    else if !DeviceActive(s) then ActionIdle
    else if cfg.acMode then ActionCool
    else ActionHeat
  }

  // Properties of the command surface

  /** Switching to Off drops the cycle to None, switches off a running device
      (and only then), arms nothing, and is reported as action Off. */
  lemma SetOffStopsDevice(cfg: Config, s: State, now: int)
    requires Ready(s)
    ensures var r := SetHvacModeStep(cfg, s, Some(Off), now);
            && r.mode == Some(Off) && r.phase == PhaseNone && r.timers == s.timers
            && r.commands == s.commands + (if DeviceActive(s) then [TurnOff] else [])
            && !DeviceActive(r) && HvacAction(cfg, r) == ActionOff
            && r == s.(mode := Some(Off), phase := PhaseNone, commands := r.commands, device := r.device)
  {
  }

  /** After switching to Off, keep-alive ticks send nothing and leave the cycle
      alone, until the mode changes again. */
  lemma {:induction false} KeepAliveAfterOffIsSilent(cfg: Config, s: State, now: int, ticks: seq<int>)
    requires Ready(s) && s.mode == Some(Off)
    ensures var r := Ticks(cfg, s, ticks);
            r.commands == s.commands && r.timers == s.timers && r.phase == s.phase && r.mode == Some(Off)
    decreases |ticks|
  {
    if ticks != [] {
      var s1 := KeepAliveStep(cfg, s, ticks[0]);
      Orchestrator.StoppedPassIsSilent(cfg, s, true, false, false, ticks[0]);
      KeepAliveAfterOffIsSilent(cfg, s1, now, ticks[1..]);
    }
  }

  /** A run of keep-alive ticks. */
  function Ticks(cfg: Config, s: State, ticks: seq<int>): (r: State)
    requires Ready(s)
    ensures Ready(r)
    decreases |ticks|
  {
    if ticks == [] then s else Ticks(cfg, KeepAliveStep(cfg, s, ticks[0]), ticks[1..])
  }

  /** An unrecognised mode changes nothing. */
  lemma UnknownModeIsIgnored(cfg: Config, s: State, now: int)
    requires Ready(s)
    ensures SetHvacModeStep(cfg, s, None, now) == s
  {
  }

  /** Heat and Cool are taken as the new mode and a forced pass runs on it,
      which keeps the mode, the target and the preset. */
  lemma SetHeatOrCoolKeepsMode(cfg: Config, s: State, m: Mode, now: int)
    requires Ready(s) && m != Off
    ensures var r := SetHvacModeStep(cfg, s, Some(m), now);
            && r == Orchestrator.ControlStep(cfg, s.(mode := Some(m)), false, true, false, now)
            && r.mode == Some(m) && r.target == s.target && r.preset == s.preset
  {
    Orchestrator.ControlKeepsSettings(cfg, s.(mode := Some(m)), false, true, false, now);
  }

  /** Setting a temperature makes it the target, resets the preset to `none` and
      runs a forced pass, leaving the saved target alone; an absent temperature
      changes nothing. */
  lemma SetTemperatureResetsPreset(cfg: Config, s: State, t: Option<real>, now: int)
    requires Ready(s)
    ensures var r := SetTemperatureStep(cfg, s, t, now);
            && (t.None? ==> r == s)
            && (t.Some? ==> r == Orchestrator.ControlStep(cfg, s.(target := t, preset := NoPreset), false, true, false, now))
            && (t.Some? ==> r.target == t && r.preset == NoPreset && r.savedTarget == s.savedTarget && r.mode == s.mode)
  {
    if t.Some? {
      Orchestrator.ControlKeepsSettings(cfg, s.(target := t, preset := NoPreset), false, true, false, now);
    }
  }

  /** Preset requests: an unsupported preset is rejected with the state unchanged,
      the current preset is a no-op, and any other request runs a forced pass on
      exactly the preset, target and saved target that the selection rule gives. */
  lemma SetPresetFollowsSelection(cfg: Config, s: State, p: Preset, now: int)
    requires ValidConfig(cfg) && Ready(s)
    ensures var r := SetPresetStep(cfg, s, p, now);
            && (r.None? <==> p !in cfg.presetModes)
            && (p in cfg.presetModes && p == s.preset ==> r == Some(s))
            && (p in cfg.presetModes && p != s.preset ==>
                  var sp := Presets.Apply(cfg, Presets.SetpointOf(s), p);
                  r == Some(Orchestrator.ControlStep(cfg, s.(preset := sp.preset, target := sp.target, savedTarget := sp.saved),
                                                     false, true, false, now)))
            && (r.Some? ==> Presets.SetpointOf(r.value) == Presets.Apply(cfg, Presets.SetpointOf(s), p)
                            && r.value.mode == s.mode)
  {
    match Presets.SelectPreset(cfg, Presets.SetpointOf(s), p)
    case Selected(sp) =>
      Orchestrator.ControlKeepsSettings(cfg, s.(preset := sp.preset, target := sp.target, savedTarget := sp.saved),
                                        false, true, false, now);
    case _ =>
  }

  /** Leaving `none` for a named preset and coming back restores the target. */
  lemma PresetRoundTripRestoresTarget(cfg: Config, s: State, p: Preset, now1: int, now2: int)
    requires ValidConfig(cfg) && Ready(s) && s.preset == NoPreset && Presets.Named(cfg, p)
    ensures var r1 := SetPresetStep(cfg, s, p, now1);
            && r1.Some? && r1.value.preset == p && r1.value.target == Some(cfg.presets[p])
            && var r2 := SetPresetStep(cfg, r1.value, NoPreset, now2);
               r2.Some? && r2.value.preset == NoPreset && r2.value.target == s.target
  {
    SetPresetFollowsSelection(cfg, s, p, now1);
    var r1 := SetPresetStep(cfg, s, p, now1);
    SetPresetFollowsSelection(cfg, r1.value, NoPreset, now2);
    Presets.NamedThenNoneRestores(cfg, Presets.SetpointOf(s), p);
    var mid := Presets.Apply(cfg, Presets.SetpointOf(s), p);
    assert [p, NoPreset][1..] == [NoPreset];
    assert Presets.ApplyAll(cfg, Presets.SetpointOf(s), [p, NoPreset]) == Presets.ApplyAll(cfg, mid, [NoPreset]);
    assert Presets.ApplyAll(cfg, mid, [NoPreset]) == Presets.ApplyAll(cfg, Presets.Apply(cfg, mid, NoPreset), []);
  }

  /** Opening the window saves the mode and switches to Off, which drops the
      cycle and switches off a running device; closing it sets the saved mode
      back, through the forced pass unless that mode is Off. */
  lemma WindowRoundTripRestoresMode(cfg: Config, s: State, m: Mode, now1: int, now2: int)
    requires Ready(s) && s.mode == Some(m)
    ensures var r1 := WindowStep(cfg, s, Some(StateOff), Some(StateOn), now1);
            && r1 == SetHvacModeStep(cfg, s.(savedMode := s.mode), Some(Off), now1)
            && r1.mode == Some(Off) && r1.savedMode == Some(m) && r1.phase == PhaseNone && !DeviceActive(r1)
            && r1.commands == s.commands + (if DeviceActive(s) then [TurnOff] else [])
            && var r2 := WindowStep(cfg, r1, Some(StateOn), Some(StateOff), now2);
               && r2.mode == Some(m)
               && (m != Off ==> r2 == Orchestrator.ControlStep(cfg, r1.(mode := Some(m)), false, true, false, now2))
  {
    var r1 := WindowStep(cfg, s, Some(StateOff), Some(StateOn), now1);
    assert r1.savedMode == Some(m);
    if m != Off {
      Orchestrator.ControlKeepsSettings(cfg, r1.(mode := Some(m)), false, true, false, now2);
    }
  }

  /** The temperature handler returns at once, changing nothing, when the sensor
      state is missing, unavailable or unknown. */
  lemma IgnoredSensorStateChangesNothing(cfg: Config, s: State, newState: Option<SensorState>, held: bool, now: int)
    requires Ready(s)
    requires newState.None? || newState.value.text == StateUnavailable || newState.value.text == StateUnknown
    ensures TemperatureChangedStep(cfg, s, newState, held, now) == s
  {
  }

  /** An invalid reading of an available sensor still reaches the event-driven
      pass, with the temperature unchanged. */
  lemma BadReadingKeepsTemperature(cfg: Config, s: State, newState: Option<SensorState>, held: bool, now: int)
    requires Ready(s)
    requires newState.Some? ==> !newState.value.reading.Finite?
    ensures TemperatureChangedStep(cfg, s, newState, held, now).cur == s.cur
    ensures newState.Some? && newState.value.text != StateUnavailable && newState.value.text != StateUnknown ==>
              TemperatureChangedStep(cfg, s, newState, held, now) == Orchestrator.ControlStep(cfg, s, false, false, held, now)
  {
    if newState.Some? && newState.value.text != StateUnavailable && newState.value.text != StateUnknown {
      Orchestrator.ControlKeepsSettings(cfg, s, false, false, held, now);
    }
  }

  /** A valid reading is taken as the current temperature and an event-driven
      pass runs on it; the pass keeps the new temperature. */
  lemma ValidReadingRunsPass(cfg: Config, s: State, newState: Option<SensorState>, held: bool, now: int)
    requires Ready(s) && newState.Some? && newState.value.reading.Finite?
    requires newState.value.text != StateUnavailable && newState.value.text != StateUnknown
    ensures var r := TemperatureChangedStep(cfg, s, newState, held, now);
            && r == Orchestrator.ControlStep(cfg, s.(cur := Some(newState.value.reading.value)), false, false, held, now)
            && r.cur == Some(newState.value.reading.value)
  {
    Orchestrator.ControlKeepsSettings(cfg, s.(cur := Some(newState.value.reading.value)), false, false, held, now);
  }

  /** The motivating example: a heater that is off, at target 21 with cold
      tolerance 0.3, receives a temperature event reading 20.5 and is switched
      on, since 21 >= 20.5 + 0.3. */
  lemma ThresholdHeatScenario(cfg: Config, s: State, now: int)
    requires Ready(s) && cfg.algorithm == ThresholdAlgorithm && !cfg.acMode
    requires cfg.coldTolerance == 0.3 && !Exceeded(cfg, s)
    requires s.active && s.mode == Some(Heat) && s.device == DeviceOff && s.target == Some(21.0)
    ensures TemperatureChangedStep(cfg, s, Some(SensorState("20.5", Finite(20.5))), true, now)
         == Issue(s.(cur := Some(20.5)), TurnOn)
  {
  }

  /** Motion under the `activity` preset sets the motion preset's temperature
      and runs an event-driven pass, which keeps it; anything else changes nothing. */
  lemma MotionSetsMotionPreset(cfg: Config, s: State, newState: Option<string>, held: bool, now: int)
    requires ValidConfig(cfg) && cfg.supportMotion && Ready(s)
    ensures var r := MotionStep(cfg, s, newState, held, now);
            && (s.preset == Activity && newState == Some(StateOn) ==>
                  && r == Orchestrator.ControlStep(cfg, s.(target := Some(cfg.presets[cfg.motionMode.value])),
                                                   false, false, held, now)
                  && r.target == Some(cfg.presets[cfg.motionMode.value]) && r.preset == Activity)
            && (s.preset != Activity || newState != Some(StateOn) ==> r == s)
  {
    if s.preset == Activity && newState == Some(StateOn) {
      Orchestrator.ControlKeepsSettings(cfg, s.(target := Some(cfg.presets[cfg.motionMode.value])), false, false, held, now);
    }
  }

  /** The timer armed for the end of a running On phase ends it: when it fires
      the device is switched off into the Off phase, whose own timer is armed
      in place of the fired one. */
  lemma PhaseTimerEndsOnPhase(cfg: Config, s: State, k: nat, now: int)
    requires Ready(s) && k < |s.timers| && s.timers[k] <= now as real
    requires !PhaseMachine.Stopped(s) && s.phase == PhaseOn && s.timers[k] == s.phaseEnd.value
    ensures var r := TimerFiredStep(cfg, s, k, now);
            && r.phase == PhaseOff && r.phaseEnd == Some(now as real + s.offTime.value)
            && r.commands == s.commands + [TurnOff]
            && r.timers == s.timers[..k] + s.timers[k + 1..] + [now as real + s.offTime.value]
  {
    PhaseMachine.OnDueGoesOff(cfg, s.(timers := s.timers[..k] + s.timers[k + 1..]), now);
  }

  /** A switch first seen on while the mode is Off is switched off. */
  lemma InitialSwitchOnInOffModeIsStopped(s: State)
    requires s.mode == Some(Off)
    ensures var r := SwitchChangedStep(s, None, Some(DeviceOn));
            r.commands == s.commands + [TurnOff] && r.device == DeviceOff
  {
  }

  /** A timer that fires after the thermostat was switched off turns the device
      off, leaves the cycle in None and arms no new timer. */
  lemma StaleTimerAfterOff(cfg: Config, s: State, k: nat, now: int)
    requires Ready(s) && k < |s.timers| && s.timers[k] <= now as real && s.mode == Some(Off)
    ensures var r := TimerFiredStep(cfg, s, k, now);
            && r.phase == PhaseNone && r.commands == s.commands + [TurnOff]
            && |r.timers| == |s.timers| - 1
  {
  }
}
