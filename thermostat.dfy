/** The thermostat entity `AwesomeThermostat` as an object whose methods update
    its fields step by step, as the source does. Each method is proved to leave
    the state that the matching function of the pure model gives, so every
    property proved there holds of the object. */
module Climate {
  import opened Types
  import opened ThermostatState
  import PowerGuard
  import DutyCycle
  import PhaseMachine
  import Orchestrator
  import Commands

  class Thermostat {
    /** What the constructor derives from the settings. */
    const cfg: Config

    var curTemp: Option<real>
    var targetTemp: Option<real>
    var hvacMode: Option<Mode>
    var savedHvacMode: Option<Mode>
    var active: bool
    var presetMode: Preset
    var savedTargetTemp: Option<real>
    var currentPower: real
    var currentPowerMax: real
    var currentPhase: Phase
    var endPhaseTime: Option<real>
    var onTimeSec: Option<real>
    var offTimeSec: Option<real>
    /** The heater switch as the host reports it. */
    var device: Device
    /** The turn_on / turn_off service calls sent so far. */
    var commands: seq<Command>
    /** Deadlines of the `async_call_later` timers armed and not yet fired. */
    var timers: seq<real>

    /** The fields as one value of the pure model. */
    function Snapshot(): State
      reads this
    {
      State(curTemp, targetTemp, hvacMode, savedHvacMode, active, presetMode, savedTargetTemp,
            currentPower, currentPowerMax, currentPhase, endPhaseTime, onTimeSec, offTimeSec,
            device, commands, timers)
    }

    ghost predicate Valid()
      reads this
    {
      ValidConfig(cfg) && Ready(Snapshot())
    }

    /** `__init__`, with the heater switch in the state the host reports. */
    constructor (st: Settings, initialDevice: Device)
      requires ValidSettings(st)
      ensures Valid()
      ensures cfg == MakeConfig(st) && Snapshot() == InitialState(st, cfg, initialDevice)
    {
      cfg := MakeConfig(st);
      hvacMode := st.initialMode;
      savedHvacMode := st.initialMode;
      savedTargetTemp := if st.targetTemp.Some? && st.targetTemp.value != 0.0 then st.targetTemp
                         else FirstPresetValue(MakeConfig(st).presets);
      active := false;
      curTemp := None;
      presetMode := NoPreset;
      targetTemp := st.targetTemp;
      currentPhase := PhaseNone;
      endPhaseTime := None;
      onTimeSec := None;
      offTimeSec := None;
      currentPower := PowerGuard.Unknown;
      currentPowerMax := PowerGuard.Unknown;
      device := initialDevice;
      commands := [];
      timers := [];
    }

    /** `_async_heater_turn_on`. */
    method HeaterTurnOn()
      modifies this
      ensures Snapshot() == Issue(old(Snapshot()), TurnOn)
    {
      commands := commands + [TurnOn];
      device := DeviceOn;
    }

    /** `_async_heater_turn_off`. */
    method HeaterTurnOff()
      modifies this
      ensures Snapshot() == Issue(old(Snapshot()), TurnOff)
    {
      commands := commands + [TurnOff];
      device := DeviceOff;
    }

    /** `calculate_proportional`. `ok` is false when a missing temperature makes
        the subtraction raise; nothing is written then. */
    method CalculateProportional() returns (ok: bool)
      modifies this
      ensures ok <==> PhaseMachine.FreshTimes(cfg, old(Snapshot())).Some?
      ensures ok ==> Snapshot() == PhaseMachine.WithTimes(old(Snapshot()), PhaseMachine.FreshTimes(cfg, old(Snapshot())).value)
      ensures !ok ==> Snapshot() == old(Snapshot())
    {
      var powerExceeded := Exceeded(cfg, Snapshot());
      var onPercent: real;
      if !powerExceeded {
        if targetTemp.None? || curTemp.None? {
          return false;
        }
        var deltaTemp := targetTemp.value - curTemp.value;
        onPercent := DutyCycle.OnPercent(false, cfg.curve, cfg.bias, deltaTemp, cfg.atan);
      } else {
        onPercent := 0.0;
      }
      ghost var p := onPercent;
      if onPercent > 1.0 {
        onPercent := 1.0;
      }
      assert onPercent == DutyCycle.Clamp(p);
      var on := onPercent * cfg.cycleMin * 60.0;
      if on < DutyCycle.MinDurationSec {
        on := 0.0;
      }
      onTimeSec := Some(on);
      offTimeSec := Some((1.0 - onPercent) * cfg.cycleMin * 60.0);
      ok := true;
      assert p == DutyCycle.OnPercent(powerExceeded, cfg.curve, cfg.bias,
                                      if powerExceeded then 0.0 else targetTemp.value - curTemp.value, cfg.atan);
      assert DutyCycle.Times(on, offTimeSec.value) == DutyCycle.ProportionalTimes(p, cfg.cycleMin);
    }

    /** `start_on_cycle`, called at time `now`. */
    method StartOnCycle(now: int)
      requires onTimeSec.Some? && offTimeSec.Some?
      modifies this
      ensures Snapshot() == PhaseMachine.StartOn(old(Snapshot()), now)
    {
      HeaterTurnOn();
      currentPhase := PhaseOn;
      endPhaseTime := Some(now as real + onTimeSec.value);
      timers := timers + [now as real + onTimeSec.value];
    }

    /** `start_off_cycle`, called at time `now`. */
    method StartOffCycle(now: int)
      requires onTimeSec.Some? && offTimeSec.Some?
      modifies this
      ensures Snapshot() == PhaseMachine.StartOff(old(Snapshot()), now)
    {
      HeaterTurnOff();
      currentPhase := PhaseOff;
      endPhaseTime := Some(now as real + offTimeSec.value);
      timers := timers + [now as real + offTimeSec.value];
    }

    /** `start_cycle`, called at time `now`. */
    method StartCycle(now: int)
      requires Valid()
      modifies this
      ensures Valid()
      ensures Snapshot() == PhaseMachine.CycleStep(cfg, old(Snapshot()), now)
    {
      if !active || hvacMode == Some(Off) {
        HeaterTurnOff();
        currentPhase := PhaseNone;
        return;
      }
      if currentPhase == PhaseNone {
        var ok := CalculateProportional();
        if !ok {
          return;
        }
        if onTimeSec.value <= 0.0 {
          if device == DeviceOn {
            HeaterTurnOff();
          }
        } else {
          StartOnCycle(now);
        }
      } else if currentPhase == PhaseOn && now as real >= endPhaseTime.value {
        StartOffCycle(now);
      } else if currentPhase == PhaseOff && now as real >= endPhaseTime.value {
        var ok := CalculateProportional();
        if !ok {
          return;
        }
        if onTimeSec.value > 0.0 {
          StartOnCycle(now);
        } else {
          StartOffCycle(now);
        }
      }
    }

    /** `_async_control_heating_threshold`; `keepAlive` says the pass was given a time. */
    method ControlHeatingThreshold(keepAlive: bool)
      modifies this
      ensures Snapshot() == Orchestrator.ThresholdStep(cfg, old(Snapshot()), keepAlive)
    {
      var powerExceeded := Exceeded(cfg, Snapshot());
      if targetTemp.None? || curTemp.None? {
        return;
      }
      var tooCold := targetTemp.value >= curTemp.value + cfg.coldTolerance;
      var tooHot := curTemp.value >= targetTemp.value + cfg.hotTolerance;
      if device == DeviceOn {
        if (cfg.acMode && tooCold) || (!cfg.acMode && tooHot) || powerExceeded {
          HeaterTurnOff();
        } else if keepAlive {
          HeaterTurnOn();
        }
      } else {
        if !powerExceeded && ((cfg.acMode && tooHot) || (!cfg.acMode && tooCold)) {
          HeaterTurnOn();
        } else if keepAlive {
          HeaterTurnOff();
        }
      }
    }

    /** `_async_control_heating(time, force)` at time `now`; `held` is the answer
        of the minimum-cycle history query. */
    method ControlHeating(keepAlive: bool, force: bool, held: bool, now: int)
      requires Valid()
      modifies this
      ensures Valid()
      ensures Snapshot() == Orchestrator.ControlStep(cfg, old(Snapshot()), keepAlive, force, held, now)
    {
      if !active && curTemp.Some? && targetTemp.Some? {
        active := true;
      }
      if !active || hvacMode == Some(Off) {
        return;
      }
      if !force && !keepAlive && cfg.minCycleConfigured {
        if !held {
          return;
        }
      }
      if cfg.algorithm == ThresholdAlgorithm {
        ControlHeatingThreshold(keepAlive);
      } else if cfg.algorithm == ProportionalAlgorithm {
        StartCycle(now);
      }
    }

    /** `async_set_hvac_mode`; `req` is None for an unrecognised mode. */
    method SetHvacMode(req: Option<Mode>, now: int)
      requires Valid()
      modifies this
      ensures Valid()
      ensures Snapshot() == Commands.SetHvacModeStep(cfg, old(Snapshot()), req, now)
    {
      if req == Some(Heat) || req == Some(Cool) {
        hvacMode := req;
        ControlHeating(false, true, false, now);
      } else if req == Some(Off) {
        hvacMode := req;
        currentPhase := PhaseNone;
        if device == DeviceOn {
          HeaterTurnOff();
        }
      }
    }

    /** `async_set_temperature`. */
    method SetTemperature(temperature: Option<real>, now: int)
      requires Valid()
      modifies this
      ensures Valid()
      ensures Snapshot() == Commands.SetTemperatureStep(cfg, old(Snapshot()), temperature, now)
    {
      if temperature.None? {
        return;
      }
      targetTemp := temperature;
      presetMode := NoPreset;
      ControlHeating(false, true, false, now);
    }

    /** `async_set_preset_mode`; `supported` is false for the ValueError, with nothing changed. */
    method SetPresetMode(p: Preset, now: int) returns (supported: bool)
      requires Valid()
      modifies this
      ensures Valid()
      ensures supported <==> Commands.SetPresetStep(cfg, old(Snapshot()), p, now).Some?
      ensures supported ==> Snapshot() == Commands.SetPresetStep(cfg, old(Snapshot()), p, now).value
      ensures !supported ==> Snapshot() == old(Snapshot())
    {
      if p !in cfg.presetModes {
        return false;
      }
      supported := true;
      if p == presetMode {
        return;
      }
      if p == NoPreset {
        presetMode := NoPreset;
        targetTemp := savedTargetTemp;
      } else if p == Activity {
        presetMode := Activity;
        targetTemp := Some(cfg.presets[cfg.noMotionMode.value]);
      } else {
        if presetMode == NoPreset {
          savedTargetTemp := targetTemp;
        }
        presetMode := p;
        targetTemp := Some(cfg.presets[p]);
      }
      ControlHeating(false, true, false, now);
    }

    /** `_async_windows_changed`, given the window sensor's old and new state texts. */
    method WindowsChanged(oldState: Option<string>, newState: Option<string>, now: int)
      requires Valid()
      modifies this
      ensures Valid()
      ensures Snapshot() == Commands.WindowStep(cfg, old(Snapshot()), oldState, newState, now)
    {
      if newState.None? || oldState.None? || newState == oldState {
        return;
      }
      if savedHvacMode.None? {
        savedHvacMode := hvacMode;
      }
      if newState.value == StateOff {
        SetHvacMode(savedHvacMode, now);
      } else if newState.value == StateOn {
        savedHvacMode := hvacMode;
        SetHvacMode(Some(Off), now);
      }
    }

    /** The motion-detected branch of `_async_motion_changed`. */
    method MotionChanged(newState: Option<string>, held: bool, now: int)
      requires Valid() && cfg.supportMotion
      modifies this
      ensures Valid()
      ensures Snapshot() == Commands.MotionStep(cfg, old(Snapshot()), newState, held, now)
    {
      if presetMode != Activity || newState.None? || newState.value != StateOn {
        return;
      }
      targetTemp := Some(cfg.presets[cfg.motionMode.value]);
      ControlHeating(false, false, held, now);
    }

    /** `_check_switch_initial_state`. */
    method CheckSwitchInitialState()
      requires Valid()
      modifies this
      ensures Valid()
      ensures Snapshot() == Commands.CheckSwitchStep(old(Snapshot()))
    {
      if hvacMode == Some(Off) && device == DeviceOn {
        HeaterTurnOff();
      }
    }

    /** A change of the heater switch: the host's new state is recorded and
        `_async_switch_changed` runs the initial-state check on the first report. */
    method SwitchChanged(oldState: Option<Device>, newState: Option<Device>)
      requires Valid()
      modifies this
      ensures Valid()
      ensures Snapshot() == Commands.SwitchChangedStep(old(Snapshot()), oldState, newState)
    {
      device := if newState.Some? then newState.value else DeviceUnknown;
      if newState.None? {
        return;
      }
      if oldState.None? {
        CheckSwitchInitialState();
      }
    }

    /** `_async_update_temp`. */
    method UpdateTemp(reading: Reading)
      requires Valid()
      modifies this
      ensures Valid()
      ensures Snapshot() == Commands.UpdateTemp(old(Snapshot()), reading)
    {
      if reading.Finite? {
        curTemp := Some(reading.value);
      }
    }

    /** `_async_temperature_changed`. */
    method TemperatureChanged(newState: Option<SensorState>, held: bool, now: int)
      requires Valid()
      modifies this
      ensures Valid()
      ensures Snapshot() == Commands.TemperatureChangedStep(cfg, old(Snapshot()), newState, held, now)
    {
      if newState.None? || newState.value.text == StateUnavailable || newState.value.text == StateUnknown {
        return;
      }
      UpdateTemp(newState.value.reading);
      ControlHeating(false, false, held, now);
    }

    /** `_async_pmax_power_changed`. */
    method PowerChanged(oldState: Option<SensorState>, newState: Option<SensorState>)
      requires Valid()
      modifies this
      ensures Valid()
      ensures Snapshot() == Commands.PowerChangedStep(old(Snapshot()), oldState, newState)
    {
      if newState.None? || oldState.None? || newState.value.text == oldState.value.text {
        return;
      }
      if newState.value.reading.Finite? {
        currentPower := newState.value.reading.value;
      }
    }

    /** `_async_pmax_max_power_changed`. */
    method PowerMaxChanged(oldState: Option<SensorState>, newState: Option<SensorState>)
      requires Valid()
      modifies this
      ensures Valid()
      ensures Snapshot() == Commands.PowerMaxChangedStep(old(Snapshot()), oldState, newState)
    {
      if newState.None? || oldState.None? || newState.value.text == oldState.value.text {
        return;
      }
      if newState.value.reading.Finite? {
        currentPowerMax := newState.value.reading.value;
      }
    }

    /** The keep-alive tick at time `now`. */
    method KeepAlive(now: int)
      requires Valid()
      modifies this
      ensures Valid()
      ensures Snapshot() == Commands.KeepAliveStep(cfg, old(Snapshot()), now)
    {
      ControlHeating(true, false, false, now);
    }

    /** The cycle timer with index `k` fires at time `now`, at or after its deadline. */
    method TimerFired(k: nat, now: int)
      requires Valid() && k < |timers| && timers[k] <= now as real
      modifies this
      ensures Valid()
      ensures Snapshot() == Commands.TimerFiredStep(cfg, old(Snapshot()), k, now)
    {
      timers := timers[..k] + timers[k + 1..];
      StartCycle(now);
    }

    /** The restore step of `async_added_to_hass`, given what the host saved. */
    method RestoreState(last: Option<Commands.LastState>)
      requires Valid()
      modifies this
      ensures Valid()
      ensures Snapshot() == Commands.RestoreStep(cfg, old(Snapshot()), last)
    {
      var fallback := if cfg.acMode then cfg.maxTemp else cfg.minTemp;
      if last.Some? {
        if targetTemp.None? {
          if last.value.temperature.None? {
            targetTemp := Some(fallback);
          } else {
            targetTemp := last.value.temperature;
          }
        }
        if last.value.preset.Some? && last.value.preset.value in cfg.presetModes {
          presetMode := last.value.preset.value;
        }
        if hvacMode.None? && last.value.mode.Some? {
          hvacMode := last.value.mode;
        }
      } else if targetTemp.None? {
        targetTemp := Some(fallback);
      }
      if hvacMode.None? {
        hvacMode := Some(Off);
      }
    }
  }
}
