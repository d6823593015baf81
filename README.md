# Awesome Thermostat: a verified model of the control core

This project models the decision core of the `AwesomeThermostat` climate entity.
The entity drives one on/off heater or air-conditioner switch from a temperature
sensor. It offers two control algorithms:

- **threshold**: hysteresis around a target, with a cold and a hot tolerance;
- **proportional**: a time-sliced duty cycle. A heating fraction computed from the
  temperature error sets the on and off durations of each cycle. One-shot timers
  move the cycle through the phases None, On and Off.

On top of either algorithm sit:

- a power guard that refuses heating when the device's draw would reach the
  household's power ceiling;
- presets, which are named target temperatures;
- window handling: opening saves the mode and switches to Off, closing restores it;
- motion handling for the `activity` preset;
- sensor validation;
- restoring the last state after a restart.

The project has two layers.

- **The pure model** (modules `PowerGuard`, `Hysteresis`, `DutyCycle`,
  `ThermostatState`, `PhaseMachine`, `Presets`, `Orchestrator`, `Commands`).
  - The entity's state is a value `State`, and the configuration the constructor
    derives is a value `Config`.
  - Every operation is a function from the old state (plus the event's inputs) to
    the new state.
  - The properties are lemmas about these functions.
  - Sent commands are appended to a log `commands`. The host's switch takes the
    commanded state.
  - Each `async_call_later` timer is recorded as its deadline in `timers`. The
    source never cancels these timers, so stale ones stay armed.
  - Time is a parameter `now`, in whole seconds.
- **The object** (module `Climate`, class `Thermostat`).
  - Its fields mirror the entity's attributes.
  - Its methods update them step by step, as the source does.
  - Each method is proved to leave the state that the pure step function gives:
    `Snapshot() == Step(cfg, old(Snapshot()), ...)`. Every lemma of the pure model
    therefore holds of the object.

Three kinds of Python failure are modelled as an "abort with nothing changed":

- A missing target or current temperature makes the comparisons or the subtraction
  raise a `TypeError`. The pass then ends without a command.
- An unsupported preset raises a `ValueError`. `SetPresetStep` returns `None` for it.
- A power event without an old state makes `old_state.state` raise an
  `AttributeError` (climate.py:730 and 751). The stored reading is then kept.

## Model

All source paths are in `custom_components/awesome_thermostat/climate.py`.

| member | source | states |
|---|---|---|
| PowerGuard.PowerExceeded | custom_components/awesome_thermostat/climate.py:814-834 | The guard never blocks when power management is off or either reading is still the unknown value -1. Otherwise it blocks exactly when current power plus device power reaches the maximum. |
| PowerGuard.ExceededMonotoneInPower | custom_components/awesome_thermostat/climate.py:814-834 | A higher measured consumption never lifts an active block. |
| Hysteresis.OffDeviceTurnsOnIff | custom_components/awesome_thermostat/climate.py:836-871 | An off device is switched on if and only if the guard allows it and the demand threshold holds. For a heater that threshold is target >= current + cold tolerance. |
| Hysteresis.OnDeviceTurnsOffIff | custom_components/awesome_thermostat/climate.py:836-871 | An on device is switched off if and only if power is exceeded or the stop threshold holds. For a heater that threshold is current >= target + hot tolerance. |
| Hysteresis.DeadBand | custom_components/awesome_thermostat/climate.py:836-871 | An event-driven pass sends nothing while neither threshold asks for a change. |
| Hysteresis.KeepAliveReasserts | custom_components/awesome_thermostat/climate.py:850-871 | A keep-alive pass always sends a command. When no threshold asks for a change, that command re-asserts the present switch state. |
| Hysteresis.ExceededNeverStarts | custom_components/awesome_thermostat/climate.py:836-871 | While the guard blocks, an off device is never switched on and an on device is switched off. |
| Hysteresis.ThresholdsExclusive | custom_components/awesome_thermostat/climate.py:840-841 | If cold + hot tolerance is positive, the start and stop thresholds never hold together. |
| Hysteresis.ZeroBandBothThresholds | custom_components/awesome_thermostat/climate.py:840-841 | With zero tolerances and the room exactly at the target, both thresholds hold. An off heater is then switched on although it counts as too hot. |
| Hysteresis.CommandIsStable | custom_components/awesome_thermostat/climate.py:836-871 | Once the command is carried out, a second event-driven pass with the same inputs sends nothing, so the controller does not chatter. |
| DutyCycle.OnPercent | custom_components/awesome_thermostat/climate.py:877-893 | The fraction is 0 when power is exceeded or the curve is unknown, and 0.25 * delta + bias under the linear curve. |
| DutyCycle.Clamp | custom_components/awesome_thermostat/climate.py:896-897 | A fraction above 1 becomes exactly 1, and one at most 1 is kept. There is no lower clamp. |
| DutyCycle.OnTimeBounds | custom_components/awesome_thermostat/climate.py:896-908 | The on-time is 0 or lies between PROP_MIN_DURATION_SEC (10 s) and the whole cycle. |
| DutyCycle.OffTimeBounds | custom_components/awesome_thermostat/climate.py:910 | The off-time is never negative. A non-positive fraction gives at least a whole cycle off. |
| DutyCycle.NoHeatWhenBlocked | custom_components/awesome_thermostat/climate.py:877-893 | A blocked guard or an unknown curve gives 0 s on and a whole cycle off. |
| DutyCycle.LinearCycleSum | custom_components/awesome_thermostat/climate.py:896-910 | On the linear curve, for a fraction in [0, 1] that is not snapped, on + off equals the cycle length. |
| DutyCycle.LinearExample | custom_components/awesome_thermostat/climate.py:877-910 | Bias 0.25, a 2-degree error and a 5-minute cycle give 225 s on and 75 s off. |
| DutyCycle.SnappedCycleIsShorter | custom_components/awesome_thermostat/climate.py:901-910 | A fraction of 0.02 over 5 minutes is snapped to 0 s on, yet gives 294 s off. The cycle is then shorter than 300 s. |
| DutyCycle.NegativeFractionIsLonger | custom_components/awesome_thermostat/climate.py:896-910 | A fraction of -1 gives 0 s on and 600 s off, which is longer than the cycle. |
| DutyCycle.LinearOnTimeMonotone | custom_components/awesome_thermostat/climate.py:877-904 | On the linear curve, the on-time never decreases as the temperature error grows. |
| ThermostatState.MakeConfig | custom_components/awesome_thermostat/climate.py:286-362 | Motion support requires the sensor, the delay and both motion presets. With it, `activity` aliases the no-motion preset's value. The selectable presets are `none` plus the map's keys. Power management is on exactly when both sensors and a non-zero device power are given, and the device power is the configured one. Mode kind, tolerances, minimum cycle, algorithm, curve, bias, cycle length, motion presets and temperature limits are copied from the settings. |
| ThermostatState.FirstPresetValue | custom_components/awesome_thermostat/climate.py:309 | The result is None exactly when no preset is configured. Otherwise it is the value of a configured preset such that no preset before it in declaration order (eco, away, boost, comfort, home, sleep, activity) is configured. |
| ThermostatState.InitialState | custom_components/awesome_thermostat/climate.py:304-362 | The initial state is inactive, with no reading, preset `none`, phase None, no command and no timer, both power readings at -1, and the switch state the host reports. The mode and saved mode are the initial mode. The saved target is the configured target unless that is absent or 0; then it is the first configured preset's value, or None without presets. |
| ThermostatState.Issue | custom_components/awesome_thermostat/climate.py:1048-1060 | A command is appended to the log. Afterwards the switch is on exactly for `turn_on`, and nothing else changes. |
| PhaseMachine.FreshTimes | custom_components/awesome_thermostat/climate.py:873-918 | The durations are absent exactly when the guard does not block and a temperature is missing (the TypeError). A blocked guard gives 0 s and a whole cycle. Otherwise the result is the duty computation on target - current. |
| PhaseMachine.StartOn | custom_components/awesome_thermostat/climate.py:960-982 | Starting On sends `turn_on`, enters On until now + on-time, and arms a timer for exactly that deadline. Nothing else changes. |
| PhaseMachine.StartOff | custom_components/awesome_thermostat/climate.py:937-958 | Starting Off sends `turn_off`, enters Off until now + off-time, and arms a timer for exactly that deadline. Nothing else changes. |
| PhaseMachine.CycleStep | custom_components/awesome_thermostat/climate.py:984-1031 | `start_cycle` keeps the invariant that a running phase has its deadline and both durations. |
| PhaseMachine.CycleStepKeepsInputs | custom_components/awesome_thermostat/climate.py:984-1031 | A cycle step never changes readings, mode, activity, preset or targets. |
| PhaseMachine.FreshTimesDependsOnInputs | custom_components/awesome_thermostat/climate.py:873-918 | The computed durations depend only on the readings and the configuration. |
| PhaseMachine.StoppedResets | custom_components/awesome_thermostat/climate.py:989-993 | An inactive thermostat, or one in mode Off, sends `turn_off`, leaves the device off, drops to phase None and arms no timer. Nothing else changes, not even the stored durations or deadline. |
| PhaseMachine.FromNone | custom_components/awesome_thermostat/climate.py:995-1006 | From phase None the durations are recomputed. A positive on-time switches the device on and enters On with a timer. Otherwise the phase and deadline stay, and `turn_off` is sent (and the device left off) only if the device is on. Only the durations, the phase, the deadline, the log, the device and the timers change. |
| PhaseMachine.OnDueGoesOff | custom_components/awesome_thermostat/climate.py:1007-1012 | A due On phase switches the device off into Off until now + the stored off-time, without recomputing, and arms that deadline. Nothing outside the cycle, the log and the device changes. |
| PhaseMachine.OffDueRecomputes | custom_components/awesome_thermostat/climate.py:1013-1025 | A due Off phase recomputes the durations. It switches the device on into On if the new on-time is positive, and off into Off again otherwise, with one timer for the new deadline. Nothing outside the cycle, the log and the device changes. |
| PhaseMachine.NotDueIsNoOp | custom_components/awesome_thermostat/climate.py:1026-1031 | A running phase that is not yet due is left exactly as it is. |
| PhaseMachine.FailedRecomputeIsNoOp | custom_components/awesome_thermostat/climate.py:995-1025 | Where the durations are recomputed, a missing temperature (the TypeError) leaves the state unchanged. |
| PhaseMachine.TimerMatchesPhase | custom_components/awesome_thermostat/climate.py:954-982 | A step arms at most one timer, and only for the deadline of the phase it enters. |
| PhaseMachine.BlockedAtOffBoundaryStaysOff | custom_components/awesome_thermostat/climate.py:1013-1025 | If the guard blocks when an Off phase ends, the cycle stays Off for a whole cycle. |
| PhaseMachine.LinearScenario | custom_components/awesome_thermostat/climate.py:995-1006 | The linear example started from None enters On until now + 225 with 75 s off stored. |
| PhaseMachine.MidPhaseTriggersAreNoOps | custom_components/awesome_thermostat/climate.py:1026-1031 | Any number of triggers before the deadline leave the state unchanged, so durations are recomputed only at phase boundaries. |
| PhaseMachine.CycleRepeats | custom_components/awesome_thermostat/climate.py:984-1031 | With unchanged readings the cycle runs On, Off, On. The commands are `turn_on`, `turn_off`, `turn_on`, and the three timers carry those deadlines. |
| Presets.SelectPreset | custom_components/awesome_thermostat/climate.py:1062-1086 | A request is rejected if and only if the preset is not selectable. It is a no-op if and only if the preset is already selected. Otherwise the preset is selected: `none` takes the saved target back and keeps it saved; `activity` takes the no-motion preset's temperature and keeps the saved target; any other preset takes its own temperature, saving the current target when it is left from `none`. |
| Presets.NamedPresetSavesTarget | custom_components/awesome_thermostat/climate.py:1079-1084 | A named preset takes its own temperature. When it is entered from `none`, the current target is saved. |
| Presets.NamedThenNoneRestores | custom_components/awesome_thermostat/climate.py:1070-1084 | Going from `none` to a named preset and back restores the original target. |
| Presets.NamedChainKeepsSaved | custom_components/awesome_thermostat/climate.py:1079-1084 | Moving between named presets never overwrites the saved target. |
| Presets.RoundTripThroughNamedPresets | custom_components/awesome_thermostat/climate.py:1062-1086 | After any chain of named presets entered from `none`, selecting `none` restores the original target. |
| Presets.ApplyAllAppend | custom_components/awesome_thermostat/climate.py:1062-1086 | Applying a chain of requests and then one more equals applying the extended chain. |
| Presets.ActivityDoesNotSave | custom_components/awesome_thermostat/climate.py:1074-1077 | As written, `activity` entered from `none` does not save the target. A later `none` restores the older saved value. |
| Orchestrator.ThresholdStep | custom_components/awesome_thermostat/climate.py:836-871 | A missing temperature ends the pass with nothing changed (the TypeError). |
| Orchestrator.Latch | custom_components/awesome_thermostat/climate.py:769-780 | After the latch the thermostat is active exactly when it already was or both temperatures are known. Nothing else changes. |
| Orchestrator.ControlStep | custom_components/awesome_thermostat/climate.py:766-812 | A control pass keeps the invariant that a running phase has its deadline and both durations. |
| Orchestrator.PassDispatches | custom_components/awesome_thermostat/climate.py:782-812 | A pass that is active, not in Off and not abstaining runs the threshold controller, the proportional cycle, or (for an unknown algorithm name) nothing, on the latched state. |
| Orchestrator.ControlKeepsSettings | custom_components/awesome_thermostat/climate.py:766-812 | A pass never changes readings, mode, saved mode, preset or targets. |
| Orchestrator.ActiveLatch | custom_components/awesome_thermostat/climate.py:769-780 | The activity latch is one-way: it is set once both temperatures are known and never reset. |
| Orchestrator.StoppedPassIsSilent | custom_components/awesome_thermostat/climate.py:782-784 | An inactive pass, or one in mode Off, only latches. It sends nothing and leaves cycle and timers alone. |
| Orchestrator.MinCycleAbstains | custom_components/awesome_thermostat/climate.py:786-805 | An event-driven pass abstains when the switch has not held its state for the minimum cycle duration or the history query failed. |
| Orchestrator.ForceAndKeepAliveSkipMinCycle | custom_components/awesome_thermostat/climate.py:786-812 | Forced and keep-alive passes reach the configured algorithm whatever the history says; an unknown algorithm name sends nothing. |
| Orchestrator.ControlNeverStopsCycle | custom_components/awesome_thermostat/climate.py:766-812 | No control pass drops a running On or Off phase back to None. |
| Orchestrator.ThresholdPassIsIdempotent | custom_components/awesome_thermostat/climate.py:766-871 | If the band is not empty, a second event-driven threshold pass with the same readings changes nothing. |
| Orchestrator.ProportionalStartIsIdempotent | custom_components/awesome_thermostat/climate.py:995-1031 | A forced pass right after one that started an On phase changes nothing. |
| Orchestrator.FullDutyBlipsOff | custom_components/awesome_thermostat/climate.py:1007-1025 | As written, a full duty cycle has off-time 0. A due On phase switches off into an Off phase that is due at once, and it is switched on again at the same instant. |
| Commands.SetHvacModeStep | custom_components/awesome_thermostat/climate.py:574-592 | Setting a mode keeps the running-phase invariant. |
| Commands.SetOffStopsDevice | custom_components/awesome_thermostat/climate.py:584-588 | Off sets the mode and drops the cycle to None. It sends `turn_off` if and only if the device is on, leaves the device off, arms nothing, and the reported action becomes Off. Nothing else changes. |
| Commands.KeepAliveAfterOffIsSilent | custom_components/awesome_thermostat/climate.py:782-784 | After Off, any number of keep-alive ticks send nothing and leave the cycle, the timers and the mode as they are. |
| Commands.UnknownModeIsIgnored | custom_components/awesome_thermostat/climate.py:589-591 | An unrecognised mode changes nothing. |
| Commands.SetHeatOrCoolKeepsMode | custom_components/awesome_thermostat/climate.py:577-583 | Heat and Cool become the mode and a forced pass runs on that state. The pass keeps target and preset. |
| Commands.SetTemperatureStep | custom_components/awesome_thermostat/climate.py:594-602 | Setting a temperature keeps the running-phase invariant. |
| Commands.SetTemperatureResetsPreset | custom_components/awesome_thermostat/climate.py:594-602 | A given temperature becomes the target, resets the preset to `none` and runs a forced pass on that state, leaving the saved target and the mode alone. An absent one changes nothing. |
| Commands.SetPresetStep | custom_components/awesome_thermostat/climate.py:1062-1086 | A successful preset request keeps the running-phase invariant. |
| Commands.SetPresetFollowsSelection | custom_components/awesome_thermostat/climate.py:1062-1086 | The ValueError occurs if and only if the preset is not selectable. Repeating the current preset returns the state unchanged. Otherwise a forced pass runs on the preset, target and saved target that the selection rule gives, and the mode is kept. |
| Commands.PresetRoundTripRestoresTarget | custom_components/awesome_thermostat/climate.py:1062-1086 | From `none`, selecting a named preset sets its temperature. Selecting `none` again restores the earlier target. |
| Commands.WindowStep | custom_components/awesome_thermostat/climate.py:634-649 | The window handler keeps the running-phase invariant. |
| Commands.WindowRoundTripRestoresMode | custom_components/awesome_thermostat/climate.py:634-649 | Opening the window saves the mode and switches to Off: the cycle drops to None and a running device is sent `turn_off`. Closing it restores the saved mode, running the forced pass on it unless it is Off. |
| Commands.CheckSwitchStep | custom_components/awesome_thermostat/climate.py:692-699 | A device found on in mode Off is sent `turn_off`. In every other case nothing changes. In mode Off the device is off afterwards. |
| Commands.SwitchChangedStep | custom_components/awesome_thermostat/climate.py:702-710 | The switch state reported by the host is recorded. On the first report the initial-state check runs. |
| Commands.InitialSwitchOnInOffModeIsStopped | custom_components/awesome_thermostat/climate.py:692-710 | A switch first reported on while the mode is Off is sent `turn_off` and ends off. |
| Commands.UpdateTemp | custom_components/awesome_thermostat/climate.py:713-722 | Only a finite reading replaces the current temperature. NaN, infinity and unparsable text leave it unchanged. |
| Commands.TemperatureChangedStep | custom_components/awesome_thermostat/climate.py:623-632 | The temperature handler keeps the running-phase invariant. |
| Commands.ValidReadingRunsPass | custom_components/awesome_thermostat/climate.py:623-632 | A valid finite reading becomes the current temperature, an event-driven control pass runs on it, and the temperature is kept through the pass. |
| Commands.ThresholdHeatScenario | custom_components/awesome_thermostat/climate.py:623-632 | A heater that is off, at target 21 with cold tolerance 0.3, receives a temperature event reading 20.5 (switch held long enough) and is switched on with that reading stored. |
| Commands.BadReadingKeepsTemperature | custom_components/awesome_thermostat/climate.py:623-632 | An invalid reading never changes the current temperature. From an available sensor it still runs the event-driven pass on the unchanged state. |
| Commands.IgnoredSensorStateChangesNothing | custom_components/awesome_thermostat/climate.py:626-627 | A missing, unavailable or unknown sensor state changes nothing and runs no pass. |
| Commands.NewPowerValue | custom_components/awesome_thermostat/climate.py:724-743 | A changed, finite reading is stored. The stored value is kept when either state is absent, when the text did not change, or when the new text is not a finite number. |
| Commands.PowerChangedStep | custom_components/awesome_thermostat/climate.py:724-743 | A changed, finite reading becomes the current power; otherwise nothing changes. No other field changes, and no control pass runs. |
| Commands.PowerMaxChangedStep | custom_components/awesome_thermostat/climate.py:745-764 | A changed, finite reading becomes the maximum power; otherwise nothing changes. No other field changes, and no control pass runs. |
| Commands.MotionStep | custom_components/awesome_thermostat/climate.py:651-666 | The motion handler keeps the running-phase invariant. |
| Commands.MotionSetsMotionPreset | custom_components/awesome_thermostat/climate.py:651-666 | Motion detected under `activity` sets the motion preset's temperature and runs an event-driven pass that keeps it. Any other event, or another preset, changes nothing. |
| Commands.KeepAliveStep | custom_components/awesome_thermostat/climate.py:392-397 | The keep-alive tick keeps the running-phase invariant. |
| Commands.TimerFiredStep | custom_components/awesome_thermostat/climate.py:954-958 | A timer firing at or after its deadline keeps the running-phase invariant. |
| Commands.PhaseTimerEndsOnPhase | custom_components/awesome_thermostat/climate.py:1007-1012 | The timer armed for a running On phase, when it fires, switches the device off into Off until now + off-time and arms that deadline in its place. |
| Commands.StaleTimerAfterOff | custom_components/awesome_thermostat/climate.py:984-993 | A timer that fires after the switch to Off sends `turn_off`, leaves the phase None and arms nothing new. |
| Commands.RestoreStep | custom_components/awesome_thermostat/climate.py:469-504 | A set target or mode is kept. An unset target takes the saved temperature, or with none saved the maximum (air conditioner) or minimum temperature. A saved preset is taken over exactly when it is selectable. An unset mode takes the saved mode, or Off when none is saved. Only target, preset and mode change. |
| Commands.HvacAction | custom_components/awesome_thermostat/climate.py:550-563 | The action is Off if and only if the mode is Off, and Idle if and only if the mode is not Off and the device is not on. Otherwise it is Cool exactly for an air conditioner, and Heat for a heater. |
| Climate.Thermostat.constructor | custom_components/awesome_thermostat/climate.py:251-362 | The fields hold `MakeConfig` of the settings and `InitialState` of them with the reported switch state. |
| Climate.Thermostat.HeaterTurnOn | custom_components/awesome_thermostat/climate.py:1048-1053 | The state becomes `Issue(old, turn_on)`. |
| Climate.Thermostat.HeaterTurnOff | custom_components/awesome_thermostat/climate.py:1055-1060 | The state becomes `Issue(old, turn_off)`. |
| Climate.Thermostat.CalculateProportional | custom_components/awesome_thermostat/climate.py:873-918 | The method succeeds exactly when `FreshTimes` is defined, and then writes those durations. Otherwise nothing changes. |
| Climate.Thermostat.StartOnCycle | custom_components/awesome_thermostat/climate.py:960-982 | The new state is `StartOn` of the old one. |
| Climate.Thermostat.StartOffCycle | custom_components/awesome_thermostat/climate.py:937-958 | The new state is `StartOff` of the old one. |
| Climate.Thermostat.StartCycle | custom_components/awesome_thermostat/climate.py:984-1031 | The new state is `CycleStep` of the old one. |
| Climate.Thermostat.ControlHeatingThreshold | custom_components/awesome_thermostat/climate.py:836-871 | The new state is `ThresholdStep` of the old one. |
| Climate.Thermostat.ControlHeating | custom_components/awesome_thermostat/climate.py:766-812 | The new state is `ControlStep` of the old one. |
| Climate.Thermostat.SetHvacMode | custom_components/awesome_thermostat/climate.py:574-592 | The new state is `SetHvacModeStep` of the old one: Off stops the cycle and the device without a pass (`SetOffStopsDevice`), Heat and Cool set the mode and run the forced pass (`SetHeatOrCoolKeepsMode`), and an unknown mode changes nothing. |
| Climate.Thermostat.SetTemperature | custom_components/awesome_thermostat/climate.py:594-602 | The new state is `SetTemperatureStep` of the old one: the target is set, the preset reset to `none`, and the forced pass runs (`SetTemperatureResetsPreset`). |
| Climate.Thermostat.SetPresetMode | custom_components/awesome_thermostat/climate.py:1062-1086 | The request is rejected exactly on the ValueError, with nothing changed. Otherwise the new state is `SetPresetStep` of the old one: the selected setpoint followed by the forced pass (`SetPresetFollowsSelection`). |
| Climate.Thermostat.WindowsChanged | custom_components/awesome_thermostat/climate.py:634-649 | The new state is `WindowStep` of the old one. |
| Climate.Thermostat.MotionChanged | custom_components/awesome_thermostat/climate.py:651-666 | The new state is `MotionStep` of the old one, so motion under `activity` sets the motion preset's temperature and runs a pass (`MotionSetsMotionPreset`). |
| Climate.Thermostat.CheckSwitchInitialState | custom_components/awesome_thermostat/climate.py:692-699 | The new state is `CheckSwitchStep` of the old one. |
| Climate.Thermostat.SwitchChanged | custom_components/awesome_thermostat/climate.py:702-710 | The new state is `SwitchChangedStep` of the old one. |
| Climate.Thermostat.UpdateTemp | custom_components/awesome_thermostat/climate.py:713-722 | The new state is `UpdateTemp` of the old one. |
| Climate.Thermostat.TemperatureChanged | custom_components/awesome_thermostat/climate.py:623-632 | The new state is `TemperatureChangedStep` of the old one: nothing changes for a missing, unavailable or unknown state; otherwise a finite reading is taken and the event-driven pass runs. |
| Climate.Thermostat.PowerChanged | custom_components/awesome_thermostat/climate.py:724-743 | The new state is `PowerChangedStep` of the old one: a changed, finite reading becomes the current power, and nothing else changes. |
| Climate.Thermostat.PowerMaxChanged | custom_components/awesome_thermostat/climate.py:745-764 | The new state is `PowerMaxChangedStep` of the old one: a changed, finite reading becomes the maximum power, and nothing else changes. |
| Climate.Thermostat.KeepAlive | custom_components/awesome_thermostat/climate.py:392-397 | The new state is `KeepAliveStep` of the old one. |
| Climate.Thermostat.TimerFired | custom_components/awesome_thermostat/climate.py:954-958 | The fired timer is removed, and the new state is `TimerFiredStep` of the old one. |
| Climate.Thermostat.RestoreState | custom_components/awesome_thermostat/climate.py:469-504 | The new state is `RestoreStep` of the old one: the saved target, selectable preset and mode are taken over where the entity has none, with the fallbacks of `RestoreStep`. |

### Where the code and the intended behaviour part ways

The model follows the code. The points below describe what the code does.

- The threshold controller chooses heating or cooling behaviour from the
  configured `ac_mode`, not from the current hvac mode. Selecting Cool on a
  heater configuration is accepted (climate.py:580-582), and the switch then
  keeps behaving as a heater.
- Mode Off drops the cycle to None through `async_set_hvac_mode`, and when a
  cycle timer armed earlier fires afterwards (the stopped branch of
  `start_cycle`, climate.py:989-993). A control pass in mode Off returns early
  and leaves the phase as it was (`Orchestrator.ControlNeverStopsCycle`).
- `activity` does not save the target when it is entered from `none`
  (`Presets.ActivityDoesNotSave`).
- A full duty fraction gives an off-time of 0 (`Orchestrator.FullDutyBlipsOff`).
  A snapped on-time makes a cycle shorter than `prop_cycle_min`
  (`DutyCycle.SnappedCycleIsShorter`). A negative fraction makes it longer
  (`DutyCycle.NegativeFractionIsLonger`).
- The third branch of `start_cycle` (climate.py:1013-1018) groups
  `phase == None or (phase == Off and due and active and not Off)`. Its first
  disjunct is already taken by the second branch, and the last two conjuncts
  were checked at the start, so the branch means exactly "Off and due".
- The switch's initial-state check runs on the first report of the switch (no
  old state), and once at startup when the switch already has a state
  (climate.py:427-432); startup is not modelled.

## Left out

- The asyncio lock around a control pass: every operation is one atomic step. Interleavings of timers, events and commands are not modelled.
- The host's history query for `min_cycle_duration` is a boolean parameter `held` ("the switch has held its state long enough"). A failed query is `held == false`.
- The wall clock: `datetime.now` is the parameter `now` in whole seconds. Deadlines are reals, and the microsecond rounding of `timedelta` is not modelled.
- Floating point: readings and durations are exact reals. Parsing a sensor's text into a float is the `Reading` value the host supplies (finite, NaN, infinity or unparsable).
- `math.atan` is an uninterpreted parameter `atan` of the configuration. No property of the arctangent curve is claimed.
- Service calls to the switch are the command log. The switch is assumed to take the commanded state, and any other change of it arrives through `SwitchChangedStep`.
- The delayed no-motion callback of `_async_motion_changed` (climate.py:668-689) is not modelled: it is a second timer with its own history query. Only the motion-detected branch is.
- Startup glue in `async_added_to_hass` is not modelled: subscriptions, reading the sensors once at startup, and scheduling the first pass. The restore of the last state is modelled.
- Strings outside the enumerations are not modelled: an hvac mode the host restores that is not heat, cool or off, and preset names outside the known eight. An unrecognised mode request is `None`.
- Logging, `async_write_ha_state`, and the entity's read-only properties other than `hvac_action` (name, unit, precision, supported features, min and max temperature defaults of the base class).
- The platform setup `async_setup_platform` and its configuration schema: `Settings` is taken as already validated.
- Commands.SetHvacModeStep: its own contract states only the running-phase invariant; what it computes, including the forced pass after Heat and Cool, is stated by `SetOffStopsDevice`, `SetHeatOrCoolKeepsMode`, `UnknownModeIsIgnored`.
- Commands.SetTemperatureStep: its own contract states only the running-phase invariant; what it computes, including the forced pass, is stated by `SetTemperatureResetsPreset`.
- Commands.SetPresetStep: its own contract states only the running-phase invariant; what it computes, including the forced pass, is stated by `SetPresetFollowsSelection`, `PresetRoundTripRestoresTarget`.
- Commands.WindowStep: its own contract states only the running-phase invariant; what it computes is stated by `WindowRoundTripRestoresMode` for an open-then-close round trip, including the switch-off on opening and the forced pass on closing; events without an old state, with an unchanged text, or with a saved mode left from an earlier opening are not stated.
- Commands.MotionStep: its own contract states only the running-phase invariant; what it computes is stated by `MotionSetsMotionPreset`.
- Commands.KeepAliveStep: its own contract states only the running-phase invariant; what it computes is stated by `KeepAliveAfterOffIsSilent` for mode Off, and `Orchestrator.ForceAndKeepAliveSkipMinCycle` for an active thermostat.
- Commands.TimerFiredStep: its own contract states only the running-phase invariant; what it computes is stated by `StaleTimerAfterOff` for a stopped thermostat and `PhaseTimerEndsOnPhase` for the end of an On phase; a due Off phase is stated only through `PhaseMachine.OffDueRecomputes` on the step it runs.
- Commands.TemperatureChangedStep: its own contract states only the running-phase invariant; what it computes is stated by `IgnoredSensorStateChangesNothing` (early return), `BadReadingKeepsTemperature` (invalid reading) and `ValidReadingRunsPass` (valid reading).
- PhaseMachine.CycleStep: its own contract states only the running-phase invariant; what it computes is stated by `StoppedResets`, `FromNone`, `OnDueGoesOff`, `OffDueRecomputes`, `NotDueIsNoOp`, and the TypeError path by `FailedRecomputeIsNoOp`.
- Orchestrator.ControlStep: its own contract states only the running-phase invariant; what it computes is stated by `StoppedPassIsSilent`, `MinCycleAbstains`, `PassDispatches`, `ControlKeepsSettings`, `ActiveLatch`.
- Orchestrator.ThresholdStep: its own contract covers only the TypeError abort. The command it sends is stated by the `Hysteresis` lemmas on `ThresholdCommand`.
