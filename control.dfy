/** The control pass `_async_control_heating` and the threshold controller it may
    delegate to, as functions on the thermostat state. */
module Orchestrator {
  import opened Types
  import opened ThermostatState
  import Hysteresis
  import PhaseMachine

  /** `_async_control_heating_threshold`: send the command the hysteresis rule
      asks for. A missing target temperature makes the Python comparison raise,
      which ends the pass before any command. */
  function ThresholdStep(cfg: Config, s: State, keepAlive: bool): (r: State)
    ensures s.target.None? || s.cur.None? ==> r == s
  {
    if s.target.None? || s.cur.None? then s
    else
      match Hysteresis.ThresholdCommand(DeviceActive(s), cfg.acMode, Exceeded(cfg, s), keepAlive,
                                        s.cur.value, s.target.value, cfg.coldTolerance, cfg.hotTolerance)
      case None => s
      case Some(c) => Issue(s, c)
  }

  /** The one-way latch: the thermostat becomes active once both temperatures are known. */
  function Latch(s: State): (r: State)
    ensures r.active <==> s.active || (s.cur.Some? && s.target.Some?)
    ensures r == s.(active := r.active)
  {
    if !s.active && s.cur.Some? && s.target.Some? then s.(active := true) else s
  }

  /** The minimum-cycle-duration check applies to event-driven passes only
      (`force` false and no keep-alive time). `held` is the answer of the host's
      history query "has the switch kept its present state for the minimum
      duration?", with a failed query read as false. */
  predicate Abstains(cfg: Config, keepAlive: bool, force: bool, held: bool) {
    !force && !keepAlive && cfg.minCycleConfigured && !held
  }

  /** `_async_control_heating`. */
  function ControlStep(cfg: Config, s: State, keepAlive: bool, force: bool, held: bool, now: int): (r: State)
    requires Ready(s)
    ensures Ready(r)
  {
    var s1 := Latch(s);
    if !s1.active || s1.mode == Some(Off) then s1
    else if Abstains(cfg, keepAlive, force, held) then s1
    else match cfg.algorithm
      case ThresholdAlgorithm => ThresholdStep(cfg, s1, keepAlive)
      case ProportionalAlgorithm => PhaseMachine.CycleStep(cfg, s1, now)
      case UnknownAlgorithm => s1
  }

  /** What a control pass never changes: the readings, the mode and the setpoints. */
  predicate KeepsSettings(s: State, r: State) {
    && r.cur == s.cur && r.target == s.target && r.power == s.power && r.powerMax == s.powerMax
    && r.mode == s.mode && r.savedMode == s.savedMode
    && r.preset == s.preset && r.savedTarget == s.savedTarget
  }

  lemma ControlKeepsSettings(cfg: Config, s: State, keepAlive: bool, force: bool, held: bool, now: int)
    requires Ready(s)
    ensures KeepsSettings(s, ControlStep(cfg, s, keepAlive, force, held, now))
  {
  }

  /** The latch is one-way: after a pass the thermostat is active exactly when it
      was before or both temperatures are known; it is never reset. */
  lemma ActiveLatch(cfg: Config, s: State, keepAlive: bool, force: bool, held: bool, now: int)
    requires Ready(s)
    ensures var r := ControlStep(cfg, s, keepAlive, force, held, now);
            r.active <==> s.active || (s.cur.Some? && s.target.Some?)
  {
    PhaseMachine.CycleStepKeepsInputs(cfg, Latch(s), now);
  }

  /** An inactive thermostat, or one in mode Off, returns without a command and
      without touching the cycle or its timers. */
  lemma StoppedPassIsSilent(cfg: Config, s: State, keepAlive: bool, force: bool, held: bool, now: int)
    requires Ready(s)
    requires !Latch(s).active || s.mode == Some(Off)
    ensures ControlStep(cfg, s, keepAlive, force, held, now) == Latch(s)
  {
  }

  /** An event-driven pass abstains when the switch has not held its state for
      the minimum cycle duration (or the history query failed). */
  lemma MinCycleAbstains(cfg: Config, s: State, held: bool, now: int)
    requires Ready(s) && cfg.minCycleConfigured && !held
    ensures ControlStep(cfg, s, false, false, held, now) == Latch(s)
  {
  }

  /** A pass that is neither stopped nor abstaining hands the latched state to
      the configured controller; an unknown algorithm name sends nothing. */
  lemma PassDispatches(cfg: Config, s: State, keepAlive: bool, force: bool, held: bool, now: int)
    requires Ready(s)
    requires Latch(s).active && s.mode != Some(Off) && !Abstains(cfg, keepAlive, force, held)
    ensures var r := ControlStep(cfg, s, keepAlive, force, held, now);
            && (cfg.algorithm == ThresholdAlgorithm ==> r == ThresholdStep(cfg, Latch(s), keepAlive))
            && (cfg.algorithm == ProportionalAlgorithm ==> r == PhaseMachine.CycleStep(cfg, Latch(s), now))
            && (cfg.algorithm == UnknownAlgorithm ==> r == Latch(s))
  {
  }

  /** Forced and keep-alive passes skip the minimum-cycle check: whatever the
      history query says, they reach the configured controller. */
  lemma ForceAndKeepAliveSkipMinCycle(cfg: Config, s: State, keepAlive: bool, force: bool, held: bool, now: int)
    requires Ready(s) && (force || keepAlive)
    requires Latch(s).active && s.mode != Some(Off)
    ensures var r := ControlStep(cfg, s, keepAlive, force, held, now);
            && (cfg.algorithm == ThresholdAlgorithm ==> r == ThresholdStep(cfg, Latch(s), keepAlive))
            && (cfg.algorithm == ProportionalAlgorithm ==> r == PhaseMachine.CycleStep(cfg, Latch(s), now))
            && (cfg.algorithm == UnknownAlgorithm ==> r == Latch(s))
  {
    PassDispatches(cfg, s, keepAlive, force, held, now);
  }

  /** No control pass drops a running cycle back to no phase: only a timer that
      fires after the thermostat was switched off does that. */
  lemma ControlNeverStopsCycle(cfg: Config, s: State, keepAlive: bool, force: bool, held: bool, now: int)
    requires Ready(s) && s.phase != PhaseNone
    ensures ControlStep(cfg, s, keepAlive, force, held, now).phase != PhaseNone
  {
  }

  /** Threshold control does not chatter: a second event-driven pass right after
      the first, with the same readings, sends no further command (provided the
      tolerance band is not empty). */
  lemma ThresholdPassIsIdempotent(cfg: Config, s: State, held: bool, now: int)
    requires Ready(s) && cfg.algorithm == ThresholdAlgorithm
    requires cfg.coldTolerance + cfg.hotTolerance > 0.0
    ensures var r1 := ControlStep(cfg, s, false, false, held, now);
            var r2 := ControlStep(cfg, r1, false, false, held, now);
            r2 == r1
  {
    var s1 := Latch(s);
    var r1 := ControlStep(cfg, s, false, false, held, now);
    assert Latch(r1) == r1;
    if s1.active && s1.mode != Some(Off) && !Abstains(cfg, false, false, held) && s1.target.Some? && s1.cur.Some? {
      Hysteresis.CommandIsStable(DeviceActive(s1), cfg.acMode, Exceeded(cfg, s1),
                                 s1.cur.value, s1.target.value, cfg.coldTolerance, cfg.hotTolerance);
    }
  }

  /** In proportional mode a pass right after a pass that started an On phase
      from None does nothing: the phase is running and is not yet due. */
  lemma ProportionalStartIsIdempotent(cfg: Config, s: State, force: bool, held: bool, now: int)
    requires Ready(s) && cfg.algorithm == ProportionalAlgorithm
    requires ControlStep(cfg, s, false, force, held, now).phase == PhaseOn && s.phase == PhaseNone
    ensures var r1 := ControlStep(cfg, s, false, force, held, now);
            ControlStep(cfg, r1, false, true, held, now) == r1
  {
    var s1 := Latch(s);
    var r1 := ControlStep(cfg, s, false, force, held, now);
    assert r1 == PhaseMachine.CycleStep(cfg, s1, now);
    var t := PhaseMachine.FreshTimes(cfg, s1);
    assert t.Some?;
    PhaseMachine.FromNone(cfg, s1, now, t.value);
    PhaseMachine.CycleStepKeepsInputs(cfg, s1, now);
    assert Latch(r1) == r1;
    PhaseMachine.NotDueIsNoOp(cfg, r1, now);
  }

  /** As written, a full duty fraction makes the off-time 0: when the On phase is
      due the device is switched off into an Off phase that is due at once, and
      the next pass at the same instant switches it on again. */
  lemma FullDutyBlipsOff(cfg: Config, s: State, now: int)
    requires Ready(s) && !PhaseMachine.Stopped(s) && s.phase == PhaseOn && PhaseMachine.Due(s, now)
    requires s.offTime == Some(0.0)
    requires PhaseMachine.FreshTimes(cfg, s).Some? && PhaseMachine.FreshTimes(cfg, s).value.on > 0.0
    ensures var r1 := PhaseMachine.CycleStep(cfg, s, now);
            var r2 := PhaseMachine.CycleStep(cfg, r1, now);
            && r1.phase == PhaseOff && r1.phaseEnd == Some(now as real)
            && r2.phase == PhaseOn && r2.commands == s.commands + [TurnOff, TurnOn]
  {
    var r1 := PhaseMachine.CycleStep(cfg, s, now);
    PhaseMachine.OnDueGoesOff(cfg, s, now);
    PhaseMachine.CycleStepKeepsInputs(cfg, s, now);
    PhaseMachine.FreshTimesDependsOnInputs(cfg, s, r1);
    PhaseMachine.OffDueRecomputes(cfg, r1, now, PhaseMachine.FreshTimes(cfg, s).value);
  }
}
