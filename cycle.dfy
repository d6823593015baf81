/** The proportional controller's phase machine (`start_cycle`, `start_on_cycle`,
    `start_off_cycle`) as functions on the thermostat state. A call is given the
    time `now` in whole seconds; arming a one-shot timer records its deadline. */
module PhaseMachine {
  import opened Types
  import opened ThermostatState
  import DutyCycle

  /** `calculate_proportional`: the durations the current readings give, or None
      when the readings are needed but a temperature is missing (Python raises
      a TypeError there and the pass ends). The power check comes first, so a
      blocking guard never needs the temperatures. */
  function FreshTimes(cfg: Config, s: State): (t: Option<DutyCycle.Times>)
    ensures t.None? <==> !Exceeded(cfg, s) && (s.target.None? || s.cur.None?)
    ensures Exceeded(cfg, s) ==> t == Some(DutyCycle.Times(0.0, cfg.cycleMin * 60.0))
    ensures !Exceeded(cfg, s) && s.target.Some? && s.cur.Some? ==>
      t == Some(DutyCycle.ProportionalTimes(
                  DutyCycle.OnPercent(false, cfg.curve, cfg.bias, s.target.value - s.cur.value, cfg.atan), cfg.cycleMin))
  {
    var exceeded := Exceeded(cfg, s);
    if !exceeded && (s.target.None? || s.cur.None?) then None
    else
      var delta := if exceeded then 0.0 else s.target.value - s.cur.value;
      var p := DutyCycle.OnPercent(exceeded, cfg.curve, cfg.bias, delta, cfg.atan);
      assert exceeded ==> DutyCycle.ProportionalTimes(p, cfg.cycleMin) == DutyCycle.Times(0.0, cfg.cycleMin * 60.0) by {
        if exceeded { DutyCycle.NoHeatWhenBlocked(exceeded, cfg.curve, cfg.bias, delta, cfg.atan, cfg.cycleMin); }
      }
      Some(DutyCycle.ProportionalTimes(p, cfg.cycleMin))
  }

  /** Writing the computed durations into `prop_on_time_sec` and `prop_off_time_sec`. */
  function WithTimes(s: State, t: DutyCycle.Times): State {
    s.(onTime := Some(t.on), offTime := Some(t.off))
  }

  /** `start_on_cycle`: switch on, enter the On phase until `now` + on-time, and arm a timer for that deadline. */
  function StartOn(s: State, now: int): (r: State)
    requires s.onTime.Some? && s.offTime.Some?
    ensures Ready(r) && r.phase == PhaseOn
    ensures r.phaseEnd == Some(now as real + s.onTime.value)
    ensures r.commands == s.commands + [TurnOn] && r.device == DeviceOn
    ensures r.timers == s.timers + [r.phaseEnd.value]
    ensures r == s.(phase := r.phase, phaseEnd := r.phaseEnd, commands := r.commands, device := r.device, timers := r.timers)
  {
    var deadline := now as real + s.onTime.value;
    Issue(s, TurnOn).(phase := PhaseOn, phaseEnd := Some(deadline), timers := s.timers + [deadline])
  }

  /** `start_off_cycle`: switch off, enter the Off phase until `now` + off-time, and arm a timer for that deadline. */
  function StartOff(s: State, now: int): (r: State)
    requires s.onTime.Some? && s.offTime.Some?
    ensures Ready(r) && r.phase == PhaseOff
    ensures r.phaseEnd == Some(now as real + s.offTime.value)
    ensures r.commands == s.commands + [TurnOff] && r.device == DeviceOff
    ensures r.timers == s.timers + [r.phaseEnd.value]
    ensures r == s.(phase := r.phase, phaseEnd := r.phaseEnd, commands := r.commands, device := r.device, timers := r.timers)
  {
    var deadline := now as real + s.offTime.value;
    Issue(s, TurnOff).(phase := PhaseOff, phaseEnd := Some(deadline), timers := s.timers + [deadline])
  }

  /** The thermostat is stopped: not yet active, or switched to mode Off. */
  predicate Stopped(s: State) {
    !s.active || s.mode == Some(Off)
  }

  /** A phase whose deadline has been reached at `now`. */
  predicate Due(s: State, now: int)
    requires Ready(s)
  {
    s.phase != PhaseNone && now as real >= s.phaseEnd.value
  }

  /** `start_cycle`. The source's third branch also tests `phase == None`, but
      that case is taken by the second branch already; only "Off and due" reaches it. */
  function CycleStep(cfg: Config, s: State, now: int): (r: State)
    requires Ready(s)
    ensures Ready(r)
  {
    if Stopped(s) then
      Issue(s, TurnOff).(phase := PhaseNone)
    else if s.phase == PhaseNone then
      match FreshTimes(cfg, s)
      case None => s
      case Some(t) =>
        var s1 := WithTimes(s, t);
        if t.on <= 0.0 then (if DeviceActive(s) then Issue(s1, TurnOff) else s1)
        else StartOn(s1, now)
    else if s.phase == PhaseOn && Due(s, now) then
      StartOff(s, now)
    else if s.phase == PhaseOff && Due(s, now) then
      match FreshTimes(cfg, s)
      case None => s
      case Some(t) =>
        var s1 := WithTimes(s, t);
        if t.on > 0.0 then StartOn(s1, now) else StartOff(s1, now)
    else
      s
  }

  /** The readings and settings a cycle step never touches. */
  predicate SameInputs(s: State, r: State) {
    && r.cur == s.cur && r.target == s.target && r.power == s.power && r.powerMax == s.powerMax
    && r.mode == s.mode && r.savedMode == s.savedMode && r.active == s.active
    && r.preset == s.preset && r.savedTarget == s.savedTarget
  }

  lemma CycleStepKeepsInputs(cfg: Config, s: State, now: int)
    requires Ready(s)
    ensures SameInputs(s, CycleStep(cfg, s, now))
  {
  }

  /** The durations depend only on the readings. */
  lemma FreshTimesDependsOnInputs(cfg: Config, s: State, r: State)
    requires SameInputs(s, r)
    ensures FreshTimes(cfg, r) == FreshTimes(cfg, s)
  {
  }

  /** A stopped thermostat forces the device off, drops to phase None and arms nothing. */
  lemma StoppedResets(cfg: Config, s: State, now: int)
    requires Ready(s) && Stopped(s)
    ensures var r := CycleStep(cfg, s, now);
            r.phase == PhaseNone && r.commands == s.commands + [TurnOff] && r.timers == s.timers
            && r.device == DeviceOff
            && r == s.(phase := PhaseNone, commands := r.commands, device := DeviceOff)
  {
  }

  /** From phase None the durations are recomputed. A positive on-time enters
      On until `now` + on-time with a timer armed for it; otherwise the phase
      stays None, no timer is armed, and the device is switched off only if it is on. */
  lemma FromNone(cfg: Config, s: State, now: int, t: DutyCycle.Times)
    requires Ready(s) && !Stopped(s) && s.phase == PhaseNone
    requires FreshTimes(cfg, s) == Some(t)
    ensures var r := CycleStep(cfg, s, now);
            && r.onTime == Some(t.on) && r.offTime == Some(t.off)
            && (t.on > 0.0 ==>
                  && r.phase == PhaseOn && r.phaseEnd == Some(now as real + t.on)
                  && r.commands == s.commands + [TurnOn] && r.timers == s.timers + [now as real + t.on]
                  && r.device == DeviceOn)
            && (t.on <= 0.0 ==>
                  && r.phase == PhaseNone && r.phaseEnd == s.phaseEnd && r.timers == s.timers
                  && r.commands == s.commands + (if DeviceActive(s) then [TurnOff] else [])
                  && r.device == (if DeviceActive(s) then DeviceOff else s.device))
            && r == s.(onTime := r.onTime, offTime := r.offTime, phase := r.phase, phaseEnd := r.phaseEnd,
                      commands := r.commands, device := r.device, timers := r.timers)
  {
  }

  /** Where the durations are recomputed (phase None, or a due Off phase), a
      missing temperature makes the computation raise: the step then changes nothing. */
  lemma FailedRecomputeIsNoOp(cfg: Config, s: State, now: int)
    requires Ready(s) && !Stopped(s) && (s.phase == PhaseNone || (s.phase == PhaseOff && Due(s, now)))
    requires FreshTimes(cfg, s).None?
    ensures CycleStep(cfg, s, now) == s
  {
  }

  /** An On phase that is due turns the device off and enters Off until `now` + the stored off-time. */
  lemma OnDueGoesOff(cfg: Config, s: State, now: int)
    requires Ready(s) && !Stopped(s) && s.phase == PhaseOn && Due(s, now)
    ensures var r := CycleStep(cfg, s, now);
            && r.phase == PhaseOff && r.phaseEnd == Some(now as real + s.offTime.value)
            && r.onTime == s.onTime && r.offTime == s.offTime
            && r.commands == s.commands + [TurnOff] && r.timers == s.timers + [r.phaseEnd.value]
            && r.device == DeviceOff
            && r == s.(onTime := r.onTime, offTime := r.offTime, phase := r.phase, phaseEnd := r.phaseEnd,
                      commands := r.commands, device := r.device, timers := r.timers)
  {
  }

  /** An Off phase that is due recomputes the durations, then enters On if the
      new on-time is positive and Off again otherwise. */
  lemma OffDueRecomputes(cfg: Config, s: State, now: int, t: DutyCycle.Times)
    requires Ready(s) && !Stopped(s) && s.phase == PhaseOff && Due(s, now)
    requires FreshTimes(cfg, s) == Some(t)
    ensures var r := CycleStep(cfg, s, now);
            && r.onTime == Some(t.on) && r.offTime == Some(t.off)
            && (t.on > 0.0 ==>
                  && r.phase == PhaseOn && r.phaseEnd == Some(now as real + t.on)
                  && r.commands == s.commands + [TurnOn] && r.device == DeviceOn)
            && (t.on <= 0.0 ==>
                  && r.phase == PhaseOff && r.phaseEnd == Some(now as real + t.off)
                  && r.commands == s.commands + [TurnOff] && r.device == DeviceOff)
            && r.timers == s.timers + [r.phaseEnd.value]
            && r == s.(onTime := r.onTime, offTime := r.offTime, phase := r.phase, phaseEnd := r.phaseEnd,
                      commands := r.commands, device := r.device, timers := r.timers)
  {
  }

  /** A running phase that is not yet due is left alone: no state change, no command, no timer. */
  lemma NotDueIsNoOp(cfg: Config, s: State, now: int)
    requires Ready(s) && !Stopped(s) && s.phase != PhaseNone && !Due(s, now)
    ensures CycleStep(cfg, s, now) == s
  {
  }

  /** Each step arms at most one timer, and only for the deadline of the phase it enters. */
  lemma TimerMatchesPhase(cfg: Config, s: State, now: int)
    requires Ready(s)
    ensures var r := CycleStep(cfg, s, now);
            r.timers == s.timers || (r.phase != PhaseNone && r.timers == s.timers + [r.phaseEnd.value])
  {
  }

  /** When the power guard blocks at the end of an Off phase, the cycle stays
      off for a whole cycle instead of starting an On phase. */
  lemma BlockedAtOffBoundaryStaysOff(cfg: Config, s: State, now: int)
    requires Ready(s) && !Stopped(s) && s.phase == PhaseOff && Due(s, now)
    requires Exceeded(cfg, s)
    ensures var r := CycleStep(cfg, s, now);
            && r.phase == PhaseOff && r.onTime == Some(0.0) && r.offTime == Some(cfg.cycleMin * 60.0)
            && r.phaseEnd == Some(now as real + cfg.cycleMin * 60.0) && r.commands == s.commands + [TurnOff]
  {
  }

  /** The linear example run from phase None: 225 s on, deadline `now` + 225. */
  lemma LinearScenario(cfg: Config, s: State, now: int)
    requires Ready(s) && !Stopped(s) && s.phase == PhaseNone && !Exceeded(cfg, s)
    requires cfg.curve == Linear && cfg.bias == 0.25 && cfg.cycleMin == 5.0
    requires s.target.Some? && s.cur.Some? && s.target.value - s.cur.value == 2.0
    ensures var r := CycleStep(cfg, s, now);
            r.phase == PhaseOn && r.phaseEnd == Some(now as real + 225.0) && r.offTime == Some(75.0)
            && r.commands == s.commands + [TurnOn]
  {
    DutyCycle.LinearExample(cfg.atan);
  }

  /** Several cycle steps, one per time in `times`. */
  function RunCycle(cfg: Config, s: State, times: seq<int>): (r: State)
    requires Ready(s)
    ensures Ready(r)
    decreases |times|
  {
    if times == [] then s else RunCycle(cfg, CycleStep(cfg, s, times[0]), times[1..])
  }

  /** Triggers that arrive while a phase is running and not yet due change nothing,
      however many of them there are: the durations are recomputed only at phase boundaries. */
  lemma {:induction false} MidPhaseTriggersAreNoOps(cfg: Config, s: State, times: seq<int>)
    requires Ready(s) && !Stopped(s) && s.phase != PhaseNone
    requires forall i :: 0 <= i < |times| ==> (times[i] as real) < s.phaseEnd.value
    ensures RunCycle(cfg, s, times) == s
  {
    if times != [] {
      NotDueIsNoOp(cfg, s, times[0]);
      MidPhaseTriggersAreNoOps(cfg, s, times[1..]);
    }
  }

  /** With unchanged readings, a cycle started from phase None runs On, then
      Off, then On again, each phase starting when the previous one is due. */
  lemma CycleRepeats(cfg: Config, s: State, t0: int, t1: int, t2: int, t: DutyCycle.Times)
    requires Ready(s) && !Stopped(s) && s.phase == PhaseNone
    requires FreshTimes(cfg, s) == Some(t) && t.on > 0.0
    requires t1 as real >= t0 as real + t.on && t2 as real >= t1 as real + t.off
    ensures var r := RunCycle(cfg, s, [t0, t1, t2]);
            && r.phase == PhaseOn && r.phaseEnd == Some(t2 as real + t.on)
            && r.commands == s.commands + [TurnOn, TurnOff, TurnOn]
            && r.timers == s.timers + [t0 as real + t.on, t1 as real + t.off, t2 as real + t.on]
  {
    var s1 := CycleStep(cfg, s, t0);
    FromNone(cfg, s, t0, t);
    CycleStepKeepsInputs(cfg, s, t0);
    var s2 := CycleStep(cfg, s1, t1);
    OnDueGoesOff(cfg, s1, t1);
    CycleStepKeepsInputs(cfg, s1, t1);
    FreshTimesDependsOnInputs(cfg, s, s2);
    var s3 := CycleStep(cfg, s2, t2);
    OffDueRecomputes(cfg, s2, t2, t);
    assert RunCycle(cfg, s, [t0, t1, t2]) == RunCycle(cfg, s1, [t1, t2]);
    assert RunCycle(cfg, s1, [t1, t2]) == RunCycle(cfg, s2, [t2]);
    assert RunCycle(cfg, s2, [t2]) == s3;
  }
}
