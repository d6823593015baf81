/** The configuration and the mutable state of one thermostat, as values.
    The class `Climate.Thermostat` holds the same state in fields. */
module ThermostatState {
  import opened Types
  import PowerGuard

  /** The settings the entity is created from (the platform configuration,
      already validated by its schema). `motionConfigured` says that a motion
      sensor and a non-zero motion delay are given; `powerSensorsConfigured`
      that both power sensors are given. */
  datatype Settings = Settings(
    acMode: bool,
    coldTolerance: real,
    hotTolerance: real,
    minCycleConfigured: bool,
    targetTemp: Option<real>,
    initialMode: Option<Mode>,
    presets: map<Preset, real>,
    motionConfigured: bool,
    motionMode: Option<Preset>,
    noMotionMode: Option<Preset>,
    algorithm: Algorithm,
    curve: Curve,
    bias: real,
    cycleMin: real,
    atan: real -> real,
    powerSensorsConfigured: bool,
    devicePower: Option<real>,
    minTemp: real,
    maxTemp: real)

  /** The schema only produces the six configurable presets. */
  predicate ValidSettings(st: Settings) {
    NoPreset !in st.presets && Activity !in st.presets
  }

  /** What the constructor derives from the settings and never changes afterwards. */
  datatype Config = Config(
    acMode: bool,
    coldTolerance: real,
    hotTolerance: real,
    minCycleConfigured: bool,
    algorithm: Algorithm,
    curve: Curve,
    bias: real,
    cycleMin: real,
    atan: real -> real,
    pmaxOn: bool,
    devicePower: real,
    presets: map<Preset, real>,
    presetModes: set<Preset>,
    supportMotion: bool,
    motionMode: Option<Preset>,
    noMotionMode: Option<Preset>,
    minTemp: real,
    maxTemp: real)

  predicate ValidConfig(cfg: Config) {
    && NoPreset !in cfg.presets
    && cfg.presetModes == {NoPreset} + cfg.presets.Keys
    && (Activity in cfg.presets <==> cfg.supportMotion)
    && (cfg.supportMotion ==>
          && cfg.motionMode.Some? && cfg.motionMode.value in cfg.presets
          && cfg.noMotionMode.Some? && cfg.noMotionMode.value in cfg.presets)
  }

  /** Motion control needs the motion sensor, the delay, and both motion presets configured. */
  predicate SupportsMotion(st: Settings) {
    && st.motionConfigured
    && st.motionMode.Some? && st.motionMode.value in st.presets
    && st.noMotionMode.Some? && st.noMotionMode.value in st.presets
  }

  /** The constructor's derivations: the `activity` preset aliasing the no-motion
      preset, the list of selectable presets, and whether power management is on
      (both sensors and a non-zero device power). */
  function MakeConfig(st: Settings): (cfg: Config)
    requires ValidSettings(st)
    ensures ValidConfig(cfg)
    ensures cfg.supportMotion == SupportsMotion(st)
    ensures cfg.presetModes == {NoPreset} + st.presets.Keys + (if SupportsMotion(st) then {Activity} else {})
    ensures SupportsMotion(st) ==> cfg.presets[Activity] == st.presets[st.noMotionMode.value]
    ensures forall p :: p in st.presets ==> p in cfg.presets && cfg.presets[p] == st.presets[p]
    ensures cfg.pmaxOn <==> st.powerSensorsConfigured && st.devicePower.Some? && st.devicePower.value != 0.0
    ensures st.devicePower.Some? ==> cfg.devicePower == st.devicePower.value
    ensures st.devicePower.None? ==> cfg.devicePower == 0.0 && !cfg.pmaxOn
    ensures cfg.acMode == st.acMode && cfg.minCycleConfigured == st.minCycleConfigured
    ensures cfg.coldTolerance == st.coldTolerance && cfg.hotTolerance == st.hotTolerance
    ensures cfg.algorithm == st.algorithm && cfg.curve == st.curve && cfg.bias == st.bias
    ensures cfg.cycleMin == st.cycleMin && cfg.atan == st.atan
    ensures cfg.motionMode == st.motionMode && cfg.noMotionMode == st.noMotionMode
    ensures cfg.minTemp == st.minTemp && cfg.maxTemp == st.maxTemp
  {
    var motion := SupportsMotion(st);
    var presets := if motion then st.presets[Activity := st.presets[st.noMotionMode.value]] else st.presets;
    Config(
      st.acMode, st.coldTolerance, st.hotTolerance, st.minCycleConfigured,
      st.algorithm, st.curve, st.bias, st.cycleMin, st.atan,
      st.powerSensorsConfigured && st.devicePower.Some? && st.devicePower.value != 0.0,
      if st.devicePower.Some? then st.devicePower.value else 0.0,
      presets, {NoPreset} + presets.Keys,
      motion, st.motionMode, st.noMotionMode,
      st.minTemp, st.maxTemp)
  }

  /** Insertion order of the presets map: the six configurable presets, then `activity`. */
  const PresetOrder: seq<Preset> := [Eco, Away, Boost, Comfort, Home, Sleep, Activity]

  /** The value of the first preset, in insertion order, that the map holds. */
  function FirstPresetValue(presets: map<Preset, real>, k: nat := 0): (r: Option<real>)
    requires k <= |PresetOrder|
    ensures r.None? <==> forall i :: k <= i < |PresetOrder| ==> PresetOrder[i] !in presets
    ensures r.Some? ==> exists i :: && k <= i < |PresetOrder| && PresetOrder[i] in presets
                                   && r.value == presets[PresetOrder[i]]
                                   && forall j :: k <= j < i ==> PresetOrder[j] !in presets
    decreases |PresetOrder| - k
  {
    if k == |PresetOrder| then None
    else if PresetOrder[k] in presets then Some(presets[PresetOrder[k]])
    else FirstPresetValue(presets, k + 1)
  }

  /** Everything the thermostat changes while it runs, plus the actuator it drives:
      the switch state the host reports, the log of commands sent to it, and the
      deadlines of the one-shot timers armed by the proportional cycle. */
  datatype State = State(
    cur: Option<real>,
    target: Option<real>,
    mode: Option<Mode>,
    savedMode: Option<Mode>,
    active: bool,
    preset: Preset,
    savedTarget: Option<real>,
    power: real,
    powerMax: real,
    phase: Phase,
    phaseEnd: Option<real>,
    onTime: Option<real>,
    offTime: Option<real>,
    device: Device,
    commands: seq<Command>,
    timers: seq<real>)

  /** A running phase always has its deadline and both durations. */
  predicate Ready(s: State) {
    s.phase != PhaseNone ==> s.phaseEnd.Some? && s.onTime.Some? && s.offTime.Some?
  }

  /** The state right after construction, with the heater switch as the host reports it.
      The saved target falls back to the first preset when the configured target is
      absent or zero (Python's `or`). */
  function InitialState(st: Settings, cfg: Config, device: Device): (s: State)
    ensures Ready(s) && !s.active && s.cur.None? && s.preset == NoPreset && s.device == device
    ensures s.commands == [] && s.timers == [] && s.phase == PhaseNone
    ensures s.power == PowerGuard.Unknown && s.powerMax == PowerGuard.Unknown
    ensures s.target == st.targetTemp && s.mode == st.initialMode && s.savedMode == st.initialMode
    ensures st.targetTemp.Some? && st.targetTemp.value != 0.0 ==> s.savedTarget == st.targetTemp
    ensures (st.targetTemp.None? || st.targetTemp.value == 0.0) && cfg.presets == map[] ==> s.savedTarget.None?
    ensures st.targetTemp.None? || st.targetTemp.value == 0.0 ==> s.savedTarget == FirstPresetValue(cfg.presets)
  {
    State(
      None, st.targetTemp, st.initialMode, st.initialMode, false, NoPreset,
      if st.targetTemp.Some? && st.targetTemp.value != 0.0 then st.targetTemp else FirstPresetValue(cfg.presets),
      PowerGuard.Unknown, PowerGuard.Unknown,
      PhaseNone, None, None, None,
      device, [], [])
  }

  /** `_is_device_active`. */
  predicate DeviceActive(s: State) {
    s.device == DeviceOn
  }

  /** Sending a command: it is logged and the host's switch takes the commanded state. */
  function Issue(s: State, c: Command): (r: State)
    ensures r.commands == s.commands + [c]
    ensures DeviceActive(r) <==> c == TurnOn
    ensures r == s.(commands := r.commands, device := r.device)
  {
    s.(commands := s.commands + [c], device := if c == TurnOn then DeviceOn else DeviceOff)
  }

  /** `check_power_exceeded` on the current readings. */
  predicate Exceeded(cfg: Config, s: State) {
    PowerGuard.PowerExceeded(cfg.pmaxOn, s.power, s.powerMax, cfg.devicePower)
  }
}
