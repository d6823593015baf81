/** Value types shared by every part of the thermostat model. */
module Types {

  datatype Option<+T> = None | Some(value: T)

  /** The HVAC modes the thermostat knows (`heat`, `cool`, `off`). */
  datatype Mode = Heat | Cool | Off

  /** Preset labels: `none`, the six configurable ones, and `activity`,
      which exists only when motion control is configured. */
  datatype Preset = NoPreset | Eco | Away | Boost | Comfort | Home | Sleep | Activity

  /** What parsing a sensor's textual state as a float gives. */
  datatype Reading = Finite(value: real) | NaN | Inf | Unparsable

  /** A sensor state as the host delivers it: its text and what that text parses to. */
  datatype SensorState = SensorState(text: string, reading: Reading)

  /** The two commands the thermostat sends to its heater switch. */
  datatype Command = TurnOn | TurnOff

  /** What the host reports about the heater switch; `DeviceUnknown` stands for a
      switch entity that the host does not know (the activity test is then falsy). */
  datatype Device = DeviceOn | DeviceOff | DeviceUnknown

  /** Phases of the proportional cycle. */
  datatype Phase = PhaseNone | PhaseOn | PhaseOff

  /** The `prop_function` setting: linear, arctangent, or any other text. */
  datatype Curve = Linear | Atan | UnknownCurve

  /** The `algorithm` setting: threshold, proportional, or any other text. */
  datatype Algorithm = ThresholdAlgorithm | ProportionalAlgorithm | UnknownAlgorithm

  /** The running action reported to the host. */
  datatype Action = ActionOff | ActionIdle | ActionCool | ActionHeat

  /** Host state strings used by the window, motion and temperature handlers. */
  const StateOn: string := "on"
  const StateOff: string := "off"
  const StateUnavailable: string := "unavailable"
  const StateUnknown: string := "unknown"
}
