/** The hysteresis (threshold) controller's decision, on plain values. */
module Hysteresis {
  import opened Types

  /** The room is at least the cold tolerance below the target. */
  predicate TooCold(cur: real, target: real, coldTolerance: real) {
    target >= cur + coldTolerance
  }

  /** The room is at least the hot tolerance above the target. */
  predicate TooHot(cur: real, target: real, hotTolerance: real) {
    cur >= target + hotTolerance
  }

  /** The threshold that asks for the device to run: too cold for a heater,
      too hot for an air conditioner (`ac_mode`). */
  predicate Demand(acMode: bool, cur: real, target: real, coldTolerance: real, hotTolerance: real) {
    if acMode then TooHot(cur, target, hotTolerance) else TooCold(cur, target, coldTolerance)
  }

  /** The threshold that asks for the device to stop. */
  predicate Satisfied(acMode: bool, cur: real, target: real, coldTolerance: real, hotTolerance: real) {
    if acMode then TooCold(cur, target, coldTolerance) else TooHot(cur, target, hotTolerance)
  }

  /** The command `_async_control_heating_threshold` issues, if any. `keepAlive`
      says that the pass was started by the keep-alive timer (its `time` argument
      is set). */
  function ThresholdCommand(deviceOn: bool, acMode: bool, exceeded: bool, keepAlive: bool,
                            cur: real, target: real, coldTolerance: real, hotTolerance: real): (c: Option<Command>)
  {
    if deviceOn then
      if Satisfied(acMode, cur, target, coldTolerance, hotTolerance) || exceeded then Some(TurnOff)
      else if keepAlive then Some(TurnOn)
      else None
    else
      if !exceeded && Demand(acMode, cur, target, coldTolerance, hotTolerance) then Some(TurnOn)
      else if keepAlive then Some(TurnOff)
      else None
  }

  /** A device that is off is switched on exactly when the power guard allows
      it and the demand threshold is crossed (for a heater: target >= cur + cold tolerance). */
  lemma OffDeviceTurnsOnIff(acMode: bool, exceeded: bool, keepAlive: bool,
                            cur: real, target: real, coldTolerance: real, hotTolerance: real)
    ensures ThresholdCommand(false, acMode, exceeded, keepAlive, cur, target, coldTolerance, hotTolerance) == Some(TurnOn)
        <==> !exceeded && Demand(acMode, cur, target, coldTolerance, hotTolerance)
    ensures !acMode ==>
        (ThresholdCommand(false, acMode, exceeded, keepAlive, cur, target, coldTolerance, hotTolerance) == Some(TurnOn)
         <==> !exceeded && target >= cur + coldTolerance)
  {
  }

  /** A device that is on is switched off exactly when the stop threshold is
      crossed (for a heater: cur >= target + hot tolerance) or power is exceeded. */
  lemma OnDeviceTurnsOffIff(acMode: bool, exceeded: bool, keepAlive: bool,
                            cur: real, target: real, coldTolerance: real, hotTolerance: real)
    ensures ThresholdCommand(true, acMode, exceeded, keepAlive, cur, target, coldTolerance, hotTolerance) == Some(TurnOff)
        <==> exceeded || Satisfied(acMode, cur, target, coldTolerance, hotTolerance)
    ensures !acMode ==>
        (ThresholdCommand(true, acMode, exceeded, keepAlive, cur, target, coldTolerance, hotTolerance) == Some(TurnOff)
         <==> exceeded || cur >= target + hotTolerance)
  {
  }

  /** Dead band: on an event-driven pass where neither the start nor the stop
      condition holds, nothing is sent. */
  lemma DeadBand(deviceOn: bool, acMode: bool, exceeded: bool,
                 cur: real, target: real, coldTolerance: real, hotTolerance: real)
    requires deviceOn ==> !exceeded && !Satisfied(acMode, cur, target, coldTolerance, hotTolerance)
    requires !deviceOn ==> exceeded || !Demand(acMode, cur, target, coldTolerance, hotTolerance)
    ensures ThresholdCommand(deviceOn, acMode, exceeded, false, cur, target, coldTolerance, hotTolerance) == None
  {
  }

  /** On a keep-alive tick a command is always sent; when no threshold asks for
      a change it re-asserts the device's present state. */
  lemma KeepAliveReasserts(deviceOn: bool, acMode: bool, exceeded: bool,
                           cur: real, target: real, coldTolerance: real, hotTolerance: real)
    ensures ThresholdCommand(deviceOn, acMode, exceeded, true, cur, target, coldTolerance, hotTolerance).Some?
    ensures deviceOn && !exceeded && !Satisfied(acMode, cur, target, coldTolerance, hotTolerance) ==>
        ThresholdCommand(deviceOn, acMode, exceeded, true, cur, target, coldTolerance, hotTolerance) == Some(TurnOn)
    ensures !deviceOn && (exceeded || !Demand(acMode, cur, target, coldTolerance, hotTolerance)) ==>
        ThresholdCommand(deviceOn, acMode, exceeded, true, cur, target, coldTolerance, hotTolerance) == Some(TurnOff)
  {
  }

  /** The power guard is advisory: when it blocks, no pass ever turns the
      device on from off, and a device that is on is turned off. */
  lemma ExceededNeverStarts(deviceOn: bool, acMode: bool, keepAlive: bool,
                            cur: real, target: real, coldTolerance: real, hotTolerance: real)
    ensures deviceOn ==> ThresholdCommand(deviceOn, acMode, true, keepAlive, cur, target, coldTolerance, hotTolerance) == Some(TurnOff)
    ensures !deviceOn ==> ThresholdCommand(deviceOn, acMode, true, keepAlive, cur, target, coldTolerance, hotTolerance) != Some(TurnOn)
  {
  }

  /** With a non-empty tolerance band the two thresholds exclude each other, so
      a heater is never switched on while the room is too hot. */
  lemma ThresholdsExclusive(acMode: bool, cur: real, target: real, coldTolerance: real, hotTolerance: real)
    requires coldTolerance + hotTolerance > 0.0
    ensures !(Demand(acMode, cur, target, coldTolerance, hotTolerance) && Satisfied(acMode, cur, target, coldTolerance, hotTolerance))
  {
  }

  /** With a zero band and the room exactly at the target, both thresholds hold
      at once: an off heater is switched on although it is too hot. */
  lemma ZeroBandBothThresholds(cur: real)
    ensures TooCold(cur, cur, 0.0) && TooHot(cur, cur, 0.0)
    ensures ThresholdCommand(false, false, false, false, cur, cur, 0.0, 0.0) == Some(TurnOn)
    ensures ThresholdCommand(true, false, false, false, cur, cur, 0.0, 0.0) == Some(TurnOff)
  {
  }

  /** After the command is carried out, an event-driven pass with the same
      inputs sends nothing: the controller does not chatter, provided the
      tolerance band is not empty. */
  lemma CommandIsStable(deviceOn: bool, acMode: bool, exceeded: bool,
                        cur: real, target: real, coldTolerance: real, hotTolerance: real)
    requires coldTolerance + hotTolerance > 0.0
    ensures var c := ThresholdCommand(deviceOn, acMode, exceeded, false, cur, target, coldTolerance, hotTolerance);
            var after := if c.Some? then c.value == TurnOn else deviceOn;
            ThresholdCommand(after, acMode, exceeded, false, cur, target, coldTolerance, hotTolerance) == None
  {
    ThresholdsExclusive(acMode, cur, target, coldTolerance, hotTolerance);
  }
}
