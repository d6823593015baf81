/** The power guard: may starting or keeping the heater on exceed the power budget? */
module PowerGuard {

  /** The value a power reading holds until the first sensor value arrives. */
  const Unknown: real := -1.0

  /** `check_power_exceeded`: the guard blocks only when power management is
      configured and both readings are known; then it blocks exactly when the
      device's draw would bring the current consumption up to the ceiling. */
  function PowerExceeded(pmaxOn: bool, power: real, powerMax: real, devicePower: real): (r: bool)
    ensures !pmaxOn || power == Unknown || powerMax == Unknown ==> !r
    ensures pmaxOn && power != Unknown && powerMax != Unknown ==> (r <==> power + devicePower >= powerMax)
  {
    pmaxOn && power != Unknown && powerMax != Unknown && power + devicePower >= powerMax
  }

  /** Raising the measured consumption never lifts an active block. */
  lemma ExceededMonotoneInPower(pmaxOn: bool, power: real, more: real, powerMax: real, devicePower: real)
    requires PowerExceeded(pmaxOn, power, powerMax, devicePower)
    requires power <= more && more != Unknown
    ensures PowerExceeded(pmaxOn, more, powerMax, devicePower)
  {
  }
}
