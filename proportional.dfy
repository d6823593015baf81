/** The duty computation of the proportional controller (`calculate_proportional`), on plain values. */
module DutyCycle {
  import opened Types

  /** On-phases shorter than this many seconds are not worth switching the device for. */
  const MinDurationSec: real := 10.0

  /** The slope of the linear response curve. */
  const LinearSlope: real := 0.25

  /** The divisor of the arctangent response curve. */
  const AtanScale: real := 1.4

  /** The on and off durations of one cycle, in seconds. */
  datatype Times = Times(on: real, off: real)

  /** The heating fraction before clamping. A blocked power guard or an unknown
      curve gives 0; `atan` stands for `math.atan`, about which nothing is assumed. */
  function OnPercent(exceeded: bool, curve: Curve, bias: real, delta: real, atan: real -> real): (p: real)
    ensures exceeded || curve == UnknownCurve ==> p == 0.0
    ensures !exceeded && curve == Linear ==> p == LinearSlope * delta + bias
  {
    if exceeded then 0.0
    else match curve
      case Linear => LinearSlope * delta + bias
      case Atan => atan(delta + bias) / AtanScale
      case UnknownCurve => 0.0
  }

  /** The fraction is clamped from above only. */
  function Clamp(p: real): (q: real)
    ensures q <= 1.0 && q <= p
    ensures p <= 1.0 ==> q == p
    ensures p >= 1.0 ==> q == 1.0
  {
    if p > 1.0 then 1.0 else p
  }

  /** The on-time of a cycle of `cycleMin` minutes, snapped to 0 below the minimum duration. */
  function OnTime(p: real, cycleMin: real): real {
    var on := Clamp(p) * cycleMin * 60.0;
    if on < MinDurationSec then 0.0 else on
  }

  /** The off-time, computed from the clamped but unsnapped fraction. */
  function OffTime(p: real, cycleMin: real): real {
    (1.0 - Clamp(p)) * cycleMin * 60.0
  }

  function ProportionalTimes(p: real, cycleMin: real): Times {
    Times(OnTime(p, cycleMin), OffTime(p, cycleMin))
  }

  /** The on-time is either 0 or between the minimum duration and the whole cycle. */
  lemma OnTimeBounds(p: real, cycleMin: real)
    requires cycleMin >= 0.0
    ensures var on := OnTime(p, cycleMin);
            on == 0.0 || MinDurationSec <= on <= cycleMin * 60.0
  {
    var c := cycleMin * 60.0;
    assert Clamp(p) * cycleMin * 60.0 == Clamp(p) * c;
    assert Clamp(p) * c <= 1.0 * c by {
      assert (1.0 - Clamp(p)) * c >= 0.0;
    }
  }

  /** The off-time is never negative, and it is at least the full cycle when the fraction is not positive. */
  lemma OffTimeBounds(p: real, cycleMin: real)
    requires cycleMin >= 0.0
    ensures OffTime(p, cycleMin) >= 0.0
    ensures p <= 0.0 ==> OffTime(p, cycleMin) >= cycleMin * 60.0
  {
    var q := Clamp(p);
    var c := cycleMin * 60.0;
    assert OffTime(p, cycleMin) == (1.0 - q) * c;
    NonnegProduct(1.0 - q, c);
    if p <= 0.0 {
      assert (1.0 - q) * c == c + (-q) * c;
      NonnegProduct(-q, c);
    }
  }

  /** Sign of a product, kept apart so that the solver does not search for it. */
  lemma NonnegProduct(a: real, b: real)
    requires a >= 0.0 && b >= 0.0
    ensures a * b >= 0.0
  {
  }

  /** When the power guard blocks or the curve is unknown, there is no on-phase
      and the off-phase lasts the whole cycle. */
  lemma NoHeatWhenBlocked(exceeded: bool, curve: Curve, bias: real, delta: real, atan: real -> real, cycleMin: real)
    requires exceeded || curve == UnknownCurve
    ensures ProportionalTimes(OnPercent(exceeded, curve, bias, delta, atan), cycleMin) == Times(0.0, cycleMin * 60.0)
  {
  }

  /** Under the linear curve, a fraction in [0, 1] whose on-time is not snapped
      splits the cycle exactly into its on- and off-time. */
  lemma LinearCycleSum(bias: real, delta: real, atan: real -> real, cycleMin: real)
    requires var p := LinearSlope * delta + bias;
             0.0 <= p <= 1.0 && p * cycleMin * 60.0 >= MinDurationSec
    ensures var t := ProportionalTimes(OnPercent(false, Linear, bias, delta, atan), cycleMin);
            t.on + t.off == cycleMin * 60.0
  {
    var p := LinearSlope * delta + bias;
    assert Clamp(p) == p;
    assert p * cycleMin * 60.0 + (1.0 - p) * cycleMin * 60.0 == cycleMin * 60.0;
  }

  /** The worked example: bias 0.25, a 2 degree error and a 5 minute cycle give 225 s on and 75 s off. */
  lemma LinearExample(atan: real -> real)
    ensures ProportionalTimes(OnPercent(false, Linear, 0.25, 2.0, atan), 5.0) == Times(225.0, 75.0)
  {
    assert OnPercent(false, Linear, 0.25, 2.0, atan) == 0.75;
  }

  /** The cycle does not always add up: a snapped on-time leaves the off-time
      shorter than the cycle (a 2 % fraction of 5 minutes gives 0 s on and 294 s off). */
  lemma SnappedCycleIsShorter(atan: real -> real)
    ensures var t := ProportionalTimes(OnPercent(false, Linear, 0.02, 0.0, atan), 5.0);
            t == Times(0.0, 294.0) && t.on + t.off < 300.0
  {
    assert OnPercent(false, Linear, 0.02, 0.0, atan) == 0.02;
  }

  /** ... and a negative fraction makes the off-time longer than the cycle. */
  lemma NegativeFractionIsLonger(atan: real -> real)
    ensures var t := ProportionalTimes(OnPercent(false, Linear, 0.0, -4.0, atan), 5.0);
            t == Times(0.0, 600.0) && t.on + t.off > 300.0
  {
    assert OnPercent(false, Linear, 0.0, -4.0, atan) == -1.0;
  }

  /** Under the linear curve the on-time never decreases as the temperature error grows. */
  lemma LinearOnTimeMonotone(bias: real, delta: real, larger: real, atan: real -> real, cycleMin: real)
    requires delta <= larger && cycleMin >= 0.0
    ensures OnTime(OnPercent(false, Linear, bias, delta, atan), cycleMin)
         <= OnTime(OnPercent(false, Linear, bias, larger, atan), cycleMin)
  {
    var p, q := LinearSlope * delta + bias, LinearSlope * larger + bias;
    var a, b := Clamp(p), Clamp(q);
    var c := cycleMin * 60.0;
    ScaleMonotone(a, b, c);
    Regroup(a, cycleMin);
    Regroup(b, cycleMin);
    var x, y := a * c, b * c;
    assert x <= y;
    assert OnPercent(false, Linear, bias, delta, atan) == p && OnPercent(false, Linear, bias, larger, atan) == q;
    assert OnTime(p, cycleMin) == (if x < MinDurationSec then 0.0 else x);
    assert OnTime(q, cycleMin) == (if y < MinDurationSec then 0.0 else y);
    SnapMonotone(x, y);
  }

  /** Scaling by a nonnegative factor keeps the order. */
  lemma ScaleMonotone(x: real, y: real, c: real)
    requires x <= y && c >= 0.0
    ensures x * c <= y * c
  {
    NonnegProduct(y - x, c);
    assert (y - x) * c == y * c - x * c;
  }

  /** Snapping short on-times to 0 keeps the order. */
  lemma SnapMonotone(x: real, y: real)
    requires x <= y
    ensures (if x < MinDurationSec then 0.0 else x) <= (if y < MinDurationSec then 0.0 else y)
  {
  }

  /** Minutes to seconds, grouped either way. */
  lemma Regroup(x: real, minutes: real)
    ensures x * minutes * 60.0 == x * (minutes * 60.0)
  {
  }
}
