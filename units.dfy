/** Physical units of the simulation (Assets/Scripts/Utility/Units.cs): distances
    in meters, velocities in meters per second and accelerations in meters per
    second squared, all over `real`. `SimulationController.BaseSpeedMultiplier`,
    the ratio of game time to real time, is not part of this model and is passed
    in as `baseSpeed`. */
module Units {
  import opened DateTimes
  import opened CSharpInt

  /** `Math.Kph2Mps` and `Math.Mps2Kph` (Assets/Scripts/Utility/Math.cs). */
  const Kph2Mps: real := 1.0 / 3.6
  const Mps2Kph: real := 3.6

  /** `TimeExtensions.RoundToInterval`: the span rounded up to a whole number of
      intervals. The source divides in floating point and takes the ceiling. */
  function RoundToInterval(ts: TimeSpan, interval: TimeSpan): (r: TimeSpan)
    requires interval > 0
    ensures r % interval == 0
    ensures ts <= r < ts + interval
  {
    var q := (-ts) / interval;
    assert -ts == q * interval + (-ts) % interval;
    ModMultiple(-q * interval, -q, 0, interval);
    CeilDiv(ts, interval) * interval
  }

  /** No smaller multiple of the interval reaches the span. */
  lemma RoundToIntervalLeast(ts: TimeSpan, interval: TimeSpan, m: int)
    requires interval > 0 && m % interval == 0 && m >= ts
    ensures RoundToInterval(ts, interval) <= m
  {
    var d := m - ts;
    assert m == (m / interval) * interval;
    ModMultiple(-ts, -(m / interval), d, interval);
    assert RoundToInterval(ts, interval) == ts + (-ts) % interval;
    assert d == (d / interval) * interval + d % interval;
    assert d / interval >= 0;
  }

  /** `TimeExtensions.Multiply`: the span scaled by a factor, in seconds. */
  function Multiply(ts: TimeSpan, factor: real): real
  {
    ts as real * factor
  }

  /** Scaling by one keeps the span, scaling twice multiplies the factors,
      and scaling distributes over the sum of two spans. */
  lemma MultiplyLinear(ts: TimeSpan, us: TimeSpan, a: real, b: real)
    ensures Multiply(ts, 1.0) == ts as real && Multiply(ts, 0.0) == 0.0
    ensures Multiply(ts, a * b) == Multiply(ts, a) * b
    ensures Multiply(ts + us, a) == Multiply(ts, a) + Multiply(us, a)
  {
  }

  datatype Distance = Distance(meters: real)

  function FromMeters(m: real): Distance
  {
    Distance(m)
  }

  function FromKilometers(km: real): Distance
  {
    Distance(km * 1000.0)
  }

  function Kilometers(d: Distance): real
  {
    d.meters / 1000.0
  }

  /** A distance given in kilometers is a thousand times as many meters, and
      reads back as the same number of kilometers. */
  lemma KilometersRoundTrip(km: real, d: Distance)
    ensures FromKilometers(km).meters == 1000.0 * km
    ensures Kilometers(FromKilometers(km)) == km
    ensures FromKilometers(Kilometers(d)) == d
  {
  }

  function AddDistance(d1: Distance, d2: Distance): Distance
  {
    FromMeters(d1.meters + d2.meters)
  }

  function SubDistance(d1: Distance, d2: Distance): Distance
  {
    FromMeters(d1.meters - d2.meters)
  }

  /** Adding and then subtracting the same distance gives the distance back, and
      addition commutes. */
  lemma DistanceArithmetic(d1: Distance, d2: Distance)
    ensures SubDistance(AddDistance(d1, d2), d2) == d1
    ensures AddDistance(d1, d2) == AddDistance(d2, d1)
    ensures AddDistance(SubDistance(d1, d2), d2) == d1
  {
  }

  datatype Velocity = Velocity(mps: real)

  function FromMPS(mps: real): Velocity
  {
    Velocity(mps)
  }

  function FromKPH(kph: real): Velocity
  {
    FromMPS(kph * Kph2Mps)
  }

  function KPH(v: Velocity): real
  {
    v.mps * Mps2Kph
  }

  /** The two conversion factors are inverses, so kilometers per hour survive a
      round trip through meters per second. */
  lemma KphRoundTrip(kph: real, v: Velocity)
    ensures KPH(FromKPH(kph)) == kph
    ensures FromKPH(KPH(v)) == v
  {
  }

  function FromRealTimeMPS(mps: real, baseSpeed: real): Velocity
    requires baseSpeed != 0.0
  {
    Velocity(mps / baseSpeed)
  }

  /** `RealTimeMPS`: the game-time speed times the speed multiplier. */
  function RealTimeMPS(v: Velocity, baseSpeed: real): real
  {
    v.mps * baseSpeed
  }

  function FromRealTimeKPH(kph: real, baseSpeed: real): Velocity
    requires baseSpeed != 0.0
  {
    FromRealTimeMPS(kph * Kph2Mps, baseSpeed)
  }

  function RealTimeKPH(v: Velocity, baseSpeed: real): real
  {
    RealTimeMPS(v, baseSpeed) * Mps2Kph
  }

  /** Real-time speeds read back as given, in both units. */
  lemma RealTimeRoundTrip(mps: real, kph: real, v: Velocity, baseSpeed: real)
    requires baseSpeed != 0.0
    ensures RealTimeMPS(FromRealTimeMPS(mps, baseSpeed), baseSpeed) == mps
    ensures RealTimeKPH(FromRealTimeKPH(kph, baseSpeed), baseSpeed) == kph
    ensures FromRealTimeMPS(RealTimeMPS(v, baseSpeed), baseSpeed) == v
  {
  }

  /** `Distance / Velocity`: the seconds it takes to cover the distance. */
  function TravelTime(d: Distance, v: Velocity): real
    requires v.mps != 0.0
  {
    d.meters / v.mps
  }

  /** `Distance / TimeSpan`: the speed that covers the distance in that time. */
  function SpeedOver(d: Distance, ts: real): Velocity
    requires ts != 0.0
  {
    FromMPS(d.meters / ts)
  }

  /** `Velocity * TimeSpan`: the distance covered. */
  function DistanceCovered(v: Velocity, ts: real): Distance
  {
    FromMeters(v.mps * ts)
  }

  /** Travel time, speed and distance agree with each other: driving for the
      travel time covers the distance, and a distance divided by the time taken
      is the speed. */
  lemma TravelTimeConsistent(d: Distance, v: Velocity, ts: real)
    requires v.mps != 0.0
    ensures DistanceCovered(v, TravelTime(d, v)) == d
    ensures ts != 0.0 ==> SpeedOver(DistanceCovered(v, ts), ts) == v
    ensures ts != 0.0 && d.meters != 0.0 ==> TravelTime(d, SpeedOver(d, ts)) == ts
  {
    if ts != 0.0 && d.meters != 0.0 {
      assert SpeedOver(d, ts).mps * ts == d.meters;
    }
  }

  function AddVelocity(v1: Velocity, v2: Velocity): Velocity
  {
    FromMPS(v1.mps + v2.mps)
  }

  function SubVelocity(v1: Velocity, v2: Velocity): Velocity
  {
    FromMPS(v1.mps - v2.mps)
  }

  function ScaleVelocity(v: Velocity, f: real): Velocity
  {
    FromMPS(v.mps * f)
  }

  function DivVelocity(v: Velocity, f: real): Velocity
    requires f != 0.0
  {
    FromMPS(v.mps / f)
  }

  /** Velocity arithmetic acts on meters per second: subtraction undoes addition
      and division undoes scaling. */
  lemma VelocityArithmetic(v1: Velocity, v2: Velocity, f: real)
    ensures SubVelocity(AddVelocity(v1, v2), v2) == v1
    ensures f != 0.0 ==> DivVelocity(ScaleVelocity(v1, f), f) == v1
  {
  }

  datatype Acceleration = Acceleration(mps2: real)

  function FromMPS2(mps2: real): Acceleration
  {
    Acceleration(mps2)
  }

  function FromRealTimeMPS2(mps2: real, baseSpeed: real): Acceleration
    requires baseSpeed != 0.0
  {
    Acceleration(mps2 / baseSpeed)
  }

  function RealTimeMPS2(a: Acceleration, baseSpeed: real): real
  {
    a.mps2 * baseSpeed
  }

  /** `Acceleration * TimeSpan`: the speed gained. */
  function SpeedGained(a: Acceleration, ts: real): Velocity
  {
    FromMPS(a.mps2 * ts)
  }

  function AddAcceleration(a1: Acceleration, a2: Acceleration): Acceleration
  {
    FromMPS2(a1.mps2 + a2.mps2)
  }

  function SubAcceleration(a1: Acceleration, a2: Acceleration): Acceleration
  {
    FromMPS2(a1.mps2 - a2.mps2)
  }

  function ScaleAcceleration(a: Acceleration, f: real): Acceleration
  {
    FromMPS2(a.mps2 * f)
  }

  function DivAcceleration(a: Acceleration, f: real): Acceleration
    requires f != 0.0
  {
    FromMPS2(a.mps2 / f)
  }

  /** Accelerations follow the same rules: the real-time value round-trips, the
      speed gained is linear in the acceleration, and the operators act on
      meters per second squared. */
  lemma AccelerationArithmetic(a1: Acceleration, a2: Acceleration, mps2: real, f: real, ts: real, baseSpeed: real)
    requires baseSpeed != 0.0
    ensures RealTimeMPS2(FromRealTimeMPS2(mps2, baseSpeed), baseSpeed) == mps2
    ensures SpeedGained(AddAcceleration(a1, a2), ts) == AddVelocity(SpeedGained(a1, ts), SpeedGained(a2, ts))
    ensures SubAcceleration(AddAcceleration(a1, a2), a2) == a1
    ensures f != 0.0 ==> DivAcceleration(ScaleAcceleration(a1, f), f) == a1
  {
  }
}
