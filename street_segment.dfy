/** Street segments: their flag bits, length bookkeeping and lane arithmetic
    (Assets/Scripts/Map/StreetSegment.cs). */
module StreetSegment {
  import opened Geometry

  /** The `Flags` enum as a number: bit 0 is one-way, bit 1 is bridge. */
  const OneWayBit: nat := 1
  const BridgeBit: nat := 2

  /** `flags.HasFlag(bit)` for a single-bit flag. */
  function HasFlag(flags: nat, bit: nat): bool
    requires bit == OneWayBit || bit == BridgeBit
  {
    (flags / bit) % 2 == 1
  }

  /** A flag setter: `flags |= bit` when set, `flags &= ~bit` otherwise, for a
      single-bit `bit`. */
  function SetFlag(flags: nat, bit: nat, value: bool): nat
    requires bit == OneWayBit || bit == BridgeBit
  {
    if value then (if HasFlag(flags, bit) then flags else flags + bit)
    else (if HasFlag(flags, bit) then flags - bit else flags)
  }

  /** A setter makes its own flag read back as the value given, leaves the other
      flag bit as it was, and changes no higher bit. */
  lemma SetFlagOnlyOwnBit(flags: nat, bit: nat, value: bool)
    requires bit == OneWayBit || bit == BridgeBit
    ensures HasFlag(SetFlag(flags, bit, value), bit) == value
    ensures var other := if bit == OneWayBit then BridgeBit else OneWayBit;
      HasFlag(SetFlag(flags, bit, value), other) == HasFlag(flags, other)
    ensures SetFlag(flags, bit, value) / 4 == flags / 4
  {
    var q, r := flags / 4, flags % 4;
    LowBits(flags);
    var r' := if value then (if HasFlag(flags, bit) then r else r + bit)
              else (if HasFlag(flags, bit) then r - bit else r);
    assert SetFlag(flags, bit, value) == 4 * q + r';
    LowBits(4 * q + r');
  }

  /** The two flag bits of a number are the bits of its remainder by 4. */
  lemma LowBits(f: nat)
    ensures f == 4 * (f / 4) + f % 4
    ensures f % 2 == (f % 4) % 2 && (f / 2) % 2 == (f % 4) / 2
  {
    var q, r := f / 4, f % 4;
    assert f == 4 * q + r;
    assert f / 2 == 2 * q + r / 2;
  }

  /** The polyline length of `ps`: the sum of `norm(p_i - p_{i-1})`. */
  function PolylineLength(ps: seq<Vec2>, norm: Vec2 -> real): real
  {
    if |ps| <= 1 then 0.0
    else PolylineLength(ps[..|ps| - 1], norm) + norm(Sub(ps[|ps| - 1], ps[|ps| - 2]))
  }

  /** The entries `CalculateLength` appends: the length up to each point, and a
      single 0 for a segment without points. */
  function Cumulative(ps: seq<Vec2>, norm: Vec2 -> real): seq<real>
  {
    if |ps| <= 1 then [0.0] else Cumulative(ps[..|ps| - 1], norm) + [PolylineLength(ps, norm)]
  }

  /** One entry per point (at least one), never decreasing, starting at 0 and ending
      at the total length. */
  lemma {:induction false} CumulativeShape(ps: seq<Vec2>, norm: Vec2 -> real)
    requires IsNorm(norm)
    ensures |Cumulative(ps, norm)| == if |ps| == 0 then 1 else |ps|
    ensures Cumulative(ps, norm)[0] == 0.0
    ensures Cumulative(ps, norm)[|Cumulative(ps, norm)| - 1] == PolylineLength(ps, norm)
    ensures forall i, j :: 0 <= i <= j < |Cumulative(ps, norm)| ==>
      Cumulative(ps, norm)[i] <= Cumulative(ps, norm)[j]
  {
    if |ps| > 1 {
      var init := ps[..|ps| - 1];
      CumulativeShape(init, norm);
      assert init[..|init| - 1] == ps[..|ps| - 2];
      assert norm(Sub(ps[|ps| - 1], ps[|ps| - 2])) >= 0.0;
    }
  }

  /** `BeginStopLineDistance` / `EndStopLineDistance` for a segment of this length. */
  function StopLineDistance(length: real): (d: real)
    ensures d == 0.0 <==> length <= 10.0
    ensures 0.0 <= d <= 10.0
    ensures d < length || length <= 10.0
  {
    if length <= 10.0 then 0.0
    else if length <= 20.0 then 3.0
    else if length <= 30.0 then 5.0
    else 10.0
  }

  /** A longer segment never gets a shorter stop line distance. */
  lemma StopLineMonotone(a: real, b: real)
    requires a <= b
    ensures StopLineDistance(a) <= StopLineDistance(b)
  {
  }

  /** Parking capacity: two cars per whole 15 m. */
  function ParkingCapacity(length: real): (c: int)
    ensures length >= 0.0 ==> c >= 0 && c % 2 == 0
    ensures length >= 0.0 ==> (c / 2) as real * 15.0 <= length < (c / 2 + 1) as real * 15.0
  {
    (length / 15.0).Floor * 2
  }

  /** `LanePositionFromMiddle`: lane + 1 on a one-way street, otherwise the distance
      in lanes from the centre line. */
  function LanePositionFromMiddle(lanes: int, oneWay: bool, lane: int, ignoreOneWay: bool): int
  {
    if oneWay && !ignoreOneWay then lane + 1
    else
      var half := lanes / 2;
      if lane < half then half - lane else lane - half + 1
  }

  /** Every lane of the street is at least one lane away from the middle, and on a
      two-way street at most half the lanes (rounded up) away. */
  lemma LanePositionBounds(lanes: int, oneWay: bool, lane: int, ignoreOneWay: bool)
    requires 0 <= lane < lanes
    ensures 1 <= LanePositionFromMiddle(lanes, oneWay, lane, ignoreOneWay)
    ensures !(oneWay && !ignoreOneWay) ==> LanePositionFromMiddle(lanes, oneWay, lane, ignoreOneWay) <= lanes - lanes / 2
  {
  }

  function RightmostLane(lanes: int): int
  {
    lanes - 1
  }

  function LeftmostLane(lanes: int): int
  {
    0
  }

  /** `MirrorLane`: the lane at the same distance from the middle on the other side. */
  function MirrorLane(lanes: int, lane: int): int
  {
    var half := lanes / 2;
    if lane < half then half + (half - lane) - 1 else half - 1 - (lane - half)
  }

  /** With an even lane count, mirroring swaps the two halves, stays in range, is its
      own inverse and keeps the distance from the middle. */
  lemma MirrorLaneInvolution(lanes: int, lane: int)
    requires lanes % 2 == 0 && 0 <= lane < lanes
    ensures 0 <= MirrorLane(lanes, lane) < lanes
    ensures (lane < lanes / 2) <==> (MirrorLane(lanes, lane) >= lanes / 2)
    ensures MirrorLane(lanes, MirrorLane(lanes, lane)) == lane
    ensures LanePositionFromMiddle(lanes, false, MirrorLane(lanes, lane), false)
         == LanePositionFromMiddle(lanes, false, lane, false)
  {
  }

  /** `LanesPerDirection`. */
  function LanesPerDirection(lanes: int, oneWay: bool): (n: int)
    ensures lanes >= 0 ==> 0 <= n <= lanes
    ensures !oneWay && lanes >= 0 ==> 2 * n <= lanes < 2 * n + 2
  {
    if oneWay then lanes else lanes / 2
  }

  /** `GetOppositeIntersection`: the far end seen from `intersection`. */
  function GetOppositeIntersection(start: nat, end: nat, intersection: nat): nat
  {
    if intersection == start then end else start
  }

  /** Seen from either end, the opposite end is the other one, and going there and
      back returns to the start. */
  lemma OppositeIntersection(start: nat, end: nat, intersection: nat)
    requires intersection == start || intersection == end
    ensures GetOppositeIntersection(start, end, intersection) == (if intersection == start then end else start)
    ensures GetOppositeIntersection(start, end, GetOppositeIntersection(start, end, intersection)) == intersection
  {
  }

  class StreetSegment {
    var flags: nat
    var length: real
    var cumulativeDistances: seq<real>
    var beginStopLineDistance: real
    var endStopLineDistance: real
    var capacity: int
    /** The point list of the segment. */
    var positions: seq<Vec2>

    /** The `IsOneWay` setter. */
    method SetOneWay(value: bool)
      modifies this
      ensures flags == SetFlag(old(flags), OneWayBit, value)
      ensures HasFlag(flags, OneWayBit) == value && HasFlag(flags, BridgeBit) == old(HasFlag(flags, BridgeBit))
      ensures length == old(length) && cumulativeDistances == old(cumulativeDistances)
      ensures positions == old(positions) && capacity == old(capacity)
      ensures beginStopLineDistance == old(beginStopLineDistance)
      ensures endStopLineDistance == old(endStopLineDistance)
    {
      SetFlagOnlyOwnBit(flags, OneWayBit, value);
      if value {
        if !HasFlag(flags, OneWayBit) {
          flags := flags + OneWayBit;
        }
      } else if HasFlag(flags, OneWayBit) {
        flags := flags - OneWayBit;
      }
    }

    /** The `IsBridge` setter. */
    method SetBridge(value: bool)
      modifies this
      ensures flags == SetFlag(old(flags), BridgeBit, value)
      ensures HasFlag(flags, BridgeBit) == value && HasFlag(flags, OneWayBit) == old(HasFlag(flags, OneWayBit))
      ensures length == old(length) && cumulativeDistances == old(cumulativeDistances)
      ensures positions == old(positions) && capacity == old(capacity)
      ensures beginStopLineDistance == old(beginStopLineDistance)
      ensures endStopLineDistance == old(endStopLineDistance)
    {
      SetFlagOnlyOwnBit(flags, BridgeBit, value);
      if value {
        if !HasFlag(flags, BridgeBit) {
          flags := flags + BridgeBit;
        }
      } else if HasFlag(flags, BridgeBit) {
        flags := flags - BridgeBit;
      }
    }

    /** `CalculateLength`: the point-by-point length loop, then the stop lines and
        the parking capacity. The entries are appended to whatever the list held. */
    method CalculateLength(norm: Vec2 -> real)
      modifies this
      ensures length == PolylineLength(positions, norm)
      ensures cumulativeDistances == old(cumulativeDistances) + Cumulative(positions, norm)
      ensures beginStopLineDistance == StopLineDistance(length)
      ensures endStopLineDistance == StopLineDistance(length)
      ensures capacity == ParkingCapacity(length)
      ensures positions == old(positions) && flags == old(flags)
    {
      length := 0.0;
      var ps := positions;
      var added: seq<real> := [];
      if |ps| == 0 {
        assert Cumulative(ps, norm) == [0.0];
      }
      var i := 1;
      while i < |ps|
        invariant 1 <= i && (|ps| > 0 ==> i <= |ps|)
        invariant positions == ps && flags == old(flags)
        invariant |ps| > 0 ==> length == PolylineLength(ps[..i], norm)
        invariant |ps| > 0 ==> added + [length] == Cumulative(ps[..i], norm)
        invariant |ps| == 0 ==> added == [] && length == 0.0
        invariant cumulativeDistances == old(cumulativeDistances) + added
      {
        assert ps[..i + 1][..i] == ps[..i];
        cumulativeDistances := cumulativeDistances + [length];
        added := added + [length];
        length := length + norm(Sub(ps[i], ps[i - 1]));
        i := i + 1;
      }
      if |ps| > 0 {
        assert ps[..i] == ps;
      }
      cumulativeDistances := cumulativeDistances + [length];
      beginStopLineDistance := StopLineDistance(length);
      endStopLineDistance := StopLineDistance(length);
      capacity := ParkingCapacity(length);
    }
  }
}
