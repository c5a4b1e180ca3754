/** The traffic simulator's discrete parts (Assets/Scripts/Simulation/TrafficSimulator.cs):
    the per-lane doubly linked car lists, turn classification, the turn table,
    the traffic factor by hour and the default lane. */
module TrafficSimulator {
  import StreetSegment

  datatype TurnType = Straight | UTurn | RightTurn | LeftTurn | Unclassified

  /** `GetTurnType`. `sameSegment` is `from == to`; the positions are the streets'
      relative positions at the intersection. */
  function GetTurnType(streetCount: nat, sameSegment: bool, fromPos: int, toPos: int): TurnType
  {
    if streetCount == 1 || sameSegment then UTurn
    else if streetCount == 2 then Straight
    else if streetCount <= 4 then
      if toPos == fromPos + 1 || toPos == fromPos - 3 then RightTurn
      else if toPos == fromPos - 1 || toPos == fromPos + 3 then LeftTurn
      else Straight
    else Unclassified
  }

  /** On a four-way intersection the turn is decided by how many positions on the
      target street is, counted round the intersection. */
  lemma FourWayTurns(fromPos: int, toPos: int)
    requires 0 <= fromPos < 4 && 0 <= toPos < 4 && fromPos != toPos
    ensures GetTurnType(4, false, fromPos, toPos) == RightTurn <==> toPos == (fromPos + 1) % 4
    ensures GetTurnType(4, false, fromPos, toPos) == LeftTurn <==> toPos == (fromPos + 3) % 4
    ensures GetTurnType(4, false, fromPos, toPos) == Straight <==> toPos == (fromPos + 2) % 4
  {
  }

  /** A dead end or a return onto the same street is a U-turn, any other way through
      a two-street intersection is straight, and five or more streets are not
      classified. */
  lemma TurnTypeByStreetCount(streetCount: nat, sameSegment: bool, fromPos: int, toPos: int)
    ensures (streetCount == 1 || sameSegment) <==> GetTurnType(streetCount, sameSegment, fromPos, toPos) == UTurn
    ensures streetCount == 2 && !sameSegment ==> GetTurnType(streetCount, sameSegment, fromPos, toPos) == Straight
    ensures GetTurnType(streetCount, sameSegment, fromPos, toPos) == Unclassified <==> streetCount > 4 && !sameSegment
  {
  }

  function Abs(x: int): nat
  {
    if x < 0 then -x else x
  }

  /** `ConflictingTurns`: the table of the source's intersection diagrams. It yields
      true for the combinations those diagrams mark OK and for any unclassified
      turn of the other car. */
  function ConflictingTurns(carPos: int, otherCarPos: int, thisTurn: TurnType, otherTurn: TurnType): bool
  {
    var diff := Abs(carPos - otherCarPos);
    match otherTurn
    case Unclassified => true
    case Straight =>
      if diff == 3 then false
      else if diff == 2 then thisTurn == RightTurn || thisTurn == Straight
      else if diff == 1 then thisTurn == RightTurn || thisTurn == UTurn
      else false
    case UTurn =>
      if diff == 3 then thisTurn == RightTurn || thisTurn == Straight
      else if diff == 2 then thisTurn == RightTurn
      else false
    case RightTurn =>
      if diff == 3 then thisTurn == RightTurn || thisTurn == Straight || thisTurn == LeftTurn
      else if diff == 2 then thisTurn == RightTurn || thisTurn == Straight || thisTurn == UTurn
      else if diff == 1 then thisTurn == RightTurn || thisTurn == UTurn
      else false
    case LeftTurn =>
      if diff == 1 then thisTurn == RightTurn else false
  }

  /** The table depends on the two positions only through their distance, is always
      true for an unclassified other turn, and with the other car turning left it
      only admits a right turn from the neighbouring street. */
  lemma ConflictingTurnsShape(a: int, b: int, thisTurn: TurnType, otherTurn: TurnType)
    ensures ConflictingTurns(a, b, thisTurn, otherTurn) == ConflictingTurns(b, a, thisTurn, otherTurn)
    ensures otherTurn == Unclassified ==> ConflictingTurns(a, b, thisTurn, otherTurn)
    ensures otherTurn == LeftTurn ==>
      (ConflictingTurns(a, b, thisTurn, otherTurn) <==> Abs(a - b) == 1 && thisTurn == RightTurn)
    ensures a == b ==> (ConflictingTurns(a, b, thisTurn, otherTurn) <==> otherTurn == Unclassified)
  {
  }

  /** `GetTrafficFactor`: a fixed factor per hour of the day, 0 for an invalid hour. */
  function GetTrafficFactor(hour: int): real
  {
    if hour == 21 || hour == 22 || hour == 23 || (0 <= hour <= 3) then 1.1
    else if 4 <= hour <= 6 then 1.3
    else if 7 <= hour <= 9 then 2.5
    else if hour == 10 || hour == 11 then 1.7
    else if hour == 12 || hour == 13 then 2.2
    else if hour == 14 then 1.7
    else if 15 <= hour <= 17 then 2.2
    else if 18 <= hour <= 20 then 1.5
    else 0.0
  }

  /** Every hour of the day has a factor between 1.1 and 2.5, the morning rush
      (7 to 9) has the highest, the night (21 to 3) the lowest, and any other
      number gives 0. */
  lemma TrafficFactorRange(hour: int)
    ensures 0 <= hour < 24 ==> 1.1 <= GetTrafficFactor(hour) <= 2.5
    ensures !(0 <= hour < 24) ==> GetTrafficFactor(hour) == 0.0
    ensures GetTrafficFactor(hour) == 2.5 <==> 7 <= hour <= 9
    ensures GetTrafficFactor(hour) == 1.1 <==> (21 <= hour <= 23 || 0 <= hour <= 3)
  {
  }

  /** `GetDefaultLane`: the leftmost lane for a car driving backward on a two-way
      street, the rightmost lane otherwise. */
  function GetDefaultLane(lanes: int, oneWay: bool, backward: bool): int
  {
    if backward && !oneWay then StreetSegment.LeftmostLane(lanes) else StreetSegment.RightmostLane(lanes)
  }

  /** `IsRightLane`. */
  predicate IsRightLane(lanes: int, oneWay: bool, lane: int)
  {
    oneWay || lane >= lanes / 2
  }

  /** The default lane is a lane of the street; driving forward it is a right lane,
      and on a two-way street with an even lane count the two directions' default
      lanes mirror each other. */
  lemma DefaultLaneValid(lanes: int, oneWay: bool, backward: bool)
    requires lanes >= 1
    ensures 0 <= GetDefaultLane(lanes, oneWay, backward) < lanes
    ensures !backward ==> IsRightLane(lanes, oneWay, GetDefaultLane(lanes, oneWay, backward))
    ensures !oneWay && lanes % 2 == 0 ==>
      StreetSegment.MirrorLane(lanes, GetDefaultLane(lanes, false, true)) == GetDefaultLane(lanes, false, false)
  {
  }

  /** A car on a street segment; `next` and `prev` link the cars of one lane in
      order of their distance from the segment's start. */
  class DrivingCar {
    var next: DrivingCar?
    var prev: DrivingCar?
    var lane: int
    var distanceFromStart: real

    constructor ()
      ensures next == null && prev == null
    {
      next, prev := null, null;
      lane, distanceFromStart := 0, 0.0;
    }
  }

  /** The car behind position `i` of `cars`, or null at the last one. */
  function Succ(cars: seq<DrivingCar>, i: int): DrivingCar?
    requires 0 <= i < |cars|
  {
    if i + 1 < |cars| then cars[i + 1] else null
  }

  /** The car in front of position `i` of `cars`, or null at the first one. */
  function Pred(cars: seq<DrivingCar>, i: int): DrivingCar?
    requires 0 <= i < |cars|
  {
    if i == 0 then null else cars[i - 1]
  }

  /** `first` is the head of the list made of `cars`, linked both ways. */
  ghost predicate LaneList(first: DrivingCar?, cars: seq<DrivingCar>)
    reads cars
  {
    first == (if |cars| == 0 then null else cars[0])
    && Distinct(cars)
    && (forall i {:trigger cars[i].next} :: 0 <= i < |cars| ==> cars[i].next == Succ(cars, i))
    && (forall i {:trigger cars[i].prev} :: 0 <= i < |cars| ==> cars[i].prev == Pred(cars, i))
  }

  ghost predicate SortedByDistance(cars: seq<DrivingCar>)
    reads cars
  {
    forall i, j :: 0 <= i < j < |cars| ==> cars[i].distanceFromStart <= cars[j].distanceFromStart
  }

  class Simulator {
    /** For each segment id, the heads of its lanes' car lists. */
    var drivingCars: map<int, array<DrivingCar?>>

    constructor ()
      ensures drivingCars == map[]
    {
      drivingCars := map[];
    }

    /** `GetDrivingCars(seg)`: the segment's lane array, created with one empty
        entry per lane on first use. */
    method GetDrivingCars(segId: int, lanes: nat) returns (cars: array<DrivingCar?>)
      modifies this
      ensures segId in old(drivingCars) ==> cars == old(drivingCars)[segId] && drivingCars == old(drivingCars)
      ensures segId !in old(drivingCars) ==>
        fresh(cars) && cars.Length == lanes && (forall i :: 0 <= i < lanes ==> cars[i] == null)
        && drivingCars == old(drivingCars)[segId := cars]
    {
      if segId in drivingCars {
        cars := drivingCars[segId];
      } else {
        cars := new DrivingCar?[lanes](_ => null);
        drivingCars := drivingCars[segId := cars];
      }
    }
  }

  /** `s` with `x` inserted at position `k`. */
  function Insert<T>(s: seq<T>, k: nat, x: T): (r: seq<T>)
    requires k <= |s|
    ensures |r| == |s| + 1 && r[k] == x
    ensures forall j {:trigger r[j]} :: 0 <= j < k ==> r[j] == s[j]
    ensures forall j {:trigger r[j]} :: k < j < |r| ==> r[j] == s[j - 1]
  {
    s[..k] + [x] + s[k..]
  }

  /** `s` without its element at position `idx`. */
  function Without<T>(s: seq<T>, idx: nat): (r: seq<T>)
    requires idx < |s|
    ensures |r| == |s| - 1
    ensures forall j {:trigger r[j]} :: 0 <= j < idx ==> r[j] == s[j]
    ensures forall j {:trigger r[j]} :: idx <= j < |r| ==> r[j] == s[j + 1]
  {
    s[..idx] + s[idx + 1..]
  }

  ghost predicate Distinct(cars: seq<DrivingCar>)
  {
    forall i, j :: 0 <= i < j < |cars| ==> cars[i] != cars[j]
  }

  lemma InsertDistinct(cars: seq<DrivingCar>, k: nat, x: DrivingCar)
    requires k <= |cars| && Distinct(cars) && x !in cars
    ensures Distinct(Insert(cars, k, x))
  {
    var r := Insert(cars, k, x);
    forall a, b | 0 <= a < b < |r|
      ensures r[a] != r[b]
    {
      if a != k && b != k {
        var a', b' := if a < k then a else a - 1, if b < k then b else b - 1;
        assert r[a] == cars[a'] && r[b] == cars[b'];
      }
    }
  }

  lemma WithoutDistinct(cars: seq<DrivingCar>, idx: nat)
    requires idx < |cars| && Distinct(cars)
    ensures Distinct(Without(cars, idx)) && cars[idx] !in Without(cars, idx)
  {
    var r := Without(cars, idx);
    forall a, b | 0 <= a < b < |r|
      ensures r[a] != r[b]
    {
      var a', b' := if a < idx then a else a + 1, if b < idx then b else b + 1;
      assert r[a] == cars[a'] && r[b] == cars[b'];
    }
  }

  /** A car placed no nearer than the one in front of it and no farther than the one
      behind it keeps the lane sorted. */
  lemma InsertSorted(cars: seq<DrivingCar>, k: nat, x: DrivingCar)
    requires k <= |cars| && SortedByDistance(cars)
    requires k > 0 ==> cars[k - 1].distanceFromStart <= x.distanceFromStart
    requires k < |cars| ==> x.distanceFromStart <= cars[k].distanceFromStart
    ensures SortedByDistance(Insert(cars, k, x))
  {
    var r := Insert(cars, k, x);
    forall a, b | 0 <= a < b < |r|
      ensures r[a].distanceFromStart <= r[b].distanceFromStart
    {
      if a == k {
        assert r[b] == cars[b - 1] && cars[k].distanceFromStart <= cars[b - 1].distanceFromStart;
      } else if b == k {
        assert r[a] == cars[a] && cars[a].distanceFromStart <= cars[k - 1].distanceFromStart;
      } else {
        var a', b' := if a < k then a else a - 1, if b < k then b else b - 1;
        assert r[a] == cars[a'] && r[b] == cars[b'];
      }
    }
  }

  lemma WithoutSorted(cars: seq<DrivingCar>, idx: nat)
    requires idx < |cars| && SortedByDistance(cars)
    ensures SortedByDistance(Without(cars, idx))
  {
    var r := Without(cars, idx);
    forall a, b | 0 <= a < b < |r|
      ensures r[a].distanceFromStart <= r[b].distanceFromStart
    {
      var a', b' := if a < idx then a else a + 1, if b < idx then b else b + 1;
      assert r[a] == cars[a'] && r[b] == cars[b'];
    }
  }

  /** After an insertion that relinked only the car in front of the new one, the
      `next` links follow the new list. */
  lemma InsertNexts(cars: seq<DrivingCar>, k: nat, x: DrivingCar, before: seq<DrivingCar?>)
    requires k <= |cars|
    requires |before| == |cars| && forall j :: 0 <= j < |cars| ==> before[j] == Succ(cars, j)
    requires forall j :: 0 <= j < |cars| && j + 1 != k ==> cars[j].next == before[j]
    requires k > 0 ==> cars[k - 1].next == x
    requires x.next == if k < |cars| then cars[k] else null
    ensures forall j {:trigger Insert(cars, k, x)[j].next} :: 0 <= j <= |cars| ==> Insert(cars, k, x)[j].next == Succ(Insert(cars, k, x), j)
  {
    var r := Insert(cars, k, x);
    forall j | 0 <= j < |r|
      ensures r[j].next == Succ(r, j)
    {
      if j + 1 < k {
        assert r[j] == cars[j] && r[j + 1] == cars[j + 1];
        assert before[j] == Succ(cars, j);
      } else if j + 1 == k {
        assert r[j] == cars[k - 1];
      } else if j > k {
        assert r[j] == cars[j - 1];
        assert before[j - 1] == Succ(cars, j - 1);
      }
    }
  }

  /** The same for the `prev` links, where only the car behind the new one was
      relinked. */
  lemma InsertPrevs(cars: seq<DrivingCar>, k: nat, x: DrivingCar, before: seq<DrivingCar?>)
    requires k <= |cars|
    requires |before| == |cars| && forall j :: 0 <= j < |cars| ==> before[j] == Pred(cars, j)
    requires forall j :: 0 <= j < |cars| && j != k ==> cars[j].prev == before[j]
    requires k < |cars| ==> cars[k].prev == x
    requires x.prev == if k > 0 then cars[k - 1] else null
    ensures forall j {:trigger Insert(cars, k, x)[j].prev} :: 0 <= j <= |cars| ==> Insert(cars, k, x)[j].prev == Pred(Insert(cars, k, x), j)
  {
    var r := Insert(cars, k, x);
    forall j | 0 <= j < |r|
      ensures r[j].prev == Pred(r, j)
    {
      if j < k {
        assert r[j] == cars[j] && (j > 0 ==> r[j - 1] == cars[j - 1]);
        assert before[j] == Pred(cars, j);
      } else if j == k + 1 {
        assert r[j] == cars[k];
      } else if j > k + 1 {
        assert r[j] == cars[j - 1] && r[j - 1] == cars[j - 2];
        assert before[j - 1] == Pred(cars, j - 1);
      }
    }
  }

  /** After an unlinking that relinked only the car in front of the removed one, the
      `next` links follow the shorter list. */
  lemma WithoutNexts(cars: seq<DrivingCar>, idx: nat, before: seq<DrivingCar?>)
    requires idx < |cars|
    requires |before| == |cars| && forall j :: 0 <= j < |cars| ==> before[j] == Succ(cars, j)
    requires forall j :: 0 <= j < |cars| && j + 1 != idx && j != idx ==> cars[j].next == before[j]
    requires idx > 0 ==> cars[idx - 1].next == Succ(cars, idx)
    ensures forall j {:trigger Without(cars, idx)[j].next} :: 0 <= j < |cars| - 1 ==> Without(cars, idx)[j].next == Succ(Without(cars, idx), j)
  {
    var r := Without(cars, idx);
    forall j | 0 <= j < |r|
      ensures r[j].next == Succ(r, j)
    {
      if j + 1 < idx {
        assert r[j] == cars[j] && r[j + 1] == cars[j + 1];
        assert before[j] == Succ(cars, j);
      } else if j + 1 == idx {
        assert r[j] == cars[idx - 1];
      } else {
        assert r[j] == cars[j + 1];
        assert before[j + 1] == Succ(cars, j + 1);
      }
    }
  }

  /** The same for the `prev` links, where only the car behind the removed one was
      relinked. */
  lemma WithoutPrevs(cars: seq<DrivingCar>, idx: nat, before: seq<DrivingCar?>)
    requires idx < |cars|
    requires |before| == |cars| && forall j :: 0 <= j < |cars| ==> before[j] == Pred(cars, j)
    requires forall j :: 0 <= j < |cars| && j != idx + 1 && j != idx ==> cars[j].prev == before[j]
    requires idx + 1 < |cars| ==> cars[idx + 1].prev == Pred(cars, idx)
    ensures forall j {:trigger Without(cars, idx)[j].prev} :: 0 <= j < |cars| - 1 ==> Without(cars, idx)[j].prev == Pred(Without(cars, idx), j)
  {
    var r := Without(cars, idx);
    forall j | 0 <= j < |r|
      ensures r[j].prev == Pred(r, j)
    {
      if j < idx {
        assert r[j] == cars[j] && (j > 0 ==> r[j - 1] == cars[j - 1]);
        assert before[j] == Pred(cars, j);
      } else if j > idx {
        assert r[j] == cars[j + 1] && r[j - 1] == cars[j];
        assert before[j + 1] == Pred(cars, j + 1);
      }
    }
  }

  /** `p`, or `other` when `p` is null: names a frame that is empty in effect when
      there is no neighbour. */
  function OrElse(p: DrivingCar?, other: DrivingCar): DrivingCar
  {
    if p == null then other else p
  }

  /** The link updates of `EnterStreetSegment` that put `newCar` between `p`
      and `q`; a null `p` makes it the lane's new head. */
  method LinkIn(heads: array<DrivingCar?>, lane: int, newCar: DrivingCar, p: DrivingCar?, q: DrivingCar?,
                ghost cars: seq<DrivingCar>, ghost k: nat)
    requires 0 <= lane < heads.Length && LaneList(heads[lane], cars)
    requires newCar.next == null && newCar.prev == null && newCar !in cars
    requires k <= |cars| && p == (if k == 0 then null else cars[k - 1]) && q == (if k < |cars| then cars[k] else null)
    modifies heads, newCar`next, newCar`prev
    modifies OrElse(p, newCar)`next, OrElse(q, newCar)`prev
    ensures LaneList(heads[lane], Insert(cars, k, newCar))
    ensures forall l :: 0 <= l < heads.Length && l != lane ==> heads[l] == old(heads[l])
  {
    ghost var nexts := seq(|cars|, j requires 0 <= j < |cars| reads cars => cars[j].next);
    ghost var prevs := seq(|cars|, j requires 0 <= j < |cars| reads cars => cars[j].prev);
    if p == null {
      if q != null {
        newCar.next := q;
        q.prev := newCar;
      }
      heads[lane] := newCar;
    } else {
      if p.next != null {
        p.next.prev := newCar;
      }
      newCar.next := p.next;
      p.next := newCar;
      newCar.prev := p;
    }
    forall j | 0 <= j < |cars| && j != k - 1
      ensures cars[j].next == nexts[j]
    {
      assert cars[j] != newCar && (k > 0 ==> cars[j] != cars[k - 1]);
    }
    forall j | 0 <= j < |cars| && j != k
      ensures cars[j].prev == prevs[j]
    {
      assert cars[j] != newCar && (k < |cars| ==> cars[j] != cars[k]);
    }
    InsertNexts(cars, k, newCar, nexts);
    InsertPrevs(cars, k, newCar, prevs);
    InsertDistinct(cars, k, newCar);
  }

  /** The link updates of `ExitStreetSegment` for a car whose neighbours are
      `p` (in front) and `q` (behind). */
  method Unlink(heads: array<DrivingCar?>, lane: int, car: DrivingCar, ghost p: DrivingCar?, ghost q: DrivingCar?,
                ghost cars: seq<DrivingCar>, ghost idx: nat)
    requires 0 <= lane < heads.Length && LaneList(heads[lane], cars)
    requires idx < |cars| && cars[idx] == car && p == Pred(cars, idx) && q == Succ(cars, idx)
    modifies heads, car`next, car`prev
    modifies OrElse(p, car)`next, OrElse(q, car)`prev
    ensures LaneList(heads[lane], Without(cars, idx))
    ensures car.next == null && car.prev == null && car !in Without(cars, idx)
    ensures forall l :: 0 <= l < heads.Length && l != lane ==> heads[l] == old(heads[l])
  {
    ghost var nexts := seq(|cars|, j requires 0 <= j < |cars| reads cars => cars[j].next);
    ghost var prevs := seq(|cars|, j requires 0 <= j < |cars| reads cars => cars[j].prev);
    assert p != null ==> p == cars[idx - 1];
    assert q != null ==> q == cars[idx + 1];
    if car.prev == null {
      heads[lane] := car.next;
    } else {
      car.prev.next := car.next;
    }
    if car.next != null {
      car.next.prev := car.prev;
    }
    car.prev := null;
    car.next := null;
    forall j | 0 <= j < |cars| && j + 1 != idx && j != idx
      ensures cars[j].next == nexts[j]
    {
      assert idx > 0 ==> cars[j] != cars[idx - 1];
    }
    forall j | 0 <= j < |cars| && j != idx + 1 && j != idx
      ensures cars[j].prev == prevs[j]
    {
      assert idx + 1 < |cars| ==> cars[j] != cars[idx + 1];
    }
    WithoutNexts(cars, idx, nexts);
    WithoutPrevs(cars, idx, prevs);
    WithoutDistinct(cars, idx);
  }

  /** The walk of `EnterStreetSegment` along a lane's list from `firstCar`: it
      stops at the last car before the first one at or beyond `distanceFromStart`. */
  method WalkToPlace(firstCar: DrivingCar, distanceFromStart: real, ghost cars: seq<DrivingCar>)
    returns (car: DrivingCar, ghost i: nat)
    requires |cars| > 0 && LaneList(firstCar, cars) && firstCar.distanceFromStart <= distanceFromStart
    ensures i < |cars| && car == cars[i] && car.next == Succ(cars, i)
    ensures forall j :: 0 <= j <= i ==> j == 0 || cars[j].distanceFromStart < distanceFromStart
    ensures cars[i].distanceFromStart <= distanceFromStart
    ensures car.next == null || car.next.distanceFromStart >= distanceFromStart
  {
    car, i := firstCar, 0;
    while car.next != null && car.next.distanceFromStart < distanceFromStart
      invariant i < |cars| && car == cars[i] && car.next == Succ(cars, i)
      invariant cars[i].distanceFromStart <= distanceFromStart
      invariant forall j :: 0 <= j <= i ==> j == 0 || cars[j].distanceFromStart < distanceFromStart
      decreases |cars| - i
    {
      car := car.next;
      i := i + 1;
    }
  }

  /** Where `EnterStreetSegment` puts a car at `distanceFromStart` into the list of
      `cars` headed by `first`: between `p` and `q`, at position `k`. An empty lane
      or a head car beyond that distance puts it in front. */
  method FindPlace(first: DrivingCar?, distanceFromStart: real, ghost cars: seq<DrivingCar>)
    returns (p: DrivingCar?, q: DrivingCar?, ghost k: nat)
    requires LaneList(first, cars)
    ensures k <= |cars|
    ensures p == (if k == 0 then null else cars[k - 1]) && q == (if k < |cars| then cars[k] else null)
    ensures k == 0 <==> |cars| == 0 || cars[0].distanceFromStart > distanceFromStart
    ensures k > 0 ==> cars[k - 1].distanceFromStart <= distanceFromStart
    ensures k < |cars| ==> distanceFromStart <= cars[k].distanceFromStart
    ensures forall j :: 0 < j < k ==> cars[j].distanceFromStart < distanceFromStart
  {
    var firstCar := first;
    if firstCar == null {
      p, q, k := null, null, 0;
    } else if firstCar.distanceFromStart > distanceFromStart {
      p, q, k := null, firstCar, 0;
    } else {
      ghost var i;
      firstCar, i := WalkToPlace(firstCar, distanceFromStart, cars);
      p, q, k := firstCar, firstCar.next, i + 1;
    }
  }

  /** Relinking cars leaves a sorted list sorted when no distance changed. */
  twostate lemma SortedKept(cars: seq<DrivingCar>)
    requires old(SortedByDistance(cars))
    requires forall j :: 0 <= j < |cars| ==> cars[j].distanceFromStart == old(cars[j].distanceFromStart)
    ensures SortedByDistance(cars)
  {
  }

  /** The list part of `EnterStreetSegment`: inserts `newCar` into lane `lane` of
      `heads` behind every car that is nearer the start, and before the first car
      that is not (a head car at the same distance stays in front). `cars` is the
      lane's list before, `after` the list afterwards and `k` the new car's place. */
  method EnterLane(heads: array<DrivingCar?>, lane: int, newCar: DrivingCar, distanceFromStart: real,
                   ghost cars: seq<DrivingCar>)
    returns (ghost after: seq<DrivingCar>, ghost k: nat)
    requires 0 <= lane < heads.Length && LaneList(heads[lane], cars) && SortedByDistance(cars)
    requires newCar !in cars && newCar.next == null && newCar.prev == null
    modifies heads, newCar, set c | c in cars
    ensures k <= |cars| && after == Insert(cars, k, newCar)
    ensures LaneList(heads[lane], after) && SortedByDistance(after)
    ensures newCar.distanceFromStart == distanceFromStart && newCar.lane == lane
    ensures forall c :: c in cars ==> c.distanceFromStart == old(c.distanceFromStart)
    ensures k == 0 <==> |cars| == 0 || cars[0].distanceFromStart > distanceFromStart
    ensures k > 0 ==> cars[k - 1].distanceFromStart <= distanceFromStart
    ensures k < |cars| ==> distanceFromStart <= cars[k].distanceFromStart
    ensures forall j :: 0 < j < k ==> cars[j].distanceFromStart < distanceFromStart
    ensures forall l :: 0 <= l < heads.Length && l != lane ==> heads[l] == old(heads[l])
  {
    newCar.distanceFromStart := distanceFromStart;
    newCar.lane := lane;
    var p, q;
    p, q, k := FindPlace(heads[lane], distanceFromStart, cars);
    InsertSorted(cars, k, newCar);
    label BeforeLink:
    LinkIn(heads, lane, newCar, p, q, cars, k);
    after := Insert(cars, k, newCar);
    SortedKept@BeforeLink(after);
  }

  /** The `EnterStreetSegment` overload that allocates the car it enters. */
  method EnterNewCar(heads: array<DrivingCar?>, lane: int, distanceFromStart: real, ghost cars: seq<DrivingCar>)
    returns (newCar: DrivingCar, ghost after: seq<DrivingCar>, ghost k: nat)
    requires 0 <= lane < heads.Length && LaneList(heads[lane], cars) && SortedByDistance(cars)
    modifies heads, set c | c in cars
    ensures fresh(newCar) && k <= |cars| && after == Insert(cars, k, newCar)
    ensures LaneList(heads[lane], after) && SortedByDistance(after)
    ensures newCar.distanceFromStart == distanceFromStart && newCar.lane == lane
    ensures forall c :: c in cars ==> c.distanceFromStart == old(c.distanceFromStart)
    ensures k == 0 <==> |cars| == 0 || cars[0].distanceFromStart > distanceFromStart
    ensures k > 0 ==> cars[k - 1].distanceFromStart <= distanceFromStart
    ensures k < |cars| ==> distanceFromStart <= cars[k].distanceFromStart
    ensures forall j :: 0 < j < k ==> cars[j].distanceFromStart < distanceFromStart
    ensures forall l :: 0 <= l < heads.Length && l != lane ==> heads[l] == old(heads[l])
  {
    newCar := new DrivingCar();
    after, k := EnterLane(heads, lane, newCar, distanceFromStart, cars);
  }

  /** `ExitStreetSegment`: unlinks the car at position `idx` of its lane's list,
      moving the head if it was first, and clears its own links. */
  method ExitLane(heads: array<DrivingCar?>, car: DrivingCar, ghost cars: seq<DrivingCar>, ghost idx: nat)
    returns (ghost after: seq<DrivingCar>)
    requires 0 <= car.lane < heads.Length && LaneList(heads[car.lane], cars)
    requires idx < |cars| && cars[idx] == car
    modifies heads, set c | c in cars
    ensures car.lane == old(car.lane)
    ensures after == Without(cars, idx)
    ensures LaneList(heads[car.lane], after)
    ensures car.next == null && car.prev == null && car !in after
    ensures SortedByDistance(cars) ==> SortedByDistance(after)
    ensures forall c :: c in cars ==> c.distanceFromStart == old(c.distanceFromStart)
    ensures forall l :: 0 <= l < heads.Length && l != car.lane ==> heads[l] == old(heads[l])
  {
    after := Without(cars, idx);
    ghost var p, q := Pred(cars, idx), Succ(cars, idx);
    assert car.prev == p && car.next == q;
    Unlink(heads, car.lane, car, p, q, cars, idx);
    if SortedByDistance(cars) {
      WithoutSorted(cars, idx);
    }
  }
}
