/** Traffic lights and the path numbering of street intersections
    (Assets/Scripts/Map/StreetIntersection.cs). Times are seconds as `real`. */
module StreetIntersection {

  /** The light phases in the order `Switch` cycles through them. */
  datatype Status = Green | Yellow | Red | YellowRed

  function Ordinal(s: Status): (i: nat)
    ensures i < 4
  {
    match s
    case Green => 0
    case Yellow => 1
    case Red => 2
    case YellowRed => 3
  }

  /** The cast `(Status) i`. */
  function FromOrdinal(i: nat): (s: Status)
    requires i < 4
    ensures Ordinal(s) == i
  {
    if i == 0 then Green else if i == 1 then Yellow else if i == 2 then Red else YellowRed
  }

  const DefaultGreenTime: real := 10.0
  const DefaultRedTime: real := 10.0
  const DefaultYellowTime: real := 2.0
  const DefaultYellowRedTime: real := 4.0

  /** The status after one `Switch`. */
  function Next(s: Status): (r: Status)
    ensures Ordinal(r) == (Ordinal(s) + 1) % 4
  {
    match s
    case Green => Yellow
    case Yellow => Red
    case Red => YellowRed
    case YellowRed => Green
  }

  /** Four switches bring every light back to the status it started in, and the
      three in between are all different from it. */
  lemma SwitchCycle(s: Status)
    ensures Next(Next(Next(Next(s)))) == s
    ensures Next(s) != s && Next(Next(s)) != s && Next(Next(Next(s))) != s
  {
  }

  /** `SetTimeToNextSwitch`: each status gets its own duration; red lasts `redTime`. */
  function PhaseTime(s: Status, redTime: real): real
  {
    match s
    case Green => DefaultGreenTime
    case Red => redTime
    case Yellow => DefaultYellowTime
    case YellowRed => DefaultYellowRedTime
  }

  /** The time one light takes to go through all four statuses. */
  function CycleTime(redTime: real): real
  {
    PhaseTime(Green, redTime) + PhaseTime(Yellow, redTime)
    + PhaseTime(Red, redTime) + PhaseTime(YellowRed, redTime)
  }

  /** The part of a cycle during which a light stops cars (`stopping`) or lets
      them through (`!stopping`). */
  function CycleShare(redTime: real, stopping: bool): real
  {
    (if MustStop(Green) == stopping then PhaseTime(Green, redTime) else 0.0)
    + (if MustStop(Yellow) == stopping then PhaseTime(Yellow, redTime) else 0.0)
    + (if MustStop(Red) == stopping then PhaseTime(Red, redTime) else 0.0)
    + (if MustStop(YellowRed) == stopping then PhaseTime(YellowRed, redTime) else 0.0)
  }

  /** The first countdown of a light: its green time for phase 0, otherwise the red,
      yellow and yellow-red times of the lights that turn green before it. */
  function InitialCountdown(greenPhase: int): real
  {
    if greenPhase == 0 then DefaultGreenTime
    else greenPhase as real * (DefaultRedTime + DefaultYellowTime)
         + (greenPhase - 1) as real * DefaultYellowRedTime
  }

  /** For phase k > 0, the countdown is k green-to-red hand-overs of 12 s each plus
      the k - 1 yellow-red phases in between. */
  lemma InitialCountdownValue(greenPhase: int)
    requires greenPhase > 0
    ensures InitialCountdown(greenPhase) == 16.0 * greenPhase as real - 4.0
  {
  }

  /** The red time of every light at an intersection with `n` lights: the yellow-red,
      green and yellow phases of the other n - 1 lights. */
  function RedTime(numTrafficLights: int): real
  {
    (numTrafficLights - 1) as real * (DefaultRedTime + DefaultYellowTime + DefaultYellowRedTime)
  }

  /** `MustStop`. */
  predicate MustStop(s: Status)
  {
    s == Red || s == YellowRed
  }

  /** With the red time of `n` lights, every light's cycle lasts 16n seconds, the
      same for all lights of the intersection: 12 s letting cars through and
      16n - 12 s stopping them. The n lights' 12 s go windows with one 4 s
      yellow-red hand-over each fill the cycle exactly. */
  lemma LightCycle(n: int)
    requires n > 1
    ensures CycleTime(RedTime(n)) == 16.0 * n as real
    ensures CycleShare(RedTime(n), false) == DefaultGreenTime + DefaultYellowTime == 12.0
    ensures CycleShare(RedTime(n), true) == 16.0 * n as real - 12.0
    ensures CycleShare(RedTime(n), false) + CycleShare(RedTime(n), true) == CycleTime(RedTime(n))
    ensures n as real * (CycleShare(RedTime(n), false) + DefaultYellowRedTime) == CycleTime(RedTime(n))
  {
  }

  /** The moment light `k` first turns green, counted from the construction of
      the lights: at once for phase 0, otherwise after its initial red countdown
      and one yellow-red phase. */
  function FirstGreen(greenPhase: int): real
  {
    if greenPhase == 0 then 0.0 else InitialCountdown(greenPhase) + PhaseTime(YellowRed, 0.0)
  }

  /** The lights take turns: light k turns green at 16k seconds; an earlier
      light's green and yellow are over before a later light shows yellow-red;
      and the last light's go window ends before light 0, a full cycle later,
      shows yellow-red again. */
  lemma LightsTakeTurns(n: int, k: int, j: int)
    requires n > 1 && 0 <= k < j < n
    ensures FirstGreen(k) == 16.0 * k as real && FirstGreen(j) == 16.0 * j as real
    ensures FirstGreen(k) + DefaultGreenTime + DefaultYellowTime <= FirstGreen(j) - DefaultYellowRedTime
    ensures FirstGreen(j) + DefaultGreenTime + DefaultYellowTime
            <= FirstGreen(0) + CycleTime(RedTime(n)) - DefaultYellowRedTime
  {
    if k > 0 {
      InitialCountdownValue(k);
    }
    InitialCountdownValue(j);
    LightCycle(n);
    assert 16.0 * k as real + 16.0 <= 16.0 * j as real;
    assert 16.0 * j as real + 16.0 <= 16.0 * n as real;
  }

  /** `TimeUntilNextRedPhase` in seconds. */
  function TimeUntilNextRedPhase(s: Status, timeToNextSwitch: real): (t: real)
    ensures MustStop(s) ==> t == 0.0
    ensures s == Yellow ==> t == timeToNextSwitch
    ensures s == Green ==> t == timeToNextSwitch + DefaultYellowTime
  {
    match s
    case Red => 0.0
    case YellowRed => 0.0
    case Yellow => timeToNextSwitch
    case Green => timeToNextSwitch + DefaultYellowTime
  }

  /** The time until the next red phase is what the switching cycle takes
      to reach `Red`: nothing while the light stops cars, the rest of the
      countdown while yellow, and the rest of the countdown plus the whole
      yellow phase that `Switch` starts next while green. */
  lemma RedAfterCountdown(s: Status, timeToNextSwitch: real, redTime: real)
    ensures MustStop(s) ==> TimeUntilNextRedPhase(s, timeToNextSwitch) == 0.0
    ensures s == Yellow ==> Next(s) == Red && TimeUntilNextRedPhase(s, timeToNextSwitch) == timeToNextSwitch
    ensures s == Green ==> Next(s) == Yellow && Next(Next(s)) == Red
    ensures s == Green ==> TimeUntilNextRedPhase(s, timeToNextSwitch) == timeToNextSwitch + PhaseTime(Next(s), redTime)
  {
  }

  /** A light that is not stopping cars turns red no earlier than its countdown. */
  lemma NoStopMeansRedLater(s: Status, timeToNextSwitch: real)
    requires !MustStop(s) && timeToNextSwitch >= 0.0
    ensures TimeUntilNextRedPhase(s, timeToNextSwitch) >= timeToNextSwitch
    ensures Next(s) == Yellow || Next(s) == Red
  {
  }

  class TrafficLight {
    var status: Status
    var timeToNextSwitch: real
    const redTime: real
    const greenPhase: int

    /** The light at position `greenPhase` among `numTrafficLights` lights. */
    constructor (numTrafficLights: int, greenPhase: int)
      requires numTrafficLights > 1
      ensures this.greenPhase == greenPhase && redTime == RedTime(numTrafficLights)
      ensures timeToNextSwitch == InitialCountdown(greenPhase)
      ensures status == if greenPhase == 0 then Green else Red
    {
      timeToNextSwitch := InitialCountdown(greenPhase);
      redTime := RedTime(numTrafficLights);
      this.greenPhase := greenPhase;
      status := if greenPhase == 0 then Green else Red;
    }

    /** Advances to the next status and restarts the countdown for it. */
    method Switch()
      modifies this
      ensures status == Next(old(status))
      ensures timeToNextSwitch == PhaseTime(status, redTime)
    {
      status := FromOrdinal((Ordinal(status) + 1) % 4);
      timeToNextSwitch := PhaseTime(status, redTime);
    }

    /** Counts down by `delta` and switches once the countdown reaches zero. */
    method Update(delta: real)
      modifies this
      ensures old(timeToNextSwitch) - delta <= 0.0 ==>
        status == Next(old(status)) && timeToNextSwitch == PhaseTime(status, redTime)
      ensures old(timeToNextSwitch) - delta > 0.0 ==>
        status == old(status) && timeToNextSwitch == old(timeToNextSwitch) - delta
    {
      timeToNextSwitch := timeToNextSwitch - delta;
      if timeToNextSwitch <= 0.0 {
        Switch();
      }
    }

    predicate StopsCars()
      reads this
    {
      MustStop(status)
    }
  }

  /** `GetIndexForIntersectionPath`: the row-major index of (from, to), with four
      columns on a two-way by two-way intersection and one per street otherwise. */
  function PathIndex(fromPos: nat, toPos: nat, twoWayByTwoWay: bool, streetCount: nat): nat
  {
    var n := if twoWayByTwoWay then 4 else streetCount;
    fromPos * n + toPos
  }

  /** The index is unique: it determines both relative positions. */
  lemma PathIndexUnique(f1: nat, t1: nat, f2: nat, t2: nat, twoWay: bool, count: nat)
    requires var n := if twoWay then 4 else count; t1 < n && t2 < n
    requires PathIndex(f1, t1, twoWay, count) == PathIndex(f2, t2, twoWay, count)
    ensures f1 == f2 && t1 == t2
  {
    var n := if twoWay then 4 else count;
    if f1 < f2 {
      RowsApart(f1, f2, n);
    } else if f2 < f1 {
      RowsApart(f2, f1, n);
    }
  }

  /** The index decodes back to the pair: its row is the from-position and its
      column the to-position. */
  lemma PathIndexDecode(fromPos: nat, toPos: nat, twoWay: bool, count: nat)
    requires var n := if twoWay then 4 else count; toPos < n
    ensures var n := if twoWay then 4 else count;
      PathIndex(fromPos, toPos, twoWay, count) / n == fromPos
      && PathIndex(fromPos, toPos, twoWay, count) % n == toPos
  {
    var n := if twoWay then 4 else count;
    var q, r := PathIndex(fromPos, toPos, twoWay, count) / n, PathIndex(fromPos, toPos, twoWay, count) % n;
    assert q * n + r == fromPos * n + toPos;
    PathIndexUnique(q, r, fromPos, toPos, twoWay, count);
  }

  /** Every index of an earlier row is below every index of a later row. */
  lemma RowsApart(a: nat, b: nat, n: nat)
    requires a < b
    ensures a * n + n <= b * n
  {
    var c := b - 1;
    assert b * n == c * n + n;
    if a < c {
      RowsApart(a, c, n);
    }
  }

  /** On an intersection with at most four streets every index is below 16, so it
      names one of the sixteen nibbles of the occupation word. */
  lemma PathIndexFitsNibble(fromPos: nat, toPos: nat, twoWay: bool, count: nat)
    requires count <= 4
    requires var n := if twoWay then 4 else count; fromPos < n && toPos < n
    ensures PathIndex(fromPos, toPos, twoWay, count) < 16
  {
    var n := if twoWay then 4 else count;
    assert fromPos * n <= (n - 1) * n;
    assert (n - 1) * n + (n - 1) < 16 by {
      assert n <= 4;
    }
  }

  /** A destination of a path search. */
  datatype Goal = IntersectionGoal(intersection: nat) | PointOnStreetGoal(street: nat)

  /** `IsGoalReached` for the intersection `self` meeting the streets `streets`. */
  predicate IsGoalReached(self: nat, streets: seq<nat>, goal: Goal)
  {
    match goal
    case IntersectionGoal(i) => i == self
    case PointOnStreetGoal(s) => s in streets
  }

  /** The stops a path search is given as its goals: the intersections, among
      those whose street lists `streetsAt` holds, for which `IsGoalReached`. */
  function GoalStops(streetsAt: seq<seq<nat>>, goal: Goal): set<nat>
  {
    set x | 0 <= x < |streetsAt| && IsGoalReached(x, streetsAt[x], goal)
  }

  /** An intersection goal is reached at that intersection only. */
  lemma GoalStopsIntersection(streetsAt: seq<seq<nat>>, i: nat)
    requires i < |streetsAt|
    ensures GoalStops(streetsAt, IntersectionGoal(i)) == {i}
  {
    assert i in GoalStops(streetsAt, IntersectionGoal(i));
  }

  /** A point on a street is reached at the intersections at the two ends of
      that street and nowhere else. */
  lemma GoalStopsStreet(streetsAt: seq<seq<nat>>, street: nat, a: nat, b: nat)
    requires a < |streetsAt| && b < |streetsAt|
    requires forall x :: 0 <= x < |streetsAt| ==> (street in streetsAt[x] <==> x == a || x == b)
    ensures GoalStops(streetsAt, PointOnStreetGoal(street)) == {a, b}
  {
    assert a in GoalStops(streetsAt, PointOnStreetGoal(street));
    assert b in GoalStops(streetsAt, PointOnStreetGoal(street));
  }

  /** `uTurnAllowed`: only at a dead end, where a single street meets. */
  predicate UTurnAllowed(streets: seq<nat>)
  {
    |streets| == 1
  }

  /** At an intersection where U-turns are allowed, the street a car arrives by
      is the only one it can leave by, and it is the only street there. */
  lemma DeadEndOnlyWayBack(streets: seq<nat>, from: nat, to: nat)
    requires UTurnAllowed(streets) && from in streets && to in streets
    ensures from == to && streets == [from]
  {
    assert streets == [streets[0]];
  }
}
