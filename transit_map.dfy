/** The slot grid of the transit map (Assets/Scripts/Transit/TransitMap.cs):
    a stop served by several lines gets, for each compass direction, a row
    of slots that routes leaving in that direction are assigned to, and
    `AssignSlot` finds a route its slot by a circular search from a desired
    index. Slots are values addressed by stop, direction and index; routes,
    lines and stops are identified by number. The meshes and the geometry
    that yields each route's heading are not part of this model: headings
    and angles are parameters. */
module TransitMaps {
  import opened Wrappers
  import opened Paths
  import opened MathUtil

  type StopId = int
  type RouteId = int
  type LineId = int

  /** `IsParallelTo`: the same or the reverse direction. `Opposite()`,
      whose definition is not part of this model, is taken as the half turn
      `Reverse`. */
  predicate IsParallelTo(a: CardinalDirection, b: CardinalDirection)
  {
    a == b || a == Reverse(b)
  }

  /** The enum's integer value: North, South, West, East. */
  function Ord(d: CardinalDirection): (r: nat)
    ensures r < 4
  {
    match d
    case North => 0
    case South => 1
    case West => 2
    case East => 3
  }

  function DirOf(x: nat): (d: CardinalDirection)
    requires x < 4
    ensures Ord(d) == x
  {
    if x == 0 then North else if x == 1 then South else if x == 2 then West else East
  }

  /** Lines 101-120: the compass direction of a heading angle in degrees. */
  function GetCardinalDirection(angle: real): CardinalDirection
  {
    if angle > 315.0 || angle < 45.0 then East
    else if angle < 135.0 then North
    else if angle < 225.0 then West
    else South
  }

  /** Turning a heading round gives the opposite direction, except at 135
      degrees, which is West while 315 is South. */
  lemma ReverseHeading(angle: real)
    requires 0.0 <= angle < 180.0 && angle != 135.0
    ensures GetCardinalDirection(angle + 180.0) == Reverse(GetCardinalDirection(angle))
  {
  }

  lemma ReverseHeadingBoundary()
    ensures GetCardinalDirection(135.0) == West && GetCardinalDirection(315.0) == South
    ensures GetCardinalDirection(315.0) != Reverse(GetCardinalDirection(135.0))
  {
  }

  // ---------------------------------------------------------------------------
  // The slot grid (UpdateStop)
  // ---------------------------------------------------------------------------

  /** A `SlotAssignment`: its direction and index, the route it is assigned
      to and the line it is reserved for. */
  datatype Slot = Slot(direction: CardinalDirection, index: nat, route: Option<RouteId>, reservedFor: Option<LineId>)

  /** The slot an assignment names. */
  datatype SlotRef = SlotRef(direction: CardinalDirection, index: nat)

  /** A route through the stop: whether it is a back route, and the
      direction its next stop lies in. */
  datatype RouteInfo = RouteInfo(isBackRoute: bool, heading: CardinalDirection)

  /** The routes, other than back routes, heading in direction `d`. */
  function Needed(routes: seq<RouteInfo>, d: CardinalDirection): nat
  {
    if routes == [] then 0
    else
      var last := routes[|routes| - 1];
      Needed(routes[..|routes| - 1], d) + (if !last.isBackRoute && last.heading == d then 1 else 0)
  }

  function Max3(a: int, b: int, c: int): (r: int)
    ensures r >= a && r >= b && r >= c && (r == a || r == b || r == c)
  {
    if a >= b && a >= c then a else if b >= c then b else c
  }

  /** The slots on the east and west sides. */
  function GridHeight(routes: seq<RouteInfo>): int
  {
    Max3(1, Needed(routes, East), Needed(routes, West))
  }

  /** The slots on the north and south sides. */
  function GridWidth(routes: seq<RouteInfo>): int
  {
    Max3(1, Needed(routes, North), Needed(routes, South))
  }

  /** A row of `n` free, unreserved slots facing `d`. */
  function Row(d: CardinalDirection, n: nat): (r: seq<Slot>)
    ensures |r| == n
  {
    seq(n, y requires 0 <= y < n => Slot(d, y, None, None))
  }

  function FreshGrid(width: nat, height: nat): seq<seq<Slot>>
  {
    [Row(North, width), Row(South, width), Row(West, height), Row(East, height)]
  }

  /** The grid a stop gets: none for a stop of at most one line or one that
      needs a single slot on every side. */
  function StopGrid(lineCount: nat, routes: seq<RouteInfo>): Option<seq<seq<Slot>>>
  {
    if lineCount <= 1 then None
    else
      var h, w := GridHeight(routes), GridWidth(routes);
      if h == 1 && w == 1 then None else Some(FreshGrid(w, h))
  }

  /** Four rows, the north and south ones of one length and the west and
      east ones of another, none empty, each slot knowing where it is. */
  predicate GridShape(g: seq<seq<Slot>>)
  {
    |g| == 4 && |g[0]| == |g[1]| >= 1 && |g[2]| == |g[3]| >= 1
    && forall x, y :: 0 <= x < 4 && 0 <= y < |g[x]| ==> g[x][y].direction == DirOf(x) && g[x][y].index == y
  }

  /** A new grid is well formed, every slot of it free and unreserved, and
      every direction has a slot for each route heading that way. */
  lemma StopGridShape(lineCount: nat, routes: seq<RouteInfo>)
    requires StopGrid(lineCount, routes).Some?
    ensures var g := StopGrid(lineCount, routes).value;
      GridShape(g)
      && (forall x, y :: 0 <= x < 4 && 0 <= y < |g[x]| ==> g[x][y].route.None? && g[x][y].reservedFor.None?)
      && (forall d :: |g[Ord(d)]| >= Needed(routes, d))
      && (forall d :: |g[Ord(d)]| == |g[Ord(Reverse(d))]|)
  {
    var g := StopGrid(lineCount, routes).value;
    forall d ensures |g[Ord(d)]| >= Needed(routes, d) {
      match d
      case North =>
      case South =>
      case West =>
      case East =>
    }
  }

  /** The grid is dropped exactly when at most one line serves the stop or
      no direction has two routes heading that way. */
  lemma StopGridDropped(lineCount: nat, routes: seq<RouteInfo>)
    ensures StopGrid(lineCount, routes).None? ==> (lineCount <= 1 || forall d :: Needed(routes, d) <= 1)
    ensures (lineCount <= 1 || forall d :: Needed(routes, d) <= 1) ==> StopGrid(lineCount, routes).None?
  {
    if lineCount > 1 && forall d :: Needed(routes, d) <= 1 {
      assert Needed(routes, North) <= 1 && Needed(routes, South) <= 1;
      assert Needed(routes, West) <= 1 && Needed(routes, East) <= 1;
    }
    if lineCount > 1 && StopGrid(lineCount, routes).None? {
      assert GridHeight(routes) == 1 && GridWidth(routes) == 1;
      forall d ensures Needed(routes, d) <= 1 {
        match d
        case North =>
        case South =>
        case West =>
        case East =>
      }
    }
  }

  // ---------------------------------------------------------------------------
  // The circular search (AssignSlot)
  // ---------------------------------------------------------------------------

  /** `Mathf.Clamp`. */
  function Clamp(v: int, lo: int, hi: int): (r: int)
    ensures lo <= hi ==> lo <= r <= hi
    ensures lo <= v <= hi ==> r == v
  {
    if v < lo then lo else if v > hi then hi else v
  }

  /** A slot a route of `line` may take: no route on it, and reserved for no
      line or for this one. */
  predicate Free(s: Slot, line: LineId)
  {
    s.route.None? && (s.reservedFor.None? || s.reservedFor == Some(line))
  }

  /** Lines 415-423: the next index, wrapping around at either end. */
  function StepIndex(i: int, len: nat, backward: bool): int
  {
    var j := if backward then i - 1 else i + 1;
    if j == -1 then len - 1 else if j == len then 0 else j
  }

  /** The search from index `i` with `n` slots already checked. */
  function Search(slots: seq<Slot>, line: LineId, i: int, n: nat, backward: bool): Option<nat>
    decreases |slots| - n
  {
    if n >= |slots| || !(0 <= i < |slots|) then None
    else if Free(slots[i], line) then Some(i)
    else Search(slots, line, StepIndex(i, |slots|, backward), n + 1, backward)
  }

  /** The index checked `n`-th when starting from `s`. */
  function Position(s: int, n: nat, len: nat, backward: bool): int
  {
    if backward then (if s - n >= 0 then s - n else s - n + len)
    else (if s + n < len then s + n else s + n - len)
  }

  /** How many steps the search takes from `s` to reach `j`. */
  function Offset(s: int, j: int, len: nat, backward: bool): int
  {
    if backward then (if j <= s then s - j else s - j + len)
    else (if j >= s then j - s else j - s + len)
  }

  lemma PositionStep(s: int, n: nat, len: nat, backward: bool)
    requires 0 <= s < len && n < len
    ensures 0 <= Position(s, n, len, backward) < len
    ensures StepIndex(Position(s, n, len, backward), len, backward) == Position(s, n + 1, len, backward)
  {
  }

  lemma OffsetPosition(s: int, j: int, len: nat, backward: bool)
    requires 0 <= s < len && 0 <= j < len
    ensures 0 <= Offset(s, j, len, backward) < len && Position(s, Offset(s, j, len, backward), len, backward) == j
  {
  }

  /** From the `n`-th index on, the search returns the first free slot in
      circular order, or nothing when none of the remaining ones is free. */
  lemma {:induction false} SearchFrom(slots: seq<Slot>, line: LineId, s: int, n: nat, backward: bool)
    requires 0 <= s < |slots| && n <= |slots|
    ensures var r := Search(slots, line, Position(s, n, |slots|, backward), n, backward);
      (r.Some? ==> r.value < |slots| && Free(slots[r.value], line)
                   && n <= Offset(s, r.value, |slots|, backward)
                   && forall m :: n <= m < Offset(s, r.value, |slots|, backward) ==>
                        !Free(slots[Position(s, m, |slots|, backward)], line))
      && (r.None? ==> forall m :: n <= m < |slots| ==> !Free(slots[Position(s, m, |slots|, backward)], line))
    decreases |slots| - n
  {
    var len := |slots|;
    if n < len {
      PositionStep(s, n, len, backward);
      var i := Position(s, n, len, backward);
      if !Free(slots[i], line) {
        SearchFrom(slots, line, s, n + 1, backward);
      } else {
        OffsetPosition(s, i, len, backward);
        assert Offset(s, i, len, backward) == n by {
          OffsetUnique(s, n, len, backward);
        }
      }
    }
  }

  lemma OffsetUnique(s: int, n: nat, len: nat, backward: bool)
    requires 0 <= s < len && n < len
    ensures Offset(s, Position(s, n, len, backward), len, backward) == n
  {
  }

  /** The search from the desired slot finds the first slot free for the
      line in circular order from it, and finds none only when no slot is
      free. */
  lemma SearchFinds(slots: seq<Slot>, line: LineId, s: int, backward: bool)
    requires 0 <= s < |slots|
    ensures var r := Search(slots, line, s, 0, backward);
      (r.Some? ==> r.value < |slots| && Free(slots[r.value], line)
                   && forall m :: 0 <= m < Offset(s, r.value, |slots|, backward) ==>
                        !Free(slots[Position(s, m, |slots|, backward)], line))
      && (r.None? <==> forall j :: 0 <= j < |slots| ==> !Free(slots[j], line))
  {
    SearchFrom(slots, line, s, 0, backward);
    var r := Search(slots, line, s, 0, backward);
    if r.None? {
      forall j | 0 <= j < |slots| ensures !Free(slots[j], line) {
        OffsetPosition(s, j, |slots|, backward);
      }
    }
  }

  /** The grid after `route` of `line` takes slot `i` of row `x`: the slot
      holds the route and loses its reservation, and, when asked, the slot
      at the same index on the opposite side is reserved for the line. */
  function Take(g: seq<seq<Slot>>, x: nat, i: nat, route: RouteId, line: LineId, reserve: bool): seq<seq<Slot>>
    requires GridShape(g) && x < 4 && i < |g[x]|
  {
    var g1 := g[x := g[x][i := g[x][i].(route := Some(route), reservedFor := None)]];
    if reserve then
      var o := Ord(Reverse(DirOf(x)));
      g1[o := g1[o][i := g1[o][i].(reservedFor := Some(line))]]
    else g1
  }

  /** Taking a slot keeps the grid well formed, puts the route on that slot
      alone, and changes no other slot but the reserved opposite one. */
  lemma TakeEffect(g: seq<seq<Slot>>, x: nat, i: nat, route: RouteId, line: LineId, reserve: bool)
    requires GridShape(g) && x < 4 && i < |g[x]|
    ensures var t := Take(g, x, i, route, line, reserve);
      var o := Ord(Reverse(DirOf(x)));
      GridShape(t)
      && t[x][i].route == Some(route) && t[x][i].reservedFor.None?
      && (reserve ==> t[o][i].reservedFor == Some(line) && t[o][i].route == g[o][i].route)
      && forall x', y :: 0 <= x' < 4 && 0 <= y < |g[x']| && (x', y) != (x, i) && (!reserve || (x', y) != (o, i))
           ==> t[x'][y] == g[x'][y]
  {
    var o := Ord(Reverse(DirOf(x)));
    assert o != x;
    assert |g[o]| == |g[x]| by {
      if x == 0 { assert o == 1; } else if x == 1 { assert o == 0; }
      else if x == 2 { assert o == 3; } else { assert o == 2; }
    }
  }

  class TransitMap {
    /** `_slotAssignmentMap`: each stop's slots, one row per direction in
        the enum's order. */
    var slotMap: map<StopId, seq<seq<Slot>>>
    /** `_routeSlotAssignmentMap`: the slot a route was given at a stop. */
    var routeSlots: map<(RouteId, StopId), SlotRef>

    ghost predicate Valid()
      reads this
    {
      forall s :: s in slotMap ==> GridShape(slotMap[s])
    }

    constructor ()
      ensures slotMap == map[] && routeSlots == map[] && Valid()
    {
      slotMap := map[];
      routeSlots := map[];
    }

    /** Lines 123-181: the stop's grid is made afresh from the routes
        through it, or dropped. */
    method UpdateStop(stop: StopId, lineCount: nat, routes: seq<RouteInfo>)
      modifies this
      ensures StopGrid(lineCount, routes).None? ==> slotMap == old(slotMap) - {stop}
      ensures StopGrid(lineCount, routes).Some? ==> slotMap == old(slotMap)[stop := StopGrid(lineCount, routes).value]
      ensures routeSlots == old(routeSlots)
      ensures old(Valid()) ==> Valid()
    {
      if lineCount <= 1 {
        slotMap := slotMap - {stop};
        return;
      }
      var neededSlots := new nat[4](_ => 0);
      for k := 0 to |routes|
        invariant forall x :: 0 <= x < 4 ==> neededSlots[x] == Needed(routes[..k], DirOf(x))
        invariant slotMap == old(slotMap) && routeSlots == old(routeSlots)
      {
        assert routes[..k + 1][..k] == routes[..k];
        if !routes[k].isBackRoute {
          var x := Ord(routes[k].heading);
          neededSlots[x] := neededSlots[x] + 1;
        }
      }
      assert routes[..|routes|] == routes;
      assert DirOf(0) == North && DirOf(1) == South && DirOf(2) == West && DirOf(3) == East;
      var height := Max3(1, neededSlots[Ord(East)], neededSlots[Ord(West)]);
      var width := Max3(1, neededSlots[Ord(North)], neededSlots[Ord(South)]);
      if height == 1 && width == 1 {
        slotMap := slotMap - {stop};
      } else {
        var slotAssignments := BuildGrid(width, height);
        slotMap := slotMap[stop := slotAssignments];
        StopGridShape(lineCount, routes);
      }
    }

    /** Lines 156-176: one row of slots per direction, the north and south
        rows `width` long and the west and east rows `height` long. */
    static method BuildGrid(width: nat, height: nat) returns (g: seq<seq<Slot>>)
      ensures g == FreshGrid(width, height)
    {
      g := [];
      for x := 0 to 4
        invariant |g| == x
        invariant forall x' :: 0 <= x' < x ==> g[x'] == FreshGrid(width, height)[x']
      {
        var dir := DirOf(x);
        var size := if dir == North || dir == South then width else height;
        var row := [];
        for y := 0 to size
          invariant row == Row(dir, y)
        {
          row := row + [Slot(dir, y, None, None)];
        }
        g := g + [row];
      }
    }

    /** Lines 386-428: the circular search from the clamped desired slot in
        the row facing `direction`. The first slot the line may take gets
        the route, the route's assignment is recorded, and, unless an
        opposite assignment was given, the slot at the same index on the
        opposite side is reserved for the line; when no slot is free
        nothing changes. */
    method AssignSlotIn(route: RouteId, line: LineId, stop: StopId, direction: CardinalDirection,
                        desiredSlot: int, backward: bool, hasOpposite: bool) returns (r: Option<SlotRef>)
      requires Valid() && stop in slotMap
      modifies this
      ensures var g := old(slotMap)[stop];
        var x := Ord(direction);
        var found := Search(g[x], line, Clamp(desiredSlot, 0, |g[x]| - 1), 0, backward);
        (found.None? ==> r.None? && slotMap == old(slotMap) && routeSlots == old(routeSlots))
        && (found.Some? ==>
              (found.value < |g[x]|
               && r == Some(SlotRef(direction, found.value))
               && slotMap == old(slotMap)[stop := Take(g, x, found.value, route, line, !hasOpposite)]
               && routeSlots == old(routeSlots)[(route, stop) := SlotRef(direction, found.value)]))
      ensures Valid()
    {
      var assignments := slotMap[stop];
      var x := Ord(direction);
      var i := FindFree(assignments[x], line, desiredSlot, backward);
      if i.Some? {
        TakeEffect(assignments, x, i.value, route, line, !hasOpposite);
        slotMap := slotMap[stop := Take(assignments, x, i.value, route, line, !hasOpposite)];
        routeSlots := routeSlots[(route, stop) := SlotRef(direction, i.value)];
        return Some(SlotRef(direction, i.value));
      }
      return None;
    }

    /** The loop of lines 386-423: from the clamped desired index, each
        slot in turn in the search direction, wrapping around, until a
        free one. */
    static method FindFree(availableSlots: seq<Slot>, line: LineId, desiredSlot: int, backward: bool)
      returns (r: Option<nat>)
      ensures r == Search(availableSlots, line, Clamp(desiredSlot, 0, |availableSlots| - 1), 0, backward)
      ensures r.Some? ==> r.value < |availableSlots|
    {
      var len := |availableSlots|;
      var start := Clamp(desiredSlot, 0, len - 1);
      var i := start;
      var n := 0;
      while n != len
        invariant 0 <= n <= len && i == Position(start, n, len, backward)
        invariant Search(availableSlots, line, start, 0, backward) == Search(availableSlots, line, i, n, backward)
        decreases len - n
      {
        PositionStep(start, n, len, backward);
        var slot := availableSlots[i];
        if slot.route.None? && (slot.reservedFor.None? || slot.reservedFor == Some(line)) {
          return Some(i);
        }
        i := StepIndex(i, len, backward);
        n := n + 1;
      }
      return None;
    }

    /** Lines 243-383 once the headings are known: the slot the route
        should get at the stop, searched for with `AssignSlotIn`, and
        whether it got the slot it wanted. The opposite assignment is
        handed on only when `reserveOpposite` is set. */
    method AssignSlot(route: RouteId, line: LineId, stop: StopId, inCardinal: CardinalDirection,
                      outCardinal: Option<CardinalDirection>, opposite: Option<SlotRef>,
                      reserveOpposite: bool) returns (r: Option<(Option<SlotRef>, bool)>)
      requires Valid()
      modifies this
      ensures stop !in old(slotMap) ==> r.None? && slotMap == old(slotMap) && routeSlots == old(routeSlots)
      ensures stop in old(slotMap) ==>
        var g := old(slotMap)[stop];
        var (desired, backward) := Approach(inCardinal, outCardinal, opposite, |g[Ord(inCardinal)]|);
        var found := Search(g[Ord(inCardinal)], line, Clamp(desired, 0, |g[Ord(inCardinal)]| - 1), 0, backward);
        var x := Ord(inCardinal);
        r.Some?
        && (found.None? ==> r.value == (None, false) && slotMap == old(slotMap) && routeSlots == old(routeSlots))
        && (found.Some? ==>
              (found.value < |g[x]|
               && r.value == (Some(SlotRef(inCardinal, found.value)), found.value == desired)
               && slotMap == old(slotMap)[stop := Take(g, x, found.value, route, line, !(reserveOpposite && opposite.Some?))]
               && routeSlots == old(routeSlots)[(route, stop) := SlotRef(inCardinal, found.value)]))
      ensures Valid()
    {
      if stop !in slotMap {
        return None;
      }
      var assignments := slotMap[stop];
      var (desiredSlot, backward) := Approach(inCardinal, outCardinal, opposite, |assignments[Ord(inCardinal)]|);
      var result := AssignSlotIn(route, line, stop, inCardinal, desiredSlot, backward, reserveOpposite && opposite.Some?);
      return Some((result, result.Some? && result.value.index == desiredSlot));
    }
  }

  /** Lines 272-278 and 341-376: the desired slot is the opposite
      assignment's index when it lies on the same axis, and a route that
      turns back against its heading searches backward from the row's last
      slot. */
  function Approach(inCardinal: CardinalDirection, outCardinal: Option<CardinalDirection>,
                    opposite: Option<SlotRef>, rowLength: nat): (r: (int, bool))
    ensures r.1 ==> outCardinal.Some? && r.0 == rowLength - 1
    ensures !r.1 ==> r.0 == (if opposite.Some? && IsParallelTo(opposite.value.direction, inCardinal) then opposite.value.index else 0)
  {
    var desired := if opposite.Some? && IsParallelTo(opposite.value.direction, inCardinal) then opposite.value.index else 0;
    match outCardinal
    case None => (desired, false)
    case Some(out) =>
      var backward := match inCardinal
        case West => out == South
        case North => out == East
        case East => out == South
        case South => out == East || out == West;
      if backward then (rowLength - 1, true) else (desired, false)
  }

  /** The quadrant of the route's end stop seen from its begin stop. */
  datatype StopQuadrant = TopRight | BottomRight | TopLeft | BottomLeft

  function Quadrant(beginX: real, beginY: real, endX: real, endY: real): StopQuadrant
  {
    if endX >= beginX then (if endY >= beginY then TopRight else BottomRight)
    else (if endY >= beginY then TopLeft else BottomLeft)
  }

  /** Lines 319-339: the direction the route leaves in. Within 15 degrees
      of its quadrant's first axis it is the heading of the opposite route;
      otherwise West for a destination on the right and East for one on the
      left. */
  function OutCardinal(q: StopQuadrant, angle: real, oppositeHeading: CardinalDirection): (r: CardinalDirection)
    ensures (q == TopRight || q == BottomRight) ==> (r == West || r == oppositeHeading)
    ensures (q == TopLeft || q == BottomLeft) ==> (r == East || r == oppositeHeading)
  {
    var relative := match q
      case TopRight => angle
      case TopLeft => angle - 90.0
      case BottomLeft => angle - 180.0
      case BottomRight => angle - 270.0;
    if relative < 15.0 then oppositeHeading
    else if q == TopRight || q == BottomRight then West
    else East
  }

  /** The reserved opposite slot fits the grid, and a turn that searches
      backward starts from the row's last slot. */
  lemma ApproachInRow(g: seq<seq<Slot>>, inCardinal: CardinalDirection, outCardinal: Option<CardinalDirection>, opposite: Option<SlotRef>)
    requires GridShape(g)
    ensures var (desired, backward) := Approach(inCardinal, outCardinal, opposite, |g[Ord(inCardinal)]|);
      var len := |g[Ord(inCardinal)]|;
      (backward ==> 0 <= desired < len && Clamp(desired, 0, len - 1) == desired)
      && (opposite.None? ==> 0 <= Clamp(desired, 0, len - 1) == desired)
  {
  }
}
