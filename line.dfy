/** A transit line (Assets/Scripts/Transit/Line.cs): its stops and routes as
    they are added, the route lookup by index, the running lengths of the
    routes, and the speed and timing values per transit type. Stops are
    identifiers; a route is its end stops, whether it is a back route, and
    its length. */
module Lines {
  import opened Wrappers
  import opened CSharpInt
  import opened TransitTypes
  import Units

  datatype Route = Route(begin: int, end: int, isBackRoute: bool, length: real)

  /** `AverageSpeed` (lines 78-95): the real-time speed in km/h of each
      transit type. */
  function AverageSpeedKph(t: TransitType): real
  {
    match t
    case Bus | Tram => 45.0
    case Subway => 50.0
    case LightRail => 60.0
    case IntercityRail => 80.0
    case Ferry => 10.0
  }

  function AverageSpeed(t: TransitType, baseSpeed: real): Units.Velocity
    requires baseSpeed != 0.0
  {
    Units.FromRealTimeKPH(AverageSpeedKph(t), baseSpeed)
  }

  /** Every line moves forward; ferries are the slowest and intercity
      trains the fastest, and the speed reads back as the table's value. */
  lemma AverageSpeedTable(t: TransitType, baseSpeed: real)
    requires baseSpeed > 0.0
    ensures AverageSpeed(t, baseSpeed).mps > 0.0
    ensures AverageSpeedKph(Ferry) <= AverageSpeedKph(t) <= AverageSpeedKph(IntercityRail)
    ensures Units.RealTimeKPH(AverageSpeed(t, baseSpeed), baseSpeed) == AverageSpeedKph(t)
  {
    Units.RealTimeRoundTrip(0.0, AverageSpeedKph(t), AverageSpeed(t, baseSpeed), baseSpeed);
  }

  /** `AverageStopDuration` (lines 98-114): it returns zero before its
      switch, so no type waits at stops. */
  function AverageStopDuration(t: TransitType): int
  {
    0
  }

  function LineWidth(t: TransitType): (r: real)
    ensures r == 1.25 <==> t in {Bus, Tram, Ferry}
    ensures r == 3.0 <==> t in {Subway, LightRail, IntercityRail}
  {
    match t
    case Bus | Tram | Ferry => 1.25
    case Subway | LightRail | IntercityRail => 3.0
  }

  /** The total length of the first `k` routes. */
  function PrefixLength(routes: seq<Route>, k: nat): real
    requires k <= |routes|
  {
    if k == 0 then 0.0 else PrefixLength(routes, k - 1) + routes[k - 1].length
  }

  /** With routes of non-negative length, the running lengths never
      decrease, and the last is the total. */
  lemma {:induction false} PrefixLengthMonotone(routes: seq<Route>, i: nat, j: nat)
    requires i <= j <= |routes|
    requires forall k :: 0 <= k < |routes| ==> routes[k].length >= 0.0
    ensures 0.0 <= PrefixLength(routes, i) <= PrefixLength(routes, j)
    decreases j
  {
    if i < j {
      PrefixLengthMonotone(routes, i, j - 1);
    } else if i > 0 {
      PrefixLengthMonotone(routes, i - 1, i - 1);
    }
  }

  /** One `AddRoute` (lines 182-220) on the stop and route lists: the first
      route also adds its begin stop, every route adds its end stop, and a
      two-way route is followed by its back route. */
  function AddRouteStep(stops: seq<int>, routes: seq<Route>, begin: int, end: int, length: real,
                        oneWay: bool, isBackRoute: bool): (seq<int>, seq<Route>)
  {
    var stops' := (if |stops| == 0 then stops + [begin] else stops) + [end];
    var routes' := routes + [Route(begin, end, isBackRoute, length)];
    (stops', if oneWay then routes' else routes' + [Route(end, begin, true, length)])
  }

  /** The arguments of an `AddRoute` call. */
  datatype RouteArgs = RouteArgs(begin: int, end: int, length: real, oneWay: bool, isBackRoute: bool)

  function AddRoutes(stops: seq<int>, routes: seq<Route>, adds: seq<RouteArgs>): (seq<int>, seq<Route>)
  {
    if adds == [] then (stops, routes)
    else
      var (s, r) := AddRoutes(stops, routes, adds[..|adds| - 1]);
      var a := adds[|adds| - 1];
      AddRouteStep(s, r, a.begin, a.end, a.length, a.oneWay, a.isBackRoute)
  }

  /** The number of routes the additions make: one for a one-way route, two
      otherwise. */
  function RouteCount(adds: seq<RouteArgs>): nat
  {
    if adds == [] then 0 else RouteCount(adds[..|adds| - 1]) + (if adds[|adds| - 1].oneWay then 1 else 2)
  }

  /** Built from nothing, a line lists the first route's begin stop and
      then every route's end stop, one stop more than routes added; its
      routes grow by one per one-way route and two per other route. */
  lemma {:induction false} AddRoutesShape(adds: seq<RouteArgs>)
    ensures var (stops, routes) := AddRoutes([], [], adds);
      |routes| == RouteCount(adds) && |adds| <= |routes| <= 2 * |adds|
      && (adds == [] ==> stops == [])
      && (adds != [] ==> (|stops| == |adds| + 1 && stops[0] == adds[0].begin
          && (forall i :: 0 <= i < |adds| ==> stops[i + 1] == adds[i].end)))
  {
    if adds != [] {
      var prefix := adds[..|adds| - 1];
      AddRoutesShape(prefix);
      var (s, r) := AddRoutes([], [], prefix);
      var a := adds[|adds| - 1];
      var (stops, routes) := AddRoutes([], [], adds);
      if prefix == [] {
        assert stops == [a.begin, a.end];
      } else {
        assert stops == s + [a.end];
        forall i | 0 <= i < |adds|
          ensures stops[i + 1] == adds[i].end
        {
          if i < |prefix| {
            assert prefix[i] == adds[i];
          }
        }
      }
    }
  }

  class Line {
    var transitType: TransitType
    var stops: seq<int>
    var routes: seq<Route>
    /** The total length, which `CalculateLength` adds to. */
    var length: real
    var cumulativeLengths: array<real>

    /** Lines 135-153: no stops, no routes. */
    constructor (t: TransitType)
      ensures transitType == t && stops == [] && routes == [] && length == 0.0
    {
      transitType := t;
      stops := [];
      routes := [];
      length := 0.0;
      cumulativeLengths := new real[0];
    }

    method AddRoute(begin: int, end: int, routeLength: real, oneWay: bool, isBackRoute: bool)
      returns (route: Route)
      modifies this
      ensures route == Route(begin, end, isBackRoute, routeLength)
      ensures (stops, routes) == AddRouteStep(old(stops), old(routes), begin, end, routeLength, oneWay, isBackRoute)
      ensures transitType == old(transitType) && length == old(length)
      ensures cumulativeLengths == old(cumulativeLengths)
    {
      route := Route(begin, end, isBackRoute, routeLength);
      if |stops| == 0 {
        stops := stops + [begin];
      }
      stops := stops + [end];
      routes := routes + [route];
      if !oneWay {
        var backRoute := Route(end, begin, true, routeLength);
        routes := routes + [backRoute];
      }
    }

    /** `GetRoute` (lines 223-226). C#'s remainder keeps the sign of a
        negative index, which then fails the list's bounds check, and there
        is no remainder by an empty list: both are `None`. */
    function GetRoute(routeIndex: int): (r: Option<Route>)
      reads this
      ensures |routes| == 0 ==> r.None?
      ensures |routes| > 0 && routeIndex >= 0 ==> r == Some(routes[routeIndex % |routes|])
      ensures |routes| > 0 && 0 <= routeIndex < |routes| ==> r == Some(routes[routeIndex])
      ensures r.None? <==> |routes| == 0 || TruncRem(routeIndex, |routes|) < 0
    {
      if |routes| == 0 then None
      else
        var i := TruncRem(routeIndex, |routes|);
        if i < 0 then None else Some(routes[i])
    }

    /** `CalculateLength` (lines 229-239): the running sums, continuing from
        the length already held. */
    method CalculateLength()
      modifies this
      ensures fresh(cumulativeLengths) && cumulativeLengths.Length == |routes|
      ensures forall i :: 0 <= i < |routes| ==>
        cumulativeLengths[i] == old(length) + PrefixLength(routes, i + 1)
      ensures length == old(length) + PrefixLength(routes, |routes|)
      ensures stops == old(stops) && routes == old(routes) && transitType == old(transitType)
    {
      var sums := new real[|routes|];
      var i := 0;
      while i < |routes|
        invariant 0 <= i <= |routes| && sums.Length == |routes|
        invariant length == old(length) + PrefixLength(routes, i)
        invariant forall k :: 0 <= k < i ==> sums[k] == old(length) + PrefixLength(routes, k + 1)
        invariant stops == old(stops) && routes == old(routes) && transitType == old(transitType)
      {
        length := length + routes[i].length;
        sums[i] := length;
        i := i + 1;
      }
      cumulativeLengths := sums;
    }

    /** `TotalTravelTime` (line 72), in seconds: the length at the average
        speed, plus a stop duration that is always zero. */
    function TotalTravelTime(baseSpeed: real): real
      reads this
      requires baseSpeed > 0.0
    {
      AverageSpeedTable(transitType, baseSpeed);
      Units.TravelTime(Units.FromMeters(length), AverageSpeed(transitType, baseSpeed))
        + (AverageStopDuration(transitType) * (|routes| - 1)) as real
    }
  }

  /** A non-negative index past the end wraps around to the first route. */
  lemma GetRouteWraps(line: Line, routeIndex: int)
    requires |line.routes| > 0 && routeIndex >= 0
    ensures line.GetRoute(routeIndex + |line.routes|) == line.GetRoute(routeIndex)
    ensures line.GetRoute(|line.routes|) == Some(line.routes[0])
  {
    var n := |line.routes|;
    ModMultiple(routeIndex + n, 1, routeIndex, n);
    ModMultiple(n, 1, 0, n);
  }

  /** A line's travel time is its length over its speed, so it is never
      negative for a line of non-negative length. */
  lemma TotalTravelTimeIsLengthOverSpeed(line: Line, baseSpeed: real)
    requires baseSpeed > 0.0 && line.length >= 0.0
    ensures line.TotalTravelTime(baseSpeed) * AverageSpeed(line.transitType, baseSpeed).mps == line.length
    ensures line.TotalTravelTime(baseSpeed) >= 0.0
  {
    AverageSpeedTable(line.transitType, baseSpeed);
  }
}
