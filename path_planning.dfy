/** Path planning (Assets/Scripts/Transit/PathPlanningCar.cs): the A* search
    over stops and routes with its open and closed sets and score
    dictionaries, the recalculation of a path's step times with the waiting
    and turning steps it inserts, and the choice between walking, transit
    and driving. Stops are the indices of a graph; each stop lists its
    routes. Times inside the search are minutes after the trip's start;
    path steps carry times in seconds, as in module DateTimes. The map
    queries, travel times, departures and distance estimates are
    parameters. */
module PathPlanning {
  import opened Wrappers
  import CSharpInt

  // ---------------------------------------------------------------------
  // Options (lines 469-496)
  // ---------------------------------------------------------------------

  datatype Options = Options(allowCar: bool, allowWalk: bool, maxWalkingDistance: real,
                             walkingTimeFactor: real, travelTimeFactor: real,
                             waitingTimeFactor: real, carTimeFactor: real,
                             changingPenalty: real)

  /** The field initialisers of `PathPlanningOptions`. */
  const DefaultOptions := Options(true, true, 1000.0, 3.0, 1.0, 2.0, 2.0, 10.0)

  // ---------------------------------------------------------------------
  // The search graph
  // ---------------------------------------------------------------------

  /** An `IRoute`: its end stops, whether it is one-way, its travel time in
      minutes and the id of the line or street it belongs to. */
  datatype Edge = Edge(begin: int, end: int, oneWay: bool, travelMinutes: real, associatedId: int)

  /** The stops `0 .. |routes| - 1`, the routes each lists, and whether each
      allows a U-turn. */
  datatype Graph = Graph(routes: seq<seq<Edge>>, uTurnAllowed: seq<bool>)

  /** One search: the graph, the start, the stops for which `IsGoalReached`
      holds, the options, the distance estimate of a stop (reached by a
      route, or by none for the start), and the next departure of a route
      after an arrival, both in minutes after the trip's start. */
  datatype Problem = Problem(graph: Graph, start: int, goals: set<int>, options: Options,
                             estimate: (int, Option<Edge>) -> real,
                             nextDeparture: (Edge, real) -> real)

  /** Every route leads between stops of the graph, and the start is one. */
  predicate ValidProblem(p: Problem)
  {
    var n := |p.graph.routes|;
    |p.graph.uTurnAllowed| == n && 0 <= p.start < n
    && forall s, i :: 0 <= s < n && 0 <= i < |p.graph.routes[s]| ==>
         0 <= p.graph.routes[s][i].begin < n && 0 <= p.graph.routes[s][i].end < n
  }

  /** The numbers `0 .. n - 1`. */
  ghost function Range(n: nat): (r: set<int>)
    ensures forall s :: s in r <==> 0 <= s < n
  {
    if n == 0 then {} else Range(n - 1) + {n - 1}
  }

  ghost function Stops(p: Problem): set<int>
  {
    Range(|p.graph.routes|)
  }

  /** The stop a route leads to from `current` (lines 1046-1059): its end
      from its begin, its begin otherwise unless it is one-way. */
  function Neighbor(current: int, e: Edge): (r: Option<int>)
    ensures r.None? <==> current != e.begin && e.oneWay
    ensures r.Some? ==> r.value == e.end || r.value == e.begin
  {
    if current == e.begin then Some(e.end)
    else if !e.oneWay then Some(e.begin)
    else None
  }

  /** One move of a path: a route listed at `a` leads to `b`. */
  ghost predicate Move(p: Problem, a: int, b: int)
  {
    0 <= a < |p.graph.routes| && exists e :: e in p.graph.routes[a] && Neighbor(a, e) == Some(b)
  }

  /** A series of moves from the start. */
  ghost predicate Connects(p: Problem, path: seq<int>)
  {
    |path| > 0 && path[0] == p.start
    && forall i :: 0 <= i < |path| - 1 ==> Move(p, path[i], path[i + 1])
  }

  // ---------------------------------------------------------------------
  // Scores (lines 872-898)
  // ---------------------------------------------------------------------

  datatype Score = Finite(value: real) | PositiveInfinity

  /** `GetScore`: the recorded score, or positive infinity for a stop
      without one. */
  function GetScore(scores: map<int, real>, stop: int): (r: Score)
    ensures r.PositiveInfinity? <==> stop !in scores
    ensures r.Finite? ==> r.value == scores[stop]
  {
    if stop in scores then Finite(scores[stop]) else PositiveInfinity
  }

  /** `x < s` for a float and a score that may be infinite. */
  predicate Below(x: real, s: Score)
  {
    s.PositiveInfinity? || x < s.value
  }

  /** `Lowest`: a stop of least score; none when no stop of the set has a
      score. Of stops with equal scores the first in the set's order wins,
      and the order of a `HashSet` is left open. */
  method Lowest(stops: set<int>, scores: map<int, real>) returns (r: Option<int>)
    ensures r.None? ==> forall s :: s in stops ==> s !in scores
    ensures r.Some? ==> r.value in stops && r.value in scores
    ensures r.Some? ==> forall s :: s in stops && s in scores ==> scores[r.value] <= scores[s]
  {
    var lowest := PositiveInfinity;
    r := None;
    var rest := stops;
    while rest != {}
      invariant rest <= stops
      invariant r.None? <==> lowest.PositiveInfinity?
      invariant r.None? ==> forall s :: s in stops && s !in rest ==> s !in scores
      invariant r.Some? ==> r.value in stops && r.value in scores && lowest == Finite(scores[r.value])
      invariant r.Some? ==> forall s :: s in stops && s !in rest && s in scores ==> scores[r.value] <= scores[s]
      decreases rest
    {
      assert exists y :: y in rest by {
        if forall y :: y !in rest {
          assert false;
        }
      }
      var stop :| stop in rest;
      var score := GetScore(scores, stop);
      if score.Finite? && Below(score.value, lowest) {
        lowest := score;
        r := Some(stop);
      }
      rest := rest - {stop};
    }
  }

  // ---------------------------------------------------------------------
  // The cost of one route (lines 1068-1095)
  // ---------------------------------------------------------------------

  /** The minutes of waiting, as the search charges them: `.Minutes` of the
      waiting `TimeSpan` is its minutes component, the whole minutes
      truncated and taken modulo 60. */
  function WaitMinutesAsWritten(d: real): int
  {
    CSharpInt.TruncRem(CSharpInt.TruncToInt(d), 60)
  }

  /** The waiting time in minutes, its `TotalMinutes`. */
  function WaitMinutes(d: real): real
  {
    d
  }

  /** Charged as written, a wait of an hour or more counts less than it
      lasts: an hour and a quarter counts a quarter of an hour, a full hour
      nothing. */
  lemma WaitMinutesFinding(d: real)
    requires d >= 60.0
    ensures 0 <= WaitMinutesAsWritten(d) < 60 && (WaitMinutesAsWritten(d) as real) < WaitMinutes(d)
    ensures WaitMinutesAsWritten(75.0) == 15 && WaitMinutes(75.0) == 75.0
    ensures WaitMinutesAsWritten(60.0) == 0
  {
    assert CSharpInt.TruncToInt(75.0) == 75;
    assert CSharpInt.TruncToInt(60.0) == 60;
  }

  /** The search's state: the `HashSet`s and `Dictionary`s of the planner. */
  datatype Search = Search(openSet: set<int>, closedSet: set<int>,
                           cameFrom: map<int, int>, cameFromRoute: map<int, Edge>,
                           durationMap: map<int, real>, waitingTimeMap: map<int, real>,
                           gScore: map<int, real>, fScore: map<int, real>)

  /** Whether taking `e` from `current` changes line or street: always for
      the first route after the start. */
  predicate Changes(s: Search, current: int, e: Edge)
  {
    current !in s.cameFromRoute || e.associatedId != s.cameFromRoute[current].associatedId
  }

  /** Lines 1068-1095: the cost, duration and waiting time of reaching the
      neighbour by `e`. A change of line costs the changing penalty (but
      not when leaving the start) and the wait for the route's next
      departure. */
  function Tentative(p: Problem, s: Search, current: int, e: Edge): (real, real, real)
    requires current in s.gScore && current in s.durationMap && current in s.waitingTimeMap
  {
    var o := p.options;
    var g := s.gScore[current] + e.travelMinutes * o.travelTimeFactor
      + (if current in s.cameFromRoute && Changes(s, current, e) then o.changingPenalty else 0.0);
    var duration := s.durationMap[current] + e.travelMinutes;
    if Changes(s, current, e) then
      var arrival := s.durationMap[current];
      var wait := WaitMinutes(p.nextDeparture(e, arrival) - arrival);
      (g + wait * o.waitingTimeFactor, duration + wait, s.waitingTimeMap[current] + wait)
    else (g, duration, s.waitingTimeMap[current])
  }

  /** On a change of line the neighbour is reached at the route's next
      departure plus its travel time; on the same line, the travel time
      after the arrival. */
  lemma TentativeDuration(p: Problem, s: Search, current: int, e: Edge)
    requires current in s.gScore && current in s.durationMap && current in s.waitingTimeMap
    ensures Changes(s, current, e) ==>
      Tentative(p, s, current, e).1 == p.nextDeparture(e, s.durationMap[current]) + e.travelMinutes
    ensures Changes(s, current, e) ==>
      Tentative(p, s, current, e).2 - s.waitingTimeMap[current]
        == p.nextDeparture(e, s.durationMap[current]) - s.durationMap[current]
    ensures !Changes(s, current, e) ==>
      Tentative(p, s, current, e).1 == s.durationMap[current] + e.travelMinutes
      && Tentative(p, s, current, e).2 == s.waitingTimeMap[current]
  {
  }

  /** Lines 1044-1113 for one route of the stop `current`: nothing when the
      route does not lead away from it, leads back to it without a U-turn,
      or leads to a closed stop; otherwise the neighbour is opened and, when
      it is new or the route is strictly cheaper, the route is recorded. */
  function RelaxStep(p: Problem, s: Search, current: int, e: Edge): Search
    requires 0 <= current < |p.graph.uTurnAllowed|
    requires current in s.gScore && current in s.durationMap && current in s.waitingTimeMap
  {
    var nb := Neighbor(current, e);
    if nb.None? then s
    else if (nb.value == current && !p.graph.uTurnAllowed[current]) || nb.value in s.closedSet then s
    else VisitStep(p, s, current, e, nb.value, Tentative(p, s, current, e))
  }

  /** Lines 1068-1113 for a neighbour `n` that is not skipped: `n` is
      opened, and when it is new or the route's tentative cost `t.0` is
      strictly below its recorded cost, the route is recorded with that cost,
      the duration `t.1`, the waiting time `t.2` and the estimate. */
  function VisitStep(p: Problem, s: Search, current: int, e: Edge, n: int, t: (real, real, real)): Search
  {
    if n in s.openSet && !Below(t.0, GetScore(s.gScore, n)) then s
    else
      s.(openSet := s.openSet + {n},
         cameFrom := s.cameFrom[n := current], cameFromRoute := s.cameFromRoute[n := e],
         gScore := s.gScore[n := t.0], durationMap := s.durationMap[n := t.1],
         waitingTimeMap := s.waitingTimeMap[n := t.2],
         fScore := s.fScore[n := t.0 + p.estimate(n, Some(e))])
  }

  /** How a recorded route leads to `n`: from a closed stop, by a route of
      that stop, and never from `n` itself. */
  ghost predicate CameFromOk(p: Problem, s: Search, n: int)
  {
    n in s.cameFrom && n in s.cameFromRoute
    && var c := s.cameFrom[n];
    c in s.closedSet && 0 <= c < |p.graph.routes| && c != n
    && s.cameFromRoute[n] in p.graph.routes[c] && Neighbor(c, s.cameFromRoute[n]) == Some(n)
  }

  /** The search's invariant: open and closed stops are disjoint stops of
      the graph and exactly the ones with cost, duration and waiting time;
      open stops have an estimate; no closed stop is a goal; the start is
      open or closed and never reached from elsewhere; and every recorded
      route leads from a closed stop. */
  ghost predicate SearchInv(p: Problem, s: Search)
  {
    ValidProblem(p) && StopsInv(p, s) && StartInv(p, s) && RecordsInv(p, s)
  }

  ghost predicate StopsInv(p: Problem, s: Search)
  {
    s.openSet <= Stops(p) && s.closedSet <= Stops(p) && s.openSet !! s.closedSet
    && s.gScore.Keys == s.openSet + s.closedSet
    && s.durationMap.Keys == s.openSet + s.closedSet
    && s.waitingTimeMap.Keys == s.openSet + s.closedSet
    && s.openSet <= s.fScore.Keys
    && s.closedSet !! p.goals
  }

  ghost predicate StartInv(p: Problem, s: Search)
  {
    p.start in s.openSet + s.closedSet && p.start !in s.cameFrom
    && (s.closedSet == {} ==> s.openSet == {p.start})
    && (s.closedSet != {} ==> p.start in s.closedSet)
  }

  ghost predicate RecordsInv(p: Problem, s: Search)
  {
    s.cameFrom.Keys == s.cameFromRoute.Keys && s.cameFrom.Keys <= s.openSet + s.closedSet
    && forall n :: n in s.cameFrom ==> CameFromOk(p, s, n)
  }

  /** Relaxing a route of a closed stop keeps the invariant, leaves the
      closed set alone and only adds to the open set; its neighbour, if it
      has one, is open or closed afterwards. */
  lemma RelaxKeeps(p: Problem, s: Search, current: int, e: Edge)
    requires SearchInv(p, s) && current in s.closedSet && e in p.graph.routes[current]
    ensures var r := RelaxStep(p, s, current, e);
      SearchInv(p, r) && r.closedSet == s.closedSet && s.openSet <= r.openSet
      && (Neighbor(current, e).Some? ==> Neighbor(current, e).value in r.openSet + r.closedSet)
  {
    var nb := Neighbor(current, e);
    if nb.Some? && !((nb.value == current && !p.graph.uTurnAllowed[current]) || nb.value in s.closedSet) {
      VisitKeeps(p, s, current, e, nb.value, Tentative(p, s, current, e));
    }
  }

  /** Visiting a neighbour `n` that is not closed, by a route of a closed
      stop, keeps the invariant and leaves `n` open. */
  lemma VisitKeeps(p: Problem, s: Search, current: int, e: Edge, n: int, t: (real, real, real))
    requires SearchInv(p, s) && current in s.closedSet && e in p.graph.routes[current]
    requires Neighbor(current, e) == Some(n) && n !in s.closedSet
    ensures var r := VisitStep(p, s, current, e, n, t);
      SearchInv(p, r) && r.closedSet == s.closedSet && s.openSet <= r.openSet && n in r.openSet
  {
    var r := VisitStep(p, s, current, e, n, t);
    if r != s {
      VisitKeepsStops(p, s, current, e, n, t);
      VisitKeepsRecords(p, s, current, e, n, t);
      assert StartInv(p, r);
    }
  }

  lemma VisitKeepsRecords(p: Problem, s: Search, current: int, e: Edge, n: int, t: (real, real, real))
    requires SearchInv(p, s) && current in s.closedSet && e in p.graph.routes[current]
    requires Neighbor(current, e) == Some(n) && n !in s.closedSet
    ensures RecordsInv(p, VisitStep(p, s, current, e, n, t))
  {
    var r := VisitStep(p, s, current, e, n, t);
    forall m | m in r.cameFrom
      ensures CameFromOk(p, r, m)
    {
      if m != n {
        assert CameFromOk(p, s, m);
      }
    }
  }

  lemma VisitKeepsStops(p: Problem, s: Search, current: int, e: Edge, n: int, t: (real, real, real))
    requires SearchInv(p, s) && current in s.closedSet && e in p.graph.routes[current]
    requires Neighbor(current, e) == Some(n) && n !in s.closedSet
    ensures StopsInv(p, VisitStep(p, s, current, e, n, t))
  {
  }

  /** Recorded costs only fall: a stop keeps its cost unless the route
      reaches it strictly cheaper or it had none, and a closed stop's cost
      never changes. */
  lemma RelaxScores(p: Problem, s: Search, current: int, e: Edge)
    requires SearchInv(p, s) && current in s.closedSet && e in p.graph.routes[current]
    ensures var r := RelaxStep(p, s, current, e);
      (forall n :: n in s.gScore ==> n in r.gScore && r.gScore[n] <= s.gScore[n])
      && (forall n :: n in s.closedSet ==> r.gScore[n] == s.gScore[n])
    ensures var r := RelaxStep(p, s, current, e);
      r != s <==> (Neighbor(current, e).Some? && Neighbor(current, e).value !in s.closedSet
        && (Neighbor(current, e).value !in s.openSet
            || Tentative(p, s, current, e).0 < s.gScore[Neighbor(current, e).value]))
    ensures var r := RelaxStep(p, s, current, e);
      r != s ==> r.gScore[Neighbor(current, e).value] == Tentative(p, s, current, e).0
  {
    var r := RelaxStep(p, s, current, e);
    var nb := Neighbor(current, e);
    if nb.Some? && nb.value !in s.closedSet {
      var n := nb.value;
      if n !in s.openSet {
        assert n !in s.gScore;
        assert r.gScore.Keys == s.gScore.Keys + {n};
      }
    }
  }

  /** The routes of the closed stops have been followed, except those of
      `current` from its `k`-th on: each neighbour is open or closed. */
  ghost predicate Expanded(p: Problem, s: Search, current: int, k: int)
    requires ValidProblem(p)
  {
    forall x, i :: x in s.closedSet && 0 <= x < |p.graph.routes| && 0 <= i < |p.graph.routes[x]|
      && (x != current || i < k) && Neighbor(x, p.graph.routes[x][i]).Some?
      ==> Neighbor(x, p.graph.routes[x][i]).value in s.openSet + s.closedSet
  }

  /** When the open set is empty and every closed stop has been expanded,
      every stop a series of moves reaches from the start is closed. */
  lemma {:induction false} ReachableClosed(p: Problem, s: Search, path: seq<int>)
    requires SearchInv(p, s) && s.openSet == {} && Expanded(p, s, -1, 0)
    requires Connects(p, path)
    ensures forall i :: 0 <= i < |path| ==> path[i] in s.closedSet
    decreases |path|
  {
    if |path| > 1 {
      var prefix := path[..|path| - 1];
      assert Connects(p, prefix) by {
        forall i | 0 <= i < |prefix| - 1
          ensures Move(p, prefix[i], prefix[i + 1])
        {
          assert Move(p, path[i], path[i + 1]);
        }
      }
      ReachableClosed(p, s, prefix);
      var a, b := path[|path| - 2], path[|path| - 1];
      assert a == prefix[|prefix| - 1];
      assert Move(p, a, b);
      var e :| e in p.graph.routes[a] && Neighbor(a, e) == Some(b);
      var i :| 0 <= i < |p.graph.routes[a]| && p.graph.routes[a][i] == e;
      assert b in s.closedSet;
    }
  }

  /** Lines 1031-1037: the search starts with only the start open, at no
      cost, duration or waiting time, and with its estimate. */
  function Initial(p: Problem): Search
  {
    Search({p.start}, {}, map[], map[], map[p.start := 0.0], map[p.start := 0.0],
           map[p.start := 0.0], map[p.start := p.estimate(p.start, None)])
  }

  /** The initial search meets the invariant, with nothing to expand. */
  lemma InitialInv(p: Problem)
    requires ValidProblem(p)
    ensures SearchInv(p, Initial(p)) && Expanded(p, Initial(p), -1, 0)
  {
    var s := Initial(p);
    assert s.openSet + s.closedSet == {p.start};
  }

  /** Following one more route of `current` keeps the closed stops expanded
      when its neighbour ends up open or closed. */
  lemma ExpandedStep(p: Problem, s: Search, r: Search, current: int, k: int)
    requires ValidProblem(p) && 0 <= current < |p.graph.routes| && 0 <= k < |p.graph.routes[current]|
    requires Expanded(p, s, current, k) && r.closedSet == s.closedSet && s.openSet <= r.openSet
    requires Neighbor(current, p.graph.routes[current][k]).Some? ==>
      Neighbor(current, p.graph.routes[current][k]).value in r.openSet + r.closedSet
    ensures Expanded(p, r, current, k + 1)
  {
  }

  /** Once all of its routes are followed, `current` is expanded too. */
  lemma ExpandedDone(p: Problem, s: Search, current: int)
    requires ValidProblem(p) && 0 <= current < |p.graph.routes|
    requires Expanded(p, s, current, |p.graph.routes[current]|)
    ensures Expanded(p, s, -1, 0)
  {
  }

  /** Lines 1040-1042: moving the selected stop, which is not a goal, from
      the open to the closed set keeps the invariant and the stops seen, and
      leaves only the new closed stop to expand. */
  lemma CloseKeeps(p: Problem, s: Search, current: int)
    requires SearchInv(p, s) && Expanded(p, s, -1, 0) && current in s.openSet && current !in p.goals
    ensures var r := s.(openSet := s.openSet - {current}, closedSet := s.closedSet + {current});
      SearchInv(p, r) && Expanded(p, r, current, 0) && r.openSet + r.closedSet == s.openSet + s.closedSet
  {
    var r := s.(openSet := s.openSet - {current}, closedSet := s.closedSet + {current});
    assert r.openSet + r.closedSet == s.openSet + s.closedSet;
    forall n | n in r.cameFrom
      ensures CameFromOk(p, r, n)
    {
      assert CameFromOk(p, s, n);
    }
  }

  /** A series of moves ending at a stop goes on by a route of that stop. */
  lemma ConnectsExtend(p: Problem, path: seq<int>, e: Edge, next: int)
    requires Connects(p, path) && 0 <= path[|path| - 1] < |p.graph.routes|
    requires e in p.graph.routes[path[|path| - 1]] && Neighbor(path[|path| - 1], e) == Some(next)
    ensures Connects(p, path + [next])
  {
    var path' := path + [next];
    assert Move(p, path[|path| - 1], next);
    forall i | 0 <= i < |path'| - 1
      ensures Move(p, path'[i], path'[i + 1])
    {
      if i < |path| - 1 {
        assert path'[i] == path[i] && path'[i + 1] == path[i + 1];
      }
    }
  }

  /** The planner of lines 806-1119. `paths` holds, for every stop the
      search has seen, a series of moves from the start that reaches it. */
  class PathPlanner {
    var closedSet: set<int>
    var openSet: set<int>
    var cameFrom: map<int, int>
    var cameFromRoute: map<int, Edge>
    var durationMap: map<int, real>
    var waitingTimeMap: map<int, real>
    var gScore: map<int, real>
    var fScore: map<int, real>
    ghost var paths: map<int, seq<int>>

    function State(): Search
      reads this
    {
      Search(openSet, closedSet, cameFrom, cameFromRoute, durationMap, waitingTimeMap, gScore, fScore)
    }

    /** Every stop the search has seen is reached by its path. */
    ghost predicate PathsOk(p: Problem)
      reads this
    {
      paths.Keys == openSet + closedSet
      && forall n :: n in paths ==> Connects(p, paths[n]) && paths[n][|paths[n]| - 1] == n
    }

    /** The constructor of lines 846-858: every set and dictionary empty. */
    constructor ()
      ensures State() == Search({}, {}, map[], map[], map[], map[], map[], map[])
    {
      closedSet, openSet := {}, {};
      cameFrom, cameFromRoute := map[], map[];
      durationMap, waitingTimeMap, gScore, fScore := map[], map[], map[], map[];
      paths := map[];
    }

    /** Lines 1068-1095: the cost, duration and waiting time of reaching a
        neighbour of `current` by `e`. */
    method TentativeCosts(p: Problem, current: int, e: Edge) returns (tentative: real, duration: real, waitingTime: real)
      requires current in gScore && current in durationMap && current in waitingTimeMap
      ensures (tentative, duration, waitingTime) == Tentative(p, State(), current, e)
    {
      var o := p.options;
      tentative := GetScore(gScore, current).value + e.travelMinutes * o.travelTimeFactor;
      var durationUntilNow := GetScore(durationMap, current).value;
      duration := durationUntilNow + e.travelMinutes;
      waitingTime := GetScore(waitingTimeMap, current).value;
      var prevRoute: Option<Edge> := None;
      if current in cameFromRoute {
        prevRoute := Some(cameFromRoute[current]);
        if e.associatedId != prevRoute.value.associatedId {
          tentative := tentative + o.changingPenalty;
        }
      }
      if prevRoute.None? || e.associatedId != prevRoute.value.associatedId {
        var arrival := durationUntilNow;
        var nextDep := p.nextDeparture(e, arrival);
        var wait := WaitMinutes(nextDep - arrival);
        tentative := tentative + wait * o.waitingTimeFactor;
        duration := duration + wait;
        waitingTime := waitingTime + wait;
      }
      assert tentative == Tentative(p, State(), current, e).0;
      assert duration == Tentative(p, State(), current, e).1;
      assert waitingTime == Tentative(p, State(), current, e).2;
    }

    /** The body of the loop over a stop's routes (lines 1044-1113). */
    method Relax(p: Problem, current: int, e: Edge)
      requires 0 <= current < |p.graph.uTurnAllowed|
      requires current in gScore && current in durationMap && current in waitingTimeMap
      modifies this
      ensures State() == RelaxStep(p, old(State()), current, e) && paths == old(paths)
    {
      var nb := Neighbor(current, e);
      if nb.None? {
        return;
      }
      var neighbor := nb.value;
      if neighbor == current && !p.graph.uTurnAllowed[current] {
        return;
      }
      if neighbor in closedSet {
        return;
      }
      var tentative, duration, waitingTime := TentativeCosts(p, current, e);
      Visit(p, current, e, neighbor, tentative, duration, waitingTime);
    }

    /** Lines 1068-1113 for a neighbour that is not skipped. */
    method Visit(p: Problem, current: int, e: Edge, neighbor: int, tentative: real, duration: real, waitingTime: real)
      modifies this
      ensures State() == VisitStep(p, old(State()), current, e, neighbor, (tentative, duration, waitingTime))
      ensures paths == old(paths)
    {
      // `openSet.Add` leaves an open stop where it is; such a stop keeps its
      // record unless the route is strictly cheaper.
      if neighbor in openSet && !Below(tentative, GetScore(gScore, neighbor)) {
        return;
      }
      openSet := openSet + {neighbor};
      cameFrom := cameFrom[neighbor := current];
      cameFromRoute := cameFromRoute[neighbor := e];
      gScore := gScore[neighbor := tentative];
      durationMap := durationMap[neighbor := duration];
      waitingTimeMap := waitingTimeMap[neighbor := waitingTime];
      fScore := fScore[neighbor := tentative + p.estimate(neighbor, Some(e))];
    }

    /** After `Relax`, the neighbour it records is reached by the path of
        `current` and one move more. */
    ghost method ExtendPaths(p: Problem, before: Search, current: int, e: Edge)
      requires ValidProblem(p) && 0 <= current < |p.graph.routes| && e in p.graph.routes[current]
      requires current in before.closedSet && current in before.gScore
      requires current in before.durationMap && current in before.waitingTimeMap
      requires State() == RelaxStep(p, before, current, e)
      requires paths.Keys == before.openSet + before.closedSet
      requires forall n :: n in paths ==> Connects(p, paths[n]) && paths[n][|paths[n]| - 1] == n
      modifies this`paths
      ensures PathsOk(p)
    {
      if State() != before {
        var neighbor := Neighbor(current, e).value;
        ConnectsExtend(p, paths[current], e, neighbor);
        paths := paths[neighbor := paths[current] + [neighbor]];
      } else {
        assert openSet + closedSet == before.openSet + before.closedSet;
      }
    }

    /** Lines 1031-1037: only the start is open, at no cost. */
    method Start(p: Problem)
      requires ValidProblem(p)
      modifies this
      ensures State() == Initial(p) && paths == map[p.start := [p.start]]
      ensures SearchInv(p, State()) && PathsOk(p) && Expanded(p, State(), -1, 0)
    {
      InitialInv(p);
      var s := Initial(p);
      closedSet, openSet := s.closedSet, s.openSet;
      cameFrom, cameFromRoute := s.cameFrom, s.cameFromRoute;
      durationMap, waitingTimeMap, gScore, fScore := s.durationMap, s.waitingTimeMap, s.gScore, s.fScore;
      paths := map[p.start := [p.start]];
      assert paths.Keys == s.openSet + s.closedSet;
    }

    /** Lines 1040-1042: the selected stop moves from the open to the
        closed set. */
    method Close(p: Problem, current: int)
      requires SearchInv(p, State()) && PathsOk(p) && Expanded(p, State(), -1, 0)
      requires current in openSet && current !in p.goals
      modifies this
      ensures State() == old(State()).(openSet := old(openSet) - {current}, closedSet := old(closedSet) + {current})
      ensures SearchInv(p, State()) && PathsOk(p) && Expanded(p, State(), current, 0)
      ensures paths == old(paths)
    {
      CloseKeeps(p, State(), current);
      openSet := openSet - {current};
      closedSet := closedSet + {current};
    }

    /** Lines 1044-1113: every route of the stop just closed is relaxed in
        turn, after which all closed stops are expanded. */
    method ExpandStop(p: Problem, current: int)
      requires SearchInv(p, State()) && PathsOk(p) && current in closedSet
      requires Expanded(p, State(), current, 0)
      modifies this
      ensures SearchInv(p, State()) && PathsOk(p) && closedSet == old(closedSet)
      ensures Expanded(p, State(), -1, 0)
    {
      var routes := p.graph.routes[current];
      for k := 0 to |routes|
        invariant SearchInv(p, State()) && PathsOk(p) && closedSet == old(closedSet)
        invariant Expanded(p, State(), current, k)
      {
        ghost var before := State();
        Relax(p, current, routes[k]);
        ExtendPaths(p, before, current, routes[k]);
        RelaxKeeps(p, before, current, routes[k]);
        ExpandedStep(p, before, State(), current, k);
      }
      ExpandedDone(p, State(), current);
    }

    /** `GetPath` (lines 1018-1119): the goal stop the search selects, or
        none once the open set is empty. The goal is checked when a stop is
        selected, before its routes are followed, so the selected goal has
        the least estimate of the open stops; and an empty result means no
        goal can be reached from the start at all. Building the path from
        `cameFrom` is not part of this model. */
    method GetPath(p: Problem) returns (r: Option<int>)
      requires ValidProblem(p)
      modifies this
      ensures SearchInv(p, State()) && PathsOk(p)
      ensures r.Some? ==> r.value in p.goals && r.value in openSet && r.value in paths
      ensures r.Some? ==> forall s :: s in openSet ==> fScore[r.value] <= fScore[s]
      ensures r.None? ==> openSet == {}
      ensures r.None? ==> forall path :: Connects(p, path) ==> path[|path| - 1] !in p.goals
    {
      Start(p);
      while openSet != {}
        invariant SearchInv(p, State()) && PathsOk(p) && Expanded(p, State(), -1, 0)
        decreases Stops(p) - closedSet
      {
        var lowest := Lowest(openSet, fScore);
        var current := lowest.value;
        if current in p.goals {
          return Some(current);
        }
        Close(p, current);
        ExpandStop(p, current);
      }
      forall path | Connects(p, path)
        ensures path[|path| - 1] !in p.goals
      {
        ReachableClosed(p, State(), path);
      }
      return None;
    }
  }

  // ---------------------------------------------------------------------
  // Path steps and their times (lines 53-423, 579-646)
  // ---------------------------------------------------------------------

  datatype DriveSegment = DriveSegment(segment: int, backward: bool)

  /** A transit route of a public transit step and its travel time in
      seconds. */
  datatype TransitRoute = TransitRoute(id: int, travelTime: int)

  /** The kinds of step. Walk, drive and partial drive steps carry their
      estimated duration in seconds. */
  datatype StepKind =
    | Walk(walkSeconds: int)
    | Drive(driveSegment: DriveSegment, seconds: int)
    | PartialDrive(driveSegment: DriveSegment, seconds: int)
    | Turn(from: DriveSegment, to: DriveSegment, intersection: int)
    | PublicTransit(line: int, routes: seq<TransitRoute>)
    | Wait(waitingTime: int)

  datatype PathStep = PathStep(time: int, kind: StepKind)

  /** `default(DateTime)`, the time of a step none has been set for. */
  const DefaultTime := 0

  function SumTravelTimes(routes: seq<TransitRoute>): int
  {
    if routes == [] then 0 else SumTravelTimes(routes[..|routes| - 1]) + routes[|routes| - 1].travelTime
  }

  /** `EstimateDuration` of each step kind, in seconds: a turn takes none, a
      transit step the travel times of its routes. */
  function Duration(k: StepKind): int
  {
    match k
    case Walk(s) => s
    case Drive(_, s) => s
    case PartialDrive(_, s) => s
    case Turn(_, _, _) => 0
    case PublicTransit(_, routes) => SumTravelTimes(routes)
    case Wait(w) => w
  }

  /** The street segment a drive or partial drive step follows. */
  function SegmentOf(k: StepKind): Option<DriveSegment>
  {
    if k.Drive? || k.PartialDrive? then Some(k.driveSegment) else None
  }

  /** The street network and timetables `RecalculateTimes` reads: the next
      departure of a transit route after a time, and the intersections at
      the start and end of each street segment. */
  datatype Network = Network(nextDeparture: (int, int) -> int,
                             startIntersection: int -> int, endIntersection: int -> int)

  /** The intersection a segment is entered at. */
  function EntryIntersection(net: Network, seg: DriveSegment): int
  {
    if seg.backward then net.endIntersection(seg.segment) else net.startIntersection(seg.segment)
  }

  /** Every public transit step has a first route to depart on. */
  predicate Routed(steps: seq<PathStep>)
  {
    forall i :: 0 <= i < |steps| && steps[i].kind.PublicTransit? ==> |steps[i].kind.routes| > 0
  }

  /** The kind of the last step written, if any. */
  function LastKind(out: seq<PathStep>): Option<StepKind>
  {
    if out == [] then None else Some(out[|out| - 1].kind)
  }

  /** One iteration of `RecalculateTimes` given the step before it and the
      running time: the steps written (a waiting or turning step may come
      first) and the time after the step. A transit step whose departure is
      later waits for it, with a waiting step unless one precedes it; a
      drive after a drive is preceded by a turn, whose time stays unset. */
  function Block(net: Network, last: Option<StepKind>, time: int, step: StepKind): (r: (seq<PathStep>, int))
    requires step.PublicTransit? ==> |step.routes| > 0
    ensures 1 <= |r.0| <= 2 && r.0[|r.0| - 1].kind == step
    ensures |r.0| == 2 ==> r.0[0].kind.Wait? || r.0[0].kind.Turn?
  {
    if step.PublicTransit? then
      var departure := net.nextDeparture(step.routes[0].id, time);
      if departure > time then
        if last.None? || !last.value.Wait? then
          ([PathStep(time, Wait(departure - time)), PathStep(departure, step)], departure + Duration(step))
        else ([PathStep(departure, step)], departure + Duration(step))
      else ([PathStep(time, step)], time + Duration(step))
    else if SegmentOf(step).Some? && last.Some? && SegmentOf(last.value).Some? then
      var turn := Turn(SegmentOf(last.value).value, step.driveSegment, EntryIntersection(net, step.driveSegment));
      ([PathStep(DefaultTime, turn), PathStep(time, step)], time + Duration(step))
    else ([PathStep(time, step)], time + Duration(step))
  }

  /** The steps written and the time reached after running over `steps`
      from the written steps and time `init`. */
  function RecalcFrom(net: Network, init: (seq<PathStep>, int), steps: seq<PathStep>): (seq<PathStep>, int)
    requires Routed(steps)
  {
    if steps == [] then init
    else
      var q := RecalcFrom(net, init, steps[..|steps| - 1]);
      var b := Block(net, LastKind(q.0), q.1, steps[|steps| - 1].kind);
      (q.0 + b.0, b.1)
  }

  /** The steps and arrival time `RecalculateTimes` gives a path leaving at
      `leaveBy`. */
  function Recalc(net: Network, steps: seq<PathStep>, leaveBy: int): (seq<PathStep>, int)
    requires Routed(steps)
  {
    RecalcFrom(net, ([], leaveBy), steps)
  }

  /** Running over two series is running over the first and then the
      second. */
  lemma {:induction false} RecalcFromAppend(net: Network, init: (seq<PathStep>, int), a: seq<PathStep>, b: seq<PathStep>)
    requires Routed(a) && Routed(b) && Routed(a + b)
    ensures RecalcFrom(net, init, a + b) == RecalcFrom(net, RecalcFrom(net, init, a), b)
    decreases |b|
  {
    if b == [] {
      assert a + b == a;
    } else {
      var b' := b[..|b| - 1];
      assert (a + b)[..|a + b| - 1] == a + b';
      assert Routed(b') && Routed(a + b') by {
        assert forall i :: 0 <= i < |b'| ==> b'[i] == b[i];
        assert forall i :: 0 <= i < |a + b'| ==> (a + b')[i] == (a + b)[i];
      }
      RecalcFromAppend(net, init, a, b');
    }
  }

  /** The written part only grows, by one or two steps per step, and the
      last step value written is the step itself. */
  lemma {:induction false} RecalcLength(net: Network, init: (seq<PathStep>, int), steps: seq<PathStep>)
    requires Routed(steps)
    ensures var r := RecalcFrom(net, init, steps);
      |init.0| + |steps| <= |r.0| <= |init.0| + 2 * |steps| && r.0[..|init.0|] == init.0
      && (steps != [] ==> LastKind(r.0) == Some(steps[|steps| - 1].kind))
    decreases |steps|
  {
    if steps != [] {
      var prefix := steps[..|steps| - 1];
      assert Routed(prefix) by {
        assert forall i :: 0 <= i < |prefix| ==> prefix[i] == steps[i];
      }
      RecalcLength(net, init, prefix);
      var q := RecalcFrom(net, init, prefix);
      assert (q.0 + Block(net, LastKind(q.0), q.1, steps[|steps| - 1].kind).0)[..|init.0|] == q.0[..|init.0|];
    }
  }

  predicate IsWalkStep(s: PathStep)
  {
    s.kind.Walk?
  }

  /** `IsWalk` (lines 648-654): every step is a walk. */
  predicate IsWalk(steps: seq<PathStep>)
  {
    forall i :: 0 <= i < |steps| ==> IsWalkStep(steps[i])
  }

  /** The durations of the steps, added up. */
  function TotalDuration(steps: seq<PathStep>): int
  {
    if steps == [] then 0 else TotalDuration(steps[..|steps| - 1]) + Duration(steps[|steps| - 1].kind)
  }

  /** A walk gains no step from `RecalculateTimes`: each walk starts when
      the walks before it end, and the path arrives after all of them. */
  lemma {:induction false} RecalcWalk(net: Network, steps: seq<PathStep>, leaveBy: int)
    requires IsWalk(steps)
    ensures Routed(steps)
    ensures var r := Recalc(net, steps, leaveBy);
      |r.0| == |steps| && IsWalk(r.0) && r.1 == leaveBy + TotalDuration(steps)
      && forall i :: 0 <= i < |steps| ==>
           r.0[i] == PathStep(leaveBy + TotalDuration(steps[..i]), steps[i].kind)
    decreases |steps|
  {
    if steps != [] {
      var prefix := steps[..|steps| - 1];
      assert IsWalk(prefix) by {
        assert forall i :: 0 <= i < |prefix| ==> prefix[i] == steps[i];
      }
      RecalcWalk(net, prefix, leaveBy);
      var r := Recalc(net, steps, leaveBy);
      var q := Recalc(net, prefix, leaveBy);
      var last := steps[|steps| - 1];
      assert last.kind.Walk? by {
        assert IsWalkStep(steps[|steps| - 1]);
      }
      assert r.0 == q.0 + [PathStep(q.1, last.kind)];
      forall i | 0 <= i < |steps|
        ensures r.0[i] == PathStep(leaveBy + TotalDuration(steps[..i]), steps[i].kind)
      {
        if i < |prefix| {
          assert steps[..i] == prefix[..i];
          assert prefix[i] == steps[i];
        } else {
          assert steps[..i] == prefix;
        }
      }
      assert IsWalk(r.0) by {
        forall i | 0 <= i < |r.0|
          ensures IsWalkStep(r.0[i])
        {
          assert IsWalkStep(steps[i]);
        }
      }
    }
  }

  /** The kinds of a series of steps. */
  function Kinds(steps: seq<PathStep>): (r: seq<StepKind>)
    ensures |r| == |steps|
  {
    if steps == [] then [] else Kinds(steps[..|steps| - 1]) + [steps[|steps| - 1].kind]
  }

  lemma {:induction false} KindsAppend(a: seq<PathStep>, b: seq<PathStep>)
    ensures Kinds(a + b) == Kinds(a) + Kinds(b)
    decreases |b|
  {
    if b == [] {
      assert a + b == a;
    } else {
      assert (a + b)[..|a + b| - 1] == a + b[..|b| - 1];
      KindsAppend(a, b[..|b| - 1]);
    }
  }

  lemma {:induction false} KindsLast(s: seq<PathStep>)
    ensures LastKind(s) == (if Kinds(s) == [] then None else Some(Kinds(s)[|s| - 1]))
  {
  }

  /** Departures are fixed points of the timetable: the next departure
      after a departure is that departure. */
  ghost predicate DeparturesSettled(net: Network)
  {
    forall id, t :: net.nextDeparture(id, net.nextDeparture(id, t)) == net.nextDeparture(id, t)
  }

  /** Running over a single step writes that step's block. */
  lemma RecalcSingle(net: Network, init: (seq<PathStep>, int), x: PathStep)
    requires x.kind.PublicTransit? ==> |x.kind.routes| > 0
    ensures Routed([x])
    ensures var b := Block(net, LastKind(init.0), init.1, x.kind);
      RecalcFrom(net, init, [x]) == (init.0 + b.0, b.1)
  {
    assert [x][..0] == [];
  }

  /** Running over two steps writes their blocks one after the other. */
  lemma RecalcPair(net: Network, init: (seq<PathStep>, int), x: PathStep, y: PathStep)
    requires x.kind.PublicTransit? ==> |x.kind.routes| > 0
    requires y.kind.PublicTransit? ==> |y.kind.routes| > 0
    ensures Routed([x, y])
    ensures var q := RecalcFrom(net, init, [x]);
      var b := Block(net, LastKind(q.0), q.1, y.kind);
      RecalcFrom(net, init, [x, y]) == (q.0 + b.0, b.1)
  {
    assert [x, y][..1] == [x];
  }

  lemma KindsPair(x: PathStep, y: PathStep)
    ensures Kinds([x, y]) == [x.kind, y.kind]
  {
    assert [x, y][..1] == [x];
    assert [x][..0] == [];
  }

  /** Running again over one step's written steps, after steps of the same
      kinds and at the same time, writes steps of the same kinds and
      reaches the same time: the waiting step written before a transit step
      keeps a second one from being written, and a turn keeps the drive
      after it from getting another. */
  lemma BlockAgain(net: Network, out: seq<PathStep>, last: Option<StepKind>, time: int, step: StepKind)
    requires step.PublicTransit? ==> |step.routes| > 0
    requires DeparturesSettled(net) && LastKind(out) == last
    ensures Routed(Block(net, last, time, step).0)
    ensures var b := Block(net, last, time, step);
      var r := RecalcFrom(net, (out, time), b.0);
      |out| <= |r.0| && r.0[..|out|] == out && Kinds(r.0[|out|..]) == Kinds(b.0) && r.1 == b.1
  {
    var b := Block(net, last, time, step);
    if |b.0| == 1 {
      var x := b.0[0];
      assert b.0 == [x] && x.kind == step;
      RecalcSingle(net, (out, time), x);
      var r := RecalcFrom(net, (out, time), b.0);
      assert r == (out + b.0, b.1);
      assert r.0[..|out|] == out && r.0[|out|..] == b.0;
    } else {
      BlockAgainPair(net, out, last, time, step);
    }
  }

  /** `BlockAgain` for a block of a waiting or turning step and the step. */
  lemma BlockAgainPair(net: Network, out: seq<PathStep>, last: Option<StepKind>, time: int, step: StepKind)
    requires step.PublicTransit? ==> |step.routes| > 0
    requires DeparturesSettled(net) && LastKind(out) == last && |Block(net, last, time, step).0| == 2
    ensures var b := Block(net, last, time, step);
      var r := RecalcFrom(net, (out, time), b.0);
      |out| <= |r.0| && r.0[..|out|] == out && Kinds(r.0[|out|..]) == Kinds(b.0) && r.1 == b.1
  {
    var b := Block(net, last, time, step);
    var w, y := b.0[0], b.0[1];
    assert b.0 == [w, y] && y.kind == step;
    if step.PublicTransit? {
      var departure := net.nextDeparture(step.routes[0].id, time);
      assert w == PathStep(time, Wait(departure - time)) && y == PathStep(departure, step);
      assert net.nextDeparture(step.routes[0].id, departure) == departure;
      AgainTwo(net, out, time, w, y, b.1);
    } else {
      assert w.time == DefaultTime && w.kind.Turn? && y == PathStep(time, step);
      AgainTwo(net, out, time, w, y, b.1);
    }
  }

  /** Running over a waiting or turning step `w` and a step `y` that then
      needs nothing inserted writes steps of their kinds and reaches the
      time `y`'s block reaches. */
  lemma AgainTwo(net: Network, out: seq<PathStep>, time: int, w: PathStep, y: PathStep, endTime: int)
    requires w.kind.Wait? || w.kind.Turn?
    requires y.kind.PublicTransit? ==> |y.kind.routes| > 0
    requires Block(net, Some(w.kind), time + Duration(w.kind), y.kind) == ([PathStep(y.time, y.kind)], endTime)
    ensures var r := RecalcFrom(net, (out, time), [w, y]);
      |out| <= |r.0| && r.0[..|out|] == out && Kinds(r.0[|out|..]) == Kinds([w, y]) && r.1 == endTime
  {
    RecalcSingle(net, (out, time), w);
    RecalcPair(net, (out, time), w, y);
    var c := [PathStep(time, w.kind), PathStep(y.time, y.kind)];
    assert RecalcFrom(net, (out, time), [w]) == (out + [c[0]], time + Duration(w.kind));
    assert out + [c[0]] + [c[1]] == out + c;
    var r := RecalcFrom(net, (out, time), [w, y]);
    assert r.0 == out + c && r.1 == endTime;
    assert r.0[..|out|] == out && r.0[|out|..] == c;
    assert Kinds(c) == Kinds([w, y]) by {
      KindsPair(w, y);
      KindsPair(c[0], c[1]);
    }
  }

  lemma RoutedAppend(a: seq<PathStep>, b: seq<PathStep>)
    requires Routed(a) && Routed(b)
    ensures Routed(a + b)
  {
    forall i | 0 <= i < |a + b| && (a + b)[i].kind.PublicTransit?
      ensures |(a + b)[i].kind.routes| > 0
    {
      if i < |a| {
        assert (a + b)[i] == a[i];
      } else {
        assert (a + b)[i] == b[i - |a|];
      }
    }
  }

  /** Only the step itself can be a transit step of its block. */
  lemma BlockRouted(net: Network, last: Option<StepKind>, time: int, step: StepKind)
    requires step.PublicTransit? ==> |step.routes| > 0
    ensures Routed(Block(net, last, time, step).0)
  {
  }

  /** Every transit step written has a route, given that the steps run
      over and those already written have one. */
  lemma {:induction false} RecalcFromRouted(net: Network, init: (seq<PathStep>, int), steps: seq<PathStep>)
    requires Routed(init.0) && Routed(steps)
    ensures Routed(RecalcFrom(net, init, steps).0)
    decreases |steps|
  {
    if steps != [] {
      var prefix := steps[..|steps| - 1];
      assert Routed(prefix) by {
        assert forall i :: 0 <= i < |prefix| ==> prefix[i] == steps[i];
      }
      RecalcFromRouted(net, init, prefix);
      var q := RecalcFrom(net, init, prefix);
      var x := steps[|steps| - 1];
      BlockRouted(net, LastKind(q.0), q.1, x.kind);
      RoutedAppend(q.0, Block(net, LastKind(q.0), q.1, x.kind).0);
    }
  }

  /** The step of `RecalcTwice`: if running again over the written steps
      `a` gives steps `a2` of the same kinds at the time `t` the first run
      reached, then running again over `a` and the next block does too. */
  lemma TwiceStep(net: Network, a: seq<PathStep>, a2: seq<PathStep>, t: int, x: StepKind, leaveBy: int)
    requires Routed(a) && DeparturesSettled(net) && (x.PublicTransit? ==> |x.routes| > 0)
    requires Recalc(net, a, leaveBy) == (a2, t) && Kinds(a2) == Kinds(a)
    ensures var b := Block(net, LastKind(a), t, x);
      Routed(a + b.0) && Kinds(Recalc(net, a + b.0, leaveBy).0) == Kinds(a + b.0)
      && Recalc(net, a + b.0, leaveBy).1 == b.1
  {
    var b := Block(net, LastKind(a), t, x);
    BlockRouted(net, LastKind(a), t, x);
    RoutedAppend(a, b.0);
    var r := RecalcFrom(net, (a2, t), b.0);
    assert Recalc(net, a + b.0, leaveBy) == r by {
      RecalcFromAppend(net, ([], leaveBy), a, b.0);
    }
    assert LastKind(a2) == LastKind(a) by {
      KindsLast(a);
      KindsLast(a2);
    }
    BlockAgain(net, a2, LastKind(a), t, x);
    KindsSplice(a, a2, r.0, b.0);
  }

  /** Steps that begin with `a2`, of the kinds of `a`, and go on with steps
      of the kinds of `b` have the kinds of `a + b`. */
  lemma KindsSplice(a: seq<PathStep>, a2: seq<PathStep>, r: seq<PathStep>, b: seq<PathStep>)
    requires |a2| <= |r| && r[..|a2|] == a2 && Kinds(a2) == Kinds(a) && Kinds(r[|a2|..]) == Kinds(b)
    ensures Kinds(r) == Kinds(a + b)
  {
    var rest := r[|a2|..];
    assert r == a2 + rest by {
      forall k | 0 <= k < |r|
        ensures r[k] == (a2 + rest)[k]
      {
        if k < |a2| {
          assert r[..|a2|][k] == r[k];
        }
      }
    }
    calc {
      Kinds(r);
      == Kinds(a2 + rest);
      == { KindsAppend(a2, rest); }
      Kinds(a2) + Kinds(rest);
      == { KindsAppend(a, b); }
      Kinds(a + b);
    }
  }

  /** Once the times are recalculated, recalculating them again writes no
      further step and keeps the arrival time, provided departures are
      fixed points of the timetable. Only the turns' unset times are then
      filled in. */
  lemma {:induction false} RecalcTwice(net: Network, steps: seq<PathStep>, leaveBy: int)
    requires Routed(steps) && DeparturesSettled(net)
    ensures Routed(Recalc(net, steps, leaveBy).0)
    ensures var once := Recalc(net, steps, leaveBy);
      var twice := Recalc(net, once.0, leaveBy);
      Kinds(twice.0) == Kinds(once.0) && twice.1 == once.1
    decreases |steps|
  {
    RecalcFromRouted(net, ([], leaveBy), steps);
    if steps != [] {
      var prefix := steps[..|steps| - 1];
      var x := steps[|steps| - 1];
      assert Routed(prefix) by {
        assert forall i :: 0 <= i < |prefix| ==> prefix[i] == steps[i];
      }
      RecalcTwice(net, prefix, leaveBy);
      var q := Recalc(net, prefix, leaveBy);
      var q2 := Recalc(net, q.0, leaveBy);
      assert q2 == (q2.0, q.1);
      TwiceStep(net, q.0, q2.0, q.1, x.kind, leaveBy);
    }
  }

  /** Running over one step more of a routed series appends that step's
      block. */
  lemma RecalcNext(net: Network, steps: seq<PathStep>, j: int, leaveBy: int)
    requires Routed(steps) && 0 <= j < |steps|
    ensures Routed(steps[..j]) && Routed(steps[..j + 1])
    ensures var q := Recalc(net, steps[..j], leaveBy);
      var b := Block(net, LastKind(q.0), q.1, steps[j].kind);
      Recalc(net, steps[..j + 1], leaveBy) == (q.0 + b.0, b.1)
  {
    assert Routed(steps[..j + 1]) by {
      assert forall k :: 0 <= k < j + 1 ==> steps[..j + 1][k] == steps[k];
    }
    assert steps[..j + 1][..j] == steps[..j];
    assert steps[..j + 1][j] == steps[j];
  }

  /** `RecalculateTimes`'s loop after `j` of the `original` steps: the
      steps written for them fill the first `i` places, followed by the
      steps still to run over, and `time` is the time reached. */
  ghost predicate Written(net: Network, original: seq<PathStep>, leaveBy: int, j: int,
                          steps: seq<PathStep>, i: int, time: int)
  {
    0 <= j <= |original| && Routed(original[..j])
    && var q := Recalc(net, original[..j], leaveBy);
    steps == q.0 + original[j..] && i == |q.0| && time == q.1
  }

  /** While places remain, the next one holds the next original step. */
  lemma WrittenNext(net: Network, original: seq<PathStep>, leaveBy: int, j: int,
                    steps: seq<PathStep>, i: int, time: int)
    requires Routed(original) && Written(net, original, leaveBy, j, steps, i, time) && i < |steps|
    ensures j < |original| && steps[i] == original[j] && steps[..i] == Recalc(net, original[..j], leaveBy).0
    ensures steps[i].kind.PublicTransit? ==> |steps[i].kind.routes| > 0
  {
  }

  /** Writing the block of the next step goes one step further. */
  lemma LoopStep(net: Network, original: seq<PathStep>, leaveBy: int, j: int,
                 before: seq<PathStep>, i: int, time: int, after: seq<PathStep>, next: int, newTime: int)
    requires Routed(original) && Written(net, original, leaveBy, j, before, i, time) && i < |before|
    requires before[i].kind.PublicTransit? ==> |before[i].kind.routes| > 0
    requires var b := Block(net, LastKind(before[..i]), time, before[i].kind);
      after == before[..i] + b.0 + before[i + 1..] && next == i + |b.0| && newTime == b.1
    ensures Written(net, original, leaveBy, j + 1, after, next, newTime)
    ensures 0 < next <= |after| && after[next - 1].kind == before[i].kind
  {
    var q := Recalc(net, original[..j], leaveBy);
    assert before[..i] == q.0 && before[i] == original[j] && before[i + 1..] == original[j + 1..];
    RecalcNext(net, original, j, leaveBy);
    var b := Block(net, LastKind(q.0), q.1, original[j].kind);
    assert after == q.0 + b.0 + original[j + 1..];
    assert after[next - 1] == b.0[|b.0| - 1];
  }

  /** Once no place remains, all the original steps have been run over. */
  lemma WrittenDone(net: Network, original: seq<PathStep>, leaveBy: int, j: int,
                    steps: seq<PathStep>, i: int, time: int)
    requires Routed(original) && Written(net, original, leaveBy, j, steps, i, time) && i >= |steps|
    ensures (steps, time) == Recalc(net, original, leaveBy)
  {
    assert |original[j..]| == 0;
    assert original[..j] == original;
    var r := Recalc(net, original, leaveBy);
    assert steps == r.0 && time == r.1;
  }

  /** A `PathPlanningResult`: its cost, departure, arrival and steps. */
  class PathPlanningResult {
    var cost: real
    var leaveBy: int
    var arriveAt: int
    var steps: seq<PathStep>

    /** Lines 549-566: without a given arrival the arrival is unset. */
    constructor (cost: real, leaveBy: int, steps: seq<PathStep>)
      ensures this.cost == cost && this.leaveBy == leaveBy && this.steps == steps
      ensures arriveAt == DefaultTime
    {
      this.cost := cost;
      this.leaveBy := leaveBy;
      this.steps := steps;
      arriveAt := DefaultTime;
    }

    /** The body of the loop of lines 574-640 for the step at `i`: a waiting
        or turning step may be inserted before it, it gets the running time,
        and the running time moves past it. `previous` is the segment of the
        step before, if that one is a drive or partial drive. */
    method Advance(net: Network, i: int, time: int, previous: Option<DriveSegment>) returns (next: int, newTime: int)
      requires 0 <= i < |steps| && (steps[i].kind.PublicTransit? ==> |steps[i].kind.routes| > 0)
      requires previous == (if i == 0 then None else SegmentOf(steps[i - 1].kind))
      modifies this
      ensures var b := Block(net, LastKind(old(steps)[..i]), time, old(steps)[i].kind);
        steps == old(steps)[..i] + b.0 + old(steps)[i + 1..] && next == i + |b.0| && newTime == b.1
      ensures cost == old(cost) && leaveBy == old(leaveBy) && arriveAt == old(arriveAt)
    {
      var step := steps[i];
      next, newTime := i, time;
      if step.kind.PublicTransit? {
        var departure := net.nextDeparture(step.kind.routes[0].id, time);
        if departure > time {
          if i == 0 || !steps[i - 1].kind.Wait? {
            steps := steps[..i] + [PathStep(time, Wait(departure - time))] + steps[i..];
            next := i + 1;
          }
          newTime := departure;
        }
      } else if (step.kind.Drive? || step.kind.PartialDrive?) && previous.Some? {
        var seg := step.kind.driveSegment;
        steps := steps[..i] + [PathStep(DefaultTime, Turn(previous.value, seg, EntryIntersection(net, seg)))] + steps[i..];
        next := i + 1;
      }
      steps := steps[next := PathStep(newTime, step.kind)];
      newTime := newTime + Duration(step.kind);
      next := next + 1;
    }

    /** `RecalculateTimes` (lines 568-647): the steps and arrival time are
        those of `Recalc`, with waiting and turning steps inserted. */
    method RecalculateTimes(net: Network)
      requires Routed(steps)
      modifies this
      ensures (steps, arriveAt) == Recalc(net, old(steps), leaveBy)
      ensures cost == old(cost) && leaveBy == old(leaveBy)
    {
      ghost var original := steps;
      var time := leaveBy;
      var previous: Option<DriveSegment> := None;
      var i := 0;
      ghost var j := 0;
      assert original[..0] == [];
      while i < |steps|
        invariant Written(net, original, leaveBy, j, steps, i, time)
        invariant previous == (if i == 0 then None else SegmentOf(steps[i - 1].kind))
        invariant cost == old(cost) && leaveBy == old(leaveBy)
        decreases |original| - j
      {
        WrittenNext(net, original, leaveBy, j, steps, i, time);
        ghost var before := steps;
        var kind := steps[i].kind;
        var next, newTime := Advance(net, i, time, previous);
        LoopStep(net, original, leaveBy, j, before, i, time, steps, next, newTime);
        i, time := next, newTime;
        previous := SegmentOf(kind);
        j := j + 1;
      }
      WrittenDone(net, original, leaveBy, j, steps, i, time);
      arriveAt := time;
    }
  }

  /** `CreateWalk` (lines 1132-1143): one walk, costed at the walking time
      factor, leaving at `now`. */
  method CreateWalk(net: Network, o: Options, walkSeconds: int, now: int) returns (result: PathPlanningResult)
    ensures fresh(result)
    ensures result.steps == [PathStep(now, Walk(walkSeconds))] && IsWalk(result.steps)
    ensures result.cost == walkSeconds as real * o.walkingTimeFactor
    ensures result.leaveBy == now && result.arriveAt == now + walkSeconds
  {
    result := new PathPlanningResult(walkSeconds as real * o.walkingTimeFactor, now,
                                     [PathStep(DefaultTime, Walk(walkSeconds))]);
    RecalcSingle(net, ([], now), PathStep(DefaultTime, Walk(walkSeconds)));
    result.RecalculateTimes(net);
    assert IsWalkStep(result.steps[0]);
  }

  // ---------------------------------------------------------------------
  // The choice of path (lines 1325-1353)
  // ---------------------------------------------------------------------

  datatype PathChoice = WalkPath | TransitPath | CarPath

  /** `FindClosestPath` given the distance, the cost of the transit path
      (which falls back to a walk and so always exists) and the cost of the
      drive, which may fail. */
  function FindClosestPath(o: Options, distance: real, transitCost: real, carCost: Option<real>): (r: PathChoice)
    ensures r == WalkPath <==> distance <= o.maxWalkingDistance
    ensures r == CarPath ==> o.allowCar && carCost.Some? && carCost.value < transitCost
  {
    if distance <= o.maxWalkingDistance then WalkPath
    else if !o.allowCar then TransitPath
    else if carCost.None? then TransitPath
    else if carCost.value < transitCost then CarPath
    else TransitPath
  }

  /** The cost of a choice, when it is not a walk. */
  function ChoiceCost(r: PathChoice, transitCost: real, carCost: Option<real>): real
    requires r == CarPath ==> carCost.Some?
  {
    if r == CarPath then carCost.value else transitCost
  }

  /** Beyond walking distance the cheaper of the two paths on offer is
      taken, the transit path when they cost the same. */
  lemma ClosestPathIsCheapest(o: Options, distance: real, transitCost: real, carCost: Option<real>)
    requires distance > o.maxWalkingDistance
    ensures var r := FindClosestPath(o, distance, transitCost, carCost);
      r != WalkPath && ChoiceCost(r, transitCost, carCost) <= transitCost
      && (o.allowCar && carCost.Some? ==> ChoiceCost(r, transitCost, carCost) <= carCost.value)
      && (o.allowCar && carCost.Some? && carCost.value < transitCost <==> r == CarPath)
  {
  }
}
