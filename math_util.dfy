/** The discrete helpers of Assets/Scripts/Utility/Math.cs: absolute-value
    choices, compass classification of angles in degrees, angle normalisation,
    the monotone-chain hull and the shoelace area. */
module MathUtil {
  import opened Geometry
  import opened Paths

  function AbsR(x: real): (r: real)
    ensures r >= 0.0 && (r == x || r == -x)
  {
    if x < 0.0 then -x else x
  }

  /** `MaxAbs`: the argument of larger magnitude, the first one on a tie. */
  function MaxAbs(v1: real, v2: real): (r: real)
    ensures r == v1 || r == v2
    ensures AbsR(r) >= AbsR(v1) && AbsR(r) >= AbsR(v2)
    ensures AbsR(v1) == AbsR(v2) ==> r == v1
  {
    if AbsR(v1) >= AbsR(v2) then v1 else v2
  }

  /** `MinAbs`: the argument of smaller magnitude, the first one on a tie. */
  function MinAbs(v1: real, v2: real): (r: real)
    ensures r == v1 || r == v2
    ensures AbsR(r) <= AbsR(v1) && AbsR(r) <= AbsR(v2)
    ensures AbsR(v1) == AbsR(v2) ==> r == v1
  {
    if AbsR(v1) <= AbsR(v2) then v1 else v2
  }

  /** `ClassifyDirection`: an angle in degrees, counter-clockwise from east,
      to the nearest compass direction. A negative angle is first moved up by
      one full turn. */
  function ClassifyDirection(angle: real): CardinalDirection
  {
    var a := if angle < 0.0 then 360.0 + angle else angle;
    if a >= 315.0 || a < 45.0 then East
    else if a >= 45.0 && a < 135.0 then North
    else if a >= 135.0 && a < 225.0 then West
    else South
  }

  /** `Reverse`: the opposite direction. */
  function Reverse(dir: CardinalDirection): (r: CardinalDirection)
    ensures r != dir
  {
    match dir
    case North => South
    case South => North
    case East => West
    case West => East
  }

  /** Reversing twice gives the direction back, reversing is a half turn, and
      it keeps the axis. */
  lemma ReverseAlgebra(dir: CardinalDirection)
    ensures Reverse(Reverse(dir)) == dir
    ensures Reverse(dir) == RotatedRight(RotatedRight(dir))
    ensures IsHorizontal(Reverse(dir)) == IsHorizontal(dir)
  {
  }

  /** The quarter sectors of a turn, for angles in `[0, 360)`. */
  lemma ClassifySectors(a: real)
    requires 0.0 <= a < 360.0
    ensures ClassifyDirection(a) == East <==> (a < 45.0 || a >= 315.0)
    ensures ClassifyDirection(a) == North <==> 45.0 <= a < 135.0
    ensures ClassifyDirection(a) == West <==> 135.0 <= a < 225.0
    ensures ClassifyDirection(a) == South <==> 225.0 <= a < 315.0
  {
  }

  /** The classification turns with the angle: a negative angle is read one
      turn up, a half turn gives the reverse direction and a quarter turn
      counter-clockwise gives the direction rotated left. */
  lemma ClassifyTurns(a: real)
    requires 0.0 <= a < 360.0
    ensures ClassifyDirection(a - 360.0) == ClassifyDirection(a)
    ensures ClassifyDirection(if a < 180.0 then a + 180.0 else a - 180.0) == Reverse(ClassifyDirection(a))
    ensures a < 270.0 ==> ClassifyDirection(a + 90.0) == RotatedLeft(ClassifyDirection(a))
  {
  }

  /** `DirectionVector`: the unit vector of a direction. */
  function DirectionVector(dir: CardinalDirection): Vec3
  {
    match dir
    case North => Vec3(0.0, 1.0, 0.0)
    case South => Vec3(0.0, -1.0, 0.0)
    case East => Vec3(1.0, 0.0, 0.0)
    case West => Vec3(-1.0, 0.0, 0.0)
  }

  /** The reverse direction points the other way, and the horizontal
      directions have no vertical part. */
  lemma DirectionVectorReverse(dir: CardinalDirection)
    ensures var v, w := DirectionVector(dir), DirectionVector(Reverse(dir));
      w == Vec3(-v.x, -v.y, -v.z)
    ensures IsHorizontal(dir) <==> DirectionVector(dir).y == 0.0
  {
  }

  /** The representative of an angle modulo 180 degrees in `[0, 180)`. */
  function HalfTurnRemainder(angle: real): real
  {
    angle - ((angle / 180.0).Floor as real) * 180.0
  }

  /** `NormalizeAngle`: add or subtract half turns until the angle lies in
      `[0, 180)`. */
  method NormalizeAngle(angle: real) returns (r: real)
    ensures 0.0 <= r < 180.0
    ensures r == HalfTurnRemainder(angle)
  {
    r := angle;
    ghost var k: int := 0;
    if r < 0.0 {
      while r < 0.0
        invariant r == angle + (k as real) * 180.0
        invariant r < 180.0
        decreases -r.Floor
      {
        FloorShift(r, 180);
        r := r + 180.0;
        k := k + 1;
      }
    } else if r >= 180.0 {
      while r >= 180.0
        invariant r == angle + (k as real) * 180.0
        invariant r >= 0.0
        decreases r.Floor
      {
        FloorShift(r, -180);
        r := r - 180.0;
        k := k - 1;
      }
    }
    HalfTurnUnique(angle, k);
  }

  /** `Floor` characterised by its defining interval. */
  lemma FloorOf(x: real, n: int)
    requires n as real <= x < n as real + 1.0
    ensures x.Floor == n
  {
  }

  lemma FloorShift(x: real, n: int)
    ensures (x + n as real).Floor == x.Floor + n
  {
    FloorOf(x + n as real, x.Floor + n);
  }

  /** At most one number of half turns brings an angle into `[0, 180)`. */
  lemma HalfTurnUnique(angle: real, k: int)
    requires 0.0 <= angle + (k as real) * 180.0 < 180.0
    ensures angle + (k as real) * 180.0 == HalfTurnRemainder(angle)
  {
    var x := angle / 180.0;
    assert angle == x * 180.0;
    assert (-k) as real <= x < (-k) as real + 1.0;
    FloorOf(x, -k);
  }

  /** The representative is congruent to the angle and fixed by adding half
      turns. */
  lemma HalfTurnRemainderProperties(angle: real, k: int)
    ensures 0.0 <= HalfTurnRemainder(angle) < 180.0
    ensures HalfTurnRemainder(angle + (k as real) * 180.0) == HalfTurnRemainder(angle)
  {
    var r := HalfTurnRemainder(angle);
    var x := angle / 180.0;
    assert x.Floor as real <= x < x.Floor as real + 1.0;
    assert 0.0 <= r < 180.0;
    HalfTurnUnique(angle + (k as real) * 180.0, (angle / 180.0).Floor * -1 - k);
  }

  /** The turn test of the monotone chain: whether `p` is not strictly to the
      right of the line from `r` through `q`. */
  predicate NotRightTurn(r: Vec2, q: Vec2, p: Vec2)
  {
    (q.x - r.x) * (p.y - r.y) >= (q.y - r.y) * (p.x - r.x)
  }

  /** Every inner vertex of the chain `s` is a strict right turn. */
  predicate RightChain(s: seq<Vec2>)
  {
    forall k :: 0 <= k < |s| - 2 ==> !NotRightTurn(s[k], s[k + 1], s[k + 2])
  }

  /** The hull splits after its first `k` points into two chains that each
      turn strictly right at every inner vertex; the second starts at `last`. */
  predicate TwoChains(hull: seq<Vec2>, k: int, last: Vec2)
  {
    1 <= k <= |hull| && RightChain(hull[..k]) && RightChain(hull[k..])
    && (k < |hull| ==> hull[k] == last)
  }

  lemma ChainPrefix(s: seq<Vec2>, t: seq<Vec2>)
    requires RightChain(s) && t <= s
    ensures RightChain(t)
  {
    forall k | 0 <= k < |t| - 2
      ensures !NotRightTurn(t[k], t[k + 1], t[k + 2])
    {
      assert t[k] == s[k] && t[k + 1] == s[k + 1] && t[k + 2] == s[k + 2];
    }
  }

  /** Pushing a point that makes a strict right turn with the last two keeps
      a chain. */
  lemma ChainPush(h: seq<Vec2>, p: Vec2)
    requires RightChain(h)
    requires |h| >= 2 ==> !NotRightTurn(h[|h| - 2], h[|h| - 1], p)
    ensures RightChain(h + [p])
  {
    var g := h + [p];
    forall k | 0 <= k < |g| - 2
      ensures !NotRightTurn(g[k], g[k + 1], g[k + 2])
    {
      if k + 2 < |h| {
        assert g[k] == h[k] && g[k + 1] == h[k + 1] && g[k + 2] == h[k + 2];
      } else {
        assert g[k] == h[|h| - 2] && g[k + 1] == h[|h| - 1] && g[k + 2] == p;
      }
    }
  }

  /** One half of the chain: pop the last point while the turn test holds,
      then push `p`. A chain stays a chain. */
  method PushHull(hull: seq<Vec2>, p: Vec2) returns (h: seq<Vec2>)
    requires RightChain(hull)
    ensures |h| >= 1 && h[|h| - 1] == p
    ensures h[..|h| - 1] <= hull
    ensures |hull| >= 1 ==> |h| >= 2 && h[0] == hull[0]
    ensures RightChain(h)
  {
    h := hull;
    while |h| >= 2
      invariant h <= hull
      invariant |hull| >= 1 ==> |h| >= 1
      decreases |h|
    {
      var q := h[|h| - 1];
      var r := h[|h| - 2];
      if NotRightTurn(r, q, p) {
        h := h[..|h| - 1];
      } else {
        break;
      }
    }
    ChainPrefix(hull, h);
    ChainPush(h, p);
    h := h + [p];
  }

  /** `MakeHullPresorted`: Andrew's monotone chain over points sorted by x and
      then y. A list of at most one point is copied. Otherwise the result
      starts at the first point, holds only input points, is at most twice
      as long as the input, and is made of an upper and a lower chain that
      each turn strictly right at every inner vertex, the lower one starting
      at the last point. */
  method MakeHullPresorted(points: seq<Vec2>) returns (hull: seq<Vec2>)
    ensures |points| <= 1 ==> hull == points
    ensures forall v :: v in hull ==> v in points
    ensures |points| >= 2 ==> |hull| >= 1 && hull[0] == points[0]
    ensures |hull| <= 2 * |points|
    ensures |points| >= 2 ==>
      exists k {:trigger TwoChains(hull, k, points[|points| - 1])} :: TwoChains(hull, k, points[|points| - 1])
  {
    if |points| <= 1 {
      return points;
    }
    var upper := UpperHull(points);
    ChainPrefix(upper, upper[..|upper| - 1]);
    upper := upper[..|upper| - 1];
    var lower := LowerHull(points);
    ChainPrefix(lower, lower[..|lower| - 1]);
    lower := lower[..|lower| - 1];
    if !(|upper| == 1 && upper == lower) {
      JoinChains(upper, lower, points[|points| - 1]);
      upper := upper + lower;
    } else {
      JoinChains(upper, [], points[|points| - 1]);
      assert upper + [] == upper;
    }
    hull := upper;
  }

  /** The first loop of `MakeHullPresorted`: the chain over the points from
      the first to the last. */
  method UpperHull(points: seq<Vec2>) returns (upper: seq<Vec2>)
    requires |points| >= 2
    ensures 2 <= |upper| <= |points| && upper[0] == points[0]
    ensures forall v :: v in upper ==> v in points
    ensures RightChain(upper)
  {
    upper := [];
    for i := 0 to |points|
      invariant forall v :: v in upper ==> v in points
      invariant |upper| <= i
      invariant i >= 1 ==> |upper| >= 1 && upper[0] == points[0]
      invariant i >= 2 ==> |upper| >= 2
      invariant RightChain(upper)
    {
      ghost var before := upper;
      upper := PushHull(upper, points[i]);
      PushedFrom(before, upper, points[i]);
    }
  }

  /** The second loop of `MakeHullPresorted`: the chain over the points from
      the last back to the first. */
  method LowerHull(points: seq<Vec2>) returns (lower: seq<Vec2>)
    requires |points| >= 2
    ensures 2 <= |lower| <= |points| && lower[0] == points[|points| - 1]
    ensures forall v :: v in lower ==> v in points
    ensures RightChain(lower)
  {
    lower := [];
    var i := |points| - 1;
    while i >= 0
      invariant -1 <= i < |points|
      invariant forall v :: v in lower ==> v in points
      invariant |lower| <= |points| - 1 - i
      invariant i < |points| - 1 ==> |lower| >= 1 && lower[0] == points[|points| - 1]
      invariant i < |points| - 2 ==> |lower| >= 2
      invariant RightChain(lower)
    {
      ghost var before := lower;
      lower := PushHull(lower, points[i]);
      PushedFrom(before, lower, points[i]);
      i := i - 1;
    }
  }

  /** After a push every point of the chain is the new one or was there
      before. */
  lemma PushedFrom(before: seq<Vec2>, after: seq<Vec2>, p: Vec2)
    requires |after| >= 1 && after[|after| - 1] == p && after[..|after| - 1] <= before
    ensures forall v :: v in after ==> v in before || v == p
  {
    assert after == after[..|after| - 1] + [p];
    assert forall v :: v in after[..|after| - 1] ==> v in before;
  }

  /** Two chains joined end to end split back into the two. */
  lemma JoinChains(upper: seq<Vec2>, lower: seq<Vec2>, last: Vec2)
    requires |upper| >= 1 && RightChain(upper) && RightChain(lower)
    requires |lower| >= 1 ==> lower[0] == last
    ensures TwoChains(upper + lower, |upper|, last)
  {
    assert (upper + lower)[..|upper|] == upper;
    assert (upper + lower)[|upper|..] == lower;
  }

  /** The point after vertex `j - 1`, wrapping to the first vertex. */
  function NextVertex(poly: seq<Vec2>, j: nat): Vec2
    requires 1 <= j <= |poly|
  {
    if j == |poly| then poly[0] else poly[j]
  }

  /** The shoelace sum over the first `n` edges of the closed polygon: twice
      the signed area when `n` is the vertex count. */
  function ShoelaceSum(poly: seq<Vec2>, n: nat): real
    requires n <= |poly|
  {
    if n == 0 then 0.0
    else ShoelaceSum(poly, n - 1) + EdgeTerm(poly[n - 1], NextVertex(poly, n))
  }

  /** The term of the edge from `p0` to `p1`. */
  function EdgeTerm(p0: Vec2, p1: Vec2): real
  {
    p0.x * p1.y - p0.y * p1.x
  }

  /** `GetAreaOfPolygon`: half the magnitude of the shoelace sum, and whether
      the sum was negative. */
  method GetAreaOfPolygon(poly: seq<Vec2>) returns (area: real, isCounterClockwise: bool)
    ensures area >= 0.0
    ensures area == AbsR(ShoelaceSum(poly, |poly|)) * 0.5
    ensures isCounterClockwise <==> ShoelaceSum(poly, |poly|) < 0.0
  {
    var sum := 0.0;
    var i := 1;
    while i <= |poly|
      invariant 1 <= i <= |poly| + 1
      invariant sum == ShoelaceSum(poly, i - 1)
    {
      var p0 := poly[i - 1];
      var p1: Vec2;
      if i == |poly| {
        p1 := poly[0];
      } else {
        p1 := poly[i];
      }
      assert p1 == NextVertex(poly, i);
      sum := sum + EdgeTerm(p0, p1);
      i := i + 1;
    }
    if sum < 0.0 {
      isCounterClockwise := true;
      sum := -sum;
    } else {
      isCounterClockwise := false;
    }
    area := sum * 0.5;
  }

  lemma ShoelaceTriangleCross(a: Vec2, b: Vec2, c: Vec2)
    ensures ShoelaceSum([a, b, c], 3) == CrossZ(a, b, c)
  {
    var ps := [a, b, c];
    assert ShoelaceSum(ps, 1) == a.x * b.y - a.y * b.x;
    assert ShoelaceSum(ps, 2) == ShoelaceSum(ps, 1) + (b.x * c.y - b.y * c.x);
    assert ShoelaceSum(ps, 3) == ShoelaceSum(ps, 2) + (c.x * a.y - c.y * a.x);
    assert (b.x - a.x) * (c.y - a.y) == b.x * c.y - b.x * a.y - a.x * c.y + a.x * a.y;
    assert (b.y - a.y) * (c.x - a.x) == b.y * c.x - b.y * a.x - a.y * c.x + a.y * a.x;
  }

  /** For a triangle the shoelace sum is the cross product of its edges from
      the first corner, so the flag says that the corners run clockwise in the
      turn sense of `CrossZ`; translating the triangle leaves it unchanged. */
  lemma ShoelaceTriangle(a: Vec2, b: Vec2, c: Vec2, d: Vec2)
    ensures ShoelaceSum([a, b, c], 3) == CrossZ(a, b, c)
    ensures ShoelaceSum([Add(a, d), Add(b, d), Add(c, d)], 3) == ShoelaceSum([a, b, c], 3)
  {
    ShoelaceTriangleCross(a, b, c);
    ShoelaceTriangleCross(Add(a, d), Add(b, d), Add(c, d));
    assert Sub(Add(b, d), Add(a, d)) == Sub(b, a) && Sub(Add(c, d), Add(a, d)) == Sub(c, a);
  }
}
