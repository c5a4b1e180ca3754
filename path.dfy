/** Compass directions, path segments and paths (Assets/Scripts/Utility/Path.cs).
    Lengths and unit vectors come from the function parameters `norm` and
    `unit`, standing for `magnitude` and `normalized`. */
module Paths {
  import opened Geometry
  import SS = StreetSegment

  datatype CardinalDirection = North | South | West | East

  predicate IsHorizontal(dir: CardinalDirection)
  {
    dir == East || dir == West
  }

  /** A quarter turn clockwise. */
  function RotatedRight(dir: CardinalDirection): (r: CardinalDirection)
    ensures r != dir
  {
    match dir
    case North => East
    case South => West
    case East => South
    case West => North
  }

  /** A quarter turn counter-clockwise. */
  function RotatedLeft(dir: CardinalDirection): (r: CardinalDirection)
    ensures r != dir
  {
    match dir
    case North => West
    case South => East
    case East => North
    case West => South
  }

  /** The two rotations undo each other, four quarter turns come back to the
      start, and every quarter turn swaps the horizontal and vertical axes. */
  lemma RotationAlgebra(dir: CardinalDirection)
    ensures RotatedLeft(RotatedRight(dir)) == dir && RotatedRight(RotatedLeft(dir)) == dir
    ensures RotatedRight(RotatedRight(RotatedRight(RotatedRight(dir)))) == dir
    ensures RotatedRight(RotatedRight(dir)) == RotatedLeft(RotatedLeft(dir))
    ensures IsHorizontal(RotatedRight(dir)) == !IsHorizontal(dir)
    ensures IsHorizontal(RotatedLeft(dir)) == !IsHorizontal(dir)
  {
  }

  datatype Kind = StraightLine | Line | CubicBezier | QuadraticBezier

  datatype PathSegment = PathSegment(kind: Kind, points: seq<Vec2>, length: real)

  /** The length the point-list constructors add up: the sum of
      `norm(p_{i-1} - p_i)` over consecutive points. */
  function LineLength(ps: seq<Vec2>, norm: Vec2 -> real): real
  {
    if |ps| <= 1 then 0.0
    else LineLength(ps[..|ps| - 1], norm) + norm(Sub(ps[|ps| - 2], ps[|ps| - 1]))
  }

  /** A symmetric length function, as `magnitude` is. */
  ghost predicate IsSymmetric(norm: Vec2 -> real)
  {
    forall a: Vec2, b: Vec2 {:trigger Sub(a, b)} :: norm(Sub(a, b)) == norm(Sub(b, a))
  }

  /** The segment length is the polyline length that street segments compute,
      whenever the length function is symmetric, and never negative for a
      length function. */
  lemma {:induction false} LineLengthIsPolyline(ps: seq<Vec2>, norm: Vec2 -> real)
    ensures IsSymmetric(norm) ==> LineLength(ps, norm) == SS.PolylineLength(ps, norm)
    ensures IsNorm(norm) ==> LineLength(ps, norm) >= 0.0
  {
    if |ps| > 1 {
      LineLengthIsPolyline(ps[..|ps| - 1], norm);
      var a, b := ps[|ps| - 2], ps[|ps| - 1];
      assert IsNorm(norm) ==> norm(Sub(a, b)) >= 0.0;
    }
  }

  /** `new PathSegment(begin, end)`. */
  function StraightSegment(begin: Vec2, end: Vec2, norm: Vec2 -> real): PathSegment
  {
    PathSegment(StraightLine, [begin, end], norm(Sub(end, begin)))
  }

  /** `new PathSegment(IReadOnlyList<Vector2>)`: a straight line for two points,
      otherwise a line through all of them. */
  function SegmentOf(points: seq<Vec2>, norm: Vec2 -> real): PathSegment
  {
    if |points| == 2 then StraightSegment(points[0], points[1], norm)
    else PathSegment(Line, points, LineLength(points, norm))
  }

  /** A segment's length through two points is the same whichever constructor
      builds it, for a symmetric length function. */
  lemma TwoPointSegments(begin: Vec2, end: Vec2, norm: Vec2 -> real)
    requires IsSymmetric(norm)
    ensures SegmentOf([begin, end], norm) == StraightSegment(begin, end, norm)
    ensures StraightSegment(begin, end, norm).length == LineLength([begin, end], norm)
  {
    assert [begin, end][..1] == [begin];
  }

  /** The list constructor, with its summing loop. */
  method NewSegment(points: seq<Vec2>, norm: Vec2 -> real) returns (seg: PathSegment)
    ensures seg == SegmentOf(points, norm)
    ensures seg.points == points
  {
    if |points| == 2 {
      return PathSegment(StraightLine, [points[0], points[1]], norm(Sub(points[1], points[0])));
    }
    var length := 0.0;
    var i := 1;
    while i < |points|
      invariant |points| == 0 || 1 <= i <= |points|
      invariant length == LineLength(points[..if |points| == 0 then 0 else i], norm)
    {
      assert points[..i + 1][..i] == points[..i];
      length := length + norm(Sub(points[i - 1], points[i]));
      i := i + 1;
    }
    assert points[..if |points| == 0 then 0 else i] == points;
    seg := PathSegment(Line, points, length);
  }

  /** `new PathSegment(Vector2[] points, float length)`: the given length, or the
      sum over the points when it is 0. */
  method NewLineSegment(points: seq<Vec2>, length: real, norm: Vec2 -> real) returns (seg: PathSegment)
    ensures seg.kind == Line && seg.points == points
    ensures length != 0.0 ==> seg.length == length
    ensures length == 0.0 ==> seg.length == LineLength(points, norm)
  {
    var sum := length;
    if length == 0.0 {
      var i := 1;
      while i < |points|
        invariant |points| == 0 || 1 <= i <= |points|
        invariant sum == LineLength(points[..if |points| == 0 then 0 else i], norm)
      {
        assert points[..i + 1][..i] == points[..i];
        sum := sum + norm(Sub(points[i - 1], points[i]));
        i := i + 1;
      }
      assert points[..if |points| == 0 then 0 else i] == points;
    }
    seg := PathSegment(Line, points, sum);
  }

  /** The points a segment of each kind needs. */
  predicate WellFormed(seg: PathSegment)
  {
    match seg.kind
    case StraightLine => |seg.points| == 2
    case Line => |seg.points| >= 1
    case CubicBezier => |seg.points| == 4
    case QuadraticBezier => |seg.points| == 3
  }

  function Last(ps: seq<Vec2>): Vec2
    requires |ps| >= 1
  {
    ps[|ps| - 1]
  }

  /** The walk along a line: from point `i` on, the first edge that ends beyond
      the needed length holds the point, or else the last point does. `sum` is
      the length of the edges before point `i`. */
  function LineWalk(ps: seq<Vec2>, i: nat, sum: real, needed: real,
                    norm: Vec2 -> real, unit: Vec2 -> Vec2): Vec2
    requires 1 <= i && |ps| >= 1
    decreases |ps| - i
  {
    if i >= |ps| then Last(ps)
    else
      var dir := Sub(ps[i], ps[i - 1]);
      if sum + norm(dir) > needed then Add(ps[i - 1], Scale(unit(dir), needed - sum))
      else LineWalk(ps, i + 1, sum + norm(dir), needed, norm, unit)
  }

  /** `PathSegment.PointAt`. The Bezier curves are evaluated by `curve`, which
      is not part of this model. */
  function PointAt(seg: PathSegment, offset: real, norm: Vec2 -> real, unit: Vec2 -> Vec2,
                   curve: (PathSegment, real) -> Vec2): Vec2
    requires WellFormed(seg)
  {
    if offset >= 1.0 then Last(seg.points)
    else match seg.kind
      case StraightLine => Add(seg.points[0], Scale(Sub(seg.points[1], seg.points[0]), offset))
      case Line => LineWalk(seg.points, 1, 0.0, offset * seg.length, norm, unit)
      case _ => curve(seg, offset)
  }

  /** `PointAt` with the walk along a line as the source's loop. */
  method PointAtLoop(seg: PathSegment, offset: real, norm: Vec2 -> real, unit: Vec2 -> Vec2,
                     curve: (PathSegment, real) -> Vec2) returns (p: Vec2)
    requires WellFormed(seg)
    ensures p == PointAt(seg, offset, norm, unit, curve)
    ensures offset >= 1.0 ==> p == Last(seg.points)
  {
    if offset >= 1.0 {
      return Last(seg.points);
    }
    match seg.kind {
      case StraightLine =>
        p := Add(seg.points[0], Scale(Sub(seg.points[1], seg.points[0]), offset));
      case Line =>
        p := WalkLine(seg.points, offset * seg.length, norm, unit);
        PointAtLine(seg, offset, norm, unit, curve);
      case CubicBezier =>
        p := curve(seg, offset);
      case QuadraticBezier =>
        p := curve(seg, offset);
    }
  }

  lemma PointAtLine(seg: PathSegment, offset: real, norm: Vec2 -> real, unit: Vec2 -> Vec2,
                    curve: (PathSegment, real) -> Vec2)
    requires WellFormed(seg) && seg.kind == Line && offset < 1.0
    ensures PointAt(seg, offset, norm, unit, curve) == LineWalk(seg.points, 1, 0.0, offset * seg.length, norm, unit)
  {
  }

  /** The loop of `PointAt` along a line: the edge on which the needed length
      falls, or the last point. */
  method WalkLine(ps: seq<Vec2>, needed: real, norm: Vec2 -> real, unit: Vec2 -> Vec2) returns (p: Vec2)
    requires |ps| >= 1
    ensures p == LineWalk(ps, 1, 0.0, needed, norm, unit)
  {
    var sum := 0.0;
    var i := 1;
    while i < |ps|
      invariant 1 <= i <= |ps|
      invariant LineWalk(ps, i, sum, needed, norm, unit) == LineWalk(ps, 1, 0.0, needed, norm, unit)
    {
      var dir := Sub(ps[i], ps[i - 1]);
      var len := norm(dir);
      if sum + len > needed {
        return Add(ps[i - 1], Scale(unit(dir), needed - sum));
      }
      sum := sum + len;
      i := i + 1;
    }
    p := Last(ps);
  }

  /** The walk ends on the edge where the needed length falls: the point lies
      at the remaining length from that edge's start, along the edge, or it is
      the last point when the needed length is beyond the line. */
  lemma {:induction false} LineWalkOnEdge(ps: seq<Vec2>, i: nat, needed: real,
                                          norm: Vec2 -> real, unit: Vec2 -> Vec2)
    requires 1 <= i <= |ps| && SS.PolylineLength(ps[..i], norm) <= needed
    ensures var p := LineWalk(ps, i, SS.PolylineLength(ps[..i], norm), needed, norm, unit);
      (SS.PolylineLength(ps, norm) <= needed && p == Last(ps))
      || (exists j {:trigger ps[..j]} :: i <= j < |ps|
            && SS.PolylineLength(ps[..j], norm) <= needed < SS.PolylineLength(ps[..j + 1], norm)
            && p == Add(ps[j - 1], Scale(unit(Sub(ps[j], ps[j - 1])), needed - SS.PolylineLength(ps[..j], norm))))
    decreases |ps| - i
  {
    if i < |ps| {
      var sum := SS.PolylineLength(ps[..i], norm);
      var dir := Sub(ps[i], ps[i - 1]);
      assert ps[..i + 1][..i] == ps[..i];
      assert SS.PolylineLength(ps[..i + 1], norm) == sum + norm(dir);
      if sum + norm(dir) <= needed {
        LineWalkOnEdge(ps, i + 1, needed, norm, unit);
      }
    } else {
      assert ps[..i] == ps;
    }
  }

  /** At offset 0 a straight segment starts at its first point, and a line does
      too when its first edge has a positive length. */
  lemma PointAtStart(seg: PathSegment, norm: Vec2 -> real, unit: Vec2 -> Vec2,
                     curve: (PathSegment, real) -> Vec2)
    requires WellFormed(seg)
    requires seg.kind == StraightLine
      || (seg.kind == Line && |seg.points| >= 2 && norm(Sub(seg.points[1], seg.points[0])) > 0.0)
    ensures PointAt(seg, 0.0, norm, unit, curve) == seg.points[0]
  {
  }

  /** `Path`: its segments and their total length. */
  datatype Path = Path(segments: seq<PathSegment>, length: real)

  /** `segments.Aggregate(0, (sum, seg) => sum + seg.Length)`. */
  function TotalLength(segments: seq<PathSegment>): real
  {
    if |segments| == 0 then 0.0
    else TotalLength(segments[..|segments| - 1]) + segments[|segments| - 1].length
  }

  /** The total adds up over a split of the segment list. */
  lemma {:induction false} TotalLengthAppend(a: seq<PathSegment>, b: seq<PathSegment>)
    ensures TotalLength(a + b) == TotalLength(a) + TotalLength(b)
    decreases |b|
  {
    if |b| > 0 {
      var b' := b[..|b| - 1];
      assert (a + b)[..|a + b| - 1] == a + b';
      TotalLengthAppend(a, b');
    } else {
      assert a + b == a;
    }
  }

  lemma TotalLengthSingle(seg: PathSegment)
    ensures TotalLength([seg]) == seg.length
  {
    assert [seg][..0] == [];
  }

  /** `new Path(List<PathSegment>)`. */
  function PathOf(segments: seq<PathSegment>): Path
  {
    Path(segments, TotalLength(segments))
  }

  /** `new Path(PathSegment)`. */
  function SinglePath(seg: PathSegment): Path
  {
    Path([seg], seg.length)
  }

  /** `new Path(begin, end)`. */
  function StraightPath(begin: Vec2, end: Vec2, norm: Vec2 -> real): Path
  {
    Path([StraightSegment(begin, end, norm)], norm(Sub(end, begin)))
  }

  /** `new Path(List<Vector2>)`. */
  function PathThrough(points: seq<Vec2>, norm: Vec2 -> real): Path
  {
    Path([SegmentOf(points, norm)], SegmentOf(points, norm).length)
  }

  /** The constructors agree: a single segment or a point list gives the path of
      that one segment, two points give the straight path, a copy
      (`new Path(path)`) is equal to a summed path, and joining two segment
      lists adds the lengths. */
  lemma PathConstructorsAgree(seg: PathSegment, begin: Vec2, end: Vec2, points: seq<Vec2>,
                              a: seq<PathSegment>, b: seq<PathSegment>, norm: Vec2 -> real)
    ensures SinglePath(seg) == PathOf([seg])
    ensures PathThrough(points, norm) == PathOf([SegmentOf(points, norm)])
    ensures StraightPath(begin, end, norm) == SinglePath(StraightSegment(begin, end, norm))
    ensures PathOf(PathOf(a).segments) == PathOf(a)
    ensures PathOf(a + b).length == PathOf(a).length + PathOf(b).length
  {
    TotalLengthSingle(seg);
    TotalLengthSingle(SegmentOf(points, norm));
    TotalLengthAppend(a, b);
  }

  /** `Path.Start`. */
  function Start(p: Path): Vec2
    requires |p.segments| >= 1 && |p.segments[0].points| >= 1
  {
    p.segments[0].points[0]
  }

  /** `Path.End`. */
  function End(p: Path): Vec2
    requires |p.segments| >= 1 && |p.segments[|p.segments| - 1].points| >= 1
  {
    Last(p.segments[|p.segments| - 1].points)
  }

  /** A straight path starts and ends at its two points; a path through a list
      of points starts at the first and ends at the last. */
  lemma PathEnds(begin: Vec2, end: Vec2, points: seq<Vec2>, norm: Vec2 -> real)
    requires |points| >= 1
    ensures Start(StraightPath(begin, end, norm)) == begin && End(StraightPath(begin, end, norm)) == end
    ensures Start(PathThrough(points, norm)) == points[0] && End(PathThrough(points, norm)) == Last(points)
  {
  }
}
