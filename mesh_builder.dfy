/** The mesh helpers of Assets/Scripts/Utility/MeshBuilder.cs that are not
    floating-point curve construction: appending a quad to the lists a mesh
    is built from, thinning a polyline by distance and by angle, making
    every triangle of a mesh clockwise, and the collision rectangle of a set
    of points. */
module MeshBuilders {
  import opened Wrappers
  import opened Geometry

  /** `-Vector3.forward`, the normal of every quad corner. */
  const Back: Vec3 := Vec3(0.0, 0.0, -1.0)

  /** The texture coordinates of a quad's corners bl, tl, tr, br. */
  const QuadUVs: seq<Vec2> := [Vec2(0.0, 0.0), Vec2(0.0, 1.0), Vec2(1.0, 1.0), Vec2(1.0, 0.0)]

  /** The projection of a vertex on the screen plane. */
  function XY(v: Vec3): Vec2
  {
    Vec2(v.x, v.y)
  }

  /** The indices of a quad whose corners bl, tl, tr, br start at `base`:
      the triangles bl-tl-tr and tr-br-bl. */
  function QuadIndices(base: int): (r: seq<int>)
    ensures |r| == 6 && (forall k :: 0 <= k < |r| ==> base <= r[k] <= base + 3)
    ensures forall c :: base <= c <= base + 3 ==> c in r
    ensures r[0] == r[5] && r[2] == r[3]
  {
    [base, base + 1, base + 2, base + 2, base + 3, base]
  }

  /** Triangle indices of a mesh: whole triangles, each naming a vertex. */
  ghost predicate WellFormed(vertexCount: int, ts: seq<int>)
  {
    |ts| % 3 == 0 && forall k :: 0 <= k < |ts| ==> 0 <= ts[k] < vertexCount
  }

  /** The lists a mesh is built from: vertices, triangle indices, normals
      and texture coordinates. */
  class MeshData {
    var vertices: seq<Vec3>
    var triangles: seq<int>
    var normals: seq<Vec3>
    var uvs: seq<Vec2>

    ghost predicate Valid()
      reads this
    {
      WellFormed(|vertices|, triangles) && |normals| == |vertices| && |uvs| == |vertices|
    }

    constructor ()
      ensures vertices == [] && triangles == [] && normals == [] && uvs == [] && Valid()
    {
      vertices := [];
      triangles := [];
      normals := [];
      uvs := [];
    }

    /** `AddQuad` (lines 10-40): four corners with their normals and texture
        coordinates, and two triangles over them, added after what is there. */
    method AddQuad(bl: Vec3, tr: Vec3, br: Vec3, tl: Vec3)
      modifies this
      ensures vertices == old(vertices) + [bl, tl, tr, br]
      ensures normals == old(normals) + [Back, Back, Back, Back]
      ensures triangles == old(triangles) + QuadIndices(|old(vertices)|)
      ensures uvs == old(uvs) + QuadUVs
      ensures old(Valid()) ==> Valid()
    {
      var baseIndex := |vertices|;
      vertices := vertices + [bl];
      vertices := vertices + [tl];
      vertices := vertices + [tr];
      vertices := vertices + [br];
      normals := normals + [Back, Back, Back, Back];
      triangles := triangles + [0 + baseIndex, 1 + baseIndex, 2 + baseIndex];
      triangles := triangles + [2 + baseIndex, 3 + baseIndex, 0 + baseIndex];
      uvs := uvs + [Vec2(0.0, 0.0), Vec2(0.0, 1.0), Vec2(1.0, 1.0), Vec2(1.0, 0.0)];
    }
  }

  // ---------------------------------------------------------------------
  // Winding order
  // ---------------------------------------------------------------------

  /** Corners `a`, `b`, `c` of `v` turn counter-clockwise on screen: the
      cross product of `v[b] - v[a]` and `v[c] - v[a]` points towards the
      viewer. */
  predicate Turns(v: seq<Vec3>, a: int, b: int, c: int)
    requires 0 <= a < |v| && 0 <= b < |v| && 0 <= c < |v|
  {
    CrossZ(XY(v[a]), XY(v[b]), XY(v[c])) > 0.0
  }

  /** One triangle made clockwise: a counter-clockwise one has its last two
      corners exchanged, any other is left as it is. */
  function FixTriangle(v: seq<Vec3>, a: int, b: int, c: int): (r: seq<int>)
    requires 0 <= a < |v| && 0 <= b < |v| && 0 <= c < |v|
    ensures r == [a, b, c] || r == [a, c, b]
    ensures !Turns(v, r[0], r[1], r[2])
    ensures !Turns(v, a, b, c) ==> r == [a, b, c]
  {
    if Turns(v, a, b, c) then
      CrossZSwap(XY(v[a]), XY(v[b]), XY(v[c]));
      [a, c, b]
    else [a, b, c]
  }

  /** Triangle `j` of `us` is triangle `j` of `ts` made clockwise. */
  ghost predicate TriangleFixed(v: seq<Vec3>, ts: seq<int>, us: seq<int>, j: int)
    requires WellFormed(|v|, ts) && |us| == |ts| && 0 <= j && 3 * j + 2 < |ts|
  {
    [us[3 * j], us[3 * j + 1], us[3 * j + 2]] == FixTriangle(v, ts[3 * j], ts[3 * j + 1], ts[3 * j + 2])
  }

  /** `us` are the triangle indices `ts` after `FixWindingOrder`: every
      triangle made clockwise in its place. */
  ghost predicate FixedFrom(v: seq<Vec3>, ts: seq<int>, us: seq<int>)
  {
    WellFormed(|v|, ts) && |us| == |ts|
    && forall j :: 0 <= j && 3 * j + 2 < |ts| ==> TriangleFixed(v, ts, us, j)
  }

  /** Every index lies in the triangle its third names. */
  lemma TriangleOf(n: int, k: int)
    requires 0 <= k < n && n % 3 == 0
    ensures 0 <= k / 3 && 3 * (k / 3) <= k && k < 3 * (k / 3) + 3 && 3 * (k / 3) + 2 < n
  {
  }

  /** Triangle `j` of the indices is clockwise. */
  ghost predicate Clockwise(v: seq<Vec3>, ts: seq<int>, j: int)
    requires WellFormed(|v|, ts) && 0 <= j && 3 * j + 2 < |ts|
  {
    !Turns(v, ts[3 * j], ts[3 * j + 1], ts[3 * j + 2])
  }

  /** Triangle `j` of `us` has the corners of triangle `j` of `ts`, the first
      in place and the other two in place or exchanged. */
  ghost predicate SameCorners(ts: seq<int>, us: seq<int>, j: int)
    requires 0 <= j && 3 * j + 2 < |ts| && |us| == |ts|
  {
    us[3 * j] == ts[3 * j]
    && ((us[3 * j + 1] == ts[3 * j + 1] && us[3 * j + 2] == ts[3 * j + 2])
        || (us[3 * j + 1] == ts[3 * j + 2] && us[3 * j + 2] == ts[3 * j + 1]))
  }

  /** The fixed indices are determined: there is one result only. */
  lemma FixedUnique(v: seq<Vec3>, ts: seq<int>, us: seq<int>, ws: seq<int>)
    requires FixedFrom(v, ts, us) && FixedFrom(v, ts, ws)
    ensures us == ws
  {
    forall k | 0 <= k < |us|
      ensures us[k] == ws[k]
    {
      TriangleOf(|ts|, k);
      var j := k / 3;
      assert TriangleFixed(v, ts, us, j) && TriangleFixed(v, ts, ws, j);
      assert k == 3 * j || k == 3 * j + 1 || k == 3 * j + 2;
    }
  }

  /** After `FixWindingOrder` the indices still name whole triangles over the
      same vertices, no triangle is counter-clockwise, and each triangle keeps
      its corners with at most its last two exchanged. */
  lemma FixedTriangles(v: seq<Vec3>, ts: seq<int>, us: seq<int>)
    requires FixedFrom(v, ts, us)
    ensures WellFormed(|v|, us)
    ensures forall j :: 0 <= j && 3 * j + 2 < |ts| ==> Clockwise(v, us, j)
    ensures forall j :: 0 <= j && 3 * j + 2 < |ts| ==> SameCorners(ts, us, j)
  {
    forall k | 0 <= k < |us|
      ensures 0 <= us[k] < |v|
    {
      TriangleOf(|ts|, k);
      var j := k / 3;
      assert TriangleFixed(v, ts, us, j);
      assert k == 3 * j || k == 3 * j + 1 || k == 3 * j + 2;
    }
    forall j | 0 <= j && 3 * j + 2 < |ts|
      ensures Clockwise(v, us, j) && SameCorners(ts, us, j)
    {
      assert TriangleFixed(v, ts, us, j);
    }
  }

  /** Fixing is idempotent: on indices `FixWindingOrder` produced, a second
      run changes nothing. */
  lemma FixedAgain(v: seq<Vec3>, ts: seq<int>, us: seq<int>)
    requires FixedFrom(v, ts, us)
    ensures FixedFrom(v, us, us)
  {
    FixedTriangles(v, ts, us);
    forall j | 0 <= j && 3 * j + 2 < |us|
      ensures TriangleFixed(v, us, us, j)
    {
      assert Clockwise(v, us, j);
    }
  }

  /** Triangles fixed before the first `3 * j` indices stay fixed while those
      indices do not change. */
  lemma FixedPrefixKept(v: seq<Vec3>, ts: seq<int>, us: seq<int>, ws: seq<int>, j: int)
    requires WellFormed(|v|, ts) && |us| == |ts| && |ws| == |ts| && 0 <= j && 3 * j <= |ts|
    requires forall k :: 0 <= k < 3 * j ==> ws[k] == us[k]
    requires forall j' :: 0 <= j' < j ==> TriangleFixed(v, ts, us, j')
    ensures forall j' :: 0 <= j' < j ==> TriangleFixed(v, ts, ws, j')
  {
    forall j' | 0 <= j' < j
      ensures TriangleFixed(v, ts, ws, j')
    {
      assert TriangleFixed(v, ts, us, j');
      assert ws[3 * j'] == us[3 * j'] && ws[3 * j' + 1] == us[3 * j' + 1] && ws[3 * j' + 2] == us[3 * j' + 2];
    }
  }

  /** The loop body of `FixWindingOrder` on the triangle starting at `i`. */
  method FixOne(vertices: seq<Vec3>, triangles: array<int>, i: int)
    requires 0 <= i && i + 2 < triangles.Length
    requires 0 <= triangles[i] < |vertices| && 0 <= triangles[i + 1] < |vertices| && 0 <= triangles[i + 2] < |vertices|
    modifies triangles
    ensures [triangles[i], triangles[i + 1], triangles[i + 2]]
         == FixTriangle(vertices, old(triangles[i]), old(triangles[i + 1]), old(triangles[i + 2]))
    ensures forall k :: 0 <= k < triangles.Length && k != i + 1 && k != i + 2 ==> triangles[k] == old(triangles[k])
    ensures multiset(triangles[..]) == multiset(old(triangles[..]))
  {
    var a := vertices[triangles[i]];
    var b := vertices[triangles[i + 1]];
    var c := vertices[triangles[i + 2]];
    var cross := CrossZ(XY(a), XY(b), XY(c));
    if cross > 0.0 {
      var bIndex := triangles[i + 1];
      triangles[i + 1] := triangles[i + 2];
      triangles[i + 2] := bIndex;
      assert triangles[..] == old(triangles[..])[i + 1 := old(triangles[i + 2])][i + 2 := old(triangles[i + 1])];
    }
  }

  /** The in-place loop of `FixWindingOrder` (lines 1187-1208) over the
      mesh's copy of its triangle indices: each counter-clockwise triangle
      has two corners exchanged, so the indices are permuted. */
  method FixWindingOrderInPlace(vertices: seq<Vec3>, triangles: array<int>)
    requires WellFormed(|vertices|, triangles[..])
    modifies triangles
    ensures FixedFrom(vertices, old(triangles[..]), triangles[..])
    ensures multiset(triangles[..]) == multiset(old(triangles[..]))
  {
    ghost var original := triangles[..];
    ghost var count := triangles.Length / 3;
    assert triangles.Length == 3 * count;
    var i := 0;
    ghost var j := 0;
    while i < triangles.Length
      invariant 0 <= j <= count && i == 3 * j
      invariant forall j' :: 0 <= j' < j ==> TriangleFixed(vertices, original, triangles[..], j')
      invariant forall k :: i <= k < triangles.Length ==> triangles[k] == original[k]
      invariant multiset(triangles[..]) == multiset(original)
    {
      ghost var before := triangles[..];
      FixOne(vertices, triangles, i);
      assert TriangleFixed(vertices, original, triangles[..], j);
      FixedPrefixKept(vertices, original, before, triangles[..], j);
      i := i + 3;
      j := j + 1;
    }
  }

  /** `FixWindingOrder` (lines 1187-1208): the triangle indices are read out,
      fixed in place and written back; nothing else of the mesh changes. */
  method FixWindingOrder(mesh: MeshData)
    requires WellFormed(|mesh.vertices|, mesh.triangles)
    modifies mesh
    ensures mesh.vertices == old(mesh.vertices) && mesh.normals == old(mesh.normals) && mesh.uvs == old(mesh.uvs)
    ensures FixedFrom(mesh.vertices, old(mesh.triangles), mesh.triangles)
    ensures multiset(mesh.triangles) == multiset(old(mesh.triangles))
  {
    var vertices := mesh.vertices;
    var t := mesh.triangles;
    var triangles := new int[|t|](k => if 0 <= k < |t| then t[k] else 0);
    assert triangles[..] == t;
    FixWindingOrderInPlace(vertices, triangles);
    mesh.triangles := triangles[..];
  }

  /** Both triangles of an upright rectangle quad (left and right edges
      vertical, bottom and top horizontal, corners bl, tl, tr, br from
      `base`) are clockwise. */
  lemma QuadCorners(v: seq<Vec3>, base: int)
    requires 0 <= base && base + 4 <= |v|
    requires v[base].x == v[base + 1].x && v[base + 2].x == v[base + 3].x
    requires v[base].y == v[base + 3].y && v[base + 1].y == v[base + 2].y
    requires v[base].x <= v[base + 3].x && v[base].y <= v[base + 1].y
    ensures !Turns(v, base, base + 1, base + 2) && !Turns(v, base + 2, base + 3, base)
  {
    var bl, tl, tr, br := XY(v[base]), XY(v[base + 1]), XY(v[base + 2]), XY(v[base + 3]);
    var w, h := br.x - bl.x, tl.y - bl.y;
    assert tl.x - bl.x == 0.0 && tr.y - bl.y == h && tr.x - bl.x == w;
    assert CrossZ(bl, tl, tr) == 0.0 * h - h * w;
    assert br.x - tr.x == 0.0 && br.y - tr.y == -h && bl.x - tr.x == -w;
    assert CrossZ(tr, br, bl) == 0.0 * (bl.y - tr.y) - (-h) * (-w);
    assert h * w >= 0.0;
  }

  /** A quad that `AddQuad` receives as an upright rectangle is already
      clockwise: after it is appended, `FixWindingOrder` leaves its
      triangles as they are and fixes those before it as before. */
  lemma QuadIsClockwise(v: seq<Vec3>, ts: seq<int>, us: seq<int>, base: int)
    requires FixedFrom(v, ts, us) && 0 <= base && base + 4 <= |v|
    requires v[base].x == v[base + 1].x && v[base + 2].x == v[base + 3].x
    requires v[base].y == v[base + 3].y && v[base + 1].y == v[base + 2].y
    requires v[base].x <= v[base + 3].x && v[base].y <= v[base + 1].y
    ensures FixedFrom(v, ts + QuadIndices(base), us + QuadIndices(base))
  {
    var q := QuadIndices(base);
    QuadCorners(v, base);
    var ts', us' := ts + q, us + q;
    var m := |ts| / 3;
    assert |ts| == 3 * m;
    assert WellFormed(|v|, ts') by {
      forall k | 0 <= k < |ts'|
        ensures 0 <= ts'[k] < |v|
      {
        if k >= |ts| {
          assert ts'[k] == q[k - |ts|];
        }
      }
    }
    forall j | 0 <= j && 3 * j + 2 < |ts'|
      ensures TriangleFixed(v, ts', us', j)
    {
      if j < m {
        assert TriangleFixed(v, ts, us, j);
        assert ts'[3 * j] == ts[3 * j] && ts'[3 * j + 1] == ts[3 * j + 1] && ts'[3 * j + 2] == ts[3 * j + 2];
        assert us'[3 * j] == us[3 * j] && us'[3 * j + 1] == us[3 * j + 1] && us'[3 * j + 2] == us[3 * j + 2];
      } else if j == m {
        assert ts'[3 * j] == base && ts'[3 * j + 1] == base + 1 && ts'[3 * j + 2] == base + 2;
        assert us'[3 * j] == base && us'[3 * j + 1] == base + 1 && us'[3 * j + 2] == base + 2;
      } else {
        assert ts'[3 * j] == base + 2 && ts'[3 * j + 1] == base + 3 && ts'[3 * j + 2] == base;
        assert us'[3 * j] == base + 2 && us'[3 * j + 1] == base + 3 && us'[3 * j + 2] == base;
      }
    }
  }

  // ---------------------------------------------------------------------
  // Removing detail from a polyline
  // ---------------------------------------------------------------------

  /** The points `RemoveDetailByDistance`'s loop adds from index `i` on,
      with `acc` the distance walked since the last point kept: the point
      before the one whose segment brings the walk to `minDistance` is kept
      and the walk starts again. */
  function DistanceKept<T>(ps: seq<T>, i: nat, acc: real, minDistance: real, distance: (T, T) -> real): seq<T>
    requires 1 <= i <= |ps|
    decreases |ps| - i
  {
    if i == |ps| then []
    else
      var d := acc + distance(ps[i], ps[i - 1]);
      if d >= minDistance then [ps[i - 1]] + DistanceKept(ps, i + 1, 0.0, minDistance, distance)
      else DistanceKept(ps, i + 1, d, minDistance, distance)
  }

  /** The result of `RemoveDetailByDistance` (lines 1022-1049 and its
      `Vector2` twin), with `distance(p, q)` standing for `(p - q).magnitude`. */
  function DistanceSimplified<T>(ps: seq<T>, minDistance: real, distance: (T, T) -> real): seq<T>
  {
    if |ps| <= 2 then ps else DistanceKept(ps, 1, 0.0, minDistance, distance) + [ps[|ps| - 1]]
  }

  /** The loop keeps at most one point per segment, each an input point. */
  lemma {:induction false} DistanceKeptFrom<T>(ps: seq<T>, i: nat, acc: real, minDistance: real, distance: (T, T) -> real)
    requires 1 <= i <= |ps|
    ensures |DistanceKept(ps, i, acc, minDistance, distance)| <= |ps| - i
    ensures forall k :: 0 <= k < |DistanceKept(ps, i, acc, minDistance, distance)| ==>
      DistanceKept(ps, i, acc, minDistance, distance)[k] in ps
    decreases |ps| - i
  {
    if i < |ps| {
      var d := acc + distance(ps[i], ps[i - 1]);
      DistanceKeptFrom(ps, i + 1, 0.0, minDistance, distance);
      DistanceKeptFrom(ps, i + 1, d, minDistance, distance);
    }
  }

  /** With no minimum distance every point is kept by the loop. */
  lemma {:induction false} DistanceKeptAll<T>(ps: seq<T>, i: nat, acc: real, minDistance: real, distance: (T, T) -> real)
    requires 1 <= i <= |ps| && acc >= 0.0 && minDistance <= 0.0
    requires forall k :: 1 <= k < |ps| ==> distance(ps[k], ps[k - 1]) >= 0.0
    ensures DistanceKept(ps, i, acc, minDistance, distance) == ps[i - 1..|ps| - 1]
    decreases |ps| - i
  {
    if i < |ps| {
      DistanceKeptAll(ps, i + 1, 0.0, minDistance, distance);
      assert ps[i - 1..|ps| - 1] == [ps[i - 1]] + ps[i..|ps| - 1];
    }
  }

  /** `RemoveDetailByDistance`: short polylines come back as they are;
      otherwise the result is no longer than the input, is made of input
      points and ends with the last one. */
  method RemoveDetailByDistance<T>(positions: seq<T>, minDistance: real, distance: (T, T) -> real)
    returns (r: seq<T>)
    ensures r == DistanceSimplified(positions, minDistance, distance)
    ensures |positions| <= 2 ==> r == positions
    ensures |positions| > 0 ==> |r| > 0 && r[|r| - 1] == positions[|positions| - 1]
    ensures |r| <= |positions| && forall k :: 0 <= k < |r| ==> r[k] in positions
  {
    if |positions| <= 2 {
      return positions;
    }
    var dist := 0.0;
    r := [];
    var i := 1;
    while i < |positions|
      invariant 1 <= i <= |positions|
      invariant r + DistanceKept(positions, i, dist, minDistance, distance)
             == DistanceKept(positions, 1, 0.0, minDistance, distance)
    {
      var p1 := positions[i];
      var p0 := positions[i - 1];
      var currDist := distance(p1, p0);
      dist := dist + currDist;
      if dist >= minDistance {
        r := r + [p0];
        dist := 0.0;
      }
      i := i + 1;
    }
    r := r + [positions[|positions| - 1]];
    DistanceKeptFrom(positions, 1, 0.0, minDistance, distance);
  }

  /** With a minimum distance of zero or less nothing is removed. */
  lemma DistanceKeepsAll<T>(ps: seq<T>, minDistance: real, distance: (T, T) -> real)
    requires minDistance <= 0.0
    requires forall p, q :: distance(p, q) >= 0.0
    ensures DistanceSimplified(ps, minDistance, distance) == ps
  {
    if |ps| > 2 {
      DistanceKeptAll(ps, 1, 0.0, minDistance, distance);
      assert ps[0..|ps| - 1] + [ps[|ps| - 1]] == ps;
    }
  }

  /** The points `RemoveDetailByAngle`'s loop adds from index `i` on, where
      `p0` and `p1` are the two points before `ps[i]`: at a sharp corner both
      the corner and the next point are kept and the point after is
      skipped. `sharp(p0, p1, p2)` stands for `IsSharpAngle` with the
      threshold. */
  function AngleKept<T>(ps: seq<T>, i: nat, p0: T, p1: T, sharp: (T, T, T) -> bool): seq<T>
    requires 2 <= i
    decreases |ps| - i
  {
    if i >= |ps| - 1 then []
    else
      var p2 := ps[i];
      if sharp(p0, p1, p2) then [p1, p2] + AngleKept(ps, i + 2, p2, ps[i + 1], sharp)
      else AngleKept(ps, i + 1, p1, p2, sharp)
  }

  /** The result of `RemoveDetailByAngle` (lines 944-981 and its `Vector2`
      twin). */
  function AngleSimplified<T>(ps: seq<T>, sharp: (T, T, T) -> bool): seq<T>
  {
    if |ps| <= 3 then ps
    else [ps[0]] + AngleKept(ps, 2, ps[0], ps[1], sharp) + [ps[|ps| - 1]]
  }

  /** The loop adds no more points than it passes, each an input point. */
  lemma {:induction false} AngleKeptFrom<T>(ps: seq<T>, i: nat, p0: T, p1: T, sharp: (T, T, T) -> bool)
    requires 2 <= i <= |ps| && p1 in ps
    ensures |AngleKept(ps, i, p0, p1, sharp)| <= |ps| - i
    ensures forall k :: 0 <= k < |AngleKept(ps, i, p0, p1, sharp)| ==> AngleKept(ps, i, p0, p1, sharp)[k] in ps
    decreases |ps| - i
  {
    if i < |ps| - 1 {
      var p2 := ps[i];
      if sharp(p0, p1, p2) {
        AngleKeptFrom(ps, i + 2, p2, ps[i + 1], sharp);
      } else {
        AngleKeptFrom(ps, i + 1, p1, p2, sharp);
      }
    }
  }

  /** Without a sharp corner the loop keeps nothing. */
  lemma {:induction false} AngleKeptNone<T>(ps: seq<T>, i: nat, p0: T, p1: T, sharp: (T, T, T) -> bool)
    requires 2 <= i && forall a, b, c :: !sharp(a, b, c)
    ensures AngleKept(ps, i, p0, p1, sharp) == []
    decreases |ps| - i
  {
    if i < |ps| - 1 {
      AngleKeptNone(ps, i + 1, p1, ps[i], sharp);
    }
  }

  /** `RemoveDetailByAngle`: up to three points come back as they are;
      otherwise the first and the last point are kept, the result is no
      longer than the input and is made of input points. */
  method RemoveDetailByAngle<T>(positions: seq<T>, sharp: (T, T, T) -> bool) returns (r: seq<T>)
    ensures r == AngleSimplified(positions, sharp)
    ensures |positions| <= 3 ==> r == positions
    ensures |positions| > 3 ==> r[0] == positions[0] && r[|r| - 1] == positions[|positions| - 1]
    ensures |r| <= |positions| && forall k :: 0 <= k < |r| ==> r[k] in positions
  {
    if |positions| <= 3 {
      return positions;
    }
    r := [positions[0]];
    var p1 := positions[1];
    var p0 := positions[0];
    var i := 2;
    while i < |positions| - 1
      invariant 2 <= i <= |positions|
      invariant r + AngleKept(positions, i, p0, p1, sharp) == [positions[0]] + AngleKept(positions, 2, positions[0], positions[1], sharp)
    {
      var p2 := positions[i];
      if sharp(p0, p1, p2) {
        r := r + [p1, p2];
        i := i + 1;
        p0 := p2;
        p1 := positions[i];
        i := i + 1;
      } else {
        p0 := p1;
        p1 := p2;
        i := i + 1;
      }
    }
    r := r + [positions[|positions| - 1]];
    AngleKeptFrom(positions, 2, positions[0], positions[1], sharp);
  }

  /** Without a sharp corner only the end points remain. */
  lemma AngleKeepsEnds<T>(ps: seq<T>, sharp: (T, T, T) -> bool)
    requires |ps| > 3 && forall a, b, c :: !sharp(a, b, c)
    ensures AngleSimplified(ps, sharp) == [ps[0], ps[|ps| - 1]]
  {
    AngleKeptNone(ps, 2, ps[0], ps[1], sharp);
  }

  // ---------------------------------------------------------------------
  // Collision rectangle
  // ---------------------------------------------------------------------

  /** Unity's `Rect`: a corner and a size. */
  datatype Rect = Rect(x: real, y: real, width: real, height: real)

  /** The running minima and maxima of `GetCollisionRect`; `None` is the
      starting infinity. */
  datatype Bounds = Bounds(minX: Option<real>, maxX: Option<real>, minY: Option<real>, maxY: Option<real>)

  function MinWith(m: Option<real>, v: real): real
  {
    if m.Some? && m.value < v then m.value else v
  }

  function MaxWith(m: Option<real>, v: real): real
  {
    if m.Some? && m.value > v then m.value else v
  }

  function Include(b: Bounds, p: Vec2): Bounds
  {
    Bounds(Some(MinWith(b.minX, p.x)), Some(MaxWith(b.maxX, p.x)),
           Some(MinWith(b.minY, p.y)), Some(MaxWith(b.maxY, p.y)))
  }

  /** The bounds after visiting the points in order. */
  function Extent(start: Bounds, ps: seq<Vec2>): Bounds
    decreases |ps|
  {
    if ps == [] then start else Include(Extent(start, ps[..|ps| - 1]), ps[|ps| - 1])
  }

  /** Both extremes start at infinity: the evidently intended start. */
  const NoBounds: Bounds := Bounds(None, None, None, None)

  /** The start the code writes: the minima at infinity, the maxima at 0. */
  const AsWrittenStart: Bounds := Bounds(None, Some(0.0), None, Some(0.0))

  /** The rectangle spanned by the bounds; none while a minimum is infinite
      (the code's rectangle is then infinite). */
  function RectOf(b: Bounds): Option<Rect>
  {
    if b.minX.Some? && b.maxX.Some? && b.minY.Some? && b.maxY.Some? then
      Some(Rect(b.minX.value, b.minY.value, b.maxX.value - b.minX.value, b.maxY.value - b.minY.value))
    else None
  }

  predicate Inside(r: Rect, p: Vec2)
  {
    r.x <= p.x <= r.x + r.width && r.y <= p.y <= r.y + r.height
  }

  /** The bounds are those of the points: every point within them and every
      extreme reached by some point. */
  ghost predicate Tight(b: Bounds, ps: seq<Vec2>)
  {
    b.minX.Some? && b.maxX.Some? && b.minY.Some? && b.maxY.Some?
    && (forall k :: 0 <= k < |ps| ==> b.minX.value <= ps[k].x <= b.maxX.value && b.minY.value <= ps[k].y <= b.maxY.value)
    && (exists k :: 0 <= k < |ps| && ps[k].x == b.minX.value)
    && (exists k :: 0 <= k < |ps| && ps[k].x == b.maxX.value)
    && (exists k :: 0 <= k < |ps| && ps[k].y == b.minY.value)
    && (exists k :: 0 <= k < |ps| && ps[k].y == b.maxY.value)
  }

  /** Starting from infinity, the bounds of no point are infinite and those
      of some points are exactly theirs. */
  lemma {:induction false} ExtentTight(ps: seq<Vec2>)
    ensures ps == [] ==> Extent(NoBounds, ps) == NoBounds
    ensures ps != [] ==> Tight(Extent(NoBounds, ps), ps)
    decreases |ps|
  {
    if ps != [] {
      var n := |ps| - 1;
      var init := ps[..n];
      ExtentTight(init);
      var b := Extent(NoBounds, init);
      var p := ps[n];
      var b' := Extent(NoBounds, ps);
      assert b' == Include(b, p);
      if init == [] {
        assert ps == [p];
      } else {
        assert forall k :: 0 <= k < n ==> ps[k] == init[k];
        var k1 :| 0 <= k1 < n && init[k1].x == b.minX.value;
        var k2 :| 0 <= k2 < n && init[k2].x == b.maxX.value;
        var k3 :| 0 <= k3 < n && init[k3].y == b.minY.value;
        var k4 :| 0 <= k4 < n && init[k4].y == b.maxY.value;
        assert ps[if b'.minX.value == p.x then n else k1].x == b'.minX.value;
        assert ps[if b'.maxX.value == p.x then n else k2].x == b'.maxX.value;
        assert ps[if b'.minY.value == p.y then n else k3].y == b'.minY.value;
        assert ps[if b'.maxY.value == p.y then n else k4].y == b'.maxY.value;
      }
    }
  }

  /** With the maxima starting at 0, the minima are those of the points and
      the maxima are never below 0: the larger of 0 and the points' maxima. */
  lemma {:induction false} AsWrittenExtent(ps: seq<Vec2>)
    ensures var a, b := Extent(AsWrittenStart, ps), Extent(NoBounds, ps);
      a.minX == b.minX && a.minY == b.minY
      && a.maxX == Some(MaxWith(b.maxX, 0.0)) && a.maxY == Some(MaxWith(b.maxY, 0.0))
    decreases |ps|
  {
    if ps != [] {
      AsWrittenExtent(ps[..|ps| - 1]);
    }
  }

  /** For points none of whose coordinates is negative, the rectangle the
      code computes is the tight one. */
  lemma AsWrittenAgreesWhenNonNegative(ps: seq<Vec2>)
    requires forall k :: 0 <= k < |ps| ==> ps[k].x >= 0.0 && ps[k].y >= 0.0
    ensures RectOf(Extent(AsWrittenStart, ps)) == RectOf(Extent(NoBounds, ps))
  {
    AsWrittenExtent(ps);
    ExtentTight(ps);
  }

  /** The finding: two points left of and below the origin get a rectangle
      that reaches to the origin, five units wide instead of two. */
  lemma CollisionRectFinding()
    ensures RectOf(Extent(AsWrittenStart, [Vec2(-5.0, -5.0), Vec2(-3.0, -3.0)])) == Some(Rect(-5.0, -5.0, 5.0, 5.0))
    ensures RectOf(Extent(NoBounds, [Vec2(-5.0, -5.0), Vec2(-3.0, -3.0)])) == Some(Rect(-5.0, -5.0, 2.0, 2.0))
  {
    var ps := [Vec2(-5.0, -5.0), Vec2(-3.0, -3.0)];
    assert ps[..1] == [Vec2(-5.0, -5.0)];
    assert ps[..1][..0] == [];
  }

  /** `GetCollisionRect(points)` (lines 1236-1252) with the maxima starting at
      minus infinity: the smallest rectangle holding every point, or none for
      no points. */
  method GetCollisionRect(points: seq<Vec2>) returns (r: Option<Rect>)
    ensures r == RectOf(Extent(NoBounds, points))
    ensures r.None? <==> points == []
    ensures r.Some? ==> forall k :: 0 <= k < |points| ==> Inside(r.value, points[k])
    ensures r.Some? ==> ((exists k :: 0 <= k < |points| && points[k].x == r.value.x)
                      && (exists k :: 0 <= k < |points| && points[k].x == r.value.x + r.value.width)
                      && (exists k :: 0 <= k < |points| && points[k].y == r.value.y)
                      && (exists k :: 0 <= k < |points| && points[k].y == r.value.y + r.value.height))
  {
    var minX: Option<real> := None;
    var maxX: Option<real> := None;
    var minY: Option<real> := None;
    var maxY: Option<real> := None;
    var i := 0;
    while i < |points|
      invariant 0 <= i <= |points|
      invariant Bounds(minX, maxX, minY, maxY) == Extent(NoBounds, points[..i])
    {
      var pt := points[i];
      assert points[..i + 1][..i] == points[..i];
      minX := Some(MinWith(minX, pt.x));
      maxX := Some(MaxWith(maxX, pt.x));
      minY := Some(MinWith(minY, pt.y));
      maxY := Some(MaxWith(maxY, pt.y));
      i := i + 1;
    }
    assert points[..i] == points;
    r := RectOf(Bounds(minX, maxX, minY, maxY));
    ExtentTight(points);
  }

  /** The points of the arrays, one array after the other. */
  function Concat(arrays: seq<seq<Vec2>>): seq<Vec2>
  {
    if arrays == [] then [] else Concat(arrays[..|arrays| - 1]) + arrays[|arrays| - 1]
  }

  /** `GetCollisionRect(arrays)` (lines 1254-1273), again with the maxima
      starting at minus infinity: the rectangle of all their points taken
      together. */
  method GetCollisionRectOfArrays(arrays: seq<seq<Vec2>>) returns (r: Option<Rect>)
    ensures r == RectOf(Extent(NoBounds, Concat(arrays)))
    ensures r.None? <==> Concat(arrays) == []
    ensures r.Some? ==> forall k :: 0 <= k < |Concat(arrays)| ==> Inside(r.value, Concat(arrays)[k])
  {
    var b := NoBounds;
    var i := 0;
    while i < |arrays|
      invariant 0 <= i <= |arrays|
      invariant b == Extent(NoBounds, Concat(arrays[..i]))
    {
      var arr := arrays[i];
      ghost var done := Concat(arrays[..i]);
      var j := 0;
      assert done + arr[..0] == done;
      while j < |arr|
        invariant 0 <= j <= |arr|
        invariant b == Extent(NoBounds, done + arr[..j])
      {
        var pt := arr[j];
        assert (done + arr[..j + 1])[..|done| + j] == done + arr[..j];
        b := Bounds(Some(MinWith(b.minX, pt.x)), Some(MaxWith(b.maxX, pt.x)),
                    Some(MinWith(b.minY, pt.y)), Some(MaxWith(b.maxY, pt.y)));
        j := j + 1;
      }
      assert arrays[..i + 1][..i] == arrays[..i];
      assert arr[..j] == arr;
      i := i + 1;
    }
    assert arrays[..i] == arrays;
    r := RectOf(b);
    ExtentTight(Concat(arrays));
  }
}
