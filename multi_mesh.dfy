/** The batched map meshes (Assets/Scripts/Map/MultiMesh.cs): meshes are
    merged per colour by `AddMesh`, and `CreateMeshes` cuts each colour's
    triangle list into meshes whose vertex indices span fewer than
    `maxMeshVertices` values. Unity's `Mesh` is a value here; the game
    objects that display the meshes are not part of this model. */
module MultiMesh {
  import opened Wrappers
  import opened Geometry

  datatype Color = Color(r: real, g: real, b: real, a: real)

  /** A Unity mesh: vertices, triangle corner indices and texture
      coordinates. */
  datatype Mesh = Mesh(vertices: seq<Vec3>, triangles: seq<int>, uv: seq<Vec2>)

  /** The merged data of one colour (`MutableMesh`); `meshes` is None until
      `CreateMeshes` has cut it. */
  datatype Buffer = Buffer(vertices: seq<Vec3>, triangles: seq<int>, uv: seq<Vec2>, meshes: Option<seq<Mesh>>)

  const EmptyBuffer := Buffer([], [], [], None)

  const MaxMeshVertices := 65532

  // ---------------------------------------------------------------------------
  // AddMesh
  // ---------------------------------------------------------------------------

  /** The vertices moved to depth `z`. */
  function AtDepth(vs: seq<Vec3>, z: real): (r: seq<Vec3>)
    ensures |r| == |vs|
  {
    seq(|vs|, i requires 0 <= i < |vs| => Vec3(vs[i].x, vs[i].y, z))
  }

  /** The indices shifted by `d`. */
  function Shift(ts: seq<int>, d: int): (r: seq<int>)
    ensures |r| == |ts|
  {
    seq(|ts|, i requires 0 <= i < |ts| => ts[i] + d)
  }

  /** A buffer with a mesh appended: its vertices at depth `z`, its indices
      moved past the vertices already there, its texture coordinates. */
  function Appended(b: Buffer, mesh: Mesh, z: real): Buffer
  {
    b.(vertices := b.vertices + AtDepth(mesh.vertices, z),
       triangles := b.triangles + Shift(mesh.triangles, |b.vertices|),
       uv := b.uv + mesh.uv)
  }

  predicate IndicesIn(ts: seq<int>, n: int)
  {
    forall k :: 0 <= k < |ts| ==> 0 <= ts[k] < n
  }

  /** Appending keeps every index of the buffer on one of its vertices, and
      each new corner stands on the vertex the added mesh gave it. */
  lemma AppendedCorners(b: Buffer, mesh: Mesh, z: real)
    requires IndicesIn(b.triangles, |b.vertices|) && IndicesIn(mesh.triangles, |mesh.vertices|)
    ensures IndicesIn(Appended(b, mesh, z).triangles, |Appended(b, mesh, z).vertices|)
    ensures forall k :: 0 <= k < |b.triangles| ==>
      Appended(b, mesh, z).vertices[Appended(b, mesh, z).triangles[k]] == b.vertices[b.triangles[k]]
    ensures forall k :: 0 <= k < |mesh.triangles| ==>
      Appended(b, mesh, z).vertices[Appended(b, mesh, z).triangles[|b.triangles| + k]]
      == AtDepth(mesh.vertices, z)[mesh.triangles[k]]
  {
    var a := Appended(b, mesh, z);
    forall k | 0 <= k < |mesh.triangles|
      ensures a.triangles[|b.triangles| + k] == mesh.triangles[k] + |b.vertices|
    {
    }
  }

  // ---------------------------------------------------------------------------
  // Cutting the triangles (CreateMeshes)
  // ---------------------------------------------------------------------------

  /** The inner scan from `j`, with the least and greatest index so far: it
      stops at the end, or at the index that would widen the span to
      `MaxMeshVertices` or more, which it leaves out. */
  function ScanEnd(ts: seq<int>, j: nat, lo: int, hi: int): (r: nat)
    ensures j <= |ts| ==> j <= r <= |ts|
    decreases |ts| - j
  {
    if j >= |ts| then j
    else
      var v := ts[j];
      if v < lo then (if hi - v >= MaxMeshVertices then j else ScanEnd(ts, j + 1, v, hi))
      else if v > hi then (if v - lo >= MaxMeshVertices then j else ScanEnd(ts, j + 1, lo, v))
      else ScanEnd(ts, j + 1, lo, hi)
  }

  /** The scanned indices lie within fewer than `MaxMeshVertices` of each
      other. */
  lemma {:induction false} ScanSpan(ts: seq<int>, s: nat, j: nat, lo: int, hi: int)
    requires s <= j <= |ts| && lo <= hi && hi - lo < MaxMeshVertices
    requires forall k :: s <= k < j ==> lo <= ts[k] <= hi
    ensures forall k, k' :: s <= k < ScanEnd(ts, j, lo, hi) && s <= k' < ScanEnd(ts, j, lo, hi) ==> ts[k] - ts[k'] < MaxMeshVertices
    decreases |ts| - j
  {
    if j < |ts| {
      var v := ts[j];
      if v < lo {
        if hi - v < MaxMeshVertices {
          ScanSpan(ts, s, j + 1, v, hi);
        }
      } else if v > hi {
        if v - lo < MaxMeshVertices {
          ScanSpan(ts, s, j + 1, lo, v);
        }
      } else {
        ScanSpan(ts, s, j + 1, lo, hi);
      }
    }
  }

  function RoundDown3(n: nat): (r: nat)
    ensures r % 3 == 0 && r <= n < r + 3
  {
    n - n % 3
  }

  /** Dropping an index that is not on a triangle boundary keeps the
      rounded end. */
  lemma RoundDownStep(n: nat)
    requires n % 3 != 0
    ensures n >= 1 && RoundDown3(n - 1) == RoundDown3(n)
  {
    var q := n / 3;
    assert n == 3 * q + n % 3;
    assert n - 1 == 3 * q + (n % 3 - 1);
  }

  lemma ThirdsApart(a: nat, b: nat)
    requires a % 3 == 0 && b % 3 == 0 && b <= a
    ensures (a - b) % 3 == 0
  {
    var x, y := a / 3, b / 3;
    assert a == 3 * x && b == 3 * y;
    assert a - b == 3 * (x - y);
  }

  /** The end of the chunk that starts at `start`. */
  function ChunkEnd(ts: seq<int>, start: nat): nat
    requires start < |ts|
  {
    RoundDown3(ScanEnd(ts, start, ts[start], ts[start]))
  }

  /** The least element (`Min()`); `Extremes` places it and bounds every
      element by it. */
  function SeqMin(s: seq<int>): (r: int)
    requires |s| > 0
    ensures r <= s[0]
  {
    if |s| == 1 then s[0] else var m := SeqMin(s[1..]); if s[0] <= m then s[0] else m
  }

  /** The greatest element (`Max()`). */
  function SeqMax(s: seq<int>): (r: int)
    requires |s| > 0
    ensures s[0] <= r
  {
    if |s| == 1 then s[0] else var m := SeqMax(s[1..]); if s[0] >= m then s[0] else m
  }

  /** What throws while meshes are cut: a chunk without triangles (`Min()`
      of an empty range throws), a range of vertices or texture coordinates
      that the lists do not hold (`GetRange` throws), or no `meshData` at
      all, when the batch was never given a mesh. */
  datatype MeshError = EmptyChunk | VertexRange | UvRange | NoMeshData

  /** One mesh of the cut, with the index it was rebased by. */
  datatype Piece = Piece(base: int, mesh: Mesh)

  /** The mesh of `ts[start..end]`: the vertices from the least to the
      greatest index, and the indices rebased to the least. */
  function MakePiece(ts: seq<int>, vs: seq<Vec3>, uv: seq<Vec2>, start: nat, end: nat): Result<Piece, MeshError>
    requires start <= end <= |ts|
  {
    if start == end then Err(EmptyChunk)
    else
      var range := ts[start..end];
      var lo, hi := SeqMin(range), SeqMax(range);
      if lo < 0 || hi >= |vs| then Err(VertexRange)
      else if |uv| > 0 && hi >= |uv| then Err(UvRange)
      else Ok(Piece(lo, Mesh(vs[lo..hi + 1], Shift(range, -lo), if |uv| > 0 then uv[lo..hi + 1] else [])))
  }

  /** The chunks from `start` on. */
  function Chunks(ts: seq<int>, vs: seq<Vec3>, uv: seq<Vec2>, start: nat): Result<seq<Piece>, MeshError>
    requires start <= |ts| && start % 3 == 0
    decreases |ts| - start
  {
    if start == |ts| then Ok([])
    else
      var end := ChunkEnd(ts, start);
      match MakePiece(ts, vs, uv, start, end)
      case Err(e) => Err(e)
      case Ok(p) =>
        match Chunks(ts, vs, uv, end)
        case Err(e) => Err(e)
        case Ok(ps) => Ok([p] + ps)
  }

  function Prepend(ps: seq<Piece>, r: Result<seq<Piece>, MeshError>): Result<seq<Piece>, MeshError>
  {
    match r
    case Err(e) => Err(e)
    case Ok(qs) => Ok(ps + qs)
  }

  /** The indices of the pieces, put back where they were. */
  function Corners(ps: seq<Piece>): seq<int>
  {
    if ps == [] then [] else Shift(ps[0].mesh.triangles, ps[0].base) + Corners(ps[1..])
  }

  predicate GoodPiece(p: Piece)
  {
    |p.mesh.triangles| % 3 == 0 && |p.mesh.triangles| > 0
    && 0 < |p.mesh.vertices| <= MaxMeshVertices
    && IndicesIn(p.mesh.triangles, |p.mesh.vertices|)
    && 0 in p.mesh.triangles
  }

  /** A piece holds whole triangles, at most `MaxMeshVertices` vertices,
      indices rebased to start at 0, and each corner on the vertex it had. */
  lemma MakePieceShape(ts: seq<int>, vs: seq<Vec3>, uv: seq<Vec2>, start: nat, end: nat, p: Piece)
    requires start <= end <= |ts| && (end - start) % 3 == 0
    requires start < end ==> SeqMax(ts[start..end]) - SeqMin(ts[start..end]) < MaxMeshVertices
    requires MakePiece(ts, vs, uv, start, end) == Ok(p)
    ensures GoodPiece(p) && Shift(p.mesh.triangles, p.base) == ts[start..end]
    ensures forall k :: 0 <= k < |p.mesh.triangles| ==> p.mesh.vertices[p.mesh.triangles[k]] == vs[ts[start..end][k]]
  {
    PieceOf(ts, vs, uv, start, end, p);
    var range := ts[start..end];
    var lo, hi := SeqMin(range), SeqMax(range);
    var _, b := Extremes(range);
    RebasedPiece(range, vs, lo, hi, b, p);
  }

  /** A chunk ends within the list, holds whole triangles, and its indices
      span fewer than `MaxMeshVertices` values. */
  lemma ChunkSpan(ts: seq<int>, start: nat, end: nat)
    requires start < |ts| && start % 3 == 0 && end == ChunkEnd(ts, start)
    ensures start <= end <= |ts| && (end - start) % 3 == 0
    ensures start < end ==> SeqMax(ts[start..end]) - SeqMin(ts[start..end]) < MaxMeshVertices
  {
    ThirdsApart(end, start);
    if start < end {
      ScanSpan(ts, start, start, ts[start], ts[start]);
      SpanBound(ts, start, end);
    }
  }

  lemma PieceOf(ts: seq<int>, vs: seq<Vec3>, uv: seq<Vec2>, start: nat, end: nat, p: Piece)
    requires start <= end <= |ts| && MakePiece(ts, vs, uv, start, end) == Ok(p)
    ensures start < end
    ensures 0 <= SeqMin(ts[start..end]) && SeqMax(ts[start..end]) < |vs|
    ensures p.base == SeqMin(ts[start..end]) && p.mesh.triangles == Shift(ts[start..end], -p.base)
    ensures p.mesh.vertices == vs[p.base..SeqMax(ts[start..end]) + 1]
  {
  }

  lemma SpanBound(ts: seq<int>, start: nat, end: nat)
    requires start < end <= |ts|
    requires forall k, k' :: start <= k < end && start <= k' < end ==> ts[k] - ts[k'] < MaxMeshVertices
    ensures SeqMax(ts[start..end]) - SeqMin(ts[start..end]) < MaxMeshVertices
  {
    var range := ts[start..end];
    var a, b := Extremes(range);
    assert ts[start + a] - ts[start + b] < MaxMeshVertices;
  }

  lemma RebasedPiece(range: seq<int>, vs: seq<Vec3>, lo: int, hi: int, b: nat, p: Piece)
    requires |range| > 0 && |range| % 3 == 0 && b < |range| && range[b] == lo
    requires forall k :: 0 <= k < |range| ==> lo <= range[k] <= hi
    requires 0 <= lo && hi < |vs| && hi - lo < MaxMeshVertices
    requires p.base == lo && p.mesh.triangles == Shift(range, -lo) && p.mesh.vertices == vs[lo..hi + 1]
    ensures GoodPiece(p) && Shift(p.mesh.triangles, p.base) == range
    ensures forall k :: 0 <= k < |range| ==> p.mesh.vertices[p.mesh.triangles[k]] == vs[range[k]]
  {
    var t := p.mesh.triangles;
    assert t[b] == 0;
    forall k | 0 <= k < |t| ensures 0 <= t[k] < |p.mesh.vertices| && p.mesh.vertices[t[k]] == vs[range[k]] {
      assert t[k] == range[k] - lo;
    }
    assert Shift(t, lo) == range;
  }

  /** Both extremes are elements, and every element lies between them. */
  lemma {:induction false} Extremes(s: seq<int>) returns (a: nat, b: nat)
    requires |s| > 0
    ensures a < |s| && s[a] == SeqMax(s) && b < |s| && s[b] == SeqMin(s)
    ensures forall k :: 0 <= k < |s| ==> SeqMin(s) <= s[k] <= SeqMax(s)
  {
    if |s| == 1 {
      a, b := 0, 0;
    } else {
      var a', b' := Extremes(s[1..]);
      a := if s[0] >= SeqMax(s[1..]) then 0 else a' + 1;
      b := if s[0] <= SeqMin(s[1..]) then 0 else b' + 1;
      forall k | 1 <= k < |s| ensures SeqMin(s) <= s[k] <= SeqMax(s) {
        assert s[k] == s[1..][k - 1];
      }
    }
  }

  /** A successful cut puts every triangle in exactly one piece, in order,
      and every piece is good. */
  lemma {:induction false} ChunksCover(ts: seq<int>, vs: seq<Vec3>, uv: seq<Vec2>, start: nat)
    requires start <= |ts| && start % 3 == 0 && Chunks(ts, vs, uv, start).Ok?
    ensures Corners(Chunks(ts, vs, uv, start).value) == ts[start..]
    ensures forall k :: 0 <= k < |Chunks(ts, vs, uv, start).value| ==> GoodPiece(Chunks(ts, vs, uv, start).value[k])
    decreases |ts| - start
  {
    if start < |ts| {
      var end := ChunkEnd(ts, start);
      var p := MakePiece(ts, vs, uv, start, end).value;
      var ps := Chunks(ts, vs, uv, end).value;
      assert ts[start..] == ts[start..end] + ts[end..];
      ChunkSpan(ts, start, end);
      MakePieceShape(ts, vs, uv, start, end, p);
      ChunksCover(ts, vs, uv, end);
      assert Chunks(ts, vs, uv, start).value == [p] + ps;
      assert ([p] + ps)[1..] == ps;
    }
  }

  /** A triangle list whose length is not a multiple of three ends in a
      chunk without triangles, and the cut throws. */
  lemma {:induction false} LeftoverCornersThrow(ts: seq<int>, vs: seq<Vec3>, uv: seq<Vec2>, start: nat)
    requires start <= |ts| && start % 3 == 0 && |ts| % 3 != 0
    ensures Chunks(ts, vs, uv, start).Err?
    decreases |ts| - start
  {
    if start < |ts| {
      var end := ChunkEnd(ts, start);
      if MakePiece(ts, vs, uv, start, end).Ok? {
        if end == |ts| {
          assert false;
        }
        LeftoverCornersThrow(ts, vs, uv, end);
      }
    }
  }

  /** The cut of one buffer (the body of `CreateMeshes`' loop over the
      colours). */
  method CutTriangles(ts: seq<int>, vs: seq<Vec3>, uv: seq<Vec2>) returns (r: Result<seq<Piece>, MeshError>)
    ensures r == Chunks(ts, vs, uv, 0)
  {
    var pieces: seq<Piece> := [];
    var leftoverTriangles := |ts|;
    var triangleIdx := 0;
    PrependNothing(Chunks(ts, vs, uv, 0));
    while leftoverTriangles != 0
      invariant triangleIdx <= |ts| && triangleIdx % 3 == 0 && leftoverTriangles == |ts| - triangleIdx
      invariant Chunks(ts, vs, uv, 0) == Prepend(pieces, Chunks(ts, vs, uv, triangleIdx))
      decreases leftoverTriangles
    {
      var piece, numTriangles := CutNext(ts, vs, uv, triangleIdx, pieces);
      if piece.Err? {
        return Err(piece.error);
      }
      pieces := pieces + [piece.value];
      var usedTriangles := numTriangles - triangleIdx;
      leftoverTriangles := leftoverTriangles - usedTriangles;
      triangleIdx := triangleIdx + usedTriangles;
      assert triangleIdx == numTriangles;
    }
    assert pieces + [] == pieces;
    return Ok(pieces);
  }

  /** One pass of the loop of `CutTriangles`: the end of the next chunk and
      its piece. */
  method CutNext(ts: seq<int>, vs: seq<Vec3>, uv: seq<Vec2>, triangleIdx: nat, ghost pieces: seq<Piece>)
    returns (piece: Result<Piece, MeshError>, numTriangles: nat)
    requires triangleIdx < |ts| && triangleIdx % 3 == 0
    ensures piece.Err? ==> Prepend(pieces, Chunks(ts, vs, uv, triangleIdx)) == Err(piece.error)
    ensures piece.Ok? ==> (triangleIdx < numTriangles <= |ts| && numTriangles % 3 == 0
      && Prepend(pieces, Chunks(ts, vs, uv, triangleIdx))
         == Prepend(pieces + [piece.value], Chunks(ts, vs, uv, numTriangles)))
  {
    numTriangles := ChunkEndOf(ts, triangleIdx);
    piece := MakePiece(ts, vs, uv, triangleIdx, numTriangles);
    if piece.Err? {
      ChunkFails(ts, vs, uv, triangleIdx, pieces);
    } else {
      ChunkStep(ts, vs, uv, triangleIdx, numTriangles, piece.value, pieces);
    }
  }

  /** Lines 97-129: the scan, then the end stepped back to a triangle
      boundary. */
  method ChunkEndOf(ts: seq<int>, start: nat) returns (numTriangles: nat)
    requires start < |ts|
    ensures numTriangles == ChunkEnd(ts, start)
    ensures numTriangles % 3 == 0 && numTriangles <= |ts|
  {
    numTriangles := Scan(ts, start);
    while numTriangles % 3 != 0
      invariant RoundDown3(numTriangles) == ChunkEnd(ts, start)
      decreases numTriangles
    {
      RoundDownStep(numTriangles);
      numTriangles := numTriangles - 1;
    }
  }

  lemma ChunkStep(ts: seq<int>, vs: seq<Vec3>, uv: seq<Vec2>, start: nat, end: nat, p: Piece, ps: seq<Piece>)
    requires start < |ts| && start % 3 == 0 && end == ChunkEnd(ts, start)
    requires MakePiece(ts, vs, uv, start, end) == Ok(p)
    ensures start < end
    ensures Prepend(ps, Chunks(ts, vs, uv, start)) == Prepend(ps + [p], Chunks(ts, vs, uv, end))
  {
    match Chunks(ts, vs, uv, end)
    case Err(e) =>
    case Ok(qs) =>
      assert ps + ([p] + qs) == ps + [p] + qs;
  }

  lemma PrependNothing(r: Result<seq<Piece>, MeshError>)
    ensures Prepend([], r) == r
  {
    if r.Ok? {
      assert [] + r.value == r.value;
    }
  }

  lemma ChunkFails(ts: seq<int>, vs: seq<Vec3>, uv: seq<Vec2>, start: nat, ps: seq<Piece>)
    requires start < |ts| && start % 3 == 0
    requires MakePiece(ts, vs, uv, start, ChunkEnd(ts, start)).Err?
    ensures Prepend(ps, Chunks(ts, vs, uv, start)) == Err(MakePiece(ts, vs, uv, start, ChunkEnd(ts, start)).error)
  {
  }

  /** The inner scan of lines 97-122. */
  method Scan(ts: seq<int>, start: nat) returns (numTriangles: nat)
    requires start < |ts|
    ensures numTriangles == ScanEnd(ts, start, ts[start], ts[start])
  {
    numTriangles := start;
    var min := ts[numTriangles];
    var max := ts[numTriangles];
    while numTriangles < |ts|
      invariant start <= numTriangles <= |ts|
      invariant ScanEnd(ts, numTriangles, min, max) == ScanEnd(ts, start, ts[start], ts[start])
      decreases |ts| - numTriangles
    {
      var val := ts[numTriangles];
      if val < min {
        min := val;
        if max - min >= MaxMeshVertices {
          break;
        }
      } else if val > max {
        max := val;
        if max - min >= MaxMeshVertices {
          break;
        }
      }
      numTriangles := numTriangles + 1;
    }
  }

  function Meshes(ps: seq<Piece>): (r: seq<Mesh>)
    ensures |r| == |ps| && forall k :: 0 <= k < |ps| ==> r[k] == ps[k].mesh
  {
    seq(|ps|, k requires 0 <= k < |ps| => ps[k].mesh)
  }

  /** The buffers after cutting the colours of `order` in turn, and the
      error that stopped the loop, if any; a colour already cut is
      skipped. */
  function CreateAll(m: map<Color, Buffer>, order: seq<Color>): (r: (map<Color, Buffer>, Option<MeshError>))
    ensures r.0.Keys == m.Keys
  {
    if order == [] then (m, None)
    else
      var c := order[0];
      if c !in m || m[c].meshes.Some? then CreateAll(m, order[1..])
      else
        match Chunks(m[c].triangles, m[c].vertices, m[c].uv, 0)
        case Err(e) => (m, Some(e))
        case Ok(ps) => CreateAll(m[c := m[c].(meshes := Some(Meshes(ps)))], order[1..])
  }

  /** Cutting changes nothing but `meshes`, never touches a colour already
      cut, and, when no error stops it, leaves every colour of `order` cut. */
  lemma {:induction false} CreateAllEffect(m: map<Color, Buffer>, order: seq<Color>)
    ensures forall c :: c in m ==> CreateAll(m, order).0[c] == m[c].(meshes := CreateAll(m, order).0[c].meshes)
    ensures forall c :: c in m && m[c].meshes.Some? ==> CreateAll(m, order).0[c] == m[c]
    ensures CreateAll(m, order).1.None? ==> forall k :: 0 <= k < |order| && order[k] in m ==> CreateAll(m, order).0[order[k]].meshes.Some?
  {
    if order != [] {
      var c := order[0];
      if c !in m || m[c].meshes.Some? {
        CreateAllEffect(m, order[1..]);
        assert forall k :: 1 <= k < |order| ==> order[k] == order[1..][k - 1];
      } else {
        match Chunks(m[c].triangles, m[c].vertices, m[c].uv, 0)
        case Err(e) =>
        case Ok(ps) =>
          var m' := m[c := m[c].(meshes := Some(Meshes(ps)))];
          CreateAllEffect(m', order[1..]);
          assert forall k :: 1 <= k < |order| ==> order[k] == order[1..][k - 1];
      }
    }
  }

  class MultiMesh {
    /** Whether `meshData` has been made, which the first `AddMesh` does. */
    var hasMeshData: bool
    /** `meshData.meshMap`. */
    var meshMap: map<Color, Buffer>

    constructor ()
      ensures !hasMeshData && meshMap == map[]
    {
      hasMeshData := false;
      meshMap := map[];
    }

    /** Lines 50-72: the mesh goes into its colour's buffer, made if there is
        none. */
    method AddMesh(c: Color, mesh: Mesh, z: real)
      modifies this
      ensures hasMeshData
      ensures meshMap == old(meshMap)[c := Appended(if c in old(meshMap) then old(meshMap)[c] else EmptyBuffer, mesh, z)]
    {
      hasMeshData := true;
      var b := if c in meshMap then meshMap[c] else EmptyBuffer;
      var baseIdx := |b.vertices|;
      var vertices := b.vertices;
      for i := 0 to |mesh.vertices|
        invariant vertices == b.vertices + AtDepth(mesh.vertices[..i], z)
      {
        assert AtDepth(mesh.vertices[..i + 1], z) == AtDepth(mesh.vertices[..i], z) + [Vec3(mesh.vertices[i].x, mesh.vertices[i].y, z)];
        vertices := vertices + [Vec3(mesh.vertices[i].x, mesh.vertices[i].y, z)];
      }
      assert mesh.vertices[..|mesh.vertices|] == mesh.vertices;
      meshMap := meshMap[c := b.(vertices := vertices, triangles := b.triangles + Shift(mesh.triangles, baseIdx), uv := b.uv + mesh.uv)];
    }

    /** Lines 76-169, the colours taken in the dictionary's enumeration
        order `order`, which lists every colour of `meshMap` once; returns
        the error that stopped the loop, the buffers cut before it keeping
        their meshes. Without `meshData` the loop's first read of it
        throws. */
    method CreateMeshes(order: seq<Color>) returns (error: Option<MeshError>)
      requires forall c :: c in meshMap <==> c in order
      requires forall i, j :: 0 <= i < j < |order| ==> order[i] != order[j]
      modifies this
      ensures !old(hasMeshData) ==> error == Some(NoMeshData) && meshMap == old(meshMap)
      ensures old(hasMeshData) ==> (meshMap, error) == CreateAll(old(meshMap), order)
      ensures error.None? ==> forall c :: c in meshMap ==> meshMap[c].meshes.Some?
      ensures hasMeshData == old(hasMeshData)
    {
      if !hasMeshData {
        return Some(NoMeshData);
      }
      CreateAllEffect(meshMap, order);
      var k := 0;
      while k < |order|
        invariant k <= |order|
        invariant CreateAll(old(meshMap), order) == CreateAll(meshMap, order[k..])
        invariant hasMeshData
        decreases |order| - k
      {
        var c := order[k];
        assert order[k..][1..] == order[k + 1..];
        if c in meshMap && meshMap[c].meshes.None? {
          var pieces := CutTriangles(meshMap[c].triangles, meshMap[c].vertices, meshMap[c].uv);
          if pieces.Err? {
            return Some(pieces.error);
          }
          meshMap := meshMap[c := meshMap[c].(meshes := Some(Meshes(pieces.value)))];
        }
        k := k + 1;
      }
      return None;
    }
  }
}
