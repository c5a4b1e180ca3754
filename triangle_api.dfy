/** The planar straight-line graph handed to the triangulator
    (Assets/Scripts/Utility/TriangleAPI.cs, class `PSLG`): an outline made of
    closed vertex loops, each loop contributing its vertices and one segment
    per vertex, and a list of holes, each a graph of its own. The point
    tests and the triangulation itself are not part of this model. */
module TriangleApi {
  import opened Geometry

  /** A segment between two vertex indices (the `int[2]` of the source). */
  datatype Segment = Segment(from: int, to: int)

  /** The segments of a loop of `n` vertices whose first segment index is
      `offset`: each vertex to the next, the last back to the first. */
  function LoopSegments(offset: int, n: nat): (r: seq<Segment>)
    requires n >= 1
    ensures |r| == n
  {
    Chain(offset, n - 1) + [Segment(offset + n - 1, offset)]
  }

  /** The first `i` segments of a loop: vertex `j` to vertex `j + 1`. */
  function Chain(offset: int, i: nat): (r: seq<Segment>)
    ensures |r| == i
  {
    seq(i, j => Segment(offset + j, offset + j + 1))
  }

  /** Segment `i` of a loop leaves vertex `offset + i`, and its end is where
      the next segment starts, the last one ending at the first vertex. */
  lemma LoopClosed(offset: int, n: nat)
    requires n >= 1
    ensures forall i :: 0 <= i < n ==> LoopSegments(offset, n)[i].from == offset + i
    ensures forall i :: 0 <= i < n - 1 ==> LoopSegments(offset, n)[i].to == LoopSegments(offset, n)[i + 1].from
    ensures LoopSegments(offset, n)[n - 1].to == LoopSegments(offset, n)[0].from
  {
    var l := LoopSegments(offset, n);
    forall i | 0 <= i < n - 1
      ensures l[i] == Segment(offset + i, offset + i + 1)
    {
      assert l[i] == Chain(offset, n - 1)[i];
    }
  }

  /** The vertices of loops of the given sizes. */
  function Total(sizes: seq<nat>): nat
  {
    if sizes == [] then 0 else Total(sizes[..|sizes| - 1]) + sizes[|sizes| - 1]
  }

  /** The segments of loops of the given sizes, added one after the other. */
  function Outline(sizes: seq<nat>): (r: seq<Segment>)
    requires forall k :: 0 <= k < |sizes| ==> sizes[k] >= 1
  {
    if sizes == [] then []
    else
      var init := sizes[..|sizes| - 1];
      Outline(init) + LoopSegments(Total(init), sizes[|sizes| - 1])
  }

  /** Where each loop's segments start (the boundary markers). */
  function Starts(sizes: seq<nat>): (r: seq<int>)
    ensures |r| == |sizes|
  {
    if sizes == [] then [] else Starts(sizes[..|sizes| - 1]) + [Total(sizes[..|sizes| - 1])]
  }

  predicate InRange(segments: seq<Segment>, n: int)
  {
    forall k :: 0 <= k < |segments| ==> 0 <= segments[k].from < n && 0 <= segments[k].to < n
  }

  /** The outline has one segment per vertex, and every segment joins two
      vertices of the graph. */
  lemma {:induction false} OutlineShape(sizes: seq<nat>)
    requires forall k :: 0 <= k < |sizes| ==> sizes[k] >= 1
    ensures |Outline(sizes)| == Total(sizes)
    ensures InRange(Outline(sizes), Total(sizes))
  {
    if sizes != [] {
      var init := sizes[..|sizes| - 1];
      var t := Total(init);
      var n := sizes[|sizes| - 1];
      OutlineShape(init);
      var l := LoopSegments(t, n);
      assert InRange(l, Total(sizes)) by {
        LoopClosed(t, n);
      }
    }
  }

  /** Each loop starts where the segments of the loops before it end, so the
      markers rise strictly and each names a segment. */
  lemma {:induction false} StartsRise(sizes: seq<nat>)
    requires forall k :: 0 <= k < |sizes| ==> sizes[k] >= 1
    ensures forall k :: 0 <= k < |sizes| ==> Starts(sizes)[k] < Total(sizes)
    ensures forall k :: 0 <= k < |sizes| - 1 ==> Starts(sizes)[k] < Starts(sizes)[k + 1]
  {
    if sizes != [] {
      var init := sizes[..|sizes| - 1];
      StartsRise(init);
      assert forall k :: 0 <= k < |init| ==> Starts(sizes)[k] == Starts(init)[k];
    }
  }

  /** The segments of the holes. */
  function HoleSegments(hs: seq<Pslg>): nat
    reads hs
  {
    if hs == [] then 0 else HoleSegments(hs[..|hs| - 1]) + |hs[|hs| - 1].segments|
  }

  class Pslg {
    var vertices: seq<Vec3>
    var segments: seq<Segment>
    var holes: seq<Pslg>
    /** The index of the first segment of each loop. */
    var boundaryMarkers: seq<int>
    /** The sizes of the loops added so far. */
    ghost var loops: seq<nat>

    /** The outline is the loops' segments and markers, each loop of three
        or more vertices. */
    ghost predicate Valid()
      reads this
    {
      (forall k :: 0 <= k < |loops| ==> loops[k] >= 3)
      && |vertices| == Total(loops) && segments == Outline(loops) && boundaryMarkers == Starts(loops)
    }

    constructor ()
      ensures vertices == [] && segments == [] && holes == [] && boundaryMarkers == []
      ensures loops == [] && Valid()
    {
      vertices, segments, holes, boundaryMarkers := [], [], [], [];
      loops := [];
    }

    /** The graph of one loop. */
    constructor FromLoop(vs: seq<Vec3>)
      ensures holes == [] && Valid()
      ensures |vs| < 3 ==> vertices == [] && segments == [] && boundaryMarkers == []
      ensures |vs| >= 3 ==> vertices == vs && segments == LoopSegments(0, |vs|) && boundaryMarkers == [0]
    {
      vertices, segments, holes, boundaryMarkers := [], [], [], [];
      loops := [];
      new;
      AddVertexLoop(vs);
    }

    predicate Empty()
      reads this
    {
      |vertices| == 0
    }

    /** A loop of fewer than three vertices is ignored; otherwise its
        vertices are appended, its start is marked, and its segments are
        numbered from the current segment count. */
    method AddVertexLoop(vs: seq<Vec3>)
      modifies this
      ensures holes == old(holes)
      ensures |vs| < 3 ==> (vertices == old(vertices) && segments == old(segments)
                             && boundaryMarkers == old(boundaryMarkers) && loops == old(loops))
      ensures |vs| >= 3 ==> (vertices == old(vertices) + vs
                              && segments == old(segments) + LoopSegments(|old(segments)|, |vs|)
                              && boundaryMarkers == old(boundaryMarkers) + [|old(segments)|]
                              && loops == old(loops) + [|vs|])
      ensures old(Valid()) ==> Valid()
    {
      if |vs| < 3 {
        return;
      }
      ghost var valid := Valid();
      vertices := vertices + vs;
      var segmentOffset := |segments|;
      boundaryMarkers := boundaryMarkers + [|segments|];
      ghost var before := segments;
      for i := 0 to |vs| - 1
        invariant segments == before + Chain(segmentOffset, i)
        invariant vertices == old(vertices) + vs && holes == old(holes)
        invariant boundaryMarkers == old(boundaryMarkers) + [segmentOffset] && loops == old(loops)
      {
        assert Chain(segmentOffset, i + 1) == Chain(segmentOffset, i) + [Segment(i + segmentOffset, i + 1 + segmentOffset)];
        segments := segments + [Segment(i + segmentOffset, i + 1 + segmentOffset)];
      }
      segments := segments + [Segment(|vs| - 1 + segmentOffset, segmentOffset)];
      assert segments == before + LoopSegments(segmentOffset, |vs|);
      loops := loops + [|vs|];
      if valid {
        ExtendValid(old(loops), |vs|, |old(vertices)|);
      }
    }

    /** `AddOrderedVertices`: the array's vertices as a loop. */
    method AddOrderedVertices(vs: seq<Vec3>)
      modifies this
      ensures holes == old(holes)
      ensures |vs| < 3 ==> (vertices == old(vertices) && segments == old(segments)
                             && boundaryMarkers == old(boundaryMarkers) && loops == old(loops))
      ensures |vs| >= 3 ==> (vertices == old(vertices) + vs
                              && segments == old(segments) + LoopSegments(|old(segments)|, |vs|)
                              && boundaryMarkers == old(boundaryMarkers) + [|old(segments)|]
                              && loops == old(loops) + [|vs|])
      ensures old(Valid()) ==> Valid()
    {
      if |vs| < 3 {
        return;
      }
      AddVertexLoop(vs);
    }

    /** A hole of fewer than three vertices is ignored; otherwise a new graph
        of that one loop is added to the holes. */
    method AddHole(vs: seq<Vec3>)
      modifies this
      ensures vertices == old(vertices) && segments == old(segments)
      ensures boundaryMarkers == old(boundaryMarkers) && loops == old(loops)
      ensures |vs| < 3 ==> holes == old(holes)
      ensures |vs| >= 3 ==> (|holes| == |old(holes)| + 1 && holes[..|old(holes)|] == old(holes)
                              && fresh(holes[|old(holes)|])
                              && holes[|old(holes)|].vertices == vs
                              && holes[|old(holes)|].segments == LoopSegments(0, |vs|)
                              && holes[|old(holes)|].holes == [] && holes[|old(holes)|].boundaryMarkers == [0])
    {
      if |vs| < 3 {
        return;
      }
      var hole := new Pslg();
      hole.AddVertexLoop(vs);
      holes := holes + [hole];
    }

    /** The vertex count plus the segments of every hole; in a valid graph
        the vertex count is its own segment count, so this counts every
        segment handed to the triangulator. */
    method GetNumberOfSegments() returns (n: int)
      ensures n == |vertices| + HoleSegments(holes)
      ensures Valid() ==> n == |segments| + HoleSegments(holes)
    {
      n := |vertices|;
      for k := 0 to |holes|
        invariant n == |vertices| + HoleSegments(holes[..k])
      {
        assert holes[..k + 1][..k] == holes[..k];
        n := n + |holes[k].segments|;
      }
      assert holes[..|holes|] == holes;
      if Valid() {
        OutlineShape(loops);
      }
    }
  }

  /** Adding a loop of three or more vertices to a valid outline keeps it
      valid: the new segments start at the old segment count, which is the
      old vertex count. */
  lemma ExtendValid(sizes: seq<nat>, n: nat, vertexCount: nat)
    requires forall k :: 0 <= k < |sizes| ==> sizes[k] >= 3
    requires n >= 3 && vertexCount == Total(sizes)
    ensures forall k :: 0 <= k < |sizes + [n]| ==> (sizes + [n])[k] >= 3
    ensures Total(sizes + [n]) == vertexCount + n
    ensures Outline(sizes + [n]) == Outline(sizes) + LoopSegments(|Outline(sizes)|, n)
    ensures Starts(sizes + [n]) == Starts(sizes) + [|Outline(sizes)|]
  {
    OutlineShape(sizes);
    assert (sizes + [n])[..|sizes|] == sizes;
  }

  /** A valid graph is empty exactly when it has no loops, so no segments
      and no markers either. */
  lemma EmptyIffNoLoops(p: Pslg)
    requires p.Valid()
    ensures p.Empty() <==> p.loops == []
    ensures p.Empty() <==> p.segments == [] && p.boundaryMarkers == []
  {
    if p.loops != [] {
      TotalPositive(p.loops);
    }
  }

  lemma {:induction false} TotalPositive(sizes: seq<nat>)
    requires |sizes| > 0 && forall k :: 0 <= k < |sizes| ==> sizes[k] >= 3
    ensures Total(sizes) >= 3
  {
    if |sizes| > 1 {
      TotalPositive(sizes[..|sizes| - 1]);
    }
  }
}
