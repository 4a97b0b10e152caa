/**
 * The line-segment buffer handed to the renderer: `getPosition` fills a new
 * buffer with both 3-D endpoints of every edge, edge by edge, and the frame
 * update rewrites the same buffer in place for the newly projected points.
 * Coordinates are reals; the buffer's 32-bit float rounding is not modelled.
 */
module LineSegments {
  import opened Bits
  import opened Cube
  import opened CubeFacts

  /** Every point is a coordinate triple and every edge names two of the points. */
  predicate WellFormed(points: seq<seq<real>>, edges: seq<Edge>)
  {
    && (forall p :: 0 <= p < |points| ==> |points[p]| == 3)
    && (forall i :: 0 <= i < |edges| ==> edges[i].a < |points| && edges[i].b < |points|)
  }

  /** The buffer contents for `edges`: the start point then the end point of each edge, in edge order. */
  function Layout(points: seq<seq<real>>, edges: seq<Edge>): seq<real>
    requires WellFormed(points, edges)
  {
    if |edges| == 0 then []
    else
      var last := edges[|edges| - 1];
      Layout(points, edges[..|edges| - 1]) + points[last.a] + points[last.b]
  }

  /** Six slots per edge. */
  lemma {:induction false} LayoutLength(points: seq<seq<real>>, edges: seq<Edge>)
    requires WellFormed(points, edges)
    ensures |Layout(points, edges)| == 6 * |edges|
  {
    if |edges| > 0 {
      LayoutLength(points, edges[..|edges| - 1]);
    }
  }

  /** Slots 6i .. 6i+2 hold the start point of edge i, slots 6i+3 .. 6i+5 its end point. */
  lemma {:induction false} LayoutSlots(points: seq<seq<real>>, edges: seq<Edge>, i: nat, c: nat)
    requires WellFormed(points, edges) && i < |edges| && c < 3
    ensures 6 * i + 5 < |Layout(points, edges)|
    ensures Layout(points, edges)[6 * i + c] == points[edges[i].a][c]
    ensures Layout(points, edges)[6 * i + 3 + c] == points[edges[i].b][c]
  {
    var m := |edges| - 1;
    LayoutLength(points, edges[..m]);
    LayoutLength(points, edges);
    if i < m {
      LayoutSlots(points, edges[..m], i, c);
    }
  }

  /** Conversely, a buffer of 6 * |edges| slots that holds every edge's endpoints in place is the layout. */
  lemma LayoutUnique(points: seq<seq<real>>, edges: seq<Edge>, s: seq<real>)
    requires WellFormed(points, edges) && |s| == 6 * |edges|
    requires forall i, c :: 0 <= i < |edges| && 0 <= c < 3 ==>
               s[6 * i + c] == points[edges[i].a][c] && s[6 * i + 3 + c] == points[edges[i].b][c]
    ensures s == Layout(points, edges)
  {
    LayoutLength(points, edges);
    forall p | 0 <= p < |s|
      ensures s[p] == Layout(points, edges)[p]
    {
      var i, r := p / 6, p % 6;
      if r < 3 {
        LayoutSlots(points, edges, i, r);
      } else {
        LayoutSlots(points, edges, i, r - 3);
      }
    }
  }

  /** `target.set(source, offset)` on a typed array: `source` overwrites the slots from `offset` on. */
  method CopyInto(target: array<real>, source: seq<real>, offset: nat)
    requires offset + |source| <= target.Length
    modifies target
    ensures target[..] == old(target[..offset]) + source + old(target[offset + |source|..])
  {
    forall k | 0 <= k < |source| {
      target[offset + k] := source[k];
    }
  }

  /** The segment loop shared by `getPosition` and the frame update: every slot gets its endpoint coordinate. */
  method WriteSegments(positions: array<real>, points: seq<seq<real>>, edges: seq<Edge>)
    requires WellFormed(points, edges) && positions.Length == 6 * |edges|
    modifies positions
    ensures positions[..] == Layout(points, edges)
  {
    var i := 0;
    while i < |edges|
      invariant 0 <= i <= |edges|
      invariant WellFormed(points, edges[..i])
      invariant positions[..6 * i] == Layout(points, edges[..i])
    {
      var a := edges[i].a;
      var b := edges[i].b;
      ghost var done := positions[..6 * i];
      CopyInto(positions, points[a], 6 * i);
      CopyInto(positions, points[b], 6 * i + 3);
      assert positions[..6 * (i + 1)] == done + points[a] + points[b];
      assert edges[..i + 1][..i] == edges[..i];
      i := i + 1;
    }
    assert edges[..i] == edges;
    assert positions[..] == positions[..6 * i];
  }

  /** `getPosition(vertices_3d, edges)`: a new buffer of 6 * |edges| slots holding the segments. */
  method GetPosition(points: seq<seq<real>>, edges: seq<Edge>) returns (positions: array<real>)
    requires WellFormed(points, edges)
    ensures fresh(positions) && positions.Length == 6 * |edges|
    ensures positions[..] == Layout(points, edges)
  {
    positions := new real[6 * |edges|](_ => 0.0);
    WriteSegments(positions, points, edges);
  }

  /**
   * The geometry the page keeps between frames: the fixed edge list and the
   * position buffer shared with the renderer, whose identity and length
   * never change.
   */
  class LineGeometry {
    const edges: seq<Edge>
    const vertexCount: nat
    const positions: array<real>

    ghost predicate Valid()
      reads this
    {
      && positions.Length == 6 * |edges|
      && forall i :: 0 <= i < |edges| ==> edges[i].a < vertexCount && edges[i].b < vertexCount
    }

    /** Start-up: the buffer is `getPosition` of the first projection. */
    constructor (points: seq<seq<real>>, edges: seq<Edge>)
      requires WellFormed(points, edges)
      ensures Valid() && this.edges == edges && vertexCount == |points|
      ensures fresh(positions) && positions[..] == Layout(points, edges)
    {
      var buffer := GetPosition(points, edges);
      this.edges := edges;
      vertexCount := |points|;
      positions := buffer;
    }

    /**
     * The rewrite at the end of each frame: the same buffer, same length,
     * now holds exactly what `getPosition` would build for the new points,
     * so nothing of the previous frame survives.
     */
    method Update(points: seq<seq<real>>)
      requires Valid() && |points| == vertexCount
      requires forall p :: 0 <= p < |points| ==> |points[p]| == 3
      modifies positions
      ensures Valid() && positions.Length == 6 * |edges|
      ensures positions[..] == Layout(points, edges)
    {
      WriteSegments(positions, points, edges);
    }
  }

  /** The edges built from a vertex list join points of a list just as long. */
  lemma EdgesWellFormed(points: seq<seq<real>>, vs: seq<seq<int>>, n: nat)
    requires |points| == |vs| && forall p :: 0 <= p < |points| ==> |points[p]| == 3
    ensures WellFormed(points, Edges(vs, n))
  {
    var edges := Edges(vs, n);
    forall i | 0 <= i < |edges|
      ensures edges[i].a < |points| && edges[i].b < |points|
    {
      EdgeMembership(vs, n, edges[i]);
    }
  }

  /** When the first edge is (0, 1), the buffer opens with points 0 and 1. */
  lemma LayoutStart(points: seq<seq<real>>, edges: seq<Edge>)
    requires WellFormed(points, edges) && |edges| > 0 && edges[0] == Edge(0, 1)
    ensures |Layout(points, edges)| >= 6
    ensures Layout(points, edges)[0..3] == points[0] && Layout(points, edges)[3..6] == points[1]
  {
    LayoutLength(points, edges);
    forall c | 0 <= c < 3
      ensures Layout(points, edges)[c] == points[0][c] && Layout(points, edges)[3 + c] == points[1][c]
    {
      LayoutSlots(points, edges, 0, c);
    }
  }

  /** A list of e edges with 2e == n * p fills 3 * n * p slots. */
  lemma LayoutSize(points: seq<seq<real>>, edges: seq<Edge>, n: nat, p: nat)
    requires WellFormed(points, edges) && 2 * |edges| == n * p
    ensures |Layout(points, edges)| == 3 * n * p
  {
    LayoutLength(points, edges);
    assert 3 * n * p == 3 * (n * p);
  }

  /**
   * The frame of the n-cube: 3 * n * 2^n slots (six per edge), whose first
   * six slots are points 0 and 1, the ends of the first edge (0, 1).
   */
  lemma CubeFrame(n: nat, points: seq<seq<real>>)
    requires 1 <= n <= WordBits
    requires |points| == Pow2(n) && forall p :: 0 <= p < |points| ==> |points[p]| == 3
    ensures WellFormed(points, Edges(Vertices(n), n))
    ensures |Layout(points, Edges(Vertices(n), n))| == 3 * n * Pow2(n)
    ensures Layout(points, Edges(Vertices(n), n))[0..3] == points[0]
    ensures Layout(points, Edges(Vertices(n), n))[3..6] == points[1]
  {
    var edges := Edges(Vertices(n), n);
    EdgeCount(n);
    FirstEdge(n);
    EdgesWellFormed(points, Vertices(n), n);
    LayoutSize(points, edges, n, Pow2(n));
    LayoutStart(points, edges);
  }

  /** The page's tesseract, `createHypercube(4)`: 32 edges and a 192-slot buffer. */
  lemma TesseractFrame(points: seq<seq<real>>)
    requires |points| == 16 && forall p :: 0 <= p < 16 ==> |points[p]| == 3
    ensures |Edges(Vertices(4), 4)| == 32 && Edges(Vertices(4), 4)[0] == Edge(0, 1)
    ensures WellFormed(points, Edges(Vertices(4), 4)) && |Layout(points, Edges(Vertices(4), 4))| == 192
  {
    assert Pow2(4) == 16;
    EdgeCount(4);
    FirstEdge(4);
    CubeFrame(4, points);
  }
}
