/**
 * `createHypercube(length)`: the nested loops that list the vertices, the
 * edges and the bounding planes of the n-cube, each growing its list one
 * push at a time.  Every method is proved equal to the function of module
 * `Cube` that describes its list; module `CubeFacts` proves what those
 * lists contain.
 */
module Hypercube {
  import opened Bits
  import opened Cube
  import opened CubeFacts

  /** The vertex loop: vertex i gets coordinate j = 1 when `i & 2^j` is non-zero, else -1. */
  method GenerateVertices(n: nat) returns (vertices: seq<seq<int>>)
    ensures vertices == Vertices(n)
    ensures |vertices| == Pow2(n)
    ensures forall i :: 0 <= i < |vertices| ==> |vertices[i]| == n
    ensures forall i, j :: 0 <= i < |vertices| && 0 <= j < n ==>
              (vertices[i][j] == 1 <==> MaskHit(i, j)) && vertices[i][j] in {-1, 1}
  {
    vertices := [];
    var numVertices := Pow2(n);
    var i := 0;
    while i < numVertices
      invariant 0 <= i <= numVertices
      invariant vertices == Vertices(n)[..i]
    {
      var vertex := [];
      var j := 0;
      while j < n
        invariant 0 <= j <= n
        invariant vertex == Vertex(n, i)[..j]
      {
        vertex := vertex + [if MaskHit(i, j) then 1 else -1];
        j := j + 1;
      }
      assert vertex == Vertices(n)[i];
      assert Vertices(n)[..i + 1] == Vertices(n)[..i] + [Vertices(n)[i]];
      vertices := vertices + [vertex];
      i := i + 1;
    }
  }

  /** The edge loop: every pair i < j whose vertices differ in exactly one of the n coordinates. */
  method ConnectAdjacent(vertices: seq<seq<int>>, n: nat) returns (edges: seq<Edge>)
    requires forall i :: 0 <= i < |vertices| ==> |vertices[i]| == n
    ensures edges == Edges(vertices, n)
    ensures StrictlyIncreasing(edges)
    ensures forall e :: e in edges <==> e.a < e.b < |vertices| && Adjacent(vertices[e.a], vertices[e.b], n)
  {
    edges := [];
    var numVertices := |vertices|;
    var i := 0;
    while i < numVertices
      invariant 0 <= i <= numVertices
      invariant edges == EdgesBefore(vertices, n, i)
    {
      var j := i + 1;
      while j < numVertices
        invariant i + 1 <= j <= numVertices
        invariant edges == EdgesBefore(vertices, n, i) + Row(vertices, n, i, i + 1, j)
      {
        var numDiffs := 0;
        var k := 0;
        while k < n
          invariant 0 <= k <= n
          invariant numDiffs == Differences(vertices[i], vertices[j], k)
        {
          if vertices[i][k] != vertices[j][k] {
            numDiffs := numDiffs + 1;
          }
          k := k + 1;
        }
        assert Row(vertices, n, i, i + 1, j + 1) ==
               Row(vertices, n, i, i + 1, j) + (if numDiffs == 1 then [Edge(i, j)] else []);
        if numDiffs == 1 {
          edges := edges + [Edge(i, j)];
        }
        j := j + 1;
      }
      assert EdgesBefore(vertices, n, i + 1) == EdgesBefore(vertices, n, i) + Row(vertices, n, i, i + 1, numVertices);
      i := i + 1;
    }
    EdgesIncreasing(vertices, n);
    forall e ensures e in edges <==> e.a < e.b < |vertices| && Adjacent(vertices[e.a], vertices[e.b], n) {
      EdgeMembership(vertices, n, e);
    }
  }

  /** The plane loop: for each axis, for each vertex, the normal and the running dot product. */
  method BoundingPlanes(vertices: seq<seq<int>>, n: nat) returns (planes: seq<Plane>)
    requires forall j :: 0 <= j < |vertices| ==> |vertices[j]| == n
    ensures planes == Planes(vertices, n)
    ensures |planes| == n * |vertices|
  {
    planes := [];
    var numVertices := |vertices|;
    var i := 0;
    while i < n
      invariant 0 <= i <= n
      invariant planes == PlanesBefore(vertices, i)
    {
      var j := 0;
      while j < numVertices
        invariant 0 <= j <= numVertices
        invariant planes == PlanesBefore(vertices, i) + AxisPlanes(vertices, i)[..j]
      {
        var plane := [];
        var constant := 0;
        var k := 0;
        while k < n
          invariant 0 <= k <= n
          invariant plane == Normal(vertices[j], i)[..k]
          invariant constant == Dot(Normal(vertices[j], i), vertices[j], k)
        {
          var coeff := 0;
          if k == i {
            coeff := -1;
          } else if vertices[j][k] == 1 {
            coeff := 1;
          }
          plane := plane + [coeff];
          constant := constant + coeff * vertices[j][k];
          k := k + 1;
        }
        assert Plane(plane, constant) == AxisPlanes(vertices, i)[j];
        assert AxisPlanes(vertices, i)[..j + 1] == AxisPlanes(vertices, i)[..j] + [AxisPlanes(vertices, i)[j]];
        planes := planes + [Plane(plane, constant)];
        j := j + 1;
      }
      assert AxisPlanes(vertices, i)[..numVertices] == AxisPlanes(vertices, i);
      i := i + 1;
    }
    PlanesLength(vertices, n);
  }

  /**
   * `createHypercube(n)`: vertices, edges and planes of the n-cube.  Within
   * the 32-bit word of the bit test, it has 2^n vertices, n * 2^(n-1) edges
   * listed in strictly increasing order (the edges from vertex a go to
   * a + 2^k for each clear bit k of a), and n * 2^n planes.
   */
  method CreateHypercube(n: nat) returns (vertices: seq<seq<int>>, edges: seq<Edge>, planes: seq<Plane>)
    ensures vertices == Vertices(n) && edges == Edges(vertices, n) && planes == Planes(vertices, n)
    ensures |vertices| == Pow2(n) && |planes| == n * Pow2(n)
    ensures StrictlyIncreasing(edges)
    ensures n <= WordBits ==> 2 * |edges| == n * Pow2(n)
    ensures n <= WordBits ==> forall e :: e in edges <==> e.b < Pow2(n) && SetsClearBit(n, e.a, e.b)
  {
    vertices := GenerateVertices(n);
    edges := ConnectAdjacent(vertices, n);
    planes := BoundingPlanes(vertices, n);
    if n <= WordBits {
      EdgeCount(n);
      forall e
        ensures e in edges <==> e.b < Pow2(n) && SetsClearBit(n, e.a, e.b)
      {
        EdgeIffBitFlip(n, e);
      }
    }
  }
}
