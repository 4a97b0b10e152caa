/**
 * What `createHypercube(n)` computes, stated as functions.
 *
 * Vertices are the 2^n sign vectors in {-1, 1}^n, listed by index; edges
 * are the index pairs (i, j), i < j, whose vertices differ in exactly one
 * coordinate, in the order the nested loops emit them; planes are one
 * (normal, constant) pair per (axis, vertex), axis-major.  The vertices
 * are sequence comprehensions; the edge and plane lists and the running
 * counts are defined by the prefix the loops have built so far, so that
 * the methods in module `Hypercube` can use these functions as loop
 * invariants.
 */
module Cube {
  import opened Bits

  /** An edge of the wireframe, as the two indices of its end vertices. */
  datatype Edge = Edge(a: nat, b: nat)

  /** A bounding hyperplane: its normal vector and its constant. */
  datatype Plane = Plane(normal: seq<int>, constant: int)

  // ---------------------------------------------------------------- vertices

  /** Coordinate j of vertex i: 1 when `i & 2^j` is non-zero, -1 otherwise. */
  function Coord(i: nat, j: nat): int
  {
    if MaskHit(i, j) then 1 else -1
  }

  /** Vertex i of the n-cube. */
  function Vertex(n: nat, i: nat): seq<int>
  {
    seq(n, j requires 0 <= j < n => Coord(i, j))
  }

  /** The 2^n vertices of the n-cube, by index. */
  function Vertices(n: nat): seq<seq<int>>
  {
    seq(Pow2(n), i requires 0 <= i < Pow2(n) => Vertex(n, i))
  }

  // ------------------------------------------------------------------- edges

  /** Number of positions below k, inside both vectors, where u and v differ. */
  function Differences(u: seq<int>, v: seq<int>, k: nat): nat
  {
    if k == 0 then 0
    else Differences(u, v, k - 1) + (if k - 1 < |u| && k - 1 < |v| && u[k - 1] != v[k - 1] then 1 else 0)
  }

  /** Two vertices of the n-cube are joined by an edge: they differ in exactly one coordinate. */
  predicate Adjacent(u: seq<int>, v: seq<int>, n: nat)
  {
    Differences(u, v, n) == 1
  }

  /** The edges (i, j) with lo <= j < hi, in increasing j: part of the inner loop's output for row i. */
  function Row(vs: seq<seq<int>>, n: nat, i: nat, lo: nat, hi: nat): seq<Edge>
    requires i < |vs| && hi <= |vs|
  {
    if hi <= lo then []
    else Row(vs, n, i, lo, hi - 1) + (if Adjacent(vs[i], vs[hi - 1], n) then [Edge(i, hi - 1)] else [])
  }

  /** The edges emitted for the rows i < m. */
  function EdgesBefore(vs: seq<seq<int>>, n: nat, m: nat): seq<Edge>
    requires m <= |vs|
  {
    if m == 0 then [] else EdgesBefore(vs, n, m - 1) + Row(vs, n, m - 1, m, |vs|)
  }

  /** The whole edge list built from the vertex list `vs` of the n-cube. */
  function Edges(vs: seq<seq<int>>, n: nat): seq<Edge>
  {
    EdgesBefore(vs, n, |vs|)
  }

  /** Lexicographic order on edges. */
  predicate Before(e: Edge, f: Edge)
  {
    e.a < f.a || (e.a == f.a && e.b < f.b)
  }

  predicate StrictlyIncreasing(es: seq<Edge>)
  {
    forall p, q :: 0 <= p < q < |es| ==> Before(es[p], es[q])
  }

  // ------------------------------------------------------------------ planes

  /** Coefficient of a normal: -1 on the plane's axis, else 1 where the vertex has 1, else 0. */
  function Coefficient(x: int, onAxis: bool): int
  {
    if onAxis then -1 else if x == 1 then 1 else 0
  }

  /** Normal of the plane through vertex v across the given axis. */
  function Normal(v: seq<int>, axis: nat): seq<int>
  {
    seq(|v|, k requires 0 <= k < |v| => Coefficient(v[k], k == axis))
  }

  /** Dot product of the first k entries (those inside both vectors). */
  function Dot(a: seq<int>, b: seq<int>, k: nat): int
  {
    if k == 0 then 0
    else Dot(a, b, k - 1) + (if k - 1 < |a| && k - 1 < |b| then a[k - 1] * b[k - 1] else 0)
  }

  /** The plane for one (axis, vertex) pair: its constant is the normal dotted with the vertex. */
  function PlaneAt(v: seq<int>, axis: nat): Plane
  {
    var normal := Normal(v, axis);
    Plane(normal, Dot(normal, v, |v|))
  }

  /** The planes of one axis, one per vertex, in vertex order. */
  function AxisPlanes(vs: seq<seq<int>>, axis: nat): seq<Plane>
  {
    seq(|vs|, j requires 0 <= j < |vs| => PlaneAt(vs[j], axis))
  }

  /** The planes emitted for the axes below m. */
  function PlanesBefore(vs: seq<seq<int>>, m: nat): seq<Plane>
  {
    if m == 0 then [] else PlanesBefore(vs, m - 1) + AxisPlanes(vs, m - 1)
  }

  /** The whole plane list for the n-cube with vertex list vs. */
  function Planes(vs: seq<seq<int>>, n: nat): seq<Plane>
  {
    PlanesBefore(vs, n)
  }

  /** Number of positions p below k, other than `axis`, where v holds 1. */
  function OnesExcept(v: seq<int>, axis: nat, k: nat): nat
  {
    if k == 0 then 0
    else OnesExcept(v, axis, k - 1) + (if k - 1 < |v| && k - 1 != axis && v[k - 1] == 1 then 1 else 0)
  }

  // ------------------------------------------------------- index arithmetic

  /** Index j is index i with bit k flipped: i XOR j == 2^k. */
  predicate FlipsBit(i: nat, j: nat, k: nat)
  {
    if BitSet(i, k) then i == j + Pow2(k) else j == i + Pow2(k)
  }

  /** i XOR j is a single power of two below 2^n. */
  predicate FlipsOneBit(n: nat, i: nat, j: nat)
  {
    exists k :: 0 <= k < n && FlipsBit(i, j, k)
  }

  /** j is i with one of its clear bits k < n set: j == i + 2^k. */
  predicate SetsClearBit(n: nat, i: nat, j: nat)
  {
    exists k :: 0 <= k < n && !BitSet(i, k) && j == i + Pow2(k)
  }
}
