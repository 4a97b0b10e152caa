/**
 * What the lists of module `Cube` contain: the edge list holds exactly the
 * pairs of vertices at Hamming distance one, in strictly increasing order,
 * n * 2^(n-1) of them; the plane list is axis-major and each constant has a
 * closed form.  The counting proofs split the (n+1)-cube on its top bit
 * into two copies of the n-cube.
 */
module CubeFacts {
  import opened Bits
  import opened Cube

  // ------------------------------------------------------------- differences

  lemma {:induction false} DifferencesAppend(u: seq<int>, v: seq<int>, x: int, y: int, k: nat)
    requires |u| == |v| && k <= |u|
    ensures Differences(u + [x], v + [y], k) == Differences(u, v, k)
  {
    if k > 0 {
      DifferencesAppend(u, v, x, y, k - 1);
    }
  }

  /** Appending one coordinate to both vectors adds one difference exactly when the new coordinates differ. */
  lemma DifferencesExtend(u: seq<int>, v: seq<int>, x: int, y: int)
    requires |u| == |v|
    ensures Differences(u + [x], v + [y], |u| + 1) == Differences(u, v, |u|) + (if x != y then 1 else 0)
  {
    DifferencesAppend(u, v, x, y, |u|);
  }

  /** No differences below k means equal prefixes of length k. */
  lemma {:induction false} NoDifferencesEqual(u: seq<int>, v: seq<int>, k: nat)
    requires k <= |u| && k <= |v|
    ensures Differences(u, v, k) == 0 <==> u[..k] == v[..k]
  {
    if k > 0 {
      NoDifferencesEqual(u, v, k - 1);
      assert u[..k] == u[..k - 1] + [u[k - 1]];
      assert v[..k] == v[..k - 1] + [v[k - 1]];
      if u[..k] == v[..k] {
        assert u[..k][..k - 1] == v[..k][..k - 1];
      }
    }
  }

  lemma {:induction false} DifferencesSymmetric(u: seq<int>, v: seq<int>, k: nat)
    ensures Differences(u, v, k) == Differences(v, u, k)
  {
    if k > 0 {
      DifferencesSymmetric(u, v, k - 1);
    }
  }

  // ------------------------------------------------------ top-bit splitting

  /** Below 2^n, vertex i of the (n+1)-cube is vertex i of the n-cube with a last coordinate -1. */
  lemma VertexLow(n: nat, i: nat)
    requires n < WordBits && i < Pow2(n)
    ensures Vertex(n + 1, i) == Vertex(n, i) + [-1]
  {
    BelowPowerClear(i, n);
    assert Coord(i, n) == -1;
  }

  /** From 2^n on, vertex 2^n + a of the (n+1)-cube is vertex a of the n-cube with a last coordinate 1. */
  lemma VertexHigh(n: nat, a: nat)
    requires n < WordBits && a < Pow2(n)
    ensures Vertex(n + 1, Pow2(n) + a) == Vertex(n, a) + [1]
  {
    TopBitSet(a, n);
    forall j | 0 <= j < n
      ensures Coord(Pow2(n) + a, j) == Coord(a, j)
    {
      LowBitsUnchanged(a, n, j);
    }
  }

  /** Distinct indices give distinct vertices. */
  lemma {:induction false} VertexInjective(n: nat, a: nat, c: nat)
    requires n <= WordBits && a < Pow2(n) && c < Pow2(n) && Vertex(n, a) == Vertex(n, c)
    ensures a == c
  {
    if n > 0 {
      var m, N := n - 1, Pow2(n - 1);
      var a', x := if a < N then a else a - N, if a < N then -1 else 1;
      var c', y := if c < N then c else c - N, if c < N then -1 else 1;
      if a < N { VertexLow(m, a); } else { VertexHigh(m, a'); }
      if c < N { VertexLow(m, c); } else { VertexHigh(m, c'); }
      assert Vertex(m, a') + [x] == Vertex(m, c') + [y];
      assert (Vertex(m, a') + [x])[..m] == Vertex(m, a');
      assert (Vertex(m, c') + [y])[..m] == Vertex(m, c');
      assert (Vertex(m, a') + [x])[m] == x;
      VertexInjective(m, a', c');
    }
  }

  lemma AdjacentLow(n: nat, i: nat, j: nat)
    requires n < WordBits && i < Pow2(n) && j < Pow2(n)
    ensures Adjacent(Vertex(n + 1, i), Vertex(n + 1, j), n + 1) == Adjacent(Vertex(n, i), Vertex(n, j), n)
  {
    VertexLow(n, i);
    VertexLow(n, j);
    DifferencesExtend(Vertex(n, i), Vertex(n, j), -1, -1);
  }

  lemma AdjacentHigh(n: nat, a: nat, c: nat)
    requires n < WordBits && a < Pow2(n) && c < Pow2(n)
    ensures Adjacent(Vertex(n + 1, Pow2(n) + a), Vertex(n + 1, Pow2(n) + c), n + 1) == Adjacent(Vertex(n, a), Vertex(n, c), n)
  {
    VertexHigh(n, a);
    VertexHigh(n, c);
    DifferencesExtend(Vertex(n, a), Vertex(n, c), 1, 1);
  }

  /** Across the two halves, vertex i is adjacent to vertex 2^n + c exactly when c == i. */
  lemma AdjacentAcross(n: nat, i: nat, c: nat)
    requires n < WordBits && i < Pow2(n) && c < Pow2(n)
    ensures Adjacent(Vertex(n + 1, i), Vertex(n + 1, Pow2(n) + c), n + 1) <==> i == c
  {
    VertexLow(n, i);
    VertexHigh(n, c);
    DifferencesExtend(Vertex(n, i), Vertex(n, c), -1, 1);
    NoDifferencesEqual(Vertex(n, i), Vertex(n, c), n);
    assert Vertex(n, i)[..n] == Vertex(n, i) && Vertex(n, c)[..n] == Vertex(n, c);
    if Vertex(n, i) == Vertex(n, c) {
      VertexInjective(n, i, c);
    }
  }

  // -------------------------------------------------------------------- rows

  lemma {:induction false} RowSplit(vs: seq<seq<int>>, n: nat, i: nat, lo: nat, mid: nat, hi: nat)
    requires i < |vs| && lo <= mid <= hi <= |vs|
    ensures Row(vs, n, i, lo, hi) == Row(vs, n, i, lo, mid) + Row(vs, n, i, mid, hi)
    decreases hi
  {
    if hi > mid {
      RowSplit(vs, n, i, lo, mid, hi - 1);
    }
  }

  /** Two rows whose candidates agree on adjacency, position by position, have equal length. */
  lemma {:induction false} RowLengthMatch(vs: seq<seq<int>>, n: nat, i: nat, ws: seq<seq<int>>, m: nat, i': nat,
                                         lo: nat, hi: nat, d: nat)
    requires i < |vs| && hi <= |vs| && i' < |ws| && hi + d <= |ws|
    requires forall j :: lo <= j < hi ==> (Adjacent(ws[i'], ws[j + d], m) <==> Adjacent(vs[i], vs[j], n))
    ensures |Row(ws, m, i', lo + d, hi + d)| == |Row(vs, n, i, lo, hi)|
    decreases hi
  {
    if hi > lo {
      RowLengthMatch(vs, n, i, ws, m, i', lo, hi - 1, d);
    }
  }

  /** `RowLengthMatch` with the shifted bounds named, so that callers need no arithmetic on them. */
  lemma RowLengthShifted(vs: seq<seq<int>>, n: nat, i: nat, ws: seq<seq<int>>, m: nat, i': nat,
                         lo: nat, hi: nat, d: nat, lo': nat, hi': nat)
    requires i < |vs| && hi <= |vs| && i' < |ws| && hi + d <= |ws| && lo' == lo + d && hi' == hi + d
    requires forall j :: lo <= j < hi ==> (Adjacent(ws[i'], ws[j + d], m) <==> Adjacent(vs[i], vs[j], n))
    ensures |Row(ws, m, i', lo', hi')| == |Row(vs, n, i, lo, hi)|
  {
    RowLengthMatch(vs, n, i, ws, m, i', lo, hi, d);
  }

  /** A row with a single adjacent candidate j0 has one edge once it reaches j0. */
  lemma {:induction false} RowSingle(vs: seq<seq<int>>, n: nat, i: nat, lo: nat, hi: nat, j0: nat)
    requires i < |vs| && hi <= |vs| && lo <= j0
    requires forall j :: lo <= j < hi ==> (Adjacent(vs[i], vs[j], n) <==> j == j0)
    ensures |Row(vs, n, i, lo, hi)| == if j0 < hi then 1 else 0
    decreases hi
  {
    if hi > lo {
      RowSingle(vs, n, i, lo, hi - 1, j0);
    }
  }

  lemma {:induction false} RowMembers(vs: seq<seq<int>>, n: nat, i: nat, lo: nat, hi: nat, e: Edge)
    requires i < |vs| && hi <= |vs|
    ensures e in Row(vs, n, i, lo, hi) <==> e.a == i && lo <= e.b < hi && Adjacent(vs[i], vs[e.b], n)
    decreases hi
  {
    if hi > lo {
      RowMembers(vs, n, i, lo, hi - 1, e);
    }
  }

  lemma {:induction false} RowIncreasing(vs: seq<seq<int>>, n: nat, i: nat, lo: nat, hi: nat)
    requires i < |vs| && hi <= |vs|
    ensures StrictlyIncreasing(Row(vs, n, i, lo, hi))
    decreases hi
  {
    if hi > lo {
      RowIncreasing(vs, n, i, lo, hi - 1);
      var r := Row(vs, n, i, lo, hi - 1);
      forall p | 0 <= p < |r|
        ensures r[p].a == i && r[p].b < hi - 1
      {
        RowMembers(vs, n, i, lo, hi - 1, r[p]);
      }
    }
  }

  // ------------------------------------------------------------------- edges

  /** Number of edges the inner loop emits for row i. */
  function RowSize(vs: seq<seq<int>>, n: nat, i: nat): nat
    requires i < |vs|
  {
    |Row(vs, n, i, i + 1, |vs|)|
  }

  /** Row a adds its own edges to the list for the rows below a. */
  lemma EdgesBeforeLength(vs: seq<seq<int>>, n: nat, a: nat)
    requires a < |vs|
    ensures |EdgesBefore(vs, n, a + 1)| == |EdgesBefore(vs, n, a)| + RowSize(vs, n, a)
  {
  }

  lemma {:induction false} EdgesBeforeMembers(vs: seq<seq<int>>, n: nat, m: nat, e: Edge)
    requires m <= |vs|
    ensures e in EdgesBefore(vs, n, m) <==> e.a < m && e.a < e.b < |vs| && Adjacent(vs[e.a], vs[e.b], n)
  {
    if m > 0 {
      EdgesBeforeMembers(vs, n, m - 1, e);
      RowMembers(vs, n, m - 1, m, |vs|, e);
      calc {
        e in EdgesBefore(vs, n, m);
        e in EdgesBefore(vs, n, m - 1) + Row(vs, n, m - 1, m, |vs|);
        e in EdgesBefore(vs, n, m - 1) || e in Row(vs, n, m - 1, m, |vs|);
      }
    }
  }

  /** An edge (a, b) is listed exactly when a < b are vertex indices whose vertices differ in one coordinate. */
  lemma EdgeMembership(vs: seq<seq<int>>, n: nat, e: Edge)
    ensures e in Edges(vs, n) <==> e.a < e.b < |vs| && Adjacent(vs[e.a], vs[e.b], n)
  {
    EdgesBeforeMembers(vs, n, |vs|, e);
  }

  lemma ConcatIncreasing(x: seq<Edge>, y: seq<Edge>)
    requires StrictlyIncreasing(x) && StrictlyIncreasing(y)
    requires forall p, q :: 0 <= p < |x| && 0 <= q < |y| ==> Before(x[p], y[q])
    ensures StrictlyIncreasing(x + y)
  {
    var z := x + y;
    forall p, q | 0 <= p < q < |z|
      ensures Before(z[p], z[q])
    {
      if q < |x| {
        assert z[p] == x[p] && z[q] == x[q];
      } else if p < |x| {
        assert z[p] == x[p] && z[q] == y[q - |x|];
      } else {
        assert z[p] == y[p - |x|] && z[q] == y[q - |x|];
      }
    }
  }

  lemma {:induction false} EdgesBeforeIncreasing(vs: seq<seq<int>>, n: nat, m: nat)
    requires m <= |vs|
    ensures StrictlyIncreasing(EdgesBefore(vs, n, m))
  {
    if m > 0 {
      EdgesBeforeIncreasing(vs, n, m - 1);
      var x, y := EdgesBefore(vs, n, m - 1), Row(vs, n, m - 1, m, |vs|);
      RowIncreasing(vs, n, m - 1, m, |vs|);
      forall p | 0 <= p < |x|
        ensures x[p].a < m - 1
      {
        EdgesBeforeMembers(vs, n, m - 1, x[p]);
      }
      forall q | 0 <= q < |y|
        ensures y[q].a == m - 1
      {
        RowMembers(vs, n, m - 1, m, |vs|, y[q]);
      }
      ConcatIncreasing(x, y);
    }
  }

  /** The edge list is in strictly increasing lexicographic order, hence free of duplicates. */
  lemma EdgesIncreasing(vs: seq<seq<int>>, n: nat)
    ensures StrictlyIncreasing(Edges(vs, n))
  {
    EdgesBeforeIncreasing(vs, n, |vs|);
  }

  // -------------------------------------------------------------- edge count

  /** The part of row i < 2^n of the (n+1)-cube inside the lower half is the n-cube's row i. */
  lemma RowLowerHalf(n: nat, i: nat)
    requires n < WordBits && i < Pow2(n)
    ensures Pow2(n) <= |Vertices(n + 1)|
    ensures |Row(Vertices(n + 1), n + 1, i, i + 1, Pow2(n))| == |Row(Vertices(n), n, i, i + 1, Pow2(n))|
  {
    var N, ws, vs := Pow2(n), Vertices(n + 1), Vertices(n);
    forall j | i + 1 <= j < N
      ensures Adjacent(ws[i], ws[j + 0], n + 1) <==> Adjacent(vs[i], vs[j], n)
    {
      assert ws[i] == Vertex(n + 1, i) && ws[j] == Vertex(n + 1, j);
      AdjacentLow(n, i, j);
    }
    RowLengthMatch(vs, n, i, ws, n + 1, i, i + 1, N, 0);
  }

  /** The part of row i < 2^n of the (n+1)-cube inside the upper half is the single edge to 2^n + i. */
  lemma RowUpperHalf(n: nat, i: nat)
    requires n < WordBits && i < Pow2(n)
    ensures |Vertices(n + 1)| == 2 * Pow2(n)
    ensures |Row(Vertices(n + 1), n + 1, i, Pow2(n), 2 * Pow2(n))| == 1
  {
    var N, ws := Pow2(n), Vertices(n + 1);
    forall j | N <= j < 2 * N
      ensures Adjacent(ws[i], ws[j], n + 1) <==> j == N + i
    {
      assert ws[i] == Vertex(n + 1, i) && ws[j] == Vertex(n + 1, N + (j - N));
      AdjacentAcross(n, i, j - N);
    }
    RowSingle(ws, n + 1, i, N, 2 * N, N + i);
  }

  /** Row i < 2^n of the (n+1)-cube: the n-cube's row plus the edge to i + 2^n. */
  lemma RowCountLow(n: nat, i: nat)
    requires n < WordBits && i < Pow2(n)
    ensures |Vertices(n + 1)| == Pow2(n) + Pow2(n) && |Vertices(n)| == Pow2(n)
    ensures RowSize(Vertices(n + 1), n + 1, i) == RowSize(Vertices(n), n, i) + 1
  {
    RowLowerHalf(n, i);
    RowUpperHalf(n, i);
    RowSplit(Vertices(n + 1), n + 1, i, i + 1, Pow2(n), 2 * Pow2(n));
  }

  /** In the upper half of the (n+1)-cube, row 2^n + a agrees with row a of the n-cube, candidate by candidate. */
  lemma HighRowAgrees(n: nat, a: nat)
    requires n < WordBits && a < Pow2(n)
    ensures |Vertices(n + 1)| == Pow2(n) + Pow2(n) && |Vertices(n)| == Pow2(n)
    ensures forall j :: a + 1 <= j < Pow2(n) ==>
              (Adjacent(Vertices(n + 1)[Pow2(n) + a], Vertices(n + 1)[j + Pow2(n)], n + 1)
               <==> Adjacent(Vertices(n)[a], Vertices(n)[j], n))
  {
    forall j | a + 1 <= j < Pow2(n)
      ensures Adjacent(Vertices(n + 1)[Pow2(n) + a], Vertices(n + 1)[j + Pow2(n)], n + 1)
          <==> Adjacent(Vertices(n)[a], Vertices(n)[j], n)
    {
      AdjacentHigh(n, a, j);
    }
  }

  /** Row 2^n + a of the (n+1)-cube is row a of the n-cube, shifted. */
  lemma RowCountHigh(n: nat, a: nat)
    requires n < WordBits && a < Pow2(n)
    ensures |Vertices(n + 1)| == Pow2(n) + Pow2(n) && |Vertices(n)| == Pow2(n)
    ensures RowSize(Vertices(n + 1), n + 1, Pow2(n) + a) == RowSize(Vertices(n), n, a)
  {
    HighRowAgrees(n, a);
    var N := Pow2(n);
    RowLengthShifted(Vertices(n), n, a, Vertices(n + 1), n + 1, N + a, a + 1, N, N, N + a + 1, |Vertices(n + 1)|);
  }

  /** The rows below m <= N of a 2N-vertex list, each one edge longer than the same row of an N-vertex list. */
  lemma {:induction false} LowerRows(ws: seq<seq<int>>, k: nat, vs: seq<seq<int>>, n: nat, N: nat, m: nat)
    requires |ws| == N + N && |vs| == N && m <= N
    requires forall a :: 0 <= a < N ==> RowSize(ws, k, a) == RowSize(vs, n, a) + 1
    ensures |EdgesBefore(ws, k, m)| == |EdgesBefore(vs, n, m)| + m
  {
    if m > 0 {
      LowerRows(ws, k, vs, n, N, m - 1);
      EdgesBeforeLength(ws, k, m - 1);
      EdgesBeforeLength(vs, n, m - 1);
    }
  }

  /** The rows N .. N + m - 1 of a 2N-vertex list, each as long as row a of an N-vertex list. */
  lemma {:induction false} UpperRows(ws: seq<seq<int>>, k: nat, vs: seq<seq<int>>, n: nat, N: nat, m: nat)
    requires |ws| == N + N && |vs| == N && m <= N
    requires forall a :: 0 <= a < N ==> RowSize(ws, k, N + a) == RowSize(vs, n, a)
    ensures |EdgesBefore(ws, k, N + m)| == |EdgesBefore(ws, k, N)| + |EdgesBefore(vs, n, m)|
  {
    if m > 0 {
      UpperRows(ws, k, vs, n, N, m - 1);
      EdgesBeforeLength(ws, k, N + m - 1);
      EdgesBeforeLength(vs, n, m - 1);
    }
  }

  /** Every row of the lower half of the (n+1)-cube is one edge longer than in the n-cube. */
  lemma LowHalfRows(n: nat)
    requires n < WordBits
    ensures |Vertices(n + 1)| == Pow2(n) + Pow2(n) && |Vertices(n)| == Pow2(n)
    ensures forall a :: 0 <= a < Pow2(n) ==> RowSize(Vertices(n + 1), n + 1, a) == RowSize(Vertices(n), n, a) + 1
  {
    RowCountLow(n, 0);
    forall a | 0 <= a < Pow2(n)
      ensures RowSize(Vertices(n + 1), n + 1, a) == RowSize(Vertices(n), n, a) + 1
    {
      RowCountLow(n, a);
    }
  }

  /** Every row of the upper half of the (n+1)-cube is as long as the matching row of the n-cube. */
  lemma HighHalfRows(n: nat)
    requires n < WordBits
    ensures |Vertices(n + 1)| == Pow2(n) + Pow2(n) && |Vertices(n)| == Pow2(n)
    ensures forall a :: 0 <= a < Pow2(n) ==> RowSize(Vertices(n + 1), n + 1, Pow2(n) + a) == RowSize(Vertices(n), n, a)
  {
    RowCountLow(n, 0);
    forall a | 0 <= a < Pow2(n)
      ensures RowSize(Vertices(n + 1), n + 1, Pow2(n) + a) == RowSize(Vertices(n), n, a)
    {
      RowCountHigh(n, a);
    }
  }

  /** Splitting the (n+1)-cube on its top bit: E(n+1) == 2 E(n) + 2^n. */
  lemma CubeSplit(n: nat)
    requires n < WordBits
    ensures |Edges(Vertices(n + 1), n + 1)| == 2 * |Edges(Vertices(n), n)| + Pow2(n)
  {
    LowHalfRows(n);
    HighHalfRows(n);
    LowerRows(Vertices(n + 1), n + 1, Vertices(n), n, Pow2(n), Pow2(n));
    UpperRows(Vertices(n + 1), n + 1, Vertices(n), n, Pow2(n), Pow2(n));
  }

  lemma DoublingStep(m: nat, p: nat, e: nat)
    requires 2 * e == m * p
    ensures 2 * (2 * e + p) == (m + 1) * (2 * p)
  {
    assert (m + 1) * (2 * p) == 2 * (m * p) + 2 * p;
  }

  /** The n-cube has n * 2^(n-1) edges (none when n == 0). */
  lemma {:induction false} EdgeCount(n: nat)
    requires n <= WordBits
    ensures 2 * |Edges(Vertices(n), n)| == n * Pow2(n)
    ensures n >= 1 ==> |Edges(Vertices(n), n)| == n * Pow2(n - 1)
  {
    if n == 0 {
      assert Edges(Vertices(0), 0) == Row(Vertices(0), 0, 0, 1, 1);
    } else {
      var m, N := n - 1, Pow2(n - 1);
      var e := |Edges(Vertices(m), m)|;
      EdgeCount(m);
      CubeSplit(m);
      DoublingStep(m, N, e);
    }
  }

  // ---------------------------------------------------- adjacency as bit flip

  /** Flipping bit k < n of an index below 2^n keeps it a valid index. */
  lemma FlipStaysBelow(n: nat, i: nat, k: nat)
    requires i < Pow2(n)
    ensures k < n ==> if BitSet(i, k) then i >= Pow2(k) else i + Pow2(k) < Pow2(n)
  {
    if k < n {
      if BitSet(i, k) {
        BitSetAtLeast(i, k);
      } else {
        SetClearBitStaysBelow(i, n, k);
      }
    }
  }

  /** Two vertices are adjacent exactly when their indices differ in one bit: i XOR j is a power of two. */
  lemma {:induction false} AdjacentIffFlip(n: nat, i: nat, j: nat)
    requires n <= WordBits && i < Pow2(n) && j < Pow2(n)
    ensures Adjacent(Vertex(n, i), Vertex(n, j), n) <==> FlipsOneBit(n, i, j)
  {
    if n > 0 {
      var m, N := n - 1, Pow2(n - 1);
      if i < N && j < N {
        AdjacentLow(m, i, j);
        AdjacentIffFlip(m, i, j);
        BelowPowerClear(i, m);
        if FlipsOneBit(n, i, j) {
          var k :| 0 <= k < n && FlipsBit(i, j, k);
          assert 0 <= k < m && FlipsBit(i, j, k);
        }
        if FlipsOneBit(m, i, j) {
          var k :| 0 <= k < m && FlipsBit(i, j, k);
          assert 0 <= k < n && FlipsBit(i, j, k);
        }
      } else if i < N {
        var c := j - N;
        AdjacentAcross(m, i, c);
        BelowPowerClear(i, m);
        if i == c {
          assert FlipsBit(i, j, m);
        }
        if FlipsOneBit(n, i, j) {
          var k :| 0 <= k < n && FlipsBit(i, j, k);
          FlipStaysBelow(m, i, k);
        }
      } else if j < N {
        var a := i - N;
        AdjacentAcross(m, j, a);
        DifferencesSymmetric(Vertex(n, i), Vertex(n, j), n);
        TopBitSet(a, m);
        if a == j {
          assert FlipsBit(i, j, m);
        }
        if FlipsOneBit(n, i, j) {
          var k :| 0 <= k < n && FlipsBit(i, j, k);
          FlipStaysBelow(m, a, k);
          if k < m {
            LowBitsUnchanged(a, m, k);
          }
        }
      } else {
        var a, c := i - N, j - N;
        AdjacentHigh(m, a, c);
        AdjacentIffFlip(m, a, c);
        TopBitSet(a, m);
        if FlipsOneBit(n, i, j) {
          var k :| 0 <= k < n && FlipsBit(i, j, k);
          if k < m {
            LowBitsUnchanged(a, m, k);
            assert FlipsBit(a, c, k);
          }
        }
        if FlipsOneBit(m, a, c) {
          var k :| 0 <= k < m && FlipsBit(a, c, k);
          LowBitsUnchanged(a, m, k);
          assert FlipsBit(i, j, k);
        }
      }
    }
  }

  /** The edges from vertex a of the n-cube go to a + 2^k, one for each clear bit k of a. */
  lemma EdgeIffBitFlip(n: nat, e: Edge)
    requires n <= WordBits
    ensures e in Edges(Vertices(n), n) <==> e.b < Pow2(n) && SetsClearBit(n, e.a, e.b)
  {
    EdgeMembership(Vertices(n), n, e);
    if e.a < e.b < Pow2(n) {
      AdjacentIffFlip(n, e.a, e.b);
      if FlipsOneBit(n, e.a, e.b) {
        var k :| 0 <= k < n && FlipsBit(e.a, e.b, k);
        assert !BitSet(e.a, k) && e.b == e.a + Pow2(k);
      }
      if SetsClearBit(n, e.a, e.b) {
        var k :| 0 <= k < n && !BitSet(e.a, k) && e.b == e.a + Pow2(k);
        assert FlipsBit(e.a, e.b, k);
      }
    }
  }

  /** For n >= 1 the first edge listed is (0, 1). */
  lemma FirstEdge(n: nat)
    requires 1 <= n <= WordBits
    ensures |Edges(Vertices(n), n)| > 0 && Edges(Vertices(n), n)[0] == Edge(0, 1)
  {
    var edges := Edges(Vertices(n), n);
    EdgeIffBitFlip(n, Edge(0, 1));
    var e := Edge(0, 1);
    assert 0 <= 0 < n && !BitSet(e.a, 0) && e.b == e.a + Pow2(0) && e.b < Pow2(n);
    assert SetsClearBit(n, e.a, e.b);
    assert e in edges;
    var q :| 0 <= q < |edges| && edges[q] == Edge(0, 1);
    EdgeMembership(Vertices(n), n, edges[0]);
    EdgesIncreasing(Vertices(n), n);
    assert q == 0;
  }

  // ------------------------------------------------------------------ planes

  lemma {:induction false} PlanesLength(vs: seq<seq<int>>, m: nat)
    ensures |PlanesBefore(vs, m)| == m * |vs|
  {
    if m > 0 {
      PlanesLength(vs, m - 1);
      assert m * |vs| == (m - 1) * |vs| + |vs|;
    }
  }

  /** Planes are axis-major: entry axis * |vs| + j is the plane for that axis through vertex j. */
  lemma {:induction false} PlaneIndex(vs: seq<seq<int>>, m: nat, axis: nat, j: nat)
    requires axis < m && j < |vs|
    ensures axis * |vs| + j < |PlanesBefore(vs, m)|
    ensures PlanesBefore(vs, m)[axis * |vs| + j] == PlaneAt(vs[j], axis)
  {
    PlanesLength(vs, m - 1);
    PlanesLength(vs, m);
    assert m * |vs| == (m - 1) * |vs| + |vs|;
    if axis < m - 1 {
      PlaneIndex(vs, m - 1, axis, j);
    }
  }

  /** The running dot product of a normal with its vertex: ones off the axis, minus the axis coordinate. */
  lemma {:induction false} DotNormal(v: seq<int>, axis: nat, k: nat)
    requires k <= |v|
    ensures Dot(Normal(v, axis), v, k) == OnesExcept(v, axis, k) - (if axis < k then v[axis] else 0)
  {
    if k > 0 {
      DotNormal(v, axis, k - 1);
    }
  }

  /**
   * The plane for (axis, vertex j) of the n-cube: its normal has -1 on the
   * axis and elsewhere 1 where vertex j has 1, else 0; its constant is the
   * normal dotted with the vertex, that is the number of other coordinates
   * equal to 1 minus the axis coordinate.
   */
  lemma HypercubePlane(n: nat, axis: nat, j: nat)
    requires axis < n && j < Pow2(n)
    ensures |Planes(Vertices(n), n)| == n * Pow2(n) && axis * Pow2(n) + j < n * Pow2(n)
    ensures var p := Planes(Vertices(n), n)[axis * Pow2(n) + j];
            && |p.normal| == n
            && p.normal[axis] == -1
            && (forall k :: 0 <= k < n && k != axis ==> p.normal[k] == if MaskHit(j, k) then 1 else 0)
            && p.constant == Dot(p.normal, Vertex(n, j), n)
            && p.constant == OnesExcept(Vertex(n, j), axis, n) - Coord(j, axis)
  {
    PlanesLength(Vertices(n), n);
    PlaneIndex(Vertices(n), n, axis, j);
    DotNormal(Vertex(n, j), axis, n);
  }
}
