/**
 * Holding a lattice steady across frames: the mean distance between two
 * lattices of the same shape, with 999999 standing for "not comparable",
 * and the rule by which `update_grid` keeps or replaces its last valid
 * lattice and the homography computed from that lattice's corners.
 */
module LatticeTrack {
  import opened Common
  import opened Lattice
  import opened LatticeCluster
  import opened LatticeRows
  import opened LatticeCells

  /** The distance returned for lattices that are not comparable. */
  const Sentinel: real := 999999.0

  /** A difference of two points. */
  type Vector = (int, int)

  /** The difference vector `[xA - xB, yA - yB]` whose norm is taken. */
  function Diff(p: Point, q: Point): Vector
  {
    (p.0 - q.0, p.1 - q.1)
  }

  /** The opposite difference. */
  function Neg(v: Vector): Vector
  {
    (-v.0, -v.1)
  }

  /** The number of pairs `zip` makes of two rows. */
  function ZipLength(a: seq<Point>, b: seq<Point>): nat
  {
    if |a| < |b| then |a| else |b|
  }

  /** The summed norms of the first `n` pairs of two rows. */
  function RowSum(a: seq<Point>, b: seq<Point>, n: nat, norm: Vector -> real): real
    requires n <= |a| && n <= |b|
  {
    if n == 0 then 0.0 else RowSum(a, b, n - 1, norm) + norm(Diff(a[n - 1], b[n - 1]))
  }

  /** The summed norms over the first `r` row pairs. */
  function GridSum(ga: Grid, gb: Grid, r: nat, norm: Vector -> real): real
    requires r <= |ga| && r <= |gb|
  {
    if r == 0 then 0.0 else GridSum(ga, gb, r - 1, norm) + RowSum(ga[r - 1], gb[r - 1], ZipLength(ga[r - 1], gb[r - 1]), norm)
  }

  /** The number of points of the first `r` rows. */
  function GridPoints(g: Grid, r: nat): nat
    requires r <= |g|
  {
    if r == 0 then 0 else GridPoints(g, r - 1) + |g[r - 1]|
  }

  /** As many rows, and row by row as many points. */
  predicate SameShape(ga: Grid, gb: Grid)
  {
    |ga| == |gb| && forall i :: 0 <= i < |ga| ==> |ga[i]| == |gb[i]|
  }

  /**
   * `average_grid_distance`: the mean norm of the differences of
   * corresponding points, or the sentinel when the shapes differ or there
   * is no point. `norm` is `np.linalg.norm` on the difference vector.
   */
  function AverageGridDistance(ga: Grid, gb: Grid, norm: Vector -> real): real
  {
    if !SameShape(ga, gb) || GridPoints(ga, |ga|) == 0 then Sentinel
    else GridSum(ga, gb, |ga|, norm) / (GridPoints(ga, |ga|) as real)
  }

  /** The loop of `average_grid_distance`, leaving at the first row pair of different lengths. */
  method ComputeAverageGridDistance(gridA: Grid, gridB: Grid, norm: Vector -> real) returns (d: real)
    ensures d == AverageGridDistance(gridA, gridB, norm)
  {
    if |gridA| != |gridB| {
      return Sentinel;
    }
    var totalDist := 0.0;
    var totalPoints := 0;
    var r := 0;
    while r < |gridA|
      invariant 0 <= r <= |gridA|
      invariant forall i :: 0 <= i < r ==> |gridA[i]| == |gridB[i]|
      invariant totalDist == GridSum(gridA, gridB, r, norm) && totalPoints == GridPoints(gridA, r)
    {
      var rowA, rowB := gridA[r], gridB[r];
      if |rowA| != |rowB| {
        return Sentinel;
      }
      ghost var before := totalDist;
      var k := 0;
      while k < |rowA|
        invariant 0 <= k <= |rowA|
        invariant totalDist == before + RowSum(rowA, rowB, k, norm)
        invariant totalPoints == GridPoints(gridA, r) + k
      {
        totalDist := totalDist + norm(Diff(rowA[k], rowB[k]));
        totalPoints := totalPoints + 1;
        k := k + 1;
      }
      r := r + 1;
    }
    if totalPoints == 0 {
      return Sentinel;
    }
    return totalDist / (totalPoints as real);
  }

  /** Lattices of different shapes, or with no point, are never compared: the distance is the sentinel. */
  lemma SentinelCases(ga: Grid, gb: Grid, norm: Vector -> real)
    ensures !SameShape(ga, gb) ==> AverageGridDistance(ga, gb, norm) == Sentinel
    ensures GridPoints(ga, |ga|) == 0 ==> AverageGridDistance(ga, gb, norm) == Sentinel
  {
  }

  lemma {:induction false} RowSumSelf(a: seq<Point>, n: nat, norm: Vector -> real)
    requires n <= |a| && norm((0, 0)) == 0.0
    ensures RowSum(a, a, n, norm) == 0.0
    decreases n
  {
    if n > 0 {
      RowSumSelf(a, n - 1, norm);
      assert Diff(a[n - 1], a[n - 1]) == (0, 0);
    }
  }

  lemma {:induction false} GridSumSelf(g: Grid, r: nat, norm: Vector -> real)
    requires r <= |g| && norm((0, 0)) == 0.0
    ensures GridSum(g, g, r, norm) == 0.0
    decreases r
  {
    if r > 0 {
      GridSumSelf(g, r - 1, norm);
      RowSumSelf(g[r - 1], |g[r - 1]|, norm);
    }
  }

  /** A lattice with a point is at distance 0 from itself. */
  lemma DistanceSelf(g: Grid, norm: Vector -> real)
    requires norm((0, 0)) == 0.0 && GridPoints(g, |g|) > 0
    ensures AverageGridDistance(g, g, norm) == 0.0
  {
    GridSumSelf(g, |g|, norm);
  }

  lemma {:induction false} RowSumNonNeg(a: seq<Point>, b: seq<Point>, n: nat, norm: Vector -> real)
    requires n <= |a| && n <= |b|
    requires forall v: Vector :: norm(v) >= 0.0
    ensures RowSum(a, b, n, norm) >= 0.0
    decreases n
  {
    if n > 0 {
      RowSumNonNeg(a, b, n - 1, norm);
    }
  }

  lemma {:induction false} GridSumNonNeg(ga: Grid, gb: Grid, r: nat, norm: Vector -> real)
    requires r <= |ga| && r <= |gb|
    requires forall v: Vector :: norm(v) >= 0.0
    ensures GridSum(ga, gb, r, norm) >= 0.0
    decreases r
  {
    if r > 0 {
      GridSumNonNeg(ga, gb, r - 1, norm);
      RowSumNonNeg(ga[r - 1], gb[r - 1], ZipLength(ga[r - 1], gb[r - 1]), norm);
    }
  }

  /** With a non-negative norm the distance is never negative. */
  lemma DistanceNonNeg(ga: Grid, gb: Grid, norm: Vector -> real)
    requires forall v: Vector :: norm(v) >= 0.0
    ensures AverageGridDistance(ga, gb, norm) >= 0.0
  {
    if SameShape(ga, gb) {
      GridSumNonNeg(ga, gb, |ga|, norm);
    }
  }

  lemma {:induction false} RowSumSymmetric(a: seq<Point>, b: seq<Point>, n: nat, norm: Vector -> real)
    requires n <= |a| && n <= |b|
    requires forall v: Vector {:trigger Neg(v)} :: norm(Neg(v)) == norm(v)
    ensures RowSum(a, b, n, norm) == RowSum(b, a, n, norm)
    decreases n
  {
    if n > 0 {
      RowSumSymmetric(a, b, n - 1, norm);
      var v := Diff(a[n - 1], b[n - 1]);
      assert Diff(b[n - 1], a[n - 1]) == Neg(v);
    }
  }

  lemma {:induction false} GridSumSymmetric(ga: Grid, gb: Grid, r: nat, norm: Vector -> real)
    requires r <= |ga| && r <= |gb|
    requires forall v: Vector {:trigger Neg(v)} :: norm(Neg(v)) == norm(v)
    ensures GridSum(ga, gb, r, norm) == GridSum(gb, ga, r, norm)
    decreases r
  {
    if r > 0 {
      GridSumSymmetric(ga, gb, r - 1, norm);
      RowSumSymmetric(ga[r - 1], gb[r - 1], ZipLength(ga[r - 1], gb[r - 1]), norm);
      assert ZipLength(ga[r - 1], gb[r - 1]) == ZipLength(gb[r - 1], ga[r - 1]);
    }
  }

  lemma {:induction false} GridPointsSameShape(ga: Grid, gb: Grid, r: nat)
    requires SameShape(ga, gb) && r <= |ga|
    ensures GridPoints(ga, r) == GridPoints(gb, r)
    decreases r
  {
    if r > 0 {
      GridPointsSameShape(ga, gb, r - 1);
    }
  }

  /** With a norm that ignores direction, the distance does not depend on the order of its arguments. */
  lemma DistanceSymmetric(ga: Grid, gb: Grid, norm: Vector -> real)
    requires forall v: Vector {:trigger Neg(v)} :: norm(Neg(v)) == norm(v)
    ensures AverageGridDistance(ga, gb, norm) == AverageGridDistance(gb, ga, norm)
  {
    if SameShape(ga, gb) {
      GridPointsSameShape(ga, gb, |ga|);
      GridSumSymmetric(ga, gb, |ga|, norm);
    }
  }

  // ---------------------------------------------------------------- keep or replace

  /**
   * `update_grid`'s decision: an empty new lattice keeps the last one;
   * otherwise the new one is taken when there is none yet or when it lies
   * further than `updateThresh` from the last.
   */
  function Accept(last: Option<Grid>, newGrid: Grid, updateThresh: int, norm: Vector -> real): Option<Grid>
  {
    if newGrid == [] then last
    else if last.None? then Some(newGrid)
    else if AverageGridDistance(last.value, newGrid, norm) > updateThresh as real then Some(newGrid)
    else last
  }

  /** The corners the homography is computed from, after the decision: the kept lattice's, when it has them. */
  function NextHomography(lastH: Option<seq<Point>>, last: Option<Grid>, newGrid: Grid, updateThresh: int,
                          norm: Vector -> real): Option<seq<Point>>
  {
    if newGrid == [] then lastH
    else
      var corners := GridCorners(Accept(last, newGrid, updateThresh, norm).value);
      if corners.Some? then corners else lastH
  }

  /** What a frame's segments give: intersections, clustered with the radius clamped to at least 1, in rows. */
  function NewLattice(lines: Option<seq<Line>>, clusterDist: int): Grid
  {
    Rows(Clusters(Intersections(lines), if clusterDist < 1 then 1 else clusterDist))
  }

  /** An empty new lattice changes neither the lattice nor the homography; a first non-empty one is taken. */
  lemma AcceptBasics(lastH: Option<seq<Point>>, last: Option<Grid>, newGrid: Grid, t: int, norm: Vector -> real)
    ensures newGrid == [] ==> Accept(last, newGrid, t, norm) == last && NextHomography(lastH, last, newGrid, t, norm) == lastH
    ensures newGrid != [] && last.None? ==> Accept(last, newGrid, t, norm) == Some(newGrid)
    ensures Accept(last, newGrid, t, norm) == last || Accept(last, newGrid, t, norm) == Some(newGrid)
  {
  }

  /**
   * The same lattice twice never replaces it: with a threshold of zero or
   * more it lies at distance 0, which is not over the threshold.
   */
  lemma SameLatticeNotReplaced(g: Grid, t: int, norm: Vector -> real)
    requires norm((0, 0)) == 0.0 && GridPoints(g, |g|) > 0 && t >= 0
    ensures !(AverageGridDistance(g, g, norm) > t as real)
  {
    DistanceSelf(g, norm);
  }

  /** A lattice of another shape always replaces the last one while the threshold is below the sentinel. */
  lemma NewShapeReplaces(g: Grid, newGrid: Grid, t: int, norm: Vector -> real)
    requires newGrid != [] && !SameShape(g, newGrid) && (t as real) < Sentinel
    ensures Accept(Some(g), newGrid, t, norm) == Some(newGrid)
  {
  }

  /**
   * The homography changes only to the corners of the kept lattice, which
   * needs two rows or more whose first and last have two points or more.
   */
  lemma HomographyNeedsCorners(lastH: Option<seq<Point>>, last: Option<Grid>, newGrid: Grid, t: int, norm: Vector -> real)
    ensures var h := NextHomography(lastH, last, newGrid, t, norm);
            h != lastH ==>
              newGrid != [] && var g := Accept(last, newGrid, t, norm).value;
              h == GridCorners(g) && |g| >= 2 && |g[0]| >= 2 && |g[|g| - 1]| >= 2
  {
    if newGrid != [] {
      CornersExist(Accept(last, newGrid, t, norm).value);
    }
  }

  /** No segments, no intersections, no lattice: nothing changes. */
  lemma NoLinesNoLattice(clusterDist: int)
    ensures NewLattice(None, clusterDist) == []
  {
  }

  /** A lattice built from segments is rows of clustered points, each row sorted by x and 20 px below the last. */
  lemma NewLatticeShape(lines: Option<seq<Line>>, clusterDist: int)
    ensures var g := NewLattice(lines, clusterDist);
            NonEmptyRows(g) && RowsApart(g) && (forall r :: 0 <= r < |g| ==> Sorted(true, g[r]))
  {
    RowsShape(Clusters(Intersections(lines), if clusterDist < 1 then 1 else clusterDist));
  }
}
