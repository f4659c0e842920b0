/**
 * The frame loops of `GridDetection14.py`, `GridDetection16.py`,
 * `GridDetection17.py` and `GridDetection18.py`. They share module-level
 * state: the last lattice accepted and a count of frames without one,
 * and the last lattice is still shown for the first 30 frames without
 * one. They differ in what they accept: the later two scripts take every
 * non-empty lattice, `GridDetection18.py` only one close to the last, and
 * `GridDetection14.py` also passes the last lattice's rows to its
 * intersection step and steadies the centres it draws against the last
 * ones, both as the script writes them. None of them clamps the
 * clustering radius, and their `find_cell_centers` takes a row pair's
 * column count from the upper row alone.
 */
module LatticeMemory {
  import opened Common
  import opened Lattice
  import opened LatticeCluster
  import opened LatticeRows
  import opened LatticeCells
  import opened LatticeTrack

  /** `MISSING_THRESHOLD`: frames without a lattice for which the last one is still shown. */
  const MissingThreshold: int := 30

  // ---------------------------------------------------------------- clustering without a clamp

  /**
   * With a radius of zero or less no point is close to anything, not even
   * the reference itself: a round takes nothing and leaves every point,
   * so `while len(points) > 0` never ends.
   */
  lemma {:induction false} NoProgress(pts: seq<Point>, ref: Point, d: int)
    requires d <= 0
    ensures Near(pts, ref, d) == [] && Far(pts, ref, d) == pts
    decreases |pts|
  {
    if |pts| > 0 {
      NoProgress(pts[1..], ref, d);
      assert pts == [pts[0]] + pts[1..];
    }
  }

  /** `cluster_intersections` with the trackbar's radius as it is: it never returns for a radius below 1. */
  method ClusterIntersections(intersections: seq<Point>, clusterDistance: int) returns (r: Run<seq<Point>>)
    ensures r.Done? || r.Diverged?
    ensures r.Diverged? <==> |intersections| > 0 && clusterDistance <= 0
    ensures r.Done? ==> r.value == (if |intersections| == 0 then [] else Clusters(intersections, clusterDistance))
  {
    if |intersections| == 0 {
      return Done([]);
    }
    if clusterDistance <= 0 {
      NoProgress(intersections, intersections[0], clusterDistance);
      return Diverged;
    }
    var clustered := ClusterPoints(intersections, clusterDistance);
    return Done(clustered);
  }

  /**
   * A frame's lattice: intersections, clustered with the radius as it is,
   * in rows. Where it returns it is the lattice the clamped pipeline
   * gives.
   */
  method DetectFrame(lines: Option<seq<Line>>, clusterDistance: int) returns (r: Run<Grid>)
    ensures r.Done? || r.Diverged?
    ensures r.Diverged? <==> |Intersections(lines)| > 0 && clusterDistance <= 0
    ensures r.Done? ==> r.value == NewLattice(lines, clusterDistance)
  {
    var intersections := FindIntersections(lines);
    var clustered := ClusterIntersections(intersections, clusterDistance);
    if clustered.Diverged? {
      return Diverged;
    }
    var grid := SortIntoGrid(clustered.value);
    return Done(grid);
  }

  // ---------------------------------------------------------------- centres from the upper row's length

  /** Some row pair whose lower row is shorter than the upper one, which has two points or more. */
  predicate ShortBelow(grid: Grid)
  {
    exists i :: 0 <= i < |grid| - 1 && |grid[i]| >= 2 && |grid[i]| > |grid[i + 1]|
  }

  /**
   * `find_cell_centers` of the scripts that loop `j` over the upper row
   * only: `grid[i + 1][j + 1]` is out of range exactly when some lower row
   * is shorter, and otherwise the centres and their labels are those of
   * `find_cell_centers` with the shorter row's count.
   */
  method FindCellCentersByUpperRow(grid: Grid) returns (r: Run<(seq<Point>, seq<int>)>)
    ensures r.Done? || r.Raised?
    ensures r.Raised? <==> ShortBelow(grid)
    ensures r.Done? ==> r.value.0 == CellCenters(grid) && r.value.1 == Labels(|r.value.0|)
  {
    var centers: seq<Point>, labels: seq<int> := [], [];
    var i := 0;
    while i < |grid| - 1
      invariant 0 <= i <= Pairs(grid)
      invariant centers == CentersUpTo(grid, i) && labels == Labels(|centers|)
      invariant forall k :: 0 <= k < i ==> !(|grid[k]| >= 2 && |grid[k]| > |grid[k + 1]|)
    {
      var row := UpperRowCenters(grid, i, centers, labels);
      if row.None? {
        return Raised;
      }
      centers, labels := row.value.0, row.value.1;
      i := i + 1;
    }
    return Done((centers, labels));
  }

  /** One row pair of the upper-row loop, after the centres and labels so far: nothing when it goes out of range. */
  method UpperRowCenters(grid: Grid, i: nat, centers0: seq<Point>, labels0: seq<int>) returns (r: Option<(seq<Point>, seq<int>)>)
    requires i + 1 < |grid| && labels0 == Labels(|centers0|)
    ensures r.None? <==> |grid[i]| >= 2 && |grid[i]| > |grid[i + 1]|
    ensures r.Some? ==> r.value.0 == centers0 + RowCenters(grid, i, Cols(grid, i)) && r.value.1 == Labels(|r.value.0|)
  {
    var centers, labels := centers0, labels0;
    var count := |centers0| + 1;
    var j := 0;
    while j < |grid[i]| - 1
      invariant 0 <= j && (j == 0 || j < |grid[i + 1]|) && (j == 0 || j <= |grid[i]| - 1)
      invariant j <= Cols(grid, i)
      invariant centers == centers0 + RowCenters(grid, i, j)
      invariant labels == Labels(|centers|) && count == |centers| + 1
    {
      if j + 1 >= |grid[i + 1]| {
        return None;
      }
      var center := Mid(grid[i][j], grid[i + 1][j + 1]);
      AppendAssoc(centers0, RowCenters(grid, i, j), [center]);
      centers := centers + [center];
      labels := labels + [count];
      count := count + 1;
      j := j + 1;
    }
    return Some((centers, labels));
  }

  // ---------------------------------------------------------------- the distance of `GridDetection18.py`

  /** `compute_grid_distance`: the sentinel for another shape, otherwise the summed norms over at least one point. */
  function GridDistance(ga: Grid, gb: Grid, norm: Vector -> real): real
  {
    if !SameShape(ga, gb) then Sentinel
    else
      var points := GridPoints(ga, |ga|);
      GridSum(ga, gb, |ga|, norm) / ((if points < 1 then 1 else points) as real)
  }

  /** Rows without points add nothing. */
  lemma {:induction false} GridSumNoPoints(ga: Grid, gb: Grid, r: nat, norm: Vector -> real)
    requires r <= |ga| && r <= |gb| && GridPoints(ga, r) == 0
    ensures GridSum(ga, gb, r, norm) == 0.0
    decreases r
  {
    if r > 0 {
      GridSumNoPoints(ga, gb, r - 1, norm);
    }
  }

  /**
   * Where both distances compare points they agree; where there is no
   * point this one is 0 rather than the sentinel, so two lattices of
   * empty rows, or none, are at distance 0.
   */
  lemma GridDistanceAgrees(ga: Grid, gb: Grid, norm: Vector -> real)
    ensures SameShape(ga, gb) && GridPoints(ga, |ga|) > 0 ==> GridDistance(ga, gb, norm) == AverageGridDistance(ga, gb, norm)
    ensures SameShape(ga, gb) && GridPoints(ga, |ga|) == 0 ==> GridDistance(ga, gb, norm) == 0.0
    ensures !SameShape(ga, gb) ==> GridDistance(ga, gb, norm) == Sentinel
  {
    if SameShape(ga, gb) && GridPoints(ga, |ga|) == 0 {
      GridSumNoPoints(ga, gb, |ga|, norm);
    }
  }

  /** The loop of `compute_grid_distance`, leaving at the first row pair of different lengths. */
  method ComputeGridDistance(gridA: Grid, gridB: Grid, norm: Vector -> real) returns (d: real)
    ensures d == GridDistance(gridA, gridB, norm)
  {
    if |gridA| != |gridB| {
      return Sentinel;
    }
    var totalDist := 0.0;
    var totalPoints := 0;
    var r := 0;
    while r < |gridA|
      invariant 0 <= r <= |gridA|
      invariant forall i :: 0 <= i < r ==> |gridA[i]| == |gridB[i]|
      invariant totalDist == GridSum(gridA, gridB, r, norm) && totalPoints == GridPoints(gridA, r)
    {
      var rowA, rowB := gridA[r], gridB[r];
      if |rowA| != |rowB| {
        return Sentinel;
      }
      ghost var before := totalDist;
      var k := 0;
      while k < |rowA|
        invariant 0 <= k <= |rowA|
        invariant totalDist == before + RowSum(rowA, rowB, k, norm)
        invariant totalPoints == GridPoints(gridA, r) + k
      {
        totalDist := totalDist + norm(Diff(rowA[k], rowB[k]));
        totalPoints := totalPoints + 1;
        k := k + 1;
      }
      r := r + 1;
    }
    return totalDist / ((if totalPoints < 1 then 1 else totalPoints) as real);
  }

  // ---------------------------------------------------------------- the remembered lattice

  /** The module-level state the frame loops keep: `last_valid_grid` and `missing_frames`. */
  datatype Memory = Memory(last: Option<Grid>, missing: int)

  /** The scripts that take every lattice: a non-empty one is kept and the count restarts; otherwise the count grows. */
  function TakeAny(m: Memory, structured: Grid): Memory
  {
    if |structured| > 0 then Memory(Some(structured), 0) else Memory(m.last, m.missing + 1)
  }

  /**
   * `GridDetection18.py`: a non-empty lattice is taken when there is none
   * yet or when it lies within the threshold of the last; one further off
   * is dropped and the count stays as it was.
   */
  function TakeClose(m: Memory, structured: Grid, t: int, norm: Vector -> real): Memory
  {
    if |structured| == 0 then Memory(m.last, m.missing + 1)
    else if m.last.Some? && GridDistance(m.last.value, structured, norm) > t as real then m
    else Memory(Some(structured), 0)
  }

  /** What a frame shows after the decision: the remembered lattice while the count is below 30, else the fallback. */
  function Shown(m: Memory, fallback: Grid): Grid
  {
    if m.missing < MissingThreshold && m.last.Some? then m.last.value else fallback
  }

  /** A non-empty lattice is always taken and shown. */
  lemma TakeAnyShowsNew(m: Memory, structured: Grid)
    requires |structured| > 0
    ensures TakeAny(m, structured) == Memory(Some(structured), 0)
    ensures Shown(TakeAny(m, structured), structured) == structured
  {
  }

  /** `k` frames in a row without a lattice. */
  function Empties(m: Memory, k: nat): Memory
  {
    if k == 0 then m else TakeAny(Empties(m, k - 1), [])
  }

  /**
   * After `k` empty frames the count has grown by `k` and the lattice is
   * the same; the last lattice is still shown exactly while the count is
   * below 30, and after that nothing is.
   */
  lemma {:induction false} EmptiesCount(m: Memory, k: nat)
    ensures Empties(m, k) == Memory(m.last, m.missing + k)
    ensures Shown(Empties(m, k), []) == (if m.missing + k < MissingThreshold && m.last.Some? then m.last.value else [])
    decreases k
  {
    if k > 0 {
      EmptiesCount(m, k - 1);
    }
  }

  /** Both loops count an empty frame the same way. */
  lemma EmptyFrameSame(m: Memory, t: int, norm: Vector -> real)
    ensures TakeClose(m, [], t, norm) == TakeAny(m, []) == Memory(m.last, m.missing + 1)
  {
  }

  /**
   * Once a lattice is held, `GridDetection18.py` keeps its shape: another
   * shape lies at the sentinel 999999, beyond every threshold the
   * trackbar offers (at most 50), so it is never taken.
   */
  lemma ShapeKept(m: Memory, structured: Grid, t: int, norm: Vector -> real)
    requires m.last.Some? && t <= 50
    ensures TakeClose(m, structured, t, norm).last.Some?
    ensures SameShape(m.last.value, TakeClose(m, structured, t, norm).last.value)
  {
  }

  /** The frames of `GridDetection18.py` at one threshold. */
  function CloseFrames(m: Memory, frames: seq<Grid>, t: int, norm: Vector -> real): Memory
    decreases |frames|
  {
    if |frames| == 0 then m else CloseFrames(TakeClose(m, frames[0], t, norm), frames[1..], t, norm)
  }

  lemma SameShapeTrans(a: Grid, b: Grid, c: Grid)
    requires SameShape(a, b) && SameShape(b, c)
    ensures SameShape(a, c)
  {
  }

  /** However many frames follow, the lattice held has the shape of the first one taken. */
  lemma {:induction false} ShapeKeptForever(m: Memory, frames: seq<Grid>, t: int, norm: Vector -> real)
    requires m.last.Some? && t <= 50
    ensures CloseFrames(m, frames, t, norm).last.Some?
    ensures SameShape(m.last.value, CloseFrames(m, frames, t, norm).last.value)
    decreases |frames|
  {
    if |frames| > 0 {
      var m' := TakeClose(m, frames[0], t, norm);
      ShapeKept(m, frames[0], t, norm);
      ShapeKeptForever(m', frames[1..], t, norm);
      SameShapeTrans(m.last.value, m'.last.value, CloseFrames(m', frames[1..], t, norm).last.value);
    }
  }

  // ---------------------------------------------------------------- the intersection gate (GridDetection14.py)

  /**
   * An entry of the list `find_grid_intersections` hands to the
   * clustering: a fresh intersection, or, where the frame loop passes the
   * last lattice in, a whole row of it.
   */
  datatype GateItem = Fresh(point: Point) | KeptRow(row: seq<Point>)

  /** The squared norm of `np.array(row) - np.array(p)`: with no `axis`, the summed squared distances of the row's points to `p`. */
  function RowSqDist(row: seq<Point>, p: Point): int
  {
    if |row| == 0 then 0 else SqDist(row[0], p) + RowSqDist(row[1..], p)
  }

  /** `norm(old - new) > update_threshold` for a row `old`: any row has moved when the threshold is negative. */
  predicate RowMoved(row: seq<Point>, p: Point, t: int)
  {
    t < 0 || RowSqDist(row, p) > t * t
  }

  /** Entry `i`: row `i` of the last lattice when there is one and it has not moved from fresh point `i`, else fresh point `i`. */
  function GateItemAt(last: Grid, found: seq<Point>, i: nat, t: int): GateItem
    requires i < |found|
  {
    if i < |last| && !RowMoved(last[i], found[i], t) then KeptRow(last[i]) else Fresh(found[i])
  }

  /** The first `n` entries of the loop over the fresh points. */
  function GateItems(last: Grid, found: seq<Point>, t: int, n: nat): (items: seq<GateItem>)
    requires n <= |found|
    ensures |items| == n
  {
    if n == 0 then [] else GateItems(last, found, t, n - 1) + [GateItemAt(last, found, n - 1, t)]
  }

  function Freshes(ps: seq<Point>): (items: seq<GateItem>)
    ensures |items| == |ps|
  {
    if |ps| == 0 then [] else [Fresh(ps[0])] + Freshes(ps[1..])
  }

  function KeptRows(rows: Grid): (items: seq<GateItem>)
    ensures |items| == |rows|
  {
    if |rows| == 0 then [] else [KeptRow(rows[0])] + KeptRows(rows[1..])
  }

  /** A row without points compared with a fresh point: numpy cannot subtract a point from an empty array. */
  predicate EmptyRowCompared(last: Grid, found: seq<Point>)
  {
    exists i :: 0 <= i < |found| && i < |last| && |last[i]| == 0
  }

  /**
   * `find_grid_intersections(lines, last_grid, update_threshold)`:
   * without segments the last lattice's rows themselves (or nothing);
   * without a last lattice the fresh intersections; otherwise one entry
   * per fresh intersection.
   */
  function Gate(lines: Option<seq<Line>>, last: Option<Grid>, t: int): Run<seq<GateItem>>
  {
    if lines.None? then Done(if last.Some? && |last.value| > 0 then KeptRows(last.value) else [])
    else if last.None? || |last.value| == 0 then Done(Freshes(Intersections(lines)))
    else if EmptyRowCompared(last.value, Intersections(lines)) then Raised
    else Done(GateItems(last.value, Intersections(lines), t, |Intersections(lines)|))
  }

  lemma {:induction false} GateItemsAt(last: Grid, found: seq<Point>, t: int, n: nat)
    requires n <= |found|
    ensures forall i :: 0 <= i < n ==> GateItems(last, found, t, n)[i] == GateItemAt(last, found, i, t)
    decreases n
  {
    if n > 0 {
      GateItemsAt(last, found, t, n - 1);
    }
  }

  lemma {:induction false} FreshesAt(ps: seq<Point>)
    ensures forall i :: 0 <= i < |ps| ==> Freshes(ps)[i] == Fresh(ps[i])
    decreases |ps|
  {
    if |ps| > 0 {
      FreshesAt(ps[1..]);
    }
  }

  lemma {:induction false} KeptRowsAt(rows: Grid)
    ensures forall i :: 0 <= i < |rows| ==> KeptRows(rows)[i] == KeptRow(rows[i])
    decreases |rows|
  {
    if |rows| > 0 {
      KeptRowsAt(rows[1..]);
    }
  }

  /** The loop of `find_grid_intersections` against a last lattice that is there. */
  method FindGridIntersections(lines: Option<seq<Line>>, lastGrid: Option<Grid>, t: int) returns (r: Run<seq<GateItem>>)
    ensures r == Gate(lines, lastGrid, t)
  {
    if lines.None? {
      if lastGrid.Some? && |lastGrid.value| > 0 {
        return Done(KeptRows(lastGrid.value));
      }
      return Done([]);
    }
    var intersections := FindIntersections(lines);
    if lastGrid.None? || |lastGrid.value| == 0 {
      return Done(Freshes(intersections));
    }
    var last := lastGrid.value;
    var updated: seq<GateItem> := [];
    var i := 0;
    while i < |intersections|
      invariant 0 <= i <= |intersections|
      invariant updated == GateItems(last, intersections, t, i)
      invariant forall k :: 0 <= k < i && k < |last| ==> |last[k]| > 0
    {
      if i < |last| {
        var prev, cur := last[i], intersections[i];
        if |prev| == 0 {
          return Raised;
        }
        if RowMoved(prev, cur, t) {
          updated := updated + [Fresh(cur)];
        } else {
          updated := updated + [KeptRow(prev)];
        }
      } else {
        updated := updated + [Fresh(intersections[i])];
      }
      i := i + 1;
    }
    return Done(updated);
  }

  /**
   * The list the gate hands on. Without segments it is the last
   * lattice's rows; with a last lattice, entry `i` is the last lattice's
   * row `i` exactly when that row has not moved from fresh point `i`, and
   * fresh point `i` otherwise; it fails exactly when an empty row is
   * compared.
   */
  lemma GateSpec(lines: Option<seq<Line>>, last: Option<Grid>, t: int)
    ensures lines.None? ==> Gate(lines, last, t).Done?
    ensures lines.None? && last.Some? ==> Gate(lines, last, t).value == KeptRows(last.value)
    ensures Gate(lines, last, t).Raised? <==>
              lines.Some? && last.Some? && |last.value| > 0 && EmptyRowCompared(last.value, Intersections(lines))
    ensures lines.Some? && Gate(lines, last, t).Done? ==>
              var found := Intersections(lines);
              var items := Gate(lines, last, t).value;
              |items| == |found| &&
              forall i :: 0 <= i < |found| ==>
                (items[i].KeptRow? <==> last.Some? && i < |last.value| && !RowMoved(last.value[i], found[i], t)) &&
                (items[i].KeptRow? ==> items[i].row == last.value[i]) &&
                (items[i].Fresh? ==> items[i].point == found[i])
  {
    var found := Intersections(lines);
    FreshesAt(found);
    if lines.Some? && last.Some? {
      GateItemsAt(last.value, found, t, |found|);
    }
  }

  lemma SquareNonNeg(x: int)
    ensures x * x >= 0
  {
    if x < 0 {
      MulNonNeg(-x, -x);
      NegMul(x, x);
    } else {
      MulNonNeg(x, x);
    }
  }

  /** `2 * (|p - q|² + |r - q|²) >= |p - r|²`, one coordinate at a time. */
  lemma {:induction false} TwoDistances(p: Point, r: Point, q: Point)
    ensures 2 * (SqDist(p, q) + SqDist(r, q)) >= SqDist(p, r)
  {
    var a, b := p.0 - q.0, r.0 - q.0;
    var c, e := p.1 - q.1, r.1 - q.1;
    assert 2 * (a * a + b * b) - (a - b) * (a - b) == (a + b) * (a + b);
    assert 2 * (c * c + e * e) - (c - e) * (c - e) == (c + e) * (c + e);
    SquareNonNeg(a + b);
    SquareNonNeg(c + e);
    assert p.0 - r.0 == a - b && p.1 - r.1 == c - e;
  }

  lemma {:induction false} RowSqDistNonNeg(row: seq<Point>, p: Point)
    ensures RowSqDist(row, p) >= 0
    decreases |row|
  {
    if |row| > 0 {
      RowSqDistNonNeg(row[1..], p);
      var q := row[0];
      SquareNonNeg(q.0 - p.0);
      SquareNonNeg(q.1 - p.1);
    }
  }

  /** A row whose first two points lie more than `√2 · t` apart. */
  predicate Spread(row: seq<Point>, t: int)
  {
    |row| >= 2 && SqDist(row[0], row[1]) > 2 * (t * t)
  }

  /** However close a fresh point lies, a spread row is never within the threshold of it, so it is never kept. */
  lemma SpreadRowMoves(row: seq<Point>, p: Point, t: int)
    requires Spread(row, t)
    ensures RowMoved(row, p, t)
  {
    TwoDistances(row[0], row[1], p);
    RowSqDistNonNeg(row[2..], p);
    assert row[1..][1..] == row[2..];
  }

  /**
   * With segments, a last lattice whose rows are all spread lets every
   * fresh intersection through unchanged: the gate then is the ungated
   * list of the later scripts.
   */
  lemma GateAllFresh(lines: Option<seq<Line>>, last: Option<Grid>, t: int)
    requires lines.Some?
    requires last.Some? ==> forall i :: 0 <= i < |last.value| ==> Spread(last.value[i], t)
    ensures Gate(lines, last, t) == Done(Freshes(Intersections(lines)))
  {
    var found := Intersections(lines);
    if last.Some? && |last.value| > 0 {
      var rows := last.value;
      assert !EmptyRowCompared(rows, found);
      GateItemsAt(rows, found, t, |found|);
      FreshesAt(found);
      forall i | 0 <= i < |found| ensures GateItems(rows, found, t, |found|)[i] == Freshes(found)[i] {
        if i < |rows| {
          SpreadRowMoves(rows[i], found[i], t);
        }
      }
      assert GateItems(rows, found, t, |found|) == Freshes(found);
    }
  }

  // ---------------------------------------------------------------- what the clustering makes of the gate's list

  predicate AllFresh(items: seq<GateItem>)
  {
    forall k :: 0 <= k < |items| ==> items[k].Fresh?
  }

  predicate AllRows(items: seq<GateItem>)
  {
    forall k :: 0 <= k < |items| ==> items[k].KeptRow?
  }

  function FreshPoints(items: seq<GateItem>): (ps: seq<Point>)
    requires AllFresh(items)
    ensures |ps| == |items|
  {
    if |items| == 0 then [] else [items[0].point] + FreshPoints(items[1..])
  }

  function RowsOf(items: seq<GateItem>): (rows: Grid)
    requires AllRows(items)
    ensures |rows| == |items|
  {
    if |items| == 0 then [] else [items[0].row] + RowsOf(items[1..])
  }

  lemma {:induction false} FreshPointsOf(ps: seq<Point>)
    ensures AllFresh(Freshes(ps)) && FreshPoints(Freshes(ps)) == ps
    decreases |ps|
  {
    FreshesAt(ps);
    if |ps| > 0 {
      FreshPointsOf(ps[1..]);
      var items := Freshes(ps);
      assert items == [Fresh(ps[0])] + Freshes(ps[1..]);
      assert items[1..] == Freshes(ps[1..]);
      assert ps == [ps[0]] + ps[1..];
    }
  }

  lemma {:induction false} RowsOfKept(rows: Grid)
    ensures AllRows(KeptRows(rows)) && RowsOf(KeptRows(rows)) == rows
    decreases |rows|
  {
    KeptRowsAt(rows);
    if |rows| > 0 {
      RowsOfKept(rows[1..]);
      assert KeptRows(rows)[1..] == KeptRows(rows[1..]);
    }
  }

  predicate Uniform(rows: Grid, k: nat)
  {
    forall i :: 0 <= i < |rows| ==> |rows[i]| == k
  }

  /** Coordinate `j` of a point: 0 is x, 1 is y. */
  function Coord(p: Point, j: nat): int
  {
    if j == 0 then p.0 else p.1
  }

  /**
   * Rows of two points each make a `(rows, 2, 2)` array: `norm(..., axis=1)`
   * takes the norm over the point index, and the `(rows, 2)` mask then
   * picks point `j` of row `i` by coordinate `j` of that norm.
   */
  predicate PairPicked(rows: Grid, i: nat, j: nat, d: int)
    requires 0 < |rows| && Uniform(rows, 2) && i < |rows| && j < 2
  {
    var a := Coord(rows[i][0], j) - Coord(rows[0][0], j);
    var b := Coord(rows[i][1], j) - Coord(rows[0][1], j);
    d > 0 && a * a + b * b < d * d
  }

  /** The points of the first `n` rows, row by row, whose mask entry is `keep`. */
  function PairPick(rows: Grid, n: nat, d: int, keep: bool): seq<Point>
    requires 0 < |rows| && Uniform(rows, 2) && n <= |rows|
  {
    if n == 0 then []
    else
      PairPick(rows, n - 1, d, keep) +
      (if PairPicked(rows, n - 1, 0, d) == keep then [rows[n - 1][0]] else []) +
      (if PairPicked(rows, n - 1, 1, d) == keep then [rows[n - 1][1]] else [])
  }

  /** The first row's points are always picked for a positive radius, so the first mean is over something. */
  lemma {:induction false} PairPickFirst(rows: Grid, n: nat, d: int)
    requires 0 < |rows| && Uniform(rows, 2) && 0 < n <= |rows| && d > 0
    ensures |PairPick(rows, n, d, true)| >= 2
    decreases n
  {
    if n > 1 {
      PairPickFirst(rows, n - 1, d);
    } else {
      assert PairPicked(rows, 0, 0, d) && PairPicked(rows, 0, 1, d);
    }
  }

  /**
   * `cluster_intersections`, then `sort_intersections`, on the gate's list
   * (numpy 1.24 or later). Fresh points cluster as in the later scripts.
   * A list mixing points and rows, or rows of different lengths, is
   * refused by `np.array`; rows of one length other than two fail at the
   * mask. Empty rows make an empty tuple that the row sort's key cannot
   * index. Rows of two points each go through one round on the mask above;
   * the points it leaves cluster as usual. A radius of zero or less never
   * ends the loop once there is something to cluster.
   */
  function GatedLattice(items: seq<GateItem>, d: int): Run<Grid>
  {
    if |items| == 0 then Done([])
    else if AllFresh(items) then (if d <= 0 then Diverged else Done(Rows(Clusters(FreshPoints(items), d))))
    else if !AllRows(items) then Raised
    else
      var rows := RowsOf(items);
      if !Uniform(rows, |rows[0]|) then Raised
      else if |rows[0]| == 0 then (if d > 0 then Raised else Diverged)
      else if |rows[0]| != 2 then Raised
      else if d <= 0 then Diverged
      else
        var near := PairPick(rows, |rows|, d, true);
        PairPickFirst(rows, |rows|, d);
        Done(Rows([Mean(near)] + Clusters(PairPick(rows, |rows|, d, false), d)))
  }

  /** The lattice a frame of `GridDetection14.py` builds, the last lattice passed through the gate. */
  function GatedFrame(lines: Option<seq<Line>>, last: Option<Grid>, d: int, t: int): Run<Grid>
  {
    var g := Gate(lines, last, t);
    if g.Raised? then Raised else GatedLattice(g.value, d)
  }

  /**
   * When the gate lets every fresh point through (segments and spread
   * rows, or no last lattice) the frame builds the lattice the later
   * scripts build, or loops for ever exactly as they do.
   */
  lemma GatedFrameAsUngated(lines: Option<seq<Line>>, last: Option<Grid>, d: int, t: int)
    requires lines.Some? || last.None?
    requires last.Some? ==> forall i :: 0 <= i < |last.value| ==> Spread(last.value[i], t)
    ensures GatedFrame(lines, last, d, t).Diverged? <==> |Intersections(lines)| > 0 && d <= 0
    ensures !GatedFrame(lines, last, d, t).Diverged? ==> GatedFrame(lines, last, d, t) == Done(NewLattice(lines, d))
  {
    var found := Intersections(lines);
    if lines.Some? {
      GateAllFresh(lines, last, t);
    }
    assert Gate(lines, last, t) == Done(Freshes(found));
    FreshPointsOf(found);
    if |found| == 0 {
      assert Clusters(found, 1) == [];
    }
  }

  /**
   * Without segments, a last lattice of non-empty rows that do not all
   * hold exactly two points is handed to the clustering as rows, and the
   * frame fails.
   */
  lemma NoSegmentsRaises(last: Grid, d: int, t: int)
    requires |last| > 0 && forall i :: 0 <= i < |last| ==> |last[i]| > 0
    requires !Uniform(last, 2)
    ensures GatedFrame(None, Some(last), d, t) == Raised
  {
    RowsOfKept(last);
    var items := KeptRows(last);
    KeptRowsAt(last);
    assert !AllFresh(items) by {
      assert !items[0].Fresh?;
    }
  }

  /**
   * With segments and a last lattice, a frame in which some but not all
   * entries are kept rows fails at `np.array`.
   */
  lemma MixedRaises(lines: Option<seq<Line>>, last: Grid, d: int, t: int, i: nat, j: nat)
    requires lines.Some? && 0 < |last| && !EmptyRowCompared(last, Intersections(lines))
    requires i < |Intersections(lines)| && j < |Intersections(lines)|
    requires i < |last| && !RowMoved(last[i], Intersections(lines)[i], t)
    requires !(j < |last| && !RowMoved(last[j], Intersections(lines)[j], t))
    ensures GatedFrame(lines, Some(last), d, t) == Raised
  {
    var found := Intersections(lines);
    GateItemsAt(last, found, t, |found|);
    var items := GateItems(last, found, t, |found|);
    assert items[i].KeptRow? && items[j].Fresh?;
  }

  /** A frame's lattice in `GridDetection14.py`: the gate against the last lattice, then clustering and rows. */
  method DetectFrame14(lines: Option<seq<Line>>, lastGrid: Option<Grid>, clusterDistance: int, t: int) returns (r: Run<Grid>)
    ensures r == GatedFrame(lines, lastGrid, clusterDistance, t)
  {
    var gated := FindGridIntersections(lines, lastGrid, t);
    if gated.Raised? {
      return Raised;
    }
    var items := gated.value;
    if |items| > 0 && AllFresh(items) {
      var clustered := ClusterIntersections(FreshPoints(items), clusterDistance);
      if clustered.Diverged? {
        return Diverged;
      }
      var grid := SortIntoGrid(clustered.value);
      return Done(grid);
    }
    return GatedLattice(items, clusterDistance);
  }

  // ---------------------------------------------------------------- steadied centres (GridDetection14.py)

  /** A fresh centre, or the last centre at `idx` when that one lies within the threshold of it. */
  function Kept(seen: Point, last: seq<Point>, idx: int, t: int): Point
  {
    if 0 <= idx < |last| && Close(seen, last[idx], t) then last[idx] else seen
  }

  /**
   * The look-up as evidently intended: each fresh centre against the last
   * centre of the same cell, the one at its own position.
   */
  function Steadied(seen: seq<Point>, last: seq<Point>, t: int): (cs: seq<Point>)
    ensures |cs| == |seen|
  {
    if |seen| == 0 then [] else Steadied(seen[..|seen| - 1], last, t) + [Kept(seen[|seen| - 1], last, |seen| - 1, t)]
  }

  /** One more centre steadies on its own, at its own position. */
  lemma SteadiedSnoc(seen: seq<Point>, c: Point, last: seq<Point>, t: int)
    ensures Steadied(seen + [c], last, t) == Steadied(seen, last, t) + [Kept(c, last, |seen|, t)]
  {
    assert (seen + [c])[..|seen|] == seen;
  }

  /** Centre `k` is fresh centre `k`, or last centre `k` when that one is within the threshold of it. */
  lemma {:induction false} SteadiedAt(seen: seq<Point>, last: seq<Point>, t: int)
    ensures forall k :: 0 <= k < |seen| ==> Steadied(seen, last, t)[k] == Kept(seen[k], last, k, t)
    decreases |seen|
  {
    if |seen| > 0 {
      SteadiedAt(seen[..|seen| - 1], last, t);
    }
  }

  /** A lattice that has not moved keeps its centres, and one without memory shows fresh ones. */
  lemma SteadiedFixed(seen: seq<Point>, t: int)
    ensures Steadied(seen, seen, t) == seen
    ensures Steadied(seen, [], t) == seen
  {
    SteadiedAt(seen, seen, t);
    SteadiedAt(seen, [], t);
  }

  /**
   * `find_cell_centers` of `GridDetection14.py`: out of range as the
   * upper-row loop is, and otherwise the cell centres, the last centre of
   * cell `(i, j)` looked up at `i * len(grid) + j` as the script has it.
   */
  method FindSteadyCenters(grid: Grid, lastCenters: seq<Point>, t: int) returns (r: Run<seq<Point>>)
    ensures r.Done? || r.Raised?
    ensures r.Raised? <==> ShortBelow(grid)
    ensures r.Done? ==> r.value == WrittenCenters(grid, lastCenters, t)
  {
    var centers: seq<Point> := [];
    var i := 0;
    while i < |grid| - 1
      invariant 0 <= i <= Pairs(grid)
      invariant centers == WrittenUpTo(grid, i, lastCenters, t)
      invariant forall k :: 0 <= k < i ==> !(|grid[k]| >= 2 && |grid[k]| > |grid[k + 1]|)
    {
      var row := SteadyRow(grid, i, lastCenters, t, centers);
      if row.None? {
        return Raised;
      }
      centers := row.value;
      i := i + 1;
    }
    return Done(centers);
  }

  /** One row pair of `find_cell_centers` of `GridDetection14.py`, after the centres so far: nothing when it goes out of range. */
  method SteadyRow(grid: Grid, i: nat, lastCenters: seq<Point>, t: int, centers0: seq<Point>) returns (r: Option<seq<Point>>)
    requires i + 1 < |grid|
    ensures r.None? <==> |grid[i]| >= 2 && |grid[i]| > |grid[i + 1]|
    ensures r.Some? ==> r.value == centers0 + WrittenRow(grid, i, Cols(grid, i), lastCenters, t)
  {
    var centers := centers0;
    var j := 0;
    while j < |grid[i]| - 1
      invariant 0 <= j && (j == 0 || j < |grid[i + 1]|) && (j == 0 || j <= |grid[i]| - 1)
      invariant j <= Cols(grid, i)
      invariant centers == centers0 + WrittenRow(grid, i, j, lastCenters, t)
    {
      if j + 1 >= |grid[i + 1]| {
        return None;
      }
      var center := Mid(grid[i][j], grid[i + 1][j + 1]);
      var idx := i * |grid| + j;
      if |lastCenters| > 0 && idx < |lastCenters| {
        var oldCenter := lastCenters[idx];
        if Close(center, oldCenter, t) {
          center := oldCenter;
        }
      }
      AppendAssoc(centers0, WrittenRow(grid, i, j, lastCenters, t), [center]);
      centers := centers + [center];
      j := j + 1;
    }
    return Some(centers);
  }

  /** The centres of row pair `r` up to column `n` as the script steadies them: the last centre at `r * len(grid) + c`. */
  function WrittenRow(grid: Grid, r: nat, n: nat, last: seq<Point>, t: int): (cs: seq<Point>)
    requires r + 1 < |grid| && n <= Cols(grid, r)
    ensures |cs| == n
  {
    if n == 0 then []
    else WrittenRow(grid, r, n - 1, last, t) + [Kept(Mid(grid[r][n - 1], grid[r + 1][n]), last, r * |grid| + n - 1, t)]
  }

  /** The first `r` row pairs as the script steadies them. */
  function WrittenUpTo(grid: Grid, r: nat, last: seq<Point>, t: int): seq<Point>
    requires r <= Pairs(grid)
  {
    if r == 0 then [] else WrittenUpTo(grid, r - 1, last, t) + WrittenRow(grid, r - 1, Cols(grid, r - 1), last, t)
  }

  /** `find_cell_centers` of `GridDetection14.py` as written, where it does not go out of range. */
  function WrittenCenters(grid: Grid, last: seq<Point>, t: int): seq<Point>
  {
    WrittenUpTo(grid, Pairs(grid), last, t)
  }

  lemma {:induction false} WrittenRowAt(grid: Grid, r: nat, n: nat, last: seq<Point>, t: int, c: nat)
    requires r + 1 < |grid| && c < n <= Cols(grid, r)
    ensures WrittenRow(grid, r, n, last, t)[c] == Kept(Mid(grid[r][c], grid[r + 1][c + 1]), last, r * |grid| + c, t)
    decreases n
  {
    if c < n - 1 {
      WrittenRowAt(grid, r, n - 1, last, t, c);
    }
  }

  lemma {:induction false} WrittenUpToLength(grid: Grid, r: nat, last: seq<Point>, t: int)
    requires r <= Pairs(grid)
    ensures |WrittenUpTo(grid, r, last, t)| == Offset(grid, r)
    decreases r
  {
    if r > 0 {
      WrittenUpToLength(grid, r - 1, last, t);
    }
  }

  lemma {:induction false} WrittenUpToPrefix(grid: Grid, r: nat, r': nat, last: seq<Point>, t: int, k: nat)
    requires r <= r' <= Pairs(grid) && k < |WrittenUpTo(grid, r, last, t)|
    ensures k < |WrittenUpTo(grid, r', last, t)| && WrittenUpTo(grid, r', last, t)[k] == WrittenUpTo(grid, r, last, t)[k]
    decreases r' - r
  {
    if r < r' {
      WrittenUpToPrefix(grid, r, r' - 1, last, t, k);
    }
  }

  /**
   * As written, cell `c` of row pair `r`, the one at flat position
   * `Offset(r) + c`, shows its fresh centre, or the last centre at
   * `r * len(grid) + c` when that lies within the threshold of it.
   */
  lemma WrittenAt(grid: Grid, last: seq<Point>, t: int, r: nat, c: nat)
    requires r < Pairs(grid) && c < Cols(grid, r)
    ensures |WrittenCenters(grid, last, t)| == |CellCenters(grid)|
    ensures Offset(grid, r) + c < |CellCenters(grid)|
    ensures WrittenCenters(grid, last, t)[Offset(grid, r) + c] ==
            Kept(CellCenters(grid)[Offset(grid, r) + c], last, r * |grid| + c, t)
  {
    CenterAt(grid, r, c);
    CellCount(grid);
    WrittenUpToLength(grid, Pairs(grid), last, t);
    WrittenUpToLength(grid, r, last, t);
    assert WrittenUpTo(grid, r + 1, last, t) == WrittenUpTo(grid, r, last, t) + WrittenRow(grid, r, Cols(grid, r), last, t);
    WrittenRowAt(grid, r, Cols(grid, r), last, t, c);
    WrittenUpToLength(grid, r + 1, last, t);
    WrittenUpToPrefix(grid, r + 1, Pairs(grid), last, t, Offset(grid, r) + c);
  }

  /** Row pair `r` appended, when the centres before it number `r * len(grid)`: the script's look-up and the cell's own position agree. */
  lemma {:induction false} WrittenRowAgrees(grid: Grid, r: nat, n: nat, last: seq<Point>, t: int, before: seq<Point>)
    requires r + 1 < |grid| && n <= Cols(grid, r) && |before| == r * |grid|
    ensures Steadied(before + RowCenters(grid, r, n), last, t) == Steadied(before, last, t) + WrittenRow(grid, r, n, last, t)
    decreases n
  {
    if n == 0 {
      assert before + RowCenters(grid, r, n) == before;
    } else {
      WrittenRowAgrees(grid, r, n - 1, last, t, before);
      var m := Mid(grid[r][n - 1], grid[r + 1][n]);
      assert RowCenters(grid, r, n) == RowCenters(grid, r, n - 1) + [m];
      assert |before + RowCenters(grid, r, n - 1)| == r * |grid| + n - 1;
      AppendAssoc(before, RowCenters(grid, r, n - 1), [m]);
      SteadiedSnoc(before + RowCenters(grid, r, n - 1), m, last, t);
      AppendAssoc(Steadied(before, last, t), WrittenRow(grid, r, n - 1, last, t), [Kept(m, last, r * |grid| + n - 1, t)]);
    }
  }

  /** Every row pair before `r` holding `len(grid)` cells puts row pair `r` at flat position `r * len(grid)`. */
  lemma {:induction false} OffsetFull(grid: Grid, r: nat)
    requires r <= Pairs(grid) && forall k :: 0 <= k < r ==> Cols(grid, k) == |grid|
    ensures Offset(grid, r) == r * |grid|
    decreases r
  {
    if r > 0 {
      OffsetFull(grid, r - 1);
      MulStepInt(r - 1, |grid|);
    }
  }

  lemma {:induction false} WrittenUpToAgrees(grid: Grid, r: nat, last: seq<Point>, t: int)
    requires r <= Pairs(grid) && forall k :: 0 <= k < r - 1 ==> Cols(grid, k) == |grid|
    ensures WrittenUpTo(grid, r, last, t) == Steadied(CentersUpTo(grid, r), last, t)
    decreases r
  {
    if r > 0 {
      WrittenUpToAgrees(grid, r - 1, last, t);
      OffsetFull(grid, r - 1);
      CentersUpToLength(grid, r - 1);
      WrittenRowAgrees(grid, r - 1, Cols(grid, r - 1), last, t, CentersUpTo(grid, r - 1));
    }
  }

  /**
   * The script's look-up is the cell's own exactly when the row pairs
   * before hold `len(grid)` cells each: then, and in particular with only
   * one row pair, the written centres are the steadied ones.
   */
  lemma WrittenAgrees(grid: Grid, last: seq<Point>, t: int)
    requires forall k :: 0 <= k < Pairs(grid) - 1 ==> Cols(grid, k) == |grid|
    ensures WrittenCenters(grid, last, t) == Steadied(CellCenters(grid), last, t)
  {
    WrittenUpToAgrees(grid, Pairs(grid), last, t);
  }

  /** A lattice of equal rows agrees when each row holds one point more than there are rows, or there are at most two rows. */
  lemma RegularAgrees(grid: Grid, n: nat, last: seq<Point>, t: int)
    requires n >= 1 && forall i :: 0 <= i < |grid| ==> |grid[i]| == n
    requires n - 1 == |grid| || |grid| <= 2
    ensures WrittenCenters(grid, last, t) == Steadied(CellCenters(grid), last, t)
  {
    WrittenAgrees(grid, last, t);
  }

  /** Three rows of three points, 2 px apart: four cells. */
  function Small(): Grid
  {
    [[(0, 0), (2, 0), (4, 0)], [(0, 2), (2, 2), (4, 2)], [(0, 4), (2, 4), (4, 4)]]
  }

  /**
   * The script's look-up misplaces centres: for the small lattice seen
   * twice with threshold 5, cell 3 (row pair 1, column 0) is looked up at
   * `1 * 3 + 0`, the last centre of cell 4, which is within the threshold,
   * so cell 3 is drawn at cell 4's centre although nothing moved.
   */
  lemma WrittenIndexMisplaces()
    ensures WrittenCenters(Small(), CellCenters(Small()), 5) == [(1, 1), (3, 1), (3, 3), (3, 3)]
    ensures CellCenters(Small()) == [(1, 1), (3, 1), (1, 3), (3, 3)]
    ensures Steadied(CellCenters(Small()), CellCenters(Small()), 5) == CellCenters(Small())
  {
    SmallCenters();
    var c := CellCenters(Small());
    WrittenSmallRows(c);
    assert WrittenUpTo(Small(), 1, c, 5) == [(1, 1), (3, 1)];
    SteadiedFixed(c, 5);
  }

  /** The two row pairs of the small lattice as the script steadies them against its own centres. */
  lemma WrittenSmallRows(c: seq<Point>)
    requires c == [(1, 1), (3, 1), (1, 3), (3, 3)]
    ensures Pairs(Small()) == 2 && Cols(Small(), 0) == 2 && Cols(Small(), 1) == 2
    ensures WrittenRow(Small(), 0, 2, c, 5) == [(1, 1), (3, 1)]
    ensures WrittenRow(Small(), 1, 2, c, 5) == [(3, 3), (3, 3)]
  {
    SmallCenters();
    assert WrittenRow(Small(), 0, 1, c, 5) == [(1, 1)];
    assert WrittenRow(Small(), 1, 1, c, 5) == [(3, 3)];
  }

  /** The small lattice's four centres, in row-major order. */
  lemma SmallCenters()
    ensures Pairs(Small()) == 2 && Cols(Small(), 0) == 2 && Cols(Small(), 1) == 2
    ensures CellCenters(Small()) == [(1, 1), (3, 1), (1, 3), (3, 3)]
  {
    var g := Small();
    assert RowCenters(g, 0, 2) == [(1, 1), (3, 1)];
    assert RowCenters(g, 1, 2) == [(1, 3), (3, 3)];
    assert CentersUpTo(g, 1) == [(1, 1), (3, 1)];
  }

  // ---------------------------------------------------------------- the frame loops

  class FrameMemory {
    var lastValidGrid: Option<Grid>
    var missingFrames: int
    var lastValidCenters: seq<Point>

    /** The module-level start: no lattice, no missing frame, no centres. */
    constructor ()
      ensures lastValidGrid == None && missingFrames == 0 && lastValidCenters == []
    {
      lastValidGrid, missingFrames, lastValidCenters := None, 0, [];
    }

    /**
     * The decision of `GridDetection14.py`, `GridDetection16.py` and
     * `GridDetection17.py`: every non-empty lattice is taken, and the
     * frame shows the remembered lattice while the count is below 30.
     */
    method TakeAnyFrame(structured: Grid) returns (shown: Grid)
      modifies this`lastValidGrid, this`missingFrames
      ensures Memory(lastValidGrid, missingFrames) == TakeAny(Memory(old(lastValidGrid), old(missingFrames)), structured)
      ensures shown == Shown(Memory(lastValidGrid, missingFrames), structured)
    {
      if |structured| > 0 {
        lastValidGrid := Some(structured);
        missingFrames := 0;
      } else {
        missingFrames := missingFrames + 1;
      }
      shown := structured;
      if missingFrames < MissingThreshold && lastValidGrid.Some? {
        shown := lastValidGrid.value;
      }
    }

    /**
     * The decision of `GridDetection18.py`: a lattice too far from the last
     * one is replaced by the last one for this frame, and the frame shows
     * the remembered lattice while the count is below 30.
     */
    method TakeCloseFrame(structured: Grid, updateThreshold: int, norm: Vector -> real) returns (shown: Grid)
      modifies this`lastValidGrid, this`missingFrames
      ensures Memory(lastValidGrid, missingFrames) ==
              TakeClose(Memory(old(lastValidGrid), old(missingFrames)), structured, updateThreshold, norm)
      ensures shown == Shown(Memory(lastValidGrid, missingFrames),
                             if |structured| > 0 && old(lastValidGrid).Some? &&
                                GridDistance(old(lastValidGrid).value, structured, norm) > updateThreshold as real
                             then old(lastValidGrid).value else structured)
    {
      shown := structured;
      if |structured| > 0 {
        if lastValidGrid.Some? {
          var dist := ComputeGridDistance(lastValidGrid.value, structured, norm);
          if dist > updateThreshold as real {
            shown := lastValidGrid.value;
          } else {
            lastValidGrid := Some(structured);
            missingFrames := 0;
          }
        } else {
          lastValidGrid := Some(structured);
          missingFrames := 0;
        }
      } else {
        missingFrames := missingFrames + 1;
      }
      if missingFrames < MissingThreshold && lastValidGrid.Some? {
        shown := lastValidGrid.value;
      }
    }

    /**
     * `GridDetection14.py` after the decision: the centres of the shown
     * lattice, each against the last centre the script looks up for it,
     * become the last ones; an out-of-range look-up leaves them as they
     * were.
     */
    method RefreshCenters(shown: Grid, updateThreshold: int) returns (r: Run<seq<Point>>)
      modifies this`lastValidCenters
      ensures r.Done? || r.Raised?
      ensures r.Raised? <==> ShortBelow(shown)
      ensures r.Raised? ==> lastValidCenters == old(lastValidCenters)
      ensures r.Done? ==> lastValidCenters == r.value == WrittenCenters(shown, old(lastValidCenters), updateThreshold)
    {
      r := FindSteadyCenters(shown, lastValidCenters, updateThreshold);
      if r.Done? {
        lastValidCenters := r.value;
      }
    }

    /**
     * The `try` block of one frame of `GridDetection14.py`: the lattice
     * through the gate, the decision, and the centres. A failure ends the
     * frame where it happens, as the `except` does, keeping what was
     * assigned before it; a clustering that never ends is `Diverged`.
     */
    method Frame14(lines: Option<seq<Line>>, clusterDistance: int, updateThreshold: int) returns (r: Run<seq<Point>>)
      modifies this`lastValidGrid, this`missingFrames, this`lastValidCenters
      ensures r.Diverged? <==> GatedFrame(lines, old(lastValidGrid), clusterDistance, updateThreshold).Diverged?
      ensures GatedFrame(lines, old(lastValidGrid), clusterDistance, updateThreshold).Raised? ==>
                r.Raised? && lastValidGrid == old(lastValidGrid) && missingFrames == old(missingFrames) &&
                lastValidCenters == old(lastValidCenters)
      ensures var g := GatedFrame(lines, old(lastValidGrid), clusterDistance, updateThreshold);
              (g.Done? ==>
                 var m := TakeAny(Memory(old(lastValidGrid), old(missingFrames)), g.value);
                 var shown := Shown(m, g.value);
                 Memory(lastValidGrid, missingFrames) == m &&
                 (r.Raised? <==> ShortBelow(shown)) &&
                 (r.Raised? ==> lastValidCenters == old(lastValidCenters)) &&
                 (r.Done? ==> lastValidCenters == r.value == WrittenCenters(shown, old(lastValidCenters), updateThreshold)))
    {
      var g := DetectFrame14(lines, lastValidGrid, clusterDistance, updateThreshold);
      if g.Diverged? {
        return Diverged;
      }
      if g.Raised? {
        return Raised;
      }
      var shown := TakeAnyFrame(g.value);
      r := RefreshCenters(shown, updateThreshold);
    }
  }
}
