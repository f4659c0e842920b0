/**
 * `identify_outermost_and_corner_intersections` of `GridDetection8.py`:
 * the lattice's points split into those on its rim (the first and last
 * rows, and the first and last point of every row) and those inside,
 * and the four corner points of the first and last rows.
 */
module LatticeBorder {
  import opened Common
  import opened Lattice
  import opened LatticeRows
  import opened LatticeCells

  /** The three lists the function returns. */
  datatype Border = Border(outermost: seq<Point>, inner: seq<Point>, corners: seq<Point>)

  /** Point `j` of row `i` is on the rim. */
  predicate OnRim(grid: Grid, i: nat, j: nat)
    requires i < |grid|
  {
    i == 0 || i == |grid| - 1 || j == 0 || j == |grid[i]| - 1
  }

  /** The first `n` points of row `i` that are on the rim (`rim`) or inside (`!rim`), in row order. */
  function RowPart(grid: Grid, i: nat, n: nat, rim: bool): seq<Point>
    requires i < |grid| && n <= |grid[i]|
  {
    if n == 0 then []
    else RowPart(grid, i, n - 1, rim) + (if OnRim(grid, i, n - 1) == rim then [grid[i][n - 1]] else [])
  }

  /** The rim or inside points of the first `m` rows, row by row. */
  function Part(grid: Grid, m: nat, rim: bool): seq<Point>
    requires m <= |grid|
  {
    if m == 0 then [] else Part(grid, m - 1, rim) + RowPart(grid, m - 1, |grid[m - 1]|, rim)
  }

  /**
   * The corner list: with two rows or more and two points or more in the
   * first row, the first and last points of the first and last rows; an
   * empty last row then makes the index `[-1][0]` fail.
   */
  function CornerPoints(grid: Grid): Run<seq<Point>>
  {
    if |grid| > 1 && |grid[0]| > 1 then
      var last := grid[|grid| - 1];
      if |last| == 0 then Raised
      else Done([grid[0][0], grid[0][|grid[0]| - 1], last[0], last[|last| - 1]])
    else Done([])
  }

  /** What the function returns, or `Raised` where the corner indexing fails. */
  function BorderOf(grid: Grid): Run<Border>
  {
    var corners := CornerPoints(grid);
    if corners.Raised? then Raised else Done(Border(Part(grid, |grid|, true), Part(grid, |grid|, false), corners.value))
  }

  /** Row `i`'s rim and inside points number, together, its first `n` points. */
  lemma {:induction false} RowPartCount(grid: Grid, i: nat, n: nat)
    requires i < |grid| && n <= |grid[i]|
    ensures |RowPart(grid, i, n, true)| + |RowPart(grid, i, n, false)| == n
    decreases n
  {
    if n > 0 {
      RowPartCount(grid, i, n - 1);
    }
  }

  /** The points of the first `m` rows, row by row. */
  function PointsUpTo(grid: Grid, m: nat): seq<Point>
    requires m <= |grid|
  {
    if m == 0 then [] else PointsUpTo(grid, m - 1) + grid[m - 1]
  }

  lemma {:induction false} PointsUpToFlatten(grid: Grid, m: nat)
    requires m <= |grid|
    ensures PointsUpTo(grid, m) == Flatten(grid[..m])
    decreases m
  {
    if m > 0 {
      PointsUpToFlatten(grid, m - 1);
      assert grid[..m] == grid[..m - 1] + [grid[m - 1]];
      FlattenSnoc(grid[..m - 1], grid[m - 1]);
    }
  }

  /** The rim and inside points of the first `m` rows number, together, the points of those rows. */
  lemma {:induction false} PartCount(grid: Grid, m: nat)
    requires m <= |grid|
    ensures |Part(grid, m, true)| + |Part(grid, m, false)| == |PointsUpTo(grid, m)|
    decreases m
  {
    if m > 0 {
      PartCount(grid, m - 1);
      RowPartCount(grid, m - 1, |grid[m - 1]|);
    }
  }

  /**
   * Every lattice point goes to exactly one of the two lists: the
   * outermost list holds the points at rim positions, the inner list
   * those at other positions, and their lengths add up to the number of
   * points.
   */
  lemma EveryPointOnce(grid: Grid)
    ensures BorderOf(grid).Done? ==>
              var b := BorderOf(grid).value;
              |b.outermost| + |b.inner| == |Flatten(grid)| &&
              (forall p :: p in b.outermost <==>
                 exists i, j :: 0 <= i < |grid| && 0 <= j < |grid[i]| && OnRim(grid, i, j) && grid[i][j] == p) &&
              (forall p :: p in b.inner <==>
                 exists i, j :: 0 <= i < |grid| && 0 <= j < |grid[i]| && !OnRim(grid, i, j) && grid[i][j] == p)
  {
    PartCount(grid, |grid|);
    PointsUpToFlatten(grid, |grid|);
    assert grid[..|grid|] == grid;
    forall p ensures p in Part(grid, |grid|, true) <==>
                 exists i, j :: 0 <= i < |grid| && 0 <= j < |grid[i]| && OnRim(grid, i, j) == true && grid[i][j] == p {
      PartFrom(grid, |grid|, true, p);
    }
    forall p ensures p in Part(grid, |grid|, false) <==>
                 exists i, j :: 0 <= i < |grid| && 0 <= j < |grid[i]| && OnRim(grid, i, j) == false && grid[i][j] == p {
      PartFrom(grid, |grid|, false, p);
    }
  }

  /** A point of row `i`'s part is one of that row's points on the matching side. */
  lemma {:induction false} RowPartFrom(grid: Grid, i: nat, n: nat, rim: bool, p: Point)
    requires i < |grid| && n <= |grid[i]|
    ensures p in RowPart(grid, i, n, rim) <==> exists j :: 0 <= j < n && OnRim(grid, i, j) == rim && grid[i][j] == p
    decreases n
  {
    if n > 0 {
      RowPartFrom(grid, i, n - 1, rim, p);
    }
  }

  /**
   * The outermost list holds exactly the lattice's points at rim
   * positions, and the inner list exactly those at other positions.
   */
  lemma {:induction false} PartFrom(grid: Grid, m: nat, rim: bool, p: Point)
    requires m <= |grid|
    ensures p in Part(grid, m, rim) <==>
              exists i, j :: 0 <= i < m && 0 <= j < |grid[i]| && OnRim(grid, i, j) == rim && grid[i][j] == p
    decreases m
  {
    if m > 0 {
      PartFrom(grid, m - 1, rim, p);
      RowPartFrom(grid, m - 1, |grid[m - 1]|, rim, p);
      if p in Part(grid, m, rim) && p !in Part(grid, m - 1, rim) {
        var j :| 0 <= j < |grid[m - 1]| && OnRim(grid, m - 1, j) == rim && grid[m - 1][j] == p;
        assert 0 <= m - 1 < m && 0 <= j < |grid[m - 1]| && OnRim(grid, m - 1, j) == rim && grid[m - 1][j] == p;
      }
      if exists i, j :: 0 <= i < m && 0 <= j < |grid[i]| && OnRim(grid, i, j) == rim && grid[i][j] == p {
        var i, j :| 0 <= i < m && 0 <= j < |grid[i]| && OnRim(grid, i, j) == rim && grid[i][j] == p;
        if i == m - 1 {
          assert p in RowPart(grid, m - 1, |grid[m - 1]|, rim);
        } else {
          assert p in Part(grid, m - 1, rim);
        }
      }
    }
  }

  /** With two rows or fewer, every point is on the rim and the inner list is empty. */
  lemma {:induction false} NoInnerInTwoRows(grid: Grid, m: nat)
    requires m <= |grid| <= 2
    ensures Part(grid, m, false) == []
    decreases m
  {
    if m > 0 {
      NoInnerInTwoRows(grid, m - 1);
      NoInnerInRow(grid, m - 1, |grid[m - 1]|);
    }
  }

  lemma {:induction false} NoInnerInRow(grid: Grid, i: nat, n: nat)
    requires i < |grid| <= 2 && n <= |grid[i]|
    ensures RowPart(grid, i, n, false) == []
    decreases n
  {
    if n > 0 {
      NoInnerInRow(grid, i, n - 1);
    }
  }

  /** No lattice, three empty lists. */
  lemma EmptyLatticeEmptyLists()
    ensures BorderOf([]) == Done(Border([], [], []))
  {
  }

  /**
   * Corners come only from two rows or more with two points or more in
   * the first row, and are its first and last points then the last row's;
   * a lattice `sort_intersections` builds never makes the indexing fail.
   */
  lemma CornersOfRows(points: seq<Point>)
    ensures CornerPoints(Rows(points)).Done?
    ensures var g := Rows(points);
            var c := CornerPoints(g).value;
            (|c| == 4 <==> |g| >= 2 && |g[0]| >= 2) && (|c| == 0 <==> !(|g| >= 2 && |g[0]| >= 2)) &&
            (|c| == 4 ==> c == [g[0][0], g[0][|g[0]| - 1], g[|g| - 1][0], g[|g| - 1][|g[|g| - 1]| - 1]])
  {
    RowsShape(points);
    var g := Rows(points);
    if |g| > 1 {
      assert |g[|g| - 1]| > 0;
    }
  }

  /** The points of row `i` from `j` on, each sent to its list. */
  method SplitRow(grid: Grid, i: nat, outer0: seq<Point>, inner0: seq<Point>) returns (outermost: seq<Point>, inner: seq<Point>)
    requires i < |grid|
    ensures outermost == outer0 + RowPart(grid, i, |grid[i]|, true)
    ensures inner == inner0 + RowPart(grid, i, |grid[i]|, false)
  {
    outermost, inner := outer0, inner0;
    var j := 0;
    while j < |grid[i]|
      invariant j <= |grid[i]|
      invariant outermost == outer0 + RowPart(grid, i, j, true)
      invariant inner == inner0 + RowPart(grid, i, j, false)
    {
      var point := grid[i][j];
      if i == 0 || i == |grid| - 1 || j == 0 || j == |grid[i]| - 1 {
        AppendAssoc(outer0, RowPart(grid, i, j, true), [point]);
        outermost := outermost + [point];
      } else {
        AppendAssoc(inner0, RowPart(grid, i, j, false), [point]);
        inner := inner + [point];
      }
      j := j + 1;
    }
  }

  /** `identify_outermost_and_corner_intersections`. */
  method IdentifyOutermostAndCorners(grid: Grid) returns (r: Run<Border>)
    ensures r == BorderOf(grid)
  {
    if |grid| == 0 {
      return Done(Border([], [], []));
    }
    var outermost, inner := [], [];
    var i := 0;
    while i < |grid|
      invariant i <= |grid|
      invariant outermost == Part(grid, i, true) && inner == Part(grid, i, false)
    {
      outermost, inner := SplitRow(grid, i, outermost, inner);
      i := i + 1;
    }
    var corners := [];
    if |grid| > 1 && |grid[0]| > 1 {
      if |grid[|grid| - 1]| == 0 {
        return Raised;
      }
      var last := grid[|grid| - 1];
      corners := [grid[0][0], grid[0][|grid[0]| - 1], last[0], last[|last| - 1]];
    }
    return Done(Border(outermost, inner, corners));
  }
}
