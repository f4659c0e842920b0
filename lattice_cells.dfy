/**
 * What the detectors read off a lattice of rows: the cell between two
 * neighbouring rows and two neighbouring columns, its centre and its
 * polygon, numbered from 1 row by row; the lattice's four corners; the
 * mean distance between two lattices; and the first cell that holds a
 * marker's triangle.
 */
module LatticeCells {
  import opened Common
  import opened Lattice

  /** Rows of points, top to bottom, as `sort_into_grid` returns them. */
  type Grid = seq<seq<Point>>

  /** A position in display space, as floats: a triangle corner. */
  type Spot = (real, real)

  /** `((x1 + x2) // 2, (y1 + y2) // 2)`: floor division by a positive divisor is Dafny's `/`. */
  function Mid(p: Point, q: Point): Point
  {
    ((p.0 + q.0) / 2, (p.1 + q.1) / 2)
  }

  /** `range(len(grid) - 1)`: the row pairs, none for fewer than two rows. */
  function Pairs(grid: Grid): nat
  {
    if |grid| < 2 then 0 else |grid| - 1
  }

  /** `min(len(row r), len(row r + 1)) - 1` columns of cells, none when that is negative. */
  function Cols(grid: Grid, r: nat): nat
    requires r + 1 < |grid|
  {
    var m := (if |grid[r]| < |grid[r + 1]| then |grid[r]| else |grid[r + 1]|) - 1;
    if m < 0 then 0 else m
  }

  /** The centres of the first `n` cells of row pair `r`: columns `c` of the top row and `c + 1` of the bottom one. */
  function RowCenters(grid: Grid, r: nat, n: nat): (cs: seq<Point>)
    requires r + 1 < |grid| && n <= Cols(grid, r)
    ensures |cs| == n
  {
    if n == 0 then [] else RowCenters(grid, r, n - 1) + [Mid(grid[r][n - 1], grid[r + 1][n])]
  }

  /** The centres of the cells of the first `r` row pairs. */
  function CentersUpTo(grid: Grid, r: nat): seq<Point>
    requires r <= Pairs(grid)
  {
    if r == 0 then [] else CentersUpTo(grid, r - 1) + RowCenters(grid, r - 1, Cols(grid, r - 1))
  }

  /** `find_cell_centers(grid)`'s centres. */
  function CellCenters(grid: Grid): seq<Point>
  {
    CentersUpTo(grid, Pairs(grid))
  }

  /** The labels `1, 2, …, n`, one per cell. */
  function Labels(n: nat): (ls: seq<int>)
    ensures |ls| == n && forall k :: 0 <= k < n ==> ls[k] == k + 1
  {
    if n == 0 then [] else Labels(n - 1) + [n]
  }

  /** The number of cells of the first `r` row pairs. */
  function Offset(grid: Grid, r: nat): nat
    requires r <= Pairs(grid)
  {
    if r == 0 then 0 else Offset(grid, r - 1) + Cols(grid, r - 1)
  }

  lemma {:induction false} CentersUpToLength(grid: Grid, r: nat)
    requires r <= Pairs(grid)
    ensures |CentersUpTo(grid, r)| == Offset(grid, r)
    decreases r
  {
    if r > 0 {
      CentersUpToLength(grid, r - 1);
    }
  }

  lemma {:induction false} RowCentersAt(grid: Grid, r: nat, n: nat, c: nat)
    requires r + 1 < |grid| && c < n <= Cols(grid, r)
    ensures RowCenters(grid, r, n)[c] == Mid(grid[r][c], grid[r + 1][c + 1])
    decreases n
  {
    if c < n - 1 {
      RowCentersAt(grid, r, n - 1, c);
    }
  }

  lemma {:induction false} CentersUpToPrefix(grid: Grid, r: nat, r': nat, k: nat)
    requires r <= r' <= Pairs(grid) && k < |CentersUpTo(grid, r)|
    ensures k < |CentersUpTo(grid, r')| && CentersUpTo(grid, r')[k] == CentersUpTo(grid, r)[k]
    decreases r' - r
  {
    if r < r' {
      CentersUpToPrefix(grid, r, r' - 1, k);
    }
  }

  /**
   * The cell of row pair `r` and column `c` is number `Offset(r) + c + 1`:
   * its centre is the floor midpoint of the top row's point `c` and the
   * bottom row's point `c + 1`, its top-left and bottom-right corners.
   */
  lemma CenterAt(grid: Grid, r: nat, c: nat)
    requires r < Pairs(grid) && c < Cols(grid, r)
    ensures Offset(grid, r) + c < |CellCenters(grid)|
    ensures CellCenters(grid)[Offset(grid, r) + c] == Mid(grid[r][c], grid[r + 1][c + 1])
  {
    CentersUpToLength(grid, r);
    var upto := CentersUpTo(grid, r + 1);
    assert upto == CentersUpTo(grid, r) + RowCenters(grid, r, Cols(grid, r));
    RowCentersAt(grid, r, Cols(grid, r), c);
    CentersUpToPrefix(grid, r + 1, Pairs(grid), Offset(grid, r) + c);
  }

  /** One cell per neighbouring pair of columns of every neighbouring pair of rows. */
  lemma CellCount(grid: Grid)
    ensures |CellCenters(grid)| == Offset(grid, Pairs(grid))
  {
    CentersUpToLength(grid, Pairs(grid));
  }

  /** Every row the same length `n`: `n - 1` cells per row pair before row pair `r`. */
  lemma {:induction false} RegularOffset(grid: Grid, n: nat, r: nat)
    requires n >= 1 && forall i :: 0 <= i < |grid| ==> |grid[i]| == n
    requires r <= Pairs(grid)
    ensures Offset(grid, r) == r * (n - 1)
    decreases r
  {
    if r > 0 {
      RegularOffset(grid, n, r - 1);
      MulStepInt(r - 1, n - 1);
    }
  }

  /** The centre of a cell whose top-left corner lies above and left of its bottom-right one lies between them. */
  lemma MidBetween(p: Point, q: Point)
    requires p.0 <= q.0 && p.1 <= q.1
    ensures p.0 <= Mid(p, q).0 <= q.0 && p.1 <= Mid(p, q).1 <= q.1
  {
  }

  /** `find_cell_centers(grid)`: the centres, row pair by row pair, and their labels from 1. */
  method FindCellCenters(grid: Grid) returns (centers: seq<Point>, labels: seq<int>)
    ensures centers == CellCenters(grid)
    ensures labels == Labels(|centers|)
  {
    centers, labels := [], [];
    var labelCount := 1;
    var rowIdx := 0;
    while rowIdx < |grid| - 1
      invariant 0 <= rowIdx <= Pairs(grid)
      invariant centers == CentersUpTo(grid, rowIdx)
      invariant labels == Labels(|centers|) && labelCount == |centers| + 1
    {
      var numColsCurr, numColsNext := |grid[rowIdx]|, |grid[rowIdx + 1]|;
      var maxCols := (if numColsCurr < numColsNext then numColsCurr else numColsNext) - 1;
      ghost var before := centers;
      var colIdx := 0;
      while colIdx < maxCols
        invariant 0 <= colIdx <= Cols(grid, rowIdx)
        invariant centers == before + RowCenters(grid, rowIdx, colIdx)
        invariant labels == Labels(|centers|) && labelCount == |centers| + 1
      {
        var center := Mid(grid[rowIdx][colIdx], grid[rowIdx + 1][colIdx + 1]);
        AppendAssoc(before, RowCenters(grid, rowIdx, colIdx), [center]);
        centers := centers + [center];
        labels := labels + [labelCount];
        labelCount := labelCount + 1;
        colIdx := colIdx + 1;
      }
      rowIdx := rowIdx + 1;
    }
  }

  // ---------------------------------------------------------------- corners

  /**
   * `get_grid_corners`: `[tl, tr, bl, br]`, the ends of the first and last
   * rows, or nothing when there are fewer than two rows or either of them
   * has fewer than two points.
   */
  function GridCorners(grid: Grid): Option<seq<Point>>
  {
    if |grid| < 2 then None
    else
      var top, bottom := grid[0], grid[|grid| - 1];
      if |top| < 2 || |bottom| < 2 then None
      else Some([top[0], top[|top| - 1], bottom[0], bottom[|bottom| - 1]])
  }

  /** Corners exist exactly for two rows or more whose first and last have two points or more. */
  lemma CornersExist(grid: Grid)
    ensures GridCorners(grid).Some? <==> |grid| >= 2 && |grid[0]| >= 2 && |grid[|grid| - 1]| >= 2
    ensures GridCorners(grid).Some? ==> |GridCorners(grid).value| == 4
  {
  }

  // ---------------------------------------------------------------- cell polygons

  /** A cell's outline `[tl, tr, br, bl]`, in that order round the cell. */
  datatype Quad = Quad(tl: Point, tr: Point, br: Point, bl: Point)

  /** A cell's outline and its number: `(poly, cell_label)`. */
  datatype CellPoly = CellPoly(poly: Quad, cellLabel: int)

  /** A corner, through the homography when one is in use. */
  function Through(warp: Option<Point -> Point>, p: Point): Point
  {
    if warp.Some? then warp.value(p) else p
  }

  /** The outline `[tl, tr, br, bl]` of cell `c` of row pair `r`. */
  function Outline(grid: Grid, r: nat, c: nat, warp: Option<Point -> Point>): Quad
    requires r + 1 < |grid| && c < Cols(grid, r)
  {
    Quad(Through(warp, grid[r][c]), Through(warp, grid[r][c + 1]),
         Through(warp, grid[r + 1][c + 1]), Through(warp, grid[r + 1][c]))
  }

  function RowOutlines(grid: Grid, r: nat, n: nat, warp: Option<Point -> Point>): (os: seq<Quad>)
    requires r + 1 < |grid| && n <= Cols(grid, r)
    ensures |os| == n
  {
    if n == 0 then [] else RowOutlines(grid, r, n - 1, warp) + [Outline(grid, r, n - 1, warp)]
  }

  function OutlinesUpTo(grid: Grid, r: nat, warp: Option<Point -> Point>): seq<Quad>
    requires r <= Pairs(grid)
  {
    if r == 0 then [] else OutlinesUpTo(grid, r - 1, warp) + RowOutlines(grid, r - 1, Cols(grid, r - 1), warp)
  }

  /** The cells' outlines, in the order and number of their centres. */
  function Outlines(grid: Grid, warp: Option<Point -> Point>): seq<Quad>
  {
    OutlinesUpTo(grid, Pairs(grid), warp)
  }

  /** The outlines numbered from 1. */
  function Numbered(os: seq<Quad>): (ps: seq<CellPoly>)
    ensures |ps| == |os|
  {
    if |os| == 0 then [] else Numbered(os[..|os| - 1]) + [CellPoly(os[|os| - 1], |os|)]
  }

  /** Polygon `k` is outline `k` under label `k + 1`. */
  lemma {:induction false} NumberedAt(os: seq<Quad>)
    ensures forall k :: 0 <= k < |os| ==> Numbered(os)[k] == CellPoly(os[k], k + 1)
    decreases |os|
  {
    if |os| > 0 {
      NumberedAt(os[..|os| - 1]);
    }
  }

  lemma {:induction false} RowOutlinesMatch(grid: Grid, r: nat, n: nat)
    requires r + 1 < |grid| && n <= Cols(grid, r)
    ensures forall c :: 0 <= c < n ==>
              var o := RowOutlines(grid, r, n, None)[c];
              RowCenters(grid, r, n)[c] == Mid(o.tl, o.br)
    decreases n
  {
    if n > 0 {
      RowOutlinesMatch(grid, r, n - 1);
    }
  }

  lemma {:induction false} OutlinesUpToMatch(grid: Grid, r: nat)
    requires r <= Pairs(grid)
    ensures |OutlinesUpTo(grid, r, None)| == |CentersUpTo(grid, r)|
    ensures forall k :: 0 <= k < |CentersUpTo(grid, r)| ==>
              var o := OutlinesUpTo(grid, r, None)[k];
              CentersUpTo(grid, r)[k] == Mid(o.tl, o.br)
    decreases r
  {
    if r > 0 {
      OutlinesUpToMatch(grid, r - 1);
      RowOutlinesMatch(grid, r - 1, Cols(grid, r - 1));
      var os: seq<Quad>, cs: seq<Point> := OutlinesUpTo(grid, r - 1, None), CentersUpTo(grid, r - 1);
      var ro: seq<Quad>, rc: seq<Point> := RowOutlines(grid, r - 1, Cols(grid, r - 1), None), RowCenters(grid, r - 1, Cols(grid, r - 1));
      forall k | 0 <= k < |cs| + |rc|
        ensures var o := (os + ro)[k]; (cs + rc)[k] == Mid(o.tl, o.br)
      {
        if k >= |cs| {
          assert (os + ro)[k] == ro[k - |cs|] && (cs + rc)[k] == rc[k - |cs|];
        } else {
          assert (os + ro)[k] == os[k] && (cs + rc)[k] == cs[k];
        }
      }
    }
  }

  /**
   * Without the homography, polygon `k` and centre `k` describe the same
   * cell under the same label: the centre is the floor midpoint of the
   * polygon's top-left and bottom-right corners.
   */
  lemma PolygonsMatchCenters(grid: Grid)
    ensures |Outlines(grid, None)| == |CellCenters(grid)|
    ensures forall k :: 0 <= k < |CellCenters(grid)| ==>
              var o := Outlines(grid, None)[k];
              CellCenters(grid)[k] == Mid(o.tl, o.br)
  {
    OutlinesUpToMatch(grid, Pairs(grid));
  }

  /** Numbering one more outline of row pair `r` appends it under the next label. */
  lemma PolygonStep(grid: Grid, r: nat, c: nat, warp: Option<Point -> Point>, before: seq<Quad>, polys: seq<CellPoly>)
    requires r + 1 < |grid| && c < Cols(grid, r)
    requires polys == Numbered(before + RowOutlines(grid, r, c, warp))
    ensures polys + [CellPoly(Outline(grid, r, c, warp), |polys| + 1)] == Numbered(before + RowOutlines(grid, r, c + 1, warp))
  {
    var os, o := before + RowOutlines(grid, r, c, warp), Outline(grid, r, c, warp);
    AppendAssoc(before, RowOutlines(grid, r, c, warp), [o]);
    assert (os + [o])[..|os|] == os;
  }

  /** `_get_cell_polygons` / `get_cell_polygons`: each cell's outline with its number. */
  method GetCellPolygons(grid: Grid, warp: Option<Point -> Point>) returns (polys: seq<CellPoly>)
    ensures polys == Numbered(Outlines(grid, warp))
  {
    polys := [];
    ghost var os: seq<Quad> := [];
    var r := 0;
    while r < |grid| - 1
      invariant 0 <= r <= Pairs(grid)
      invariant os == OutlinesUpTo(grid, r, warp) && polys == Numbered(os)
    {
      polys := RowPolygons(grid, r, warp, polys, os);
      os := os + RowOutlines(grid, r, Cols(grid, r), warp);
      r := r + 1;
    }
  }

  /** The inner loop of `_get_cell_polygons`: the cells of row pair `r`, numbered on from those before. */
  method RowPolygons(grid: Grid, r: nat, warp: Option<Point -> Point>, polys0: seq<CellPoly>, ghost before: seq<Quad>)
    returns (polys: seq<CellPoly>)
    requires r + 1 < |grid| && polys0 == Numbered(before)
    ensures polys == Numbered(before + RowOutlines(grid, r, Cols(grid, r), warp))
  {
    polys := polys0;
    assert before + RowOutlines(grid, r, 0, warp) == before;
    var cellLabel := |polys0| + 1;
    var numCols := if |grid[r]| < |grid[r + 1]| then |grid[r]| else |grid[r + 1]|;
    var c := 0;
    while c < numCols - 1
      invariant 0 <= c <= Cols(grid, r)
      invariant polys == Numbered(before + RowOutlines(grid, r, c, warp)) && cellLabel == |polys| + 1
    {
      var tl, tr := Through(warp, grid[r][c]), Through(warp, grid[r][c + 1]);
      var bl, br := Through(warp, grid[r + 1][c]), Through(warp, grid[r + 1][c + 1]);
      var poly := Quad(tl, tr, br, bl);
      assert poly == Outline(grid, r, c, warp);
      PolygonStep(grid, r, c, warp, before, polys);
      polys := polys + [CellPoly(poly, cellLabel)];
      cellLabel := cellLabel + 1;
      c := c + 1;
    }
  }

  // ---------------------------------------------------------------- triangle to cell

  /** Every corner of the triangle lies in the polygon, by `point_in_polygon`. */
  predicate AllInside(tri: seq<Spot>, poly: Quad, inside: (Spot, Quad) -> bool)
  {
    forall i :: 0 <= i < |tri| ==> inside(tri[i], poly)
  }

  /**
   * `assign_marker_to_cell`: the label of the first polygon holding every
   * corner of the triangle, nothing when none does.
   */
  function CellOf(tri: seq<Spot>, polys: seq<CellPoly>, inside: (Spot, Quad) -> bool): Option<int>
  {
    if |polys| == 0 then None
    else if AllInside(tri, polys[0].poly, inside) then Some(polys[0].cellLabel)
    else CellOf(tri, polys[1..], inside)
  }

  /**
   * The label found is that of a polygon holding the whole triangle with
   * no earlier polygon doing so, and nothing is found exactly when no
   * polygon holds it.
   */
  lemma {:induction false} CellOfFirst(tri: seq<Spot>, polys: seq<CellPoly>, inside: (Spot, Quad) -> bool)
    ensures CellOf(tri, polys, inside).None? <==>
              forall k :: 0 <= k < |polys| ==> !AllInside(tri, polys[k].poly, inside)
    ensures CellOf(tri, polys, inside).Some? ==>
              exists k :: 0 <= k < |polys| && AllInside(tri, polys[k].poly, inside) &&
                polys[k].cellLabel == CellOf(tri, polys, inside).value &&
                forall j :: 0 <= j < k ==> !AllInside(tri, polys[j].poly, inside)
    decreases |polys|
  {
    if |polys| > 0 && !AllInside(tri, polys[0].poly, inside) {
      CellOfFirst(tri, polys[1..], inside);
      if CellOf(tri, polys, inside).Some? {
        var k :| 0 <= k < |polys[1..]| && AllInside(tri, polys[1..][k].poly, inside) &&
                 polys[1..][k].cellLabel == CellOf(tri, polys, inside).value &&
                 forall j :: 0 <= j < k ==> !AllInside(tri, polys[1..][j].poly, inside);
        assert forall j :: 0 < j <= k ==> polys[j] == polys[1..][j - 1];
        assert polys[k + 1] == polys[1..][k];
      } else {
        assert forall k :: 0 < k < |polys| ==> polys[k] == polys[1..][k - 1];
      }
    }
  }

  /**
   * A cell found among numbered outlines has a label from 1 to their
   * number, and the outline under that label holds the whole triangle.
   */
  lemma {:induction false} FoundLabelInRange(tri: seq<Spot>, os: seq<Quad>, inside: (Spot, Quad) -> bool)
    ensures var l := CellOf(tri, Numbered(os), inside);
            l.Some? ==> 1 <= l.value <= |os| && AllInside(tri, os[l.value - 1], inside)
  {
    var ps := Numbered(os);
    NumberedAt(os);
    CellOfFirst(tri, ps, inside);
    if CellOf(tri, ps, inside).Some? {
      var k :| 0 <= k < |ps| && AllInside(tri, ps[k].poly, inside) &&
               ps[k].cellLabel == CellOf(tri, ps, inside).value &&
               forall j :: 0 <= j < k ==> !AllInside(tri, ps[j].poly, inside);
      assert ps[k] == CellPoly(os[k], k + 1);
    }
  }

  /**
   * `_find_cell_for_triangle`: counting each polygon's corners inside
   * until the first outside and accepting a count of three gives, for a
   * triangle, the cell `assign_marker_to_cell` gives.
   */
  method FindCellForTriangle(tri: seq<Spot>, cellPolys: seq<CellPoly>, inside: (Spot, Quad) -> bool)
    returns (found: Option<int>)
    requires |tri| == 3
    ensures found == CellOf(tri, cellPolys, inside)
  {
    var k := 0;
    while k < |cellPolys|
      invariant 0 <= k <= |cellPolys|
      invariant CellOf(tri, cellPolys, inside) == CellOf(tri, cellPolys[k..], inside)
    {
      var poly := cellPolys[k].poly;
      var insideCount := 0;
      var i := 0;
      while i < |tri|
        invariant 0 <= i <= |tri| && insideCount == i
        invariant forall j :: 0 <= j < i ==> inside(tri[j], poly)
      {
        if inside(tri[i], poly) {
          insideCount := insideCount + 1;
        } else {
          break;
        }
        i := i + 1;
      }
      assert insideCount == 3 <==> AllInside(tri, poly, inside);
      assert cellPolys[k..][0] == cellPolys[k] && cellPolys[k..][1..] == cellPolys[k + 1..];
      if insideCount == 3 {
        return Some(cellPolys[k].cellLabel);
      }
      k := k + 1;
    }
    found := None;
  }
}
