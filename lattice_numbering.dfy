/**
 * `draw_grid` of `GridDetection4.py`: a fixed board of `GRID_ROWS` by
 * `GRID_COLS` cells, cell `(i, j)` drawn from the points `(i, j)` and
 * `(i + 1, j + 1)` whenever row `i` has a next row and a next point, and
 * numbered `i * GRID_COLS + j + 1`; and the frame check that draws the
 * lattice only when it has exactly the board's shape.
 */
module LatticeNumbering {
  import opened Common
  import opened Lattice
  import opened LatticeCells

  const GridRows := 3
  const GridCols := 4

  /** The number written on a cell and where. */
  datatype CellLabel = CellLabel(number: int, center: Point)

  /** The guard of the inner loop: there is a row below row `i` and a point right of point `j`. */
  predicate Drawable(grid: Grid, i: nat, j: nat)
  {
    i + 1 < |grid| && j + 1 < |grid[i]|
  }

  /** A drawable cell whose lower corner `grid[i + 1][j + 1]` is missing: the index fails. */
  predicate Fails(grid: Grid, i: nat, j: nat)
  {
    Drawable(grid, i, j) && j + 1 >= |grid[i + 1]|
  }

  /** Some cell of the board fails. */
  predicate Faulty(grid: Grid)
  {
    exists i, j :: 0 <= i < GridRows && 0 <= j < GridCols && Fails(grid, i, j)
  }

  /** The label of cell `(i, j)`: its number and the midpoint of its diagonal. */
  function LabelAt(grid: Grid, i: nat, j: nat): CellLabel
    requires Drawable(grid, i, j) && !Fails(grid, i, j)
  {
    CellLabel(i * GridCols + j + 1, Mid(grid[i][j], grid[i + 1][j + 1]))
  }

  /** The labels of the first `n` cells of board row `i` that are drawn. */
  function RowLabels(grid: Grid, i: nat, n: nat): seq<CellLabel>
    requires n <= GridCols
  {
    if n == 0 then []
    else
      RowLabels(grid, i, n - 1) +
      (if Drawable(grid, i, n - 1) && !Fails(grid, i, n - 1) then [LabelAt(grid, i, n - 1)] else [])
  }

  /** The labels of the first `m` board rows. */
  function LabelsUpTo(grid: Grid, m: nat): seq<CellLabel>
    requires m <= GridRows
  {
    if m == 0 then [] else LabelsUpTo(grid, m - 1) + RowLabels(grid, m - 1, GridCols)
  }

  /** What `draw_grid` writes: the labels, or `Raised` when some cell's lower corner is missing. */
  function Drawn(grid: Grid): Run<seq<CellLabel>>
  {
    if Faulty(grid) then Raised else Done(LabelsUpTo(grid, GridRows))
  }

  /** The shape the frame loop checks: `GRID_ROWS + 1` rows of `GRID_COLS + 1` points each. */
  predicate ExactShape(grid: Grid)
  {
    |grid| == GridRows + 1 && forall k :: 0 <= k < |grid| ==> |grid[k]| == GridCols + 1
  }

  /** The frame's overlay: the labels when the lattice has the board's shape, none otherwise. */
  function Overlay(grid: Grid): (r: Option<seq<CellLabel>>)
    ensures r.Some? <==> ExactShape(grid)
    ensures r.Some? ==>
              |r.value| == GridRows * GridCols &&
              forall k :: 0 <= k < |r.value| ==>
                r.value[k] == CellLabel(k + 1, Mid(grid[k / GridCols][k % GridCols], grid[k / GridCols + 1][k % GridCols + 1]))
  {
    if ExactShape(grid) then
      ExactShapeLabels(grid);
      Some(LabelsUpTo(grid, GridRows))
    else None
  }

  /** In a full row every cell is drawn, in order, numbered after the `i * GRID_COLS` cells above. */
  lemma {:induction false} FullRowLabels(grid: Grid, i: nat, n: nat)
    requires ExactShape(grid) && i < GridRows && n <= GridCols
    ensures |RowLabels(grid, i, n)| == n
    ensures forall j :: 0 <= j < n ==>
              RowLabels(grid, i, n)[j] == CellLabel(i * GridCols + j + 1, Mid(grid[i][j], grid[i + 1][j + 1]))
    decreases n
  {
    if n > 0 {
      FullRowLabels(grid, i, n - 1);
      assert Drawable(grid, i, n - 1) && !Fails(grid, i, n - 1);
    }
  }

  /** The first `m` rows of a lattice of the board's shape give `m * GRID_COLS` labels numbered from 1. */
  lemma {:induction false} FullLabelsUpTo(grid: Grid, m: nat)
    requires ExactShape(grid) && m <= GridRows
    ensures |LabelsUpTo(grid, m)| == m * GridCols
    ensures forall k :: 0 <= k < m * GridCols ==>
              LabelsUpTo(grid, m)[k] ==
                CellLabel(k + 1, Mid(grid[k / GridCols][k % GridCols], grid[k / GridCols + 1][k % GridCols + 1]))
    decreases m
  {
    if m > 0 {
      FullLabelsUpTo(grid, m - 1);
      FullRowLabels(grid, m - 1, GridCols);
      var before := LabelsUpTo(grid, m - 1);
      var row := RowLabels(grid, m - 1, GridCols);
      forall k | (m - 1) * GridCols <= k < m * GridCols
        ensures (before + row)[k] ==
                CellLabel(k + 1, Mid(grid[k / GridCols][k % GridCols], grid[k / GridCols + 1][k % GridCols + 1]))
      {
        var j := k - (m - 1) * GridCols;
        assert k == (m - 1) * GridCols + j && 0 <= j < GridCols;
        assert k / GridCols == m - 1 && k % GridCols == j;
      }
    }
  }

  /**
   * A lattice of the board's shape never makes `draw_grid` fail, and
   * cell `k` in drawing order is numbered `k + 1` and sits at the
   * midpoint of cell `(k div GRID_COLS, k mod GRID_COLS)`'s diagonal.
   */
  lemma ExactShapeLabels(grid: Grid)
    requires ExactShape(grid)
    ensures Drawn(grid).Done?
    ensures |LabelsUpTo(grid, GridRows)| == GridRows * GridCols
    ensures forall k :: 0 <= k < GridRows * GridCols ==>
              LabelsUpTo(grid, GridRows)[k] ==
                CellLabel(k + 1, Mid(grid[k / GridCols][k % GridCols], grid[k / GridCols + 1][k % GridCols + 1]))
  {
    FullLabelsUpTo(grid, GridRows);
  }

  /** Every drawn label's number is that of a drawable cell of the board, in `1 .. GRID_ROWS * GRID_COLS`. */
  lemma {:induction false} RowLabelsNumbered(grid: Grid, i: nat, n: nat)
    requires n <= GridCols
    ensures forall l :: l in RowLabels(grid, i, n) ==>
              exists j :: 0 <= j < n && Drawable(grid, i, j) && l.number == i * GridCols + j + 1
    decreases n
  {
    if n > 0 {
      RowLabelsNumbered(grid, i, n - 1);
    }
  }

  lemma {:induction false} LabelsNumbered(grid: Grid, m: nat)
    requires m <= GridRows
    ensures forall l :: l in LabelsUpTo(grid, m) ==>
              exists i, j :: 0 <= i < m && 0 <= j < GridCols && Drawable(grid, i, j) && l.number == i * GridCols + j + 1
    decreases m
  {
    if m > 0 {
      LabelsNumbered(grid, m - 1);
      RowLabelsNumbered(grid, m - 1, GridCols);
      forall l | l in LabelsUpTo(grid, m)
        ensures exists i, j :: 0 <= i < m && 0 <= j < GridCols && Drawable(grid, i, j) && l.number == i * GridCols + j + 1
      {
        if l in LabelsUpTo(grid, m - 1) {
          var i, j :| 0 <= i < m - 1 && 0 <= j < GridCols && Drawable(grid, i, j) && l.number == i * GridCols + j + 1;
          assert 0 <= i < m;
        } else {
          assert l in RowLabels(grid, m - 1, GridCols);
          var j :| 0 <= j < GridCols && Drawable(grid, m - 1, j) && l.number == (m - 1) * GridCols + j + 1;
          assert 0 <= m - 1 < m;
        }
      }
    }
  }

  /** One board row of `draw_grid`'s loop, stopping where an index fails. */
  method DrawRow(grid: Grid, i: nat, labels0: seq<CellLabel>) returns (r: Option<seq<CellLabel>>)
    requires i < GridRows
    ensures r.None? <==> exists j :: 0 <= j < GridCols && Fails(grid, i, j)
    ensures r.Some? ==> r.value == labels0 + RowLabels(grid, i, GridCols)
  {
    var labels := labels0;
    var j := 0;
    while j < GridCols
      invariant j <= GridCols
      invariant forall j' :: 0 <= j' < j ==> !Fails(grid, i, j')
      invariant labels == labels0 + RowLabels(grid, i, j)
    {
      if i + 1 < |grid| && j + 1 < |grid[i]| {
        if j + 1 >= |grid[i + 1]| {
          assert Fails(grid, i, j);
          return None;
        }
        var topLeft := grid[i][j];
        var bottomRight := grid[i + 1][j + 1];
        var cellCenter := ((topLeft.0 + bottomRight.0) / 2, (topLeft.1 + bottomRight.1) / 2);
        AppendAssoc(labels0, RowLabels(grid, i, j), [LabelAt(grid, i, j)]);
        labels := labels + [CellLabel(i * GridCols + j + 1, cellCenter)];
      }
      j := j + 1;
    }
    return Some(labels);
  }

  /** `draw_grid`: the labels of the drawn cells in drawing order, or `Raised` where a lower corner is missing. */
  method DrawGrid(grid: Grid) returns (r: Run<seq<CellLabel>>)
    ensures r == Drawn(grid)
  {
    var labels := [];
    var i := 0;
    while i < GridRows
      invariant i <= GridRows
      invariant forall i', j :: 0 <= i' < i && 0 <= j < GridCols ==> !Fails(grid, i', j)
      invariant labels == LabelsUpTo(grid, i)
    {
      var row := DrawRow(grid, i, labels);
      if row.None? {
        return Raised;
      }
      labels := row.value;
      i := i + 1;
    }
    return Done(labels);
  }
}
