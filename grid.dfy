/** Cells of the rows x cols board the planners work on. */
module Grid {
  import opened Common

  /** A board cell as (row, col). */
  type Cell = (int, int)

  predicate InBounds(rows: int, cols: int, c: Cell)
  {
    0 <= c.0 < rows && 0 <= c.1 < cols
  }

  /** Every cell of the board, as a finite set. */
  function Board(rows: int, cols: int): (b: set<Cell>)
    ensures forall c :: c in b <==> InBounds(rows, cols, c)
  {
    set r, c | 0 <= r < rows && 0 <= c < cols :: (r, c)
  }

  /** The number of cells of the board: `rows * cols`, or none when either side is not positive. */
  function BoardSize(rows: int, cols: int): nat
  {
    if rows <= 0 || cols <= 0 then 0 else rows * cols
  }

  /** The cells of row `r` left of column `n`. */
  function RowCells(r: int, n: int): (s: set<Cell>)
    ensures forall c :: c in s <==> c.0 == r && 0 <= c.1 < n
  {
    set j | 0 <= j < n :: (r, j)
  }

  lemma {:induction false} RowCellsCard(r: int, n: int)
    ensures |RowCells(r, n)| == if n <= 0 then 0 else n
    decreases if n <= 0 then 0 else n
  {
    if n > 0 {
      RowCellsCard(r, n - 1);
      assert RowCells(r, n) == RowCells(r, n - 1) + {(r, n - 1)};
    } else {
      assert RowCells(r, n) == {};
    }
  }

  /** The board of `rows` rows is the board of one row fewer plus its last row. */
  lemma BoardSplit(rows: int, cols: int)
    requires rows > 0
    ensures Board(rows, cols) == Board(rows - 1, cols) + RowCells(rows - 1, cols)
    ensures Board(rows - 1, cols) * RowCells(rows - 1, cols) == {}
  {
  }

  /** The board holds exactly `BoardSize(rows, cols)` cells. */
  lemma {:induction false} BoardCard(rows: int, cols: int)
    ensures |Board(rows, cols)| == BoardSize(rows, cols)
    decreases if rows <= 0 then 0 else rows
  {
    if rows <= 0 || cols <= 0 {
      assert Board(rows, cols) == {};
    } else {
      var lower, last := Board(rows - 1, cols), RowCells(rows - 1, cols);
      BoardCard(rows - 1, cols);
      RowCellsCard(rows - 1, cols);
      BoardSplit(rows, cols);
      var n := |lower|;
      if rows == 1 {
        assert n == 0 && (rows - 1) * cols == 0;
      } else {
        assert n == (rows - 1) * cols;
      }
      assert |Board(rows, cols)| == n + cols;
      MulStepInt(rows - 1, cols);
    }
  }

  function Abs(x: int): nat
  {
    if x < 0 then -x else x
  }

  /** `abs(a[0] - b[0]) + abs(a[1] - b[1])`: zero exactly on equal cells. */
  function Manhattan(a: Cell, b: Cell): (d: nat)
    ensures d == 0 <==> a == b
  {
    Abs(a.0 - b.0) + Abs(a.1 - b.1)
  }

  /** The Manhattan distance is symmetric and obeys the triangle inequality. */
  lemma ManhattanMetric(a: Cell, b: Cell, c: Cell)
    ensures Manhattan(a, b) == Manhattan(b, a)
    ensures Manhattan(a, b) <= Manhattan(a, c) + Manhattan(c, b)
  {
  }

  /** 4-neighbours: one row or one column apart. */
  predicate Adjacent(a: Cell, b: Cell)
  {
    Manhattan(a, b) == 1
  }

  /** Consecutive cells of `p` are 4-neighbours. */
  predicate IsWalk(p: seq<Cell>)
  {
    forall i :: 1 <= i < |p| ==> Adjacent(p[i - 1], p[i])
  }

  /**
   * The Manhattan heuristic never overestimates: any 4-connected walk
   * from `p[0]` to its last cell takes at least that many moves.
   */
  lemma {:induction false} ManhattanAdmissible(p: seq<Cell>)
    requires |p| >= 1 && IsWalk(p)
    ensures Manhattan(p[0], p[|p| - 1]) <= |p| - 1
    decreases |p|
  {
    if |p| > 1 {
      var q := p[..|p| - 1];
      assert IsWalk(q);
      ManhattanAdmissible(q);
      ManhattanMetric(p[0], p[|p| - 1], p[|p| - 2]);
    }
  }

  /** Marking one more cell of the board (or the start) as visited shrinks the number left. */
  lemma Shrinks(rows: int, cols: int, start: Cell, visited: set<Cell>, x: Cell)
    requires x == start || InBounds(rows, cols, x)
    requires x !in visited
    ensures |Board(rows, cols) + {start} - (visited + {x})| < |Board(rows, cols) + {start} - visited|
  {
    var a, b := Board(rows, cols) + {start} - (visited + {x}), Board(rows, cols) + {start} - visited;
    assert b == a + (b - a) && a * (b - a) == {};
    assert x in b - a;
  }
}
