/**
 * The plain 4-neighbour A* planner of `noros/search_class.py`: a board of
 * `rows x cols` cells with a set of blocked cells, and a unit-cost search
 * that returns the list of cells from start to goal, or `[]`.
 */
module PlainSearch {
  import opened Common
  import opened Grid
  import CellSearch
  import Chain

  class SearchClass {
    var rows: int
    var cols: int
    var obstacles: set<Cell>

    /** An empty 0 x 0 board. */
    constructor ()
      ensures rows == 0 && cols == 0 && obstacles == {}
    {
      rows := 0;
      cols := 0;
      obstacles := {};
    }

    method SetGridDimensions(r: int, c: int)
      modifies this
      ensures rows == r && cols == c && obstacles == old(obstacles)
    {
      rows := r;
      cols := c;
    }

    /** An obstacle is recorded only inside the board; outside it the call only warns. */
    method AddObstacle(row: int, col: int)
      modifies this
      ensures obstacles == if InBounds(rows, cols, (row, col)) then old(obstacles) + {(row, col)} else old(obstacles)
      ensures rows == old(rows) && cols == old(cols)
    {
      if InBounds(rows, cols, (row, col)) {
        obstacles := obstacles + {(row, col)};
      }
    }

    /** `set.discard`: removing a cell that is not an obstacle changes nothing. */
    method RemoveObstacle(row: int, col: int)
      modifies this
      ensures obstacles == old(obstacles) - {(row, col)}
      ensures (row, col) !in old(obstacles) ==> obstacles == old(obstacles)
      ensures rows == old(rows) && cols == old(cols)
    {
      obstacles := obstacles - {(row, col)};
    }

    method ClearObstacles()
      modifies this
      ensures obstacles == {}
      ensures rows == old(rows) && cols == old(cols)
    {
      obstacles := {};
    }

    /** `_neighbors(cell)`: up, down, left, right, keeping those on the board. */
    function Neighbors(c: Cell): (ns: seq<Cell>)
      reads this
      ensures |ns| <= 4
      ensures forall t :: t in ns <==> InBounds(rows, cols, t) && Adjacent(c, t)
    {
      assert forall t :: Adjacent(c, t) <==> t in [CellSearch.Offset(c, 0), CellSearch.Offset(c, 1), CellSearch.Offset(c, 2), CellSearch.Offset(c, 3)] by {
        forall t
          ensures Adjacent(c, t) <==> t in [CellSearch.Offset(c, 0), CellSearch.Offset(c, 1), CellSearch.Offset(c, 2), CellSearch.Offset(c, 3)]
        {
          CellSearch.OffsetsAreNeighbours(c, t);
        }
      }
      InBoundsOf(CellSearch.Offset(c, 0)) + InBoundsOf(CellSearch.Offset(c, 1))
      + InBoundsOf(CellSearch.Offset(c, 2)) + InBoundsOf(CellSearch.Offset(c, 3))
    }

    function InBoundsOf(t: Cell): seq<Cell>
      reads this
    {
      if InBounds(rows, cols, t) then [t] else []
    }

    /** The neighbours the loop does not skip as obstacles are exactly the moves the search may take. */
    lemma NeighborsAreSteps(c: Cell, t: Cell)
      ensures t in Neighbors(c) && t !in obstacles <==> CellSearch.Step(rows, cols, obstacles, c, t)
    {
    }

    /**
     * `find_path(start, goal)`. An off-board or blocked start or goal
     * returns `[]` before any search. A found path runs from start to goal
     * over free 4-neighbours; `[start]` when they coincide. `[]` after a
     * search means no such path exists. The search is bounded by `fuel` pops,
     * and more than `CellSearch.FuelBound(rows, cols)` of them always finish it.
     */
    method FindPath(start: Cell, goal: Cell, fuel: nat) returns (r: Run<seq<Cell>>)
      ensures r.Done? || r.OutOfFuel?
      ensures fuel > CellSearch.FuelBound(rows, cols) ==> r.Done?
      ensures !InBounds(rows, cols, start) || !InBounds(rows, cols, goal) || start in obstacles || goal in obstacles
              ==> r == Done([])
      ensures r.Done? && r.value != [] ==>
                r.value[0] == start && r.value[|r.value| - 1] == goal
                && IsWalk(r.value) && forall i :: 0 <= i < |r.value| ==> CellSearch.Free(rows, cols, obstacles, r.value[i])
      ensures start == goal && CellSearch.Free(rows, cols, obstacles, start) && fuel > 0 ==> r == Done([start])
      ensures start != goal && CellSearch.Free(rows, cols, obstacles, start) && CellSearch.Step(rows, cols, obstacles, start, goal)
              ==> r.OutOfFuel? || r == Done([start, goal])
      ensures r == Done([]) && CellSearch.Free(rows, cols, obstacles, start) ==>
                forall p :: |p| >= 1 && p[0] == start && CellSearch.IsPath(rows, cols, obstacles, p) ==> p[|p| - 1] != goal
    {
      if !InBounds(rows, cols, start) || !InBounds(rows, cols, goal) || start in obstacles || goal in obstacles {
        if CellSearch.Free(rows, cols, obstacles, start) {
          CellSearch.UnreachableGoal(rows, cols, obstacles, start, goal);
        }
        return Done([]);
      }
      var o := CellSearch.Search(rows, cols, obstacles, start, goal, true, fuel);
      match o {
        case OutOfFuel => return OutOfFuel;
        case Exhausted =>
          CellSearch.StepIsPath(rows, cols, obstacles, start, goal);
          return Done([]);
        case Reached(cameFrom, g) =>
          CellSearch.ParentsRanked(rows, cols, obstacles, start, cameFrom, g);
          Chain.RankedNotEndless(cameFrom, g, goal);
          r := Chain.ReconstructToRoot(cameFrom, goal);
          CellSearch.WalkIsPath(rows, cols, obstacles, start, cameFrom, g, goal, r.value);
          CellSearch.PathCellsFree(rows, cols, obstacles, r.value);
          if start == goal {
            assert Chain.LinkedBy(map[], r.value);
            assert r.value == [start];
          } else if CellSearch.Step(rows, cols, obstacles, start, goal) {
            Chain.LastLinkFromRoot(cameFrom, g, r.value);
          }
      }
    }
  }
}
