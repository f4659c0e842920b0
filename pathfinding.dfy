/**
 * The functional planner of `test/pathfinding.py`: `a_star(start, goal,
 * rows, cols, obstacles=None)` returns the cells after the start up to
 * and including the goal, or `None` when the goal cannot be reached.
 */
module Pathfinding {
  import opened Common
  import opened Grid
  import CellSearch
  import Chain

  /** `if obstacles is None: obstacles = set()` */
  function ObstacleSet(obstacles: Option<set<Cell>>): (s: set<Cell>)
    ensures obstacles.None? ==> s == {}
    ensures obstacles.Some? ==> s == obstacles.value
  {
    match obstacles
    case None => {}
    case Some(o) => o
  }

  /**
   * `reconstruct_path(came_from, current)`: append `current` and step to
   * its predecessor while it has one, then reverse. The cell the walk ends
   * on is never appended. `walk` is the whole predecessor walk, root
   * first; the result is that walk without its root.
   */
  method ReconstructPath(m: map<Cell, Cell>, x: Cell) returns (r: Run<seq<Cell>>, ghost walk: seq<Cell>)
    ensures r.Done? || r.Diverged?
    ensures r.Diverged? <==> Chain.Endless(m, x)
    ensures r.Done? ==> |walk| >= 1 && walk[0] !in m && walk[|walk| - 1] == x && Chain.LinkedBy(m, walk)
                        && r.value == walk[1..]
    ensures r.Done? ==> (r.value == [] <==> x !in m)
  {
    var path: seq<Cell> := [];
    var cur := x;
    walk := [x];
    var n: nat := 0;
    while cur in m && n <= |m|
      invariant |walk| == n + 1 && walk[0] == cur && walk[n] == x
      invariant Chain.Ancestor(m, x, n) == Some(cur)
      invariant forall k: nat :: k < n ==> Chain.Ancestor(m, x, k).Some? && Chain.Ancestor(m, x, k).value in m
      invariant Chain.LinkedBy(m, walk)
      invariant |path| == n && forall k :: 0 <= k < n ==> path[k] == walk[n - k]
      decreases |m| + 1 - n
    {
      path := path + [cur];
      cur := m[cur];
      walk := [cur] + walk;
      n := n + 1;
    }
    if cur in m {
      Chain.LongWalkIsEndless(m, x, n + 1);
      return Diverged, walk;
    }
    assert !Chain.Endless(m, x) by {
      assert !(Chain.Ancestor(m, x, n).value in m);
    }
    assert Reverse(path) == walk[1..];
    return Done(Reverse(path)), walk;
  }

  /**
   * `a_star(start, goal, rows, cols, obstacles)`. A returned path lists
   * the cells after the start, each a free 4-neighbour of the one before
   * (the first of the start), and ends at the goal; it is `[]` exactly
   * when start and goal coincide. `None` means no path of free cells
   * leads from the start to the goal, so a blocked or off-board goal other
   * than the start always gives `None`. The start itself is never checked.
   * The search is bounded by `fuel` pops, and more than
   * `CellSearch.FuelBound(rows, cols)` of them always finish it.
   */
  method AStar(start: Cell, goal: Cell, rows: int, cols: int, obstacles: Option<set<Cell>>, fuel: nat)
    returns (r: Run<Option<seq<Cell>>>)
    ensures r.Done? || r.OutOfFuel?
    ensures fuel > CellSearch.FuelBound(rows, cols) ==> r.Done?
    ensures r.Done? && r.value.Some? ==>
              var p := r.value.value;
              (p == [] <==> start == goal)
              && (p != [] ==> p[|p| - 1] == goal && Adjacent(start, p[0]))
              && IsWalk(p)
              && forall i :: 0 <= i < |p| ==> CellSearch.Free(rows, cols, ObstacleSet(obstacles), p[i])
    ensures r == Done(None) ==>
              forall p :: |p| >= 1 && p[0] == start && CellSearch.IsPath(rows, cols, ObstacleSet(obstacles), p)
                ==> p[|p| - 1] != goal
    ensures start != goal && !CellSearch.Free(rows, cols, ObstacleSet(obstacles), goal) ==> r != Done(Some([])) && !(r.Done? && r.value.Some?)
    ensures start == goal && fuel > 0 ==> r == Done(Some([]))
    ensures start != goal && CellSearch.Step(rows, cols, ObstacleSet(obstacles), start, goal)
            ==> r.OutOfFuel? || r == Done(Some([goal]))
  {
    var obs := ObstacleSet(obstacles);
    var o := CellSearch.Search(rows, cols, obs, start, goal, false, fuel);
    match o {
      case OutOfFuel => return OutOfFuel;
      case Exhausted =>
        CellSearch.StepIsPath(rows, cols, obs, start, goal);
        return Done(None);
      case Reached(cameFrom, g) =>
        CellSearch.ParentsRanked(rows, cols, obs, start, cameFrom, g);
        Chain.RankedNotEndless(cameFrom, g, goal);
        var res, walk := ReconstructPath(cameFrom, goal);
        CellSearch.WalkIsPath(rows, cols, obs, start, cameFrom, g, goal, walk);
        AfterStart(rows, cols, obs, start, goal, cameFrom, g, walk);
        if start != goal && CellSearch.Step(rows, cols, obs, start, goal) {
          Chain.LastLinkFromRoot(cameFrom, g, walk);
        }
        return Done(Some(res.value));
    }
  }

  /** The cells of a path from the start after the start itself. */
  lemma AfterStart(rows: int, cols: int, obs: set<Cell>, start: Cell, goal: Cell,
                   cameFrom: map<Cell, Cell>, g: map<Cell, real>, walk: seq<Cell>)
    requires CellSearch.ParentsValid(rows, cols, obs, start, cameFrom, g) && goal in g
    requires |walk| >= 1 && walk[0] == start && walk[|walk| - 1] == goal && CellSearch.IsPath(rows, cols, obs, walk)
    requires walk[0] !in cameFrom && Chain.LinkedBy(cameFrom, walk)
    ensures var p := walk[1..];
            (p == [] <==> start == goal)
            && (p != [] ==> p[|p| - 1] == goal && Adjacent(start, p[0]))
            && IsWalk(p)
            && forall i :: 0 <= i < |p| ==> CellSearch.Free(rows, cols, obs, p[i])
    ensures start != goal ==> CellSearch.Free(rows, cols, obs, goal)
  {
    var p := walk[1..];
    if start == goal {
      assert walk[|walk| - 1] !in cameFrom;
      assert |walk| == 1;
    }
    forall i | 0 <= i < |p|
      ensures CellSearch.Free(rows, cols, obs, p[i])
    {
      assert CellSearch.Step(rows, cols, obs, walk[i], walk[i + 1]);
    }
    forall i | 1 <= i < |p|
      ensures Adjacent(p[i - 1], p[i])
    {
      assert CellSearch.Step(rows, cols, obs, walk[i], walk[i + 1]);
    }
    if p != [] {
      assert CellSearch.Step(rows, cols, obs, walk[0], walk[1]);
    }
  }
}
