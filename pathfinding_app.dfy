/**
 * The planner embedded in the Tk application of `noros_pathfinding.py`:
 * a 3 x 4 board of 100-pixel cells where the first click picks the start,
 * the second the goal, and clicking either again clears it. Once both are
 * set, A* runs and the intermediate cells of the path (never the start or
 * the goal) become the path to follow.
 */
module PathfindingApp {
  import opened Common
  import opened Grid
  import CellSearch
  import Chain

  /** Status line texts. */
  const SelectPrompt: string := "Select start and goal"
  const FollowingPath: string := "Following path..."
  const NoPathFound: string := "No path found"

  /** The cells of `s` that are neither of the marked cells, in order. */
  function Unmarked(s: seq<Cell>, a: Option<Cell>, b: Option<Cell>): (r: seq<Cell>)
    ensures |r| <= |s|
    ensures forall i :: 0 <= i < |r| ==> r[i] in s && Some(r[i]) != a && Some(r[i]) != b
  {
    if |s| == 0 then []
    else (if Some(s[0]) != a && Some(s[0]) != b then [s[0]] else []) + Unmarked(s[1..], a, b)
  }

  lemma {:induction false} UnmarkedAppend(s: seq<Cell>, t: seq<Cell>, a: Option<Cell>, b: Option<Cell>)
    ensures Unmarked(s + t, a, b) == Unmarked(s, a, b) + Unmarked(t, a, b)
    decreases |s|
  {
    if |s| == 0 {
      assert s + t == t;
    } else {
      assert (s + t)[1..] == s[1..] + t;
      UnmarkedAppend(s[1..], t, a, b);
    }
  }

  lemma {:induction false} UnmarkedNone(s: seq<Cell>, a: Option<Cell>, b: Option<Cell>)
    requires forall i :: 0 <= i < |s| ==> Some(s[i]) != a && Some(s[i]) != b
    ensures Unmarked(s, a, b) == s
    decreases |s|
  {
    if |s| > 0 {
      UnmarkedNone(s[1..], a, b);
    }
  }

  /**
   * A walk without repeats that starts at `a` and ends at `b` loses
   * exactly its two ends.
   */
  lemma UnmarkedInterior(w: seq<Cell>, a: Cell, b: Cell)
    requires |w| >= 2 && Chain.Distinct(w) && w[0] == a && w[|w| - 1] == b
    ensures Unmarked(w[..|w| - 1], Some(a), Some(b)) == w[1..|w| - 1]
  {
    var mid := w[1..|w| - 1];
    assert w[..|w| - 1] == [a] + mid;
    UnmarkedAppend([a], mid, Some(a), Some(b));
    assert Unmarked([a], Some(a), Some(b)) == [];
    forall i | 0 <= i < |mid|
      ensures Some(mid[i]) != Some(a) && Some(mid[i]) != Some(b)
    {
      assert mid[i] == w[i + 1];
    }
    UnmarkedNone(mid, Some(a), Some(b));
  }

  /**
   * What a found path of this planner looks like: for distinct start and
   * goal, the start, the path and the goal in a row form a path of free
   * 4-neighbours, and the path holds neither end; for equal ones it is empty.
   */
  ghost predicate Interior(rows: int, cols: int, obstacles: set<Cell>, s: Cell, g: Cell, p: seq<Cell>)
  {
    (s == g ==> p == [])
    && (s != g ==> CellSearch.IsPath(rows, cols, obstacles, [s] + p + [g])
                   && forall i :: 0 <= i < |p| ==> p[i] != s && p[i] != g)
  }

  /** No path of free cells leads from `s` to `g`. */
  ghost predicate Unreachable(rows: int, cols: int, obstacles: set<Cell>, s: Cell, g: Cell)
  {
    forall p :: |p| >= 1 && p[0] == s && CellSearch.IsPath(rows, cols, obstacles, p) ==> p[|p| - 1] != g
  }

  /**
   * `reconstruct_path(came_from, current)` with `self.start` and
   * `self.goal` passed as `start` and `goal`: step to the predecessor
   * while there is one, appending each cell reached unless it is the start
   * or the goal, then reverse. `walk` is the whole predecessor walk, root
   * first; the result is that walk without its last cell (where the walk
   * began, never appended) and without the start and goal cells.
   */
  method ReconstructPath(m: map<Cell, Cell>, x: Cell, start: Option<Cell>, goal: Option<Cell>)
    returns (r: Run<seq<Cell>>, ghost walk: seq<Cell>)
    ensures r.Done? || r.Diverged?
    ensures r.Diverged? <==> Chain.Endless(m, x)
    ensures r.Done? ==> |walk| >= 1 && walk[0] !in m && walk[|walk| - 1] == x && Chain.LinkedBy(m, walk)
                        && r.value == Unmarked(walk[..|walk| - 1], start, goal)
  {
    var path: seq<Cell> := [];
    var cur := x;
    walk := [x];
    ghost var pre: seq<Cell> := [];
    var n: nat := 0;
    while cur in m && n <= |m|
      invariant |pre| == n && walk == pre + [x] && walk[0] == cur
      invariant Chain.Ancestor(m, x, n) == Some(cur)
      invariant forall k: nat :: k < n ==> Chain.Ancestor(m, x, k).Some? && Chain.Ancestor(m, x, k).value in m
      invariant Chain.LinkedBy(m, walk)
      invariant Reverse(path) == Unmarked(pre, start, goal)
      decreases |m| + 1 - n
    {
      WalkStep(m, x, n, cur, pre, walk);
      cur := m[cur];
      var e := if Some(cur) != start && Some(cur) != goal then [cur] else [];
      StepUnmarked(cur, pre, e, start, goal, path);
      path := path + e;
      pre := [cur] + pre;
      walk := [cur] + walk;
      n := n + 1;
    }
    if cur in m {
      Chain.LongWalkIsEndless(m, x, n + 1);
      return Diverged, walk;
    }
    assert !Chain.Endless(m, x) by {
      assert !(Chain.Ancestor(m, x, n).value in m);
    }
    assert walk[..|walk| - 1] == pre;
    return Done(Reverse(path)), walk;
  }

  /** One step of the predecessor walk keeps the walk's invariants. */
  lemma WalkStep(m: map<Cell, Cell>, x: Cell, n: nat, cur: Cell, pre: seq<Cell>, walk: seq<Cell>)
    requires cur in m && walk == pre + [x] && walk[0] == cur
    requires Chain.Ancestor(m, x, n) == Some(cur)
    requires forall k: nat :: k < n ==> Chain.Ancestor(m, x, k).Some? && Chain.Ancestor(m, x, k).value in m
    requires Chain.LinkedBy(m, walk)
    ensures [m[cur]] + walk == [m[cur]] + pre + [x]
    ensures Chain.Ancestor(m, x, n + 1) == Some(m[cur])
    ensures forall k: nat :: k < n + 1 ==> Chain.Ancestor(m, x, k).Some? && Chain.Ancestor(m, x, k).value in m
    ensures Chain.LinkedBy(m, [m[cur]] + walk)
  {
    var w := [m[cur]] + walk;
    forall i | 1 <= i < |w| ensures w[i] in m && m[w[i]] == w[i - 1] {
      if i > 1 {
        assert w[i] == walk[i - 1] && w[i - 1] == walk[i - 2];
      }
    }
  }

  /**
   * The reconstruction of a search that reached the goal has the shape
   * `Interior` describes, and is empty when the goal is one move from the
   * start, because the goal's predecessor is then the start itself.
   */
  lemma InteriorOfWalk(rows: int, cols: int, obstacles: set<Cell>, s: Cell, gl: Cell,
                       cameFrom: map<Cell, Cell>, g: map<Cell, real>, walk: seq<Cell>)
    requires CellSearch.ParentsValid(rows, cols, obstacles, s, cameFrom, g) && gl in g
    requires |walk| >= 1 && walk[0] !in cameFrom && walk[|walk| - 1] == gl && Chain.LinkedBy(cameFrom, walk)
    ensures Interior(rows, cols, obstacles, s, gl, Unmarked(walk[..|walk| - 1], Some(s), Some(gl)))
    ensures gl in cameFrom && cameFrom[gl] == s ==> Unmarked(walk[..|walk| - 1], Some(s), Some(gl)) == []
  {
    CellSearch.WalkIsPath(rows, cols, obstacles, s, cameFrom, g, gl, walk);
    if s == gl {
      assert |walk| == 1;
      assert walk[..0] == [];
    } else {
      CellSearch.ParentsRanked(rows, cols, obstacles, s, cameFrom, g);
      Chain.LinkedRankedDistinct(cameFrom, g, walk);
      InteriorOfDistinctWalk(rows, cols, obstacles, s, gl, walk);
      if gl in cameFrom && cameFrom[gl] == s {
        assert walk[|walk| - 2] == s;
      }
    }
  }

  /** The unmarked cells of a repeat-free path from `s` to `g` are its interior. */
  lemma InteriorOfDistinctWalk(rows: int, cols: int, obstacles: set<Cell>, s: Cell, gl: Cell, walk: seq<Cell>)
    requires s != gl && |walk| >= 1 && walk[0] == s && walk[|walk| - 1] == gl
    requires Chain.Distinct(walk) && CellSearch.IsPath(rows, cols, obstacles, walk)
    ensures Interior(rows, cols, obstacles, s, gl, Unmarked(walk[..|walk| - 1], Some(s), Some(gl)))
    ensures walk[|walk| - 2] == s ==> Unmarked(walk[..|walk| - 1], Some(s), Some(gl)) == []
  {
    UnmarkedInterior(walk, s, gl);
    var p := walk[1..|walk| - 1];
    assert [s] + p + [gl] == walk;
    forall i | 0 <= i < |p|
      ensures p[i] != s && p[i] != gl
    {
      assert p[i] == walk[i + 1];
    }
  }

  class App {
    const rows: int := 3
    const cols: int := 4
    const cellSize: int := 100
    var start: Option<Cell>
    var goal: Option<Cell>
    var obstacles: set<Cell>
    var pathCells: Option<seq<Cell>>
    var status: string

    /** The 3 x 4 board of 100-pixel cells with nothing selected. */
    constructor ()
      ensures start == None && goal == None && obstacles == {}
      ensures pathCells == Some([]) && status == SelectPrompt
    {
      start := None;
      goal := None;
      obstacles := {};
      pathCells := Some([]);
      status := SelectPrompt;
    }

    /**
     * `find_path()` for the selected start and goal. A returned path is
     * the interior of a path of free 4-neighbours from start to goal, and
     * empty exactly when they are equal or one move apart; `None` means the
     * goal cannot be reached. The search is bounded by `fuel` pops, and more
     * than `CellSearch.FuelBound(rows, cols)` of them always finish it.
     */
    method FindPath(fuel: nat) returns (r: Run<Option<seq<Cell>>>)
      requires start.Some? && goal.Some?
      ensures r.Done? || r.OutOfFuel?
      ensures fuel > CellSearch.FuelBound(rows, cols) ==> r.Done?
      ensures r.Done? && r.value.Some? ==> Interior(rows, cols, obstacles, start.value, goal.value, r.value.value)
      ensures r == Done(None) ==> Unreachable(rows, cols, obstacles, start.value, goal.value)
      ensures start == goal && fuel > 0 ==> r == Done(Some([]))
      ensures CellSearch.Step(rows, cols, obstacles, start.value, goal.value) && r.Done? ==> r == Done(Some([]))
    {
      var s, gl := start.value, goal.value;
      var o := CellSearch.Search(rows, cols, obstacles, s, gl, false, fuel);
      match o {
        case OutOfFuel => return OutOfFuel;
        case Exhausted =>
          CellSearch.StepIsPath(rows, cols, obstacles, s, gl);
          return Done(None);
        case Reached(cameFrom, g) =>
          CellSearch.ParentsRanked(rows, cols, obstacles, s, cameFrom, g);
          Chain.RankedNotEndless(cameFrom, g, gl);
          var res, walk := ReconstructPath(cameFrom, gl, start, goal);
          InteriorOfWalk(rows, cols, obstacles, s, gl, cameFrom, g, walk);
          if CellSearch.Step(rows, cols, obstacles, s, gl) {
            CellSearch.OffsetsAreNeighbours(s, gl);
          }
          return Done(Some(res.value));
      }
    }

    /**
     * What `auto_update_path` leaves behind once start and goal are set:
     * the status says a path is followed exactly when a non-empty path was
     * found, a stored path has the `Interior` shape, `None` means the goal
     * is unreachable, and a goal one move from the start is reported as
     * having no path.
     */
    ghost predicate Reported()
      reads this
    {
      && start.Some? && goal.Some?
      && (status == FollowingPath <==> pathCells.Some? && pathCells.value != [])
      && (status == FollowingPath || status == NoPathFound)
      && (pathCells.Some? ==> Interior(rows, cols, obstacles, start.value, goal.value, pathCells.value))
      && (pathCells.None? ==> Unreachable(rows, cols, obstacles, start.value, goal.value))
      && (CellSearch.Step(rows, cols, obstacles, start.value, goal.value) ==> status == NoPathFound)
    }

    /**
     * `auto_update_path()`: with both cells selected (a selected cell is a
     * tuple, which Python always treats as true) run the search and store
     * its result and the status text. Following the path over the socket
     * is not modelled. `finished` is false when the search ran out of `fuel`.
     */
    method AutoUpdatePath(fuel: nat) returns (finished: bool)
      modifies this
      ensures start == old(start) && goal == old(goal) && obstacles == old(obstacles)
      ensures !(start.Some? && goal.Some?) ==> finished && pathCells == old(pathCells) && status == old(status)
      ensures finished && start.Some? && goal.Some? ==> Reported()
      ensures !finished ==> pathCells == old(pathCells) && status == old(status)
      ensures fuel > CellSearch.FuelBound(rows, cols) ==> finished
    {
      if start.Some? && goal.Some? {
        var res := FindPath(fuel);
        if res.OutOfFuel? {
          return false;
        }
        pathCells := res.value;
        if res.value.Some? && res.value.value != [] {
          status := FollowingPath;
        } else {
          status := NoPathFound;
        }
      }
      return true;
    }

    /**
     * `on_click(event)` at pixel `(x, y)`: the clicked cell is
     * `(y // cell_size, x // cell_size)`. Clicking the start clears it,
     * else clicking the goal clears it, else the first free slot of start
     * then goal takes the cell, and setting the goal runs
     * `auto_update_path`. With both set, clicking another cell changes nothing.
     */
    method OnClick(x: int, y: int, fuel: nat) returns (finished: bool)
      modifies this
      ensures var c := (y / cellSize, x / cellSize);
              if Some(c) == old(start) then
                start == None && goal == old(goal) && pathCells == old(pathCells) && status == old(status)
              else if Some(c) == old(goal) then
                goal == None && start == old(start) && pathCells == old(pathCells) && status == old(status)
              else if old(start).None? then
                start == Some(c) && goal == old(goal) && pathCells == old(pathCells) && status == old(status)
              else if old(goal).None? then
                start == old(start) && goal == Some(c) && (finished ==> Reported())
                && (!finished ==> pathCells == old(pathCells) && status == old(status))
              else
                start == old(start) && goal == old(goal) && pathCells == old(pathCells) && status == old(status)
      ensures obstacles == old(obstacles)
      ensures fuel > CellSearch.FuelBound(rows, cols) ==> finished
    {
      var col := x / cellSize;
      var row := y / cellSize;
      finished := true;
      if Some((row, col)) == start {
        start := None;
      } else if Some((row, col)) == goal {
        goal := None;
      } else if start.None? {
        start := Some((row, col));
      } else if goal.None? {
        goal := Some((row, col));
        finished := AutoUpdatePath(fuel);
      }
    }
  }

  /**
   * One step of the reconstruction loop: the cell reached is prepended to
   * the walk and, if unmarked, appended to the path.
   */
  lemma StepUnmarked(c: Cell, pre: seq<Cell>, e: seq<Cell>, a: Option<Cell>, b: Option<Cell>, path: seq<Cell>)
    requires e == if Some(c) != a && Some(c) != b then [c] else []
    requires Reverse(path) == Unmarked(pre, a, b)
    ensures Reverse(path + e) == Unmarked([c] + pre, a, b)
  {
    assert ([c] + pre)[1..] == pre;
    ReverseAppend(path, e);
    assert Reverse(e) == e;
  }


}
