/**
 * The board the searches of `SnakeSearch.py` and `SnakeSearchPoints.py`
 * run on: a grid of `GRID_ROWS` rows of `GRID_COLS` values where 0 marks a
 * free cell, the `neighbors` generator, the Manhattan `heuristic` and
 * `reconstruct_path`, which follows parent links back from the target
 * to the start. Both files define these three identically.
 */
module SnakeGrid {
  import opened Common
  import opened Grid
  import Chain

  /** `grid` has `rows` rows of `cols` values each, as `generate_grid` builds it. */
  predicate Shaped(grid: seq<seq<int>>, rows: int, cols: int)
  {
    |grid| == rows && forall r :: 0 <= r < |grid| ==> |grid[r]| == cols
  }

  /** A cell a search may enter: on the board and holding 0. */
  predicate Open(grid: seq<seq<int>>, rows: int, cols: int, c: Cell)
  {
    InBounds(rows, cols, c) && c.0 < |grid| && c.1 < |grid[c.0]| && grid[c.0][c.1] == 0
  }

  /** A move a search may take: to a 4-neighbour that is open. */
  predicate Move(grid: seq<seq<int>>, rows: int, cols: int, s: Cell, t: Cell)
  {
    Adjacent(s, t) && Open(grid, rows, cols, t)
  }

  /** The offsets `neighbors` tries, in its order: right, down, left, up. */
  const Directions: seq<(int, int)> := [(0, 1), (1, 0), (0, -1), (-1, 0)]

  function Toward(c: Cell, k: int): Cell
    requires 0 <= k < 4
  {
    (c.0 + Directions[k].0, c.1 + Directions[k].1)
  }

  /** Which offset leads from `c` to `t`, 4 when none does. */
  function DirectionOf(c: Cell, t: Cell): (k: int)
    ensures 0 <= k <= 4
    ensures k < 4 ==> Toward(c, k) == t
    ensures k == 4 <==> !Adjacent(c, t)
  {
    if t == Toward(c, 0) then 0
    else if t == Toward(c, 1) then 1
    else if t == Toward(c, 2) then 2
    else if t == Toward(c, 3) then 3
    else 4
  }

  /** The open cells among the first `j` offsets from `c`, in offset order. */
  function OpenToward(grid: seq<seq<int>>, rows: int, cols: int, c: Cell, j: int): seq<Cell>
    requires 0 <= j <= 4
  {
    if j == 0 then []
    else OpenToward(grid, rows, cols, c, j - 1)
         + (if Open(grid, rows, cols, Toward(c, j - 1)) then [Toward(c, j - 1)] else [])
  }

  /** The cells from the first `j` offsets are exactly the open cells those offsets reach. */
  lemma {:induction false} OpenTowardMembers(grid: seq<seq<int>>, rows: int, cols: int, c: Cell, j: int)
    requires 0 <= j <= 4
    ensures forall t :: t in OpenToward(grid, rows, cols, c, j) <==> DirectionOf(c, t) < j && Open(grid, rows, cols, t)
    decreases j
  {
    if j > 0 {
      OpenTowardMembers(grid, rows, cols, c, j - 1);
    }
  }

  /** The cells from the first `j` offsets come in offset order. */
  lemma {:induction false} OpenTowardOrdered(grid: seq<seq<int>>, rows: int, cols: int, c: Cell, j: int)
    requires 0 <= j <= 4
    ensures forall a, b :: 0 <= a < b < |OpenToward(grid, rows, cols, c, j)| ==>
              DirectionOf(c, OpenToward(grid, rows, cols, c, j)[a]) < DirectionOf(c, OpenToward(grid, rows, cols, c, j)[b])
    decreases j
  {
    if j > 0 {
      OpenTowardOrdered(grid, rows, cols, c, j - 1);
      OpenTowardMembers(grid, rows, cols, c, j - 1);
      var prev := OpenToward(grid, rows, cols, c, j - 1);
      var all := OpenToward(grid, rows, cols, c, j);
      var t := Toward(c, j - 1);
      assert DirectionOf(c, t) == j - 1;
      forall a, b | 0 <= a < b < |all|
        ensures DirectionOf(c, all[a]) < DirectionOf(c, all[b])
      {
        assert all[a] == prev[a] && prev[a] in prev;
        if b < |prev| {
          assert all[b] == prev[b];
        } else {
          assert all[b] == t;
        }
      }
    }
  }

  /**
   * `neighbors(node)`: the open 4-neighbours of `c`, listed right, down,
   * left, up and skipping the blocked or off-board ones.
   */
  method Neighbors(grid: seq<seq<int>>, rows: int, cols: int, c: Cell) returns (ns: seq<Cell>)
    requires Shaped(grid, rows, cols)
    ensures ns == OpenToward(grid, rows, cols, c, 4)
    ensures forall t :: t in ns <==> Move(grid, rows, cols, c, t)
    ensures forall a, b :: 0 <= a < b < |ns| ==> DirectionOf(c, ns[a]) < DirectionOf(c, ns[b])
  {
    ns := [];
    for k := 0 to 4
      invariant ns == OpenToward(grid, rows, cols, c, k)
    {
      var t := (c.0 + Directions[k].0, c.1 + Directions[k].1);
      if 0 <= t.0 < rows && 0 <= t.1 < cols && grid[t.0][t.1] == 0 {
        ns := ns + [t];
      }
    }
    OpenTowardMembers(grid, rows, cols, c, 4);
    OpenTowardOrdered(grid, rows, cols, c, 4);
  }

  /** `heuristic(node, target)`: the Manhattan distance, which no route can beat. */
  function Heuristic(node: Cell, target: Cell): (h: nat)
    ensures h == 0 <==> node == target
    ensures forall p {:trigger IsWalk(p)} :: |p| >= 1 && p[0] == node && p[|p| - 1] == target && IsWalk(p) ==> h <= |p| - 1
  {
    assert forall p {:trigger IsWalk(p)} :: |p| >= 1 && p[0] == node && p[|p| - 1] == target && IsWalk(p) ==> Manhattan(node, target) <= |p| - 1 by {
      forall p | |p| >= 1 && p[0] == node && p[|p| - 1] == target && IsWalk(p) {
        ManhattanAdmissible(p);
      }
    }
    Manhattan(node, target)
  }

  /** Consecutive cells of `p` are moves a search may take. */
  ghost predicate IsRoute(grid: seq<seq<int>>, rows: int, cols: int, p: seq<Cell>)
  {
    forall i :: 1 <= i < |p| ==> Move(grid, rows, cols, p[i - 1], p[i])
  }

  /** `p` is a route from `s` to `t`. */
  ghost predicate Connects(grid: seq<seq<int>>, rows: int, cols: int, p: seq<Cell>, s: Cell, t: Cell)
  {
    |p| >= 1 && p[0] == s && p[|p| - 1] == t && IsRoute(grid, rows, cols, p)
  }

  /** Some route leads from `s` to `t` over open cells. */
  ghost predicate Reachable(grid: seq<seq<int>>, rows: int, cols: int, s: Cell, t: Cell)
  {
    exists p :: Connects(grid, rows, cols, p, s, t)
  }

  /** A set closed under moves that holds the first cell of a route holds its last cell. */
  lemma {:induction false} Trapped(grid: seq<seq<int>>, rows: int, cols: int, found: set<Cell>, p: seq<Cell>)
    requires forall u, v :: u in found && Move(grid, rows, cols, u, v) ==> v in found
    requires |p| >= 1 && p[0] in found && IsRoute(grid, rows, cols, p)
    ensures p[|p| - 1] in found
    decreases |p|
  {
    if |p| > 1 {
      var q := p[..|p| - 1];
      assert IsRoute(grid, rows, cols, q);
      Trapped(grid, rows, cols, found, q);
      assert Move(grid, rows, cols, p[|p| - 2], p[|p| - 1]);
    }
  }

  /** No route leaves a move-closed set that holds the start but not the target. */
  lemma TrappedUnreachable(grid: seq<seq<int>>, rows: int, cols: int, found: set<Cell>, s: Cell, t: Cell)
    requires forall u, v :: u in found && Move(grid, rows, cols, u, v) ==> v in found
    requires s in found && t !in found
    ensures !Reachable(grid, rows, cols, s, t)
  {
    forall p | Connects(grid, rows, cols, p, s, t)
      ensures false
    {
      Trapped(grid, rows, cols, found, p);
    }
  }

  /** The rank of a predecessor map measured by whole numbers. */
  function AsReal(d: map<Cell, int>): (r: map<Cell, real>)
    ensures r.Keys == d.Keys
    ensures forall t :: t in d ==> r[t] == d[t] as real
  {
    map t | t in d :: d[t] as real
  }

  /**
   * The parent map a search builds: links are moves between `known`
   * cells, ranked by `rank`, and the start is the only known cell without
   * a parent.
   */
  ghost predicate Forest(grid: seq<seq<int>>, rows: int, cols: int, start: Cell,
                         parent: map<Cell, Cell>, known: set<Cell>, rank: map<Cell, int>)
  {
    && start in known && start !in parent
    && (forall t {:trigger parent[t]} :: t in parent ==> t in known && parent[t] in known && Move(grid, rows, cols, parent[t], t))
    && (forall t {:trigger t in known} :: t in known ==> t == start || t in parent)
    && (forall t {:trigger parent[t]} :: t in parent ==> t in rank && parent[t] in rank && rank[parent[t]] < rank[t])
  }

  /**
   * `reconstruct_path(parent, start, target)`: from the target, append the
   * current cell and step to its parent until the start is reached, giving
   * up with `[]` when a cell other than the start has no parent. `walk` is
   * the chain of parents through the map without the start's own entry,
   * root first: the result is that walk when its root is the start and
   * `[]` when the chain breaks elsewhere. A chain that cycles without
   * meeting the start never ends in Python.
   */
  method ReconstructPath(parent: map<Cell, Cell>, start: Cell, target: Cell)
    returns (r: Run<seq<Cell>>, ghost walk: seq<Cell>)
    ensures r.Done? || r.Diverged?
    ensures r.Diverged? <==> Chain.Endless(parent - {start}, target)
    ensures r.Done? ==> |walk| >= 1 && walk[0] !in parent - {start} && walk[|walk| - 1] == target
                        && Chain.LinkedBy(parent - {start}, walk)
                        && r.value == (if walk[0] == start then walk else [])
    ensures start == target ==> r == Done([start])
  {
    ghost var m := parent - {start};
    var path: seq<Cell> := [];
    var cur := target;
    walk := [target];
    var n: nat := 0;
    while cur != start && n <= |parent|
      invariant |walk| == n + 1 && walk[0] == cur && walk[n] == target
      invariant n > 0 ==> target != start
      invariant Chain.Ancestor(m, target, n) == Some(cur)
      invariant forall k: nat :: k < n ==> Chain.Ancestor(m, target, k).Some? && Chain.Ancestor(m, target, k).value in m
      invariant Chain.LinkedBy(m, walk)
      invariant |path| == n && forall k :: 0 <= k < n ==> path[k] == walk[n - k]
      decreases |parent| + 1 - n
    {
      path := path + [cur];
      if cur !in parent {
        assert !Chain.Endless(m, target) by {
          assert Chain.Ancestor(m, target, n).value !in m;
        }
        return Done([]), walk;
      }
      cur := parent[cur];
      walk := [cur] + walk;
      n := n + 1;
    }
    if cur != start {
      assert |m| <= |parent|;
      Chain.LongWalkIsEndless(m, target, n);
      return Diverged, walk;
    }
    ReachedStart(m, start, target, path, walk, n);
    path := path + [start];
    return Done(Reverse(path)), walk;
  }

  /** The walk read back has reached the start: it is the reversed path, and the chain ends there. */
  lemma ReachedStart(m: map<Cell, Cell>, start: Cell, target: Cell, path: seq<Cell>, walk: seq<Cell>, n: nat)
    requires |walk| == n + 1 && walk[0] == start && walk[n] == target && start !in m
    requires n > 0 ==> target != start
    requires |path| == n && forall k :: 0 <= k < n ==> path[k] == walk[n - k]
    requires Chain.Ancestor(m, target, n) == Some(start)
    ensures !Chain.Endless(m, target)
    ensures Reverse(path + [start]) == walk
    ensures start == target ==> walk == [start]
  {
    var q := path + [start];
    assert forall k :: 0 <= k <= n ==> q[k] == walk[n - k];
    assert Reverse(q) == walk;
  }

  /** Reading back a search's parent map never cycles, from any cell. */
  lemma ForestEnds(grid: seq<seq<int>>, rows: int, cols: int, start: Cell, parent: map<Cell, Cell>,
                   known: set<Cell>, rank: map<Cell, int>, target: Cell)
    requires Forest(grid, rows, cols, start, parent, known, rank)
    ensures !Chain.Endless(parent - {start}, target)
  {
    assert parent - {start} == parent;
    assert Chain.Ranked(parent, AsReal(rank));
    Chain.RankedNotEndless(parent, AsReal(rank), target);
  }

  /**
   * Reading back a search's parent map from a known target ends at the
   * start: the result is a route from the start to the target.
   */
  lemma ForestWalk(grid: seq<seq<int>>, rows: int, cols: int, start: Cell, parent: map<Cell, Cell>,
                   known: set<Cell>, rank: map<Cell, int>, target: Cell, walk: seq<Cell>)
    requires Forest(grid, rows, cols, start, parent, known, rank) && target in known
    requires |walk| >= 1 && walk[0] !in parent - {start} && walk[|walk| - 1] == target
    requires Chain.LinkedBy(parent - {start}, walk)
    ensures walk[0] == start && Connects(grid, rows, cols, walk, start, target)
  {
    assert parent - {start} == parent;
    if |walk| > 1 {
      assert walk[1] in parent;
    }
    forall i | 1 <= i < |walk|
      ensures Move(grid, rows, cols, walk[i - 1], walk[i])
    {
      assert walk[i] in parent && parent[walk[i]] == walk[i - 1];
    }
  }

  /**
   * Parent links that climb one layer at a time to the start, which is
   * layer 0: BFS depths and UCS costs both have this shape.
   */
  ghost predicate Layers(start: Cell, parent: map<Cell, Cell>, depth: map<Cell, int>)
  {
    && start in depth && depth[start] == 0
    && (forall t :: t in depth ==> depth[t] >= 0)
    && (forall t {:trigger parent[t]} :: t in parent ==>
          t in depth && parent[t] in depth && depth[t] == depth[parent[t]] + 1)
  }

  /** The parent chain read back from a cell climbs one layer per move from the start. */
  lemma {:induction false} WalkDepths(start: Cell, parent: map<Cell, Cell>, depth: map<Cell, int>, walk: seq<Cell>, i: int)
    requires Layers(start, parent, depth)
    requires |walk| >= 1 && walk[0] == start && Chain.LinkedBy(parent, walk)
    requires 0 <= i < |walk|
    ensures walk[i] in depth && depth[walk[i]] == i
    decreases i
  {
    if i > 0 {
      WalkDepths(start, parent, depth, walk, i - 1);
      assert walk[i] in parent && parent[walk[i]] == walk[i - 1];
    }
  }

  /**
   * A search's path as `reconstruct_path` reads it back from a forest of
   * parent links: a route from the start along the links when the target
   * is known, `[]` otherwise.
   */
  method FollowParents(grid: seq<seq<int>>, rows: int, cols: int, start: Cell, target: Cell,
                       known: set<Cell>, parent: map<Cell, Cell>, ghost rank: map<Cell, int>)
    returns (path: seq<Cell>)
    requires Forest(grid, rows, cols, start, parent, known, rank)
    ensures target in known ==> Connects(grid, rows, cols, path, start, target) && Chain.LinkedBy(parent, path)
    ensures target !in known ==> path == []
  {
    ForestEnds(grid, rows, cols, start, parent, known, rank, target);
    var r, walk := ReconstructPath(parent, start, target);
    if target in known {
      ForestWalk(grid, rows, cols, start, parent, known, rank, target, walk);
      assert parent - {start} == parent;
    } else {
      assert target !in parent - {start};
      assert |walk| == 1;
    }
    path := r.value;
  }

  /**
   * The same read-back when the links climb one layer at a time: the
   * route then has one cell per layer.
   */
  method ReadRoute(grid: seq<seq<int>>, rows: int, cols: int, start: Cell, target: Cell,
                   known: set<Cell>, parent: map<Cell, Cell>, ghost depth: map<Cell, int>)
    returns (path: seq<Cell>)
    requires Forest(grid, rows, cols, start, parent, known, depth) && Layers(start, parent, depth)
    ensures target in known ==> Connects(grid, rows, cols, path, start, target) && |path| == depth[target] + 1
    ensures target !in known ==> path == []
  {
    path := FollowParents(grid, rows, cols, start, target, known, parent, depth);
    if target in known {
      WalkDepths(start, parent, depth, path, |path| - 1);
    }
  }

  /** The chain of parents above a known cell, start first: a route as long as the cell is deep. */
  ghost function Lineage(grid: seq<seq<int>>, rows: int, cols: int, start: Cell, parent: map<Cell, Cell>,
                         known: set<Cell>, depth: map<Cell, int>, x: Cell): (p: seq<Cell>)
    requires Forest(grid, rows, cols, start, parent, known, depth) && Layers(start, parent, depth)
    requires x in known
    ensures Connects(grid, rows, cols, p, start, x) && |p| == depth[x] + 1
    decreases depth[x]
  {
    if x !in parent then
      [x]
    else
      var q := Lineage(grid, rows, cols, start, parent, known, depth, parent[x]);
      var r := q + [x];
      assert forall i :: 0 <= i < |q| ==> r[i] == q[i];
      r
  }
}
