/**
 * The unit-cost 4-neighbour A* loop shared by `SearchClass.find_path` in
 * `noros/search_class.py`, `a_star` in `test/pathfinding.py` and
 * `PathfindingApp.find_path` in `noros_pathfinding.py`. From each popped
 * cell it tries the offsets up, down, left, right; a neighbour that is on
 * the board and not an obstacle gets `g + 1` if that is lower than its
 * g-score, records the popped cell as its predecessor and is queued under
 * the key `(g + manhattan, row, col)`. The class variant keeps an
 * `open_set_hash` and queues a cell only when the hash lacks it; the other
 * two queue it every time. The three variants differ only in their early
 * exits and in how they read the predecessor map back, which their own
 * modules model.
 */
module CellSearch {
  import opened Common
  import opened Grid
  import opened PriorityQueue
  import Chain

  /** The neighbour offsets in the order every variant tries them: up, down, left, right. */
  const Directions: seq<(int, int)> := [(-1, 0), (1, 0), (0, -1), (0, 1)]

  function Offset(c: Cell, k: int): Cell
    requires 0 <= k < 4
  {
    (c.0 + Directions[k].0, c.1 + Directions[k].1)
  }

  /** Every offset reaches a 4-neighbour, and every 4-neighbour is reached by one of them. */
  lemma {:induction false} OffsetsAreNeighbours(c: Cell, t: Cell)
    ensures Adjacent(c, t) <==> (t == Offset(c, 0) || t == Offset(c, 1) || t == Offset(c, 2) || t == Offset(c, 3))
  {
  }

  /** A cell the search may enter: on the board and not an obstacle. */
  predicate Free(rows: int, cols: int, obstacles: set<Cell>, c: Cell)
  {
    InBounds(rows, cols, c) && c !in obstacles
  }

  /** A move the search may take. */
  predicate Step(rows: int, cols: int, obstacles: set<Cell>, s: Cell, t: Cell)
  {
    Adjacent(s, t) && Free(rows, cols, obstacles, t)
  }

  /** Consecutive cells of `p` are 4-neighbours and every cell after the first is free. */
  predicate IsPath(rows: int, cols: int, obstacles: set<Cell>, p: seq<Cell>)
  {
    forall i :: 1 <= i < |p| ==> Step(rows, cols, obstacles, p[i - 1], p[i])
  }

  /** The queue key of a cell with f-score `f`: Python compares `(f, (row, col))`. */
  function Key(f: real, c: Cell): seq<real>
  {
    [f, c.0 as real, c.1 as real]
  }

  /**
   * How the loop ended: the goal was popped, with the predecessor map and
   * g-scores at that moment; the queue ran dry; or the bound on pops ran out.
   */
  datatype Outcome =
    | Reached(cameFrom: map<Cell, Cell>, g: map<Cell, real>)
    | Exhausted
    | OutOfFuel

  /** `s` has been expanded: it is not the goal and every move out of it is scored. */
  ghost predicate Closed(rows: int, cols: int, obstacles: set<Cell>, s: Cell, goal: Cell, found: set<Cell>)
  {
    s != goal && forall t :: Step(rows, cols, obstacles, s, t) ==> t in found
  }

  /** The start and every queued cell have a finite g-score. */
  ghost predicate Scored(start: Cell, queue: seq<Entry<Cell>>, g: map<Cell, real>)
  {
    start in g && forall k :: 0 <= k < |queue| ==> queue[k].item in g
  }

  /** Every cell of `open` has an entry in the queue. */
  ghost predicate OpenQueued(open: set<Cell>, queue: seq<Entry<Cell>>)
  {
    open <= ItemsOf(queue)
  }

  /**
   * The predecessor map is a forest rooted at the start: each recorded
   * predecessor is one allowed move before its cell and has a g-score one
   * lower, and the start is the only scored cell without a predecessor.
   */
  ghost predicate ParentsValid(rows: int, cols: int, obstacles: set<Cell>, start: Cell,
                               cameFrom: map<Cell, Cell>, g: map<Cell, real>)
  {
    (forall t :: t in cameFrom ==> t in g && cameFrom[t] in g && Step(rows, cols, obstacles, cameFrom[t], t)
                                   && g[cameFrom[t]] < g[t])
    && (forall t :: t in g ==> t == start || t in cameFrom)
  }

  /** A scored cell is open, being expanded, or closed. */
  ghost predicate Frontier(rows: int, cols: int, obstacles: set<Cell>, goal: Cell,
                           open: set<Cell>, pending: set<Cell>, g: map<Cell, real>)
  {
    forall s :: s in g ==> s in open || s in pending || Closed(rows, cols, obstacles, s, goal, g.Keys)
  }

  /** No g-score has risen: Python only ever lowers `g_score` entries. */
  ghost predicate Lowered(g0: map<Cell, real>, g: map<Cell, real>)
  {
    forall t :: t in g0 ==> t in g && g[t] <= g0[t]
  }

  /** The start scores 0 and every other scored cell at least 1. */
  ghost predicate Depths(start: Cell, g: map<Cell, real>)
  {
    start in g && g[start] == 0.0 && forall t :: t in g && t != start ==> g[t] >= 1.0
  }

  /** A cell other than the start that scores at most 1 was reached straight from the start. */
  ghost predicate NearStart(start: Cell, cameFrom: map<Cell, Cell>, g: map<Cell, real>)
  {
    forall t :: t in g && t != start && g[t] <= 1.0 ==> t in cameFrom && cameFrom[t] == start
  }

  /** The predecessor map of a `Reached` outcome is ranked by the g-scores, so reading it back ends. */
  lemma ParentsRanked(rows: int, cols: int, obstacles: set<Cell>, start: Cell, cameFrom: map<Cell, Cell>, g: map<Cell, real>)
    requires ParentsValid(rows, cols, obstacles, start, cameFrom, g)
    ensures Chain.Ranked(cameFrom, g)
  {
  }

  /** Walking the predecessor map back from a scored cell ends at the start, along allowed moves. */
  lemma WalkIsPath(rows: int, cols: int, obstacles: set<Cell>, start: Cell, cameFrom: map<Cell, Cell>,
                   g: map<Cell, real>, x: Cell, p: seq<Cell>)
    requires ParentsValid(rows, cols, obstacles, start, cameFrom, g)
    requires x in g
    requires |p| >= 1 && p[|p| - 1] == x && p[0] !in cameFrom && Chain.LinkedBy(cameFrom, p)
    ensures p[0] == start && IsPath(rows, cols, obstacles, p)
  {
    if |p| > 1 {
      assert p[1] in cameFrom && cameFrom[p[1]] == p[0];
    }
    forall i | 1 <= i < |p|
      ensures Step(rows, cols, obstacles, p[i - 1], p[i])
    {
      assert p[i] in cameFrom && cameFrom[p[i]] == p[i - 1];
    }
  }

  /** A goal one free move from the start is reachable in one step. */
  lemma StepIsPath(rows: int, cols: int, obstacles: set<Cell>, s: Cell, g: Cell)
    ensures Step(rows, cols, obstacles, s, g) ==> IsPath(rows, cols, obstacles, [s, g])
  {
  }

  /** A path that starts on a free cell is a 4-connected walk of free cells. */
  lemma PathCellsFree(rows: int, cols: int, obstacles: set<Cell>, p: seq<Cell>)
    requires |p| >= 1 && Free(rows, cols, obstacles, p[0]) && IsPath(rows, cols, obstacles, p)
    ensures IsWalk(p) && forall i :: 0 <= i < |p| ==> Free(rows, cols, obstacles, p[i])
  {
    forall i | 0 < i < |p|
      ensures Free(rows, cols, obstacles, p[i])
    {
      assert Step(rows, cols, obstacles, p[i - 1], p[i]);
    }
  }

  /** No move enters a goal that is off the board or blocked, so only a path that starts there ends there. */
  lemma UnreachableGoal(rows: int, cols: int, obstacles: set<Cell>, start: Cell, goal: Cell)
    requires start != goal && !Free(rows, cols, obstacles, goal)
    ensures forall p :: |p| >= 1 && p[0] == start && IsPath(rows, cols, obstacles, p) ==> p[|p| - 1] != goal
  {
    forall p | |p| >= 1 && p[0] == start && IsPath(rows, cols, obstacles, p)
      ensures p[|p| - 1] != goal
    {
      if |p| > 1 {
        assert Step(rows, cols, obstacles, p[|p| - 2], p[|p| - 1]);
      }
    }
  }

  /** A set closed under moves that holds the first cell of a path holds its last cell, which is not the goal. */
  lemma {:induction false} ClosedSetTraps(rows: int, cols: int, obstacles: set<Cell>, found: set<Cell>, goal: Cell, p: seq<Cell>)
    requires forall s :: s in found ==> Closed(rows, cols, obstacles, s, goal, found)
    requires |p| >= 1 && p[0] in found && IsPath(rows, cols, obstacles, p)
    ensures p[|p| - 1] in found && p[|p| - 1] != goal
    decreases |p|
  {
    if |p| > 1 {
      var q := p[..|p| - 1];
      assert IsPath(rows, cols, obstacles, q);
      ClosedSetTraps(rows, cols, obstacles, found, goal, q);
      assert Step(rows, cols, obstacles, p[|p| - 2], p[|p| - 1]);
    }
  }

  /** The bound on pops that makes the search finish: one per pair of a board cell and a score in 1..BoardSize. */
  function FuelBound(rows: int, cols: int): nat
  {
    BoardSize(rows, cols) * BoardSize(rows, cols)
  }

  /**
   * What bounds the pops: every g-score is a whole number no larger than
   * the number of scored cells besides the start, and `used` records each
   * (cell, score) pair ever written, with a score the cell still meets.
   * As the scores only fall, no pair is written twice.
   */
  ghost predicate Budget(rows: int, cols: int, start: Cell, g: map<Cell, real>, used: set<(Cell, int)>)
  {
    (forall t :: t in g ==> g[t] == g[t].Floor as real && g[t] <= |g.Keys - {start}| as real)
    && (forall x :: x in used ==> InBounds(rows, cols, x.0) && 1 <= x.1 <= |Board(rows, cols)|
                                  && x.0 in g && g[x.0] <= x.1 as real)
  }

  lemma PairUpCard(cells: set<Cell>, v: int)
    ensures |set c | c in cells :: (c, v)| == |cells|
  {
    if cells != {} {
      var c :| c in cells;
      PairUpCard(cells - {c}, v);
      assert (set d | d in cells :: (d, v)) == (set d | d in cells - {c} :: (d, v)) + {(c, v)};
    }
  }

  /** Pairs of a cell of `cells` and a score in 1..n number at most `|cells| * n`, one layer per score. */
  lemma {:induction false} PairsCard(cells: set<Cell>, u: set<(Cell, int)>, n: nat)
    requires forall x :: x in u ==> x.0 in cells && 1 <= x.1 <= n
    ensures |u| <= n * |cells|
  {
    if n == 0 {
      assert u == {};
    } else {
      var top := set x | x in u && x.1 == n;
      var low := u - top;
      PairsCard(cells, low, n - 1);
      var layer := set c | c in cells :: (c, n);
      forall x | x in top
        ensures x in layer
      {
        assert x == (x.0, n);
      }
      Chain.SubsetCard(top, layer);
      PairUpCard(cells, n);
      assert u == low + top && low * top == {};
      assert |u| == |low| + |top|;
      MulStepInt(n - 1, |cells|);
    }
  }

  /** The pairs recorded in `used` are at most `FuelBound(rows, cols)`. */
  lemma UsedBounded(rows: int, cols: int, start: Cell, g: map<Cell, real>, used: set<(Cell, int)>)
    requires Budget(rows, cols, start, g, used)
    ensures |used| <= FuelBound(rows, cols)
  {
    forall x | x in used
      ensures x.0 in Board(rows, cols)
    {
    }
    PairsCard(Board(rows, cols), used, |Board(rows, cols)|);
    BoardCard(rows, cols);
  }

  /** A valid forest scores only board cells besides the start, so at most `BoardSize` of them. */
  lemma ScoredCard(rows: int, cols: int, obstacles: set<Cell>, start: Cell,
                   cameFrom: map<Cell, Cell>, g: map<Cell, real>)
    requires ParentsValid(rows, cols, obstacles, start, cameFrom, g)
    ensures |g.Keys - {start}| <= |Board(rows, cols)|
  {
    forall t | t in g.Keys - {start}
      ensures t in Board(rows, cols)
    {
      assert Step(rows, cols, obstacles, cameFrom[t], t);
    }
    Chain.SubsetCard(g.Keys - {start}, Board(rows, cols));
  }

  /** The score `g[cur] + 1` is a whole number in 1..|Board|, and the pair it makes has not been written. */
  lemma FreshPair(rows: int, cols: int, start: Cell, g: map<Cell, real>, used: set<(Cell, int)>,
                  cur: Cell, next: Cell, v: real)
    requires Budget(rows, cols, start, g, used)
    requires cur in g && g[cur] >= 0.0 && next != start
    requires v == g[cur] + 1.0
    requires next !in g || v < g[next]
    requires |g[next := v].Keys - {start}| <= |Board(rows, cols)|
    ensures v == v.Floor as real && 1 <= v.Floor <= |Board(rows, cols)|
    ensures v <= |g[next := v].Keys - {start}| as real
    ensures (next, v.Floor) !in used
  {
    var n := g[cur].Floor + 1;
    assert g[cur] == g[cur].Floor as real && g[cur] <= |g.Keys - {start}| as real;
    assert v.Floor == n && v == n as real;
    assert next in g ==> n as real < g[next];
    var k1 := g[next := v].Keys - {start};
    if next !in g {
      assert k1 == (g.Keys - {start}) + {next};
    } else {
      assert k1 == g.Keys - {start};
    }
  }

  /** Writing the score `g[cur] + 1` below the old one records a pair not recorded before. */
  lemma BudgetStep(rows: int, cols: int, start: Cell, g: map<Cell, real>, used: set<(Cell, int)>,
                   cur: Cell, next: Cell, v: real)
    requires Budget(rows, cols, start, g, used)
    requires cur in g && g[cur] >= 0.0 && InBounds(rows, cols, next) && next != start
    requires v == g[cur] + 1.0
    requires next !in g || v < g[next]
    requires |g[next := v].Keys - {start}| <= |Board(rows, cols)|
    ensures (next, v.Floor) !in used
    ensures Budget(rows, cols, start, g[next := v], used + {(next, v.Floor)})
  {
    FreshPair(rows, cols, start, g, used, cur, next, v);
    var g1 := g[next := v];
    var k1 := g1.Keys - {start};
    assert |g.Keys - {start}| <= |k1| by {
      Chain.SubsetCard(g.Keys - {start}, k1);
    }
    forall t | t in g1
      ensures g1[t] == g1[t].Floor as real && g1[t] <= |k1| as real
    {
    }
    forall x | x in used + {(next, v.Floor)}
      ensures x.0 in g1 && g1[x.0] <= x.1 as real
    {
      if x != (next, v.Floor) && x.0 == next {
        assert g[next] <= x.1 as real;
      }
    }
  }

  /**
   * One neighbour of the popped cell `cur`: a lower g-score records `cur`
   * as its predecessor and queues it, unless `dedupe` is set and
   * `open_set_hash` holds it already.
   */
  method Relax(rows: int, cols: int, obstacles: set<Cell>, start: Cell, goal: Cell, dedupe: bool,
               cur: Cell, next: Cell,
               queue0: seq<Entry<Cell>>, open0: set<Cell>, cameFrom0: map<Cell, Cell>, g0: map<Cell, real>,
               ghost used0: set<(Cell, int)>)
    returns (queue: seq<Entry<Cell>>, open: set<Cell>, cameFrom: map<Cell, Cell>, g: map<Cell, real>,
             ghost used: set<(Cell, int)>)
    requires Step(rows, cols, obstacles, cur, next)
    requires cur in g0 && cur != goal
    requires Scored(start, queue0, g0) && OpenQueued(open0, queue0)
    requires ParentsValid(rows, cols, obstacles, start, cameFrom0, g0)
    requires Frontier(rows, cols, obstacles, goal, open0, {cur}, g0)
    requires Depths(start, g0) && NearStart(start, cameFrom0, g0)
    requires Budget(rows, cols, start, g0, used0)
    ensures Scored(start, queue, g) && OpenQueued(open, queue)
    ensures ParentsValid(rows, cols, obstacles, start, cameFrom, g)
    ensures Frontier(rows, cols, obstacles, goal, open, {cur}, g)
    ensures Depths(start, g) && NearStart(start, cameFrom, g)
    ensures Lowered(g0, g) && next in g && g[next] <= g0[cur] + 1.0
    ensures cur in g && g[cur] == g0[cur]
    ensures Budget(rows, cols, start, g, used) && |queue| - |queue0| <= |used| - |used0|
  {
    if next !in g0 || g0[cur] + 1.0 < g0[next] {
      queue, open, cameFrom, g, used := Improve(rows, cols, obstacles, start, goal, dedupe, cur, next,
                                                queue0, open0, cameFrom0, g0, used0);
    } else {
      queue, open, cameFrom, g, used := queue0, open0, cameFrom0, g0, used0;
    }
  }

  /** The neighbour `next` gets the lower score `g[cur] + 1` through `cur`, and is queued unless deduplicated. */
  method Improve(rows: int, cols: int, obstacles: set<Cell>, start: Cell, goal: Cell, dedupe: bool,
                 cur: Cell, next: Cell,
                 queue0: seq<Entry<Cell>>, open0: set<Cell>, cameFrom0: map<Cell, Cell>, g0: map<Cell, real>,
                 ghost used0: set<(Cell, int)>)
    returns (queue: seq<Entry<Cell>>, open: set<Cell>, cameFrom: map<Cell, Cell>, g: map<Cell, real>,
             ghost used: set<(Cell, int)>)
    requires Step(rows, cols, obstacles, cur, next)
    requires cur in g0 && cur != goal
    requires next !in g0 || g0[cur] + 1.0 < g0[next]
    requires Scored(start, queue0, g0) && OpenQueued(open0, queue0)
    requires ParentsValid(rows, cols, obstacles, start, cameFrom0, g0)
    requires Frontier(rows, cols, obstacles, goal, open0, {cur}, g0)
    requires Depths(start, g0) && NearStart(start, cameFrom0, g0)
    requires Budget(rows, cols, start, g0, used0)
    ensures Scored(start, queue, g) && OpenQueued(open, queue)
    ensures ParentsValid(rows, cols, obstacles, start, cameFrom, g)
    ensures Frontier(rows, cols, obstacles, goal, open, {cur}, g)
    ensures Depths(start, g) && NearStart(start, cameFrom, g)
    ensures Lowered(g0, g) && next in g && g[next] <= g0[cur] + 1.0
    ensures cur in g && g[cur] == g0[cur]
    ensures Budget(rows, cols, start, g, used) && |queue| - |queue0| <= |used| - |used0|
  {
    var tentative := g0[cur] + 1.0;
    ImproveMaps(rows, cols, obstacles, start, cameFrom0, g0, used0, cur, next, tentative);
    used := used0 + {(next, tentative.Floor)};
    cameFrom := cameFrom0[next := cur];
    g := g0[next := tentative];
    queue, open := queue0, open0;
    if !dedupe || next !in open {
      var f := tentative + Manhattan(next, goal) as real;
      queue := queue + [Entry(Key(f, next), next)];
      open := open + {next};
      PushKeeps(start, next, f, queue0, open0, g);
    }
    FrontierGrows(rows, cols, obstacles, goal, open0, open, cur, g0, next, tentative);
  }

  /** The new predecessor and score of `next` keep the forest, the depth bounds and the budget; one more pair is written. */
  lemma ImproveMaps(rows: int, cols: int, obstacles: set<Cell>, start: Cell, cameFrom: map<Cell, Cell>,
                    g: map<Cell, real>, used: set<(Cell, int)>, cur: Cell, next: Cell, v: real)
    requires Step(rows, cols, obstacles, cur, next) && cur in g
    requires v == g[cur] + 1.0
    requires next !in g || v < g[next]
    requires ParentsValid(rows, cols, obstacles, start, cameFrom, g)
    requires Depths(start, g) && NearStart(start, cameFrom, g)
    requires Budget(rows, cols, start, g, used)
    ensures cur != next
    ensures ParentsValid(rows, cols, obstacles, start, cameFrom[next := cur], g[next := v])
    ensures Depths(start, g[next := v]) && NearStart(start, cameFrom[next := cur], g[next := v])
    ensures Lowered(g, g[next := v])
    ensures Budget(rows, cols, start, g[next := v], used + {(next, v.Floor)})
    ensures |used + {(next, v.Floor)}| == |used| + 1
  {
    RecordParent(rows, cols, obstacles, start, cameFrom, g, cur, next, v);
    RecordDepth(start, cameFrom, g, cur, next, v);
    ScoredCard(rows, cols, obstacles, start, cameFrom[next := cur], g[next := v]);
    BudgetStep(rows, cols, start, g, used, cur, next, v);
    assert Manhattan(cur, next) == 1;
  }

  /** Recording `cur` as the predecessor of `next` at a lower g-score keeps the map a valid forest. */
  lemma RecordParent(rows: int, cols: int, obstacles: set<Cell>, start: Cell, cameFrom: map<Cell, Cell>,
                     g: map<Cell, real>, cur: Cell, next: Cell, v: real)
    requires ParentsValid(rows, cols, obstacles, start, cameFrom, g)
    requires cur in g && Step(rows, cols, obstacles, cur, next)
    requires next !in g || v < g[next]
    requires g[cur] < v
    ensures ParentsValid(rows, cols, obstacles, start, cameFrom[next := cur], g[next := v])
  {
  }

  /** A score of `g[cur] + 1` keeps the depth bounds, and a score of 1 only ever comes from the start. */
  lemma RecordDepth(start: Cell, cameFrom: map<Cell, Cell>, g: map<Cell, real>, cur: Cell, next: Cell, v: real)
    requires Depths(start, g) && NearStart(start, cameFrom, g)
    requires cur in g && v == g[cur] + 1.0
    requires next !in g || v < g[next]
    ensures next != start
    ensures Depths(start, g[next := v]) && NearStart(start, cameFrom[next := cur], g[next := v])
    ensures Lowered(g, g[next := v])
  {
  }

  lemma PushKeeps(start: Cell, next: Cell, f: real, queue: seq<Entry<Cell>>, open: set<Cell>, g: map<Cell, real>)
    requires forall k :: 0 <= k < |queue| ==> queue[k].item in g
    requires start in g && next in g
    requires OpenQueued(open, queue)
    ensures Scored(start, queue + [Entry(Key(f, next), next)], g)
    ensures OpenQueued(open + {next}, queue + [Entry(Key(f, next), next)])
  {
    var q := queue + [Entry(Key(f, next), next)];
    forall s | s in open + {next}
      ensures s in ItemsOf(q)
    {
      if s != next {
        var k :| 0 <= k < |queue| && queue[k].item == s;
        assert q[k] == queue[k];
      } else {
        assert q[|q| - 1].item == next;
      }
    }
  }

  lemma FrontierGrows(rows: int, cols: int, obstacles: set<Cell>, goal: Cell, open0: set<Cell>, open: set<Cell>,
                      cur: Cell, g0: map<Cell, real>, next: Cell, v: real)
    requires Frontier(rows, cols, obstacles, goal, open0, {cur}, g0)
    requires open0 <= open && next in open
    ensures Frontier(rows, cols, obstacles, goal, open, {cur}, g0[next := v])
  {
    var g := g0[next := v];
    forall s | s in g
      ensures s in open || s in {cur} || Closed(rows, cols, obstacles, s, goal, g.Keys)
    {
      if s != next && s !in open && s != cur {
        assert Closed(rows, cols, obstacles, s, goal, g0.Keys);
      }
    }
  }

  /** The first `j` offsets from `cur` that lead to a free cell lead to cells scored at most `bound`. */
  ghost predicate PartlyClosed(rows: int, cols: int, obstacles: set<Cell>, cur: Cell, j: int, g: map<Cell, real>, bound: real)
  {
    forall k :: 0 <= k < j && k < 4 && Free(rows, cols, obstacles, Offset(cur, k)) ==> Offset(cur, k) in g && g[Offset(cur, k)] <= bound
  }

  /** The inner `for` loop for the popped cell `cur`; afterwards `cur` is closed. */
  method Expand(rows: int, cols: int, obstacles: set<Cell>, start: Cell, goal: Cell, dedupe: bool, cur: Cell,
                queue0: seq<Entry<Cell>>, open0: set<Cell>, cameFrom0: map<Cell, Cell>, g0: map<Cell, real>,
                ghost used0: set<(Cell, int)>)
    returns (queue: seq<Entry<Cell>>, open: set<Cell>, cameFrom: map<Cell, Cell>, g: map<Cell, real>,
             ghost used: set<(Cell, int)>)
    requires cur in g0 && cur != goal
    requires Scored(start, queue0, g0) && OpenQueued(open0, queue0)
    requires ParentsValid(rows, cols, obstacles, start, cameFrom0, g0)
    requires Frontier(rows, cols, obstacles, goal, open0, {cur}, g0)
    requires Depths(start, g0) && NearStart(start, cameFrom0, g0)
    requires Budget(rows, cols, start, g0, used0)
    ensures Scored(start, queue, g) && OpenQueued(open, queue)
    ensures ParentsValid(rows, cols, obstacles, start, cameFrom, g)
    ensures Frontier(rows, cols, obstacles, goal, open, {}, g)
    ensures Depths(start, g) && NearStart(start, cameFrom, g) && Lowered(g0, g)
    ensures forall t :: Step(rows, cols, obstacles, cur, t) ==> t in g && g[t] <= g0[cur] + 1.0
    ensures Budget(rows, cols, start, g, used) && |queue| - |queue0| <= |used| - |used0|
  {
    queue, open, cameFrom, g, used := queue0, open0, cameFrom0, g0, used0;
    var j := 0;
    while j < 4
      invariant 0 <= j <= 4
      invariant cur in g && g[cur] == g0[cur]
      invariant Scored(start, queue, g) && OpenQueued(open, queue)
      invariant ParentsValid(rows, cols, obstacles, start, cameFrom, g)
      invariant Frontier(rows, cols, obstacles, goal, open, {cur}, g)
      invariant Depths(start, g) && NearStart(start, cameFrom, g) && Lowered(g0, g)
      invariant PartlyClosed(rows, cols, obstacles, cur, j, g, g0[cur] + 1.0)
      invariant Budget(rows, cols, start, g, used) && |queue| - |queue0| <= |used| - |used0|
    {
      queue, open, cameFrom, g, used := TryOffset(rows, cols, obstacles, start, goal, dedupe, cur, j,
                                                  queue0, g0, used0, queue, open, cameFrom, g, used);
      j := j + 1;
    }
    FinishExpand(rows, cols, obstacles, goal, open, g, cur, g0[cur] + 1.0);
  }

  /** Offset `j` of the inner loop: the neighbour it leads to is relaxed when it is on the board and free. */
  method TryOffset(rows: int, cols: int, obstacles: set<Cell>, start: Cell, goal: Cell, dedupe: bool, cur: Cell, j: int,
                   ghost queueBase: seq<Entry<Cell>>, ghost gBase: map<Cell, real>, ghost usedBase: set<(Cell, int)>,
                   queue0: seq<Entry<Cell>>, open0: set<Cell>, cameFrom0: map<Cell, Cell>, g0: map<Cell, real>,
                   ghost used0: set<(Cell, int)>)
    returns (queue: seq<Entry<Cell>>, open: set<Cell>, cameFrom: map<Cell, Cell>, g: map<Cell, real>,
             ghost used: set<(Cell, int)>)
    requires 0 <= j < 4 && cur != goal && cur in gBase
    requires cur in g0 && g0[cur] == gBase[cur]
    requires Scored(start, queue0, g0) && OpenQueued(open0, queue0)
    requires ParentsValid(rows, cols, obstacles, start, cameFrom0, g0)
    requires Frontier(rows, cols, obstacles, goal, open0, {cur}, g0)
    requires Depths(start, g0) && NearStart(start, cameFrom0, g0) && Lowered(gBase, g0)
    requires PartlyClosed(rows, cols, obstacles, cur, j, g0, gBase[cur] + 1.0)
    requires Budget(rows, cols, start, g0, used0) && |queue0| - |queueBase| <= |used0| - |usedBase|
    ensures cur in g && g[cur] == gBase[cur]
    ensures Scored(start, queue, g) && OpenQueued(open, queue)
    ensures ParentsValid(rows, cols, obstacles, start, cameFrom, g)
    ensures Frontier(rows, cols, obstacles, goal, open, {cur}, g)
    ensures Depths(start, g) && NearStart(start, cameFrom, g) && Lowered(gBase, g)
    ensures PartlyClosed(rows, cols, obstacles, cur, j + 1, g, gBase[cur] + 1.0)
    ensures Budget(rows, cols, start, g, used) && |queue| - |queueBase| <= |used| - |usedBase|
  {
    queue, open, cameFrom, g, used := queue0, open0, cameFrom0, g0, used0;
    var next := Offset(cur, j);
    if InBounds(rows, cols, next) && next !in obstacles {
      OffsetsAreNeighbours(cur, next);
      queue, open, cameFrom, g, used := Relax(rows, cols, obstacles, start, goal, dedupe, cur, next, queue, open, cameFrom, g, used);
      PartlyClosedStep(rows, cols, obstacles, cur, j, g0, g, gBase[cur] + 1.0);
      LoweredTrans(gBase, g0, g);
    } else {
      PartlyClosedStep(rows, cols, obstacles, cur, j, g, g, gBase[cur] + 1.0);
    }
  }

  lemma LoweredTrans(g0: map<Cell, real>, g1: map<Cell, real>, g2: map<Cell, real>)
    requires Lowered(g0, g1) && Lowered(g1, g2)
    ensures Lowered(g0, g2)
  {
  }

  lemma PartlyClosedStep(rows: int, cols: int, obstacles: set<Cell>, cur: Cell, j: int,
                         g0: map<Cell, real>, g: map<Cell, real>, bound: real)
    requires 0 <= j < 4
    requires PartlyClosed(rows, cols, obstacles, cur, j, g0, bound) && Lowered(g0, g)
    requires Free(rows, cols, obstacles, Offset(cur, j)) ==> Offset(cur, j) in g && g[Offset(cur, j)] <= bound
    ensures PartlyClosed(rows, cols, obstacles, cur, j + 1, g, bound)
  {
  }

  lemma FinishExpand(rows: int, cols: int, obstacles: set<Cell>, goal: Cell, open: set<Cell>, g: map<Cell, real>,
                     cur: Cell, bound: real)
    requires Frontier(rows, cols, obstacles, goal, open, {cur}, g) && cur != goal
    requires PartlyClosed(rows, cols, obstacles, cur, 4, g, bound)
    ensures Frontier(rows, cols, obstacles, goal, open, {}, g)
    ensures forall t :: Step(rows, cols, obstacles, cur, t) ==> t in g && g[t] <= bound
  {
    forall t | Step(rows, cols, obstacles, cur, t)
      ensures t in g && g[t] <= bound
    {
      OffsetsAreNeighbours(cur, t);
    }
    assert Closed(rows, cols, obstacles, cur, goal, g.Keys);
  }

  /** Taking the entry at `i` off the queue (and out of `open`) leaves its cell pending. */
  lemma PopKeeps(rows: int, cols: int, obstacles: set<Cell>, start: Cell, goal: Cell,
                 queue: seq<Entry<Cell>>, open: set<Cell>, g: map<Cell, real>, i: int)
    requires Scored(start, queue, g) && OpenQueued(open, queue)
    requires Frontier(rows, cols, obstacles, goal, open, {}, g)
    requires 0 <= i < |queue|
    ensures queue[i].item in g
    ensures Scored(start, RemoveAt(queue, i), g)
    ensures OpenQueued(open - {queue[i].item}, RemoveAt(queue, i))
    ensures Frontier(rows, cols, obstacles, goal, open - {queue[i].item}, {queue[i].item}, g)
  {
    PopOpenQueued(open, queue, i);
  }

  lemma PopOpenQueued(open: set<Cell>, queue: seq<Entry<Cell>>, i: int)
    requires OpenQueued(open, queue)
    requires 0 <= i < |queue|
    ensures OpenQueued(open - {queue[i].item}, RemoveAt(queue, i))
  {
    var rest := RemoveAt(queue, i);
    forall s | s in open - {queue[i].item}
      ensures s in ItemsOf(rest)
    {
      var k :| 0 <= k < |queue| && queue[k].item == s;
      if k < i {
        assert rest[k] == queue[k];
      } else {
        assert rest[k - 1] == queue[k];
      }
    }
  }

  /** When the queue runs dry every scored cell is closed, so no path from the start reaches the goal. */
  lemma QueueDrained(rows: int, cols: int, obstacles: set<Cell>, start: Cell, goal: Cell,
                  queue: seq<Entry<Cell>>, open: set<Cell>, g: map<Cell, real>)
    requires Scored(start, queue, g) && OpenQueued(open, queue)
    requires Frontier(rows, cols, obstacles, goal, open, {}, g)
    requires |queue| == 0
    ensures forall p :: |p| >= 1 && p[0] == start && IsPath(rows, cols, obstacles, p) ==> p[|p| - 1] != goal
  {
    assert open == {};
    forall p | |p| >= 1 && p[0] == start && IsPath(rows, cols, obstacles, p)
      ensures p[|p| - 1] != goal
    {
      ClosedSetTraps(rows, cols, obstacles, g.Keys, goal, p);
    }
  }

  /** After the start has been expanded its free neighbours keep a score of at most 1. */
  lemma NeighboursStayNear(rows: int, cols: int, obstacles: set<Cell>, start: Cell, cur: Cell,
                           g0: map<Cell, real>, g: map<Cell, real>, first: bool)
    requires Depths(start, g0) && Lowered(g0, g) && cur in g0
    requires first ==> cur == start
    requires !first ==> forall t :: Step(rows, cols, obstacles, start, t) ==> t in g0 && g0[t] <= 1.0
    requires forall t :: Step(rows, cols, obstacles, cur, t) ==> t in g && g[t] <= g0[cur] + 1.0
    ensures forall t :: Step(rows, cols, obstacles, start, t) ==> t in g && g[t] <= 1.0
  {
  }

  /**
   * The `while not open_set.empty()` loop, started from `put((0, start))`
   * and `g_score[start] = 0`, with at most `fuel` pops. When the goal is
   * popped the predecessor map is a forest of allowed moves rooted at the
   * start, ranked by the g-scores, with the goal scored; when the queue
   * runs dry no path from the start reaches the goal. If start and goal
   * coincide, the first pop ends the loop with an empty map. More than
   * `FuelBound(rows, cols)` pops are never needed, so with a larger `fuel`
   * a goal some path reaches is always popped.
   */
  method Search(rows: int, cols: int, obstacles: set<Cell>, start: Cell, goal: Cell, dedupe: bool, fuel: nat)
    returns (o: Outcome)
    ensures o.Reached? ==> goal in o.g && ParentsValid(rows, cols, obstacles, start, o.cameFrom, o.g)
    ensures o.Exhausted? ==> forall p :: |p| >= 1 && p[0] == start && IsPath(rows, cols, obstacles, p) ==> p[|p| - 1] != goal
    ensures start == goal && fuel > 0 ==> o.Reached? && o.cameFrom == map[]
    ensures fuel == 0 ==> o.OutOfFuel?
    ensures fuel > FuelBound(rows, cols) ==> !o.OutOfFuel?
    ensures o.Reached? && start != goal && Step(rows, cols, obstacles, start, goal) ==> goal in o.cameFrom && o.cameFrom[goal] == start
  {
    var queue := [Entry(Key(0.0, start), start)];
    var open := {start};
    var cameFrom: map<Cell, Cell> := map[];
    var g: map<Cell, real> := map[start := 0.0];
    assert queue[0].item == start;
    var left: nat := fuel;
    ghost var used: set<(Cell, int)> := {};
    while |queue| > 0
      invariant Scored(start, queue, g) && OpenQueued(open, queue)
      invariant ParentsValid(rows, cols, obstacles, start, cameFrom, g)
      invariant Frontier(rows, cols, obstacles, goal, open, {}, g)
      invariant left <= fuel
      invariant left == fuel ==> |queue| == 1 && queue[0].item == start && cameFrom == map[]
      invariant start == goal ==> left == fuel
      invariant Depths(start, g) && NearStart(start, cameFrom, g)
      invariant left < fuel ==> forall t :: Step(rows, cols, obstacles, start, t) ==> t in g && g[t] <= 1.0
      invariant Budget(rows, cols, start, g, used) && |queue| + (fuel - left) <= 1 + |used|
      decreases left
    {
      if left == 0 {
        UsedBounded(rows, cols, start, g, used);
        return Outcome.OutOfFuel;
      }
      left := left - 1;
      var i := PopIndex(queue);
      var cur := queue[i].item;
      PopKeeps(rows, cols, obstacles, start, goal, queue, open, g, i);
      queue := RemoveAt(queue, i);
      open := open - {cur};
      if cur == goal {
        return Reached(cameFrom, g);
      }
      ghost var g0 := g;
      queue, open, cameFrom, g, used := Expand(rows, cols, obstacles, start, goal, dedupe, cur, queue, open, cameFrom, g, used);
      NeighboursStayNear(rows, cols, obstacles, start, cur, g0, g, left + 1 == fuel);
    }
    QueueDrained(rows, cols, obstacles, start, goal, queue, open, g);
    return Exhausted;
  }
}
