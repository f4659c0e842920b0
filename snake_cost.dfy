/**
 * `ucs` and `a_star` of `SnakeSearch.py` (and the identical `a_star` of
 * `SnakeSearchPoints.py`): a heap of tuples ordered by cost, or by cost
 * plus the Manhattan estimate, with lazy deletion of cells popped before,
 * and a relaxation step that lowers a cell's cost and re-parents it.
 * Both return a path of fewest moves whenever the target can be reached.
 */
/**
 * The bookkeeping of `ucs` and `a_star` between steps: the heap entries
 * they push, and what the heap, the `cost` and `parent` maps and the
 * `visited` set promise one another.
 */
module CostState {
  import opened Common
  import opened Grid
  import opened SnakeGrid
  import opened PriorityQueue

  /** A heap entry's payload: the cost it was pushed with and its cell. */
  type Item = (int, Cell)

  /** The estimate added to the cost: none for `ucs`, `heuristic(cell, target)` for `a_star`. */
  function Estimate(informed: bool, n: Cell, target: Cell): nat
  {
    if informed then Heuristic(n, target) else 0
  }

  /**
   * The tuple pushed for `cell` at cost `c`: `(c, cell)` for `ucs`, and
   * `(c + heuristic(cell, target), c, cell)` for `a_star`.
   */
  function Push(informed: bool, target: Cell, c: int, n: Cell): Entry<Item>
  {
    if informed then Entry([(c + Heuristic(n, target)) as real, c as real, n.0 as real, n.1 as real], (c, n))
    else Entry([c as real, n.0 as real, n.1 as real], (c, n))
  }

  /** Every pending entry is a tuple the search pushed, for a costed cell, at no less than its cost. */
  ghost predicate Queued(informed: bool, target: Cell, pq: seq<Entry<Item>>, cost: map<Cell, int>)
  {
    forall e {:trigger e in pq} :: e in pq ==>
      e == Push(informed, target, e.item.0, e.item.1) && e.item.1 in cost && cost[e.item.1] <= e.item.0
  }

  /** Every costed cell not yet popped waits in the heap at its current cost. */
  ghost predicate Pending(informed: bool, target: Cell, pq: seq<Entry<Item>>, cost: map<Cell, int>, visited: set<Cell>)
  {
    forall v {:trigger v in cost} :: v in cost && v !in visited ==> Push(informed, target, cost[v], v) in pq
  }

  /**
   * The parent map is a forest over the costed cells whose links climb
   * one unit of cost to a popped cell, and the costed cells lie on the
   * board or are the start.
   */
  ghost predicate Costed(grid: seq<seq<int>>, rows: int, cols: int, start: Cell,
                         parent: map<Cell, Cell>, cost: map<Cell, int>, visited: set<Cell>)
  {
    && Forest(grid, rows, cols, start, parent, cost.Keys, cost)
    && Layers(start, parent, cost)
    && (forall t {:trigger parent[t]} :: t in parent ==> parent[t] in visited)
    && visited <= cost.Keys
    && (forall t {:trigger t in cost} :: t in cost ==> t == start || InBounds(rows, cols, t))
  }

  /** The cost of a popped cell is the length of a shortest route to it. */
  ghost predicate Settled(grid: seq<seq<int>>, rows: int, cols: int, start: Cell, cost: map<Cell, int>, visited: set<Cell>)
  {
    forall u, p {:trigger Connects(grid, rows, cols, p, start, u)} :: u in visited && u in cost && Connects(grid, rows, cols, p, start, u) ==> cost[u] <= |p| - 1
  }

  /** The target has not been popped, and each popped cell not `pending` has relaxed all its moves. */
  ghost predicate Relaxed(grid: seq<seq<int>>, rows: int, cols: int, target: Cell,
                          cost: map<Cell, int>, visited: set<Cell>, pending: set<Cell>)
  {
    && (forall u {:trigger u in visited} :: u in visited && u !in pending ==> u != target)
    && (forall u, v {:trigger Move(grid, rows, cols, u, v)} :: u in visited && u !in pending && u in cost && Move(grid, rows, cols, u, v) ==>
          v in cost && cost[v] <= cost[u] + 1)
  }

  /**
   * Every popped cell's cost plus estimate is at most the length of any
   * route to the target: the search never strays beyond the target's
   * own distance.
   */
  ghost predicate Focused(grid: seq<seq<int>>, rows: int, cols: int, start: Cell, target: Cell, informed: bool,
                          cost: map<Cell, int>, visited: set<Cell>)
  {
    forall u, p {:trigger u in visited, Connects(grid, rows, cols, p, start, target)} ::
      u in visited && u in cost && Connects(grid, rows, cols, p, start, target) ==>
        cost[u] + Estimate(informed, u, target) <= |p| - 1
  }

  /** What holds between two rounds of the loop. */
  ghost predicate Round(grid: seq<seq<int>>, rows: int, cols: int, start: Cell, target: Cell, informed: bool,
                        pq: seq<Entry<Item>>, visited: set<Cell>, parent: map<Cell, Cell>, cost: map<Cell, int>)
  {
    && Queued(informed, target, pq, cost)
    && Pending(informed, target, pq, cost, visited)
    && Costed(grid, rows, cols, start, parent, cost, visited)
    && Settled(grid, rows, cols, start, cost, visited)
    && Focused(grid, rows, cols, start, target, informed, cost, visited)
    && Relaxed(grid, rows, cols, target, cost, visited, {})
  }

  /** The inner loop of a round after `k` of the popped cell's neighbours. */
  ghost predicate Relaxing(grid: seq<seq<int>>, rows: int, cols: int, start: Cell, target: Cell, informed: bool,
                           cur: Cell, c: int, ns: seq<Cell>, k: int,
                           pq: seq<Entry<Item>>, visited: set<Cell>, parent: map<Cell, Cell>, cost: map<Cell, int>)
  {
    && cur in visited && cur in cost && cost[cur] == c && cur != target
    && Queued(informed, target, pq, cost)
    && Pending(informed, target, pq, cost, visited)
    && Costed(grid, rows, cols, start, parent, cost, visited)
    && Settled(grid, rows, cols, start, cost, visited)
    && Focused(grid, rows, cols, start, target, informed, cost, visited)
    && Relaxed(grid, rows, cols, target, cost, visited, {cur})
    && Cheap(ns, k, cost, c + 1)
  }

  /** `x` is costed at the length of a shortest route to it. */
  ghost predicate Shortest(grid: seq<seq<int>>, rows: int, cols: int, start: Cell, x: Cell, cost: map<Cell, int>)
  {
    x in cost && forall p :: Connects(grid, rows, cols, p, start, x) ==> cost[x] <= |p| - 1
  }

  /** The first `k` cells of `ns` are costed at no more than `c`. */
  ghost predicate Cheap(ns: seq<Cell>, k: int, cost: map<Cell, int>, c: int)
  {
    0 <= k <= |ns| && forall j :: 0 <= j < k ==> ns[j] in cost && cost[ns[j]] <= c
  }
}

module SnakeCost {
  import opened Common
  import opened Grid
  import opened SnakeGrid
  import opened PriorityQueue
  import opened CostState
  import CS = CostState

  /** An entry popped before another has no larger cost plus estimate. */
  lemma PushOrder(informed: bool, target: Cell, a: Entry<Item>, b: Entry<Item>)
    requires a == Push(informed, target, a.item.0, a.item.1) && b == Push(informed, target, b.item.0, b.item.1)
    requires KeyLe(a.key, b.key)
    ensures a.item.0 + Estimate(informed, a.item.1, target) <= b.item.0 + Estimate(informed, b.item.1, target)
  {
    KeyLeHead(a.key, b.key);
  }

  /** The estimate never drops by more than one per move, and is exact at the target. */
  lemma {:induction false} EstimateAlong(grid: seq<seq<int>>, rows: int, cols: int, informed: bool, target: Cell,
                                         p: seq<Cell>, j: int)
    requires IsRoute(grid, rows, cols, p) && 0 <= j < |p|
    ensures Estimate(informed, p[j], target) <= |p| - 1 - j + Estimate(informed, p[|p| - 1], target)
    decreases |p| - j
  {
    if j < |p| - 1 && informed {
      EstimateAlong(grid, rows, cols, informed, target, p, j + 1);
      assert Move(grid, rows, cols, p[j], p[j + 1]);
      ManhattanMetric(p[j], target, p[j + 1]);
    }
  }

  /**
   * Walking a route from the start to an unpopped cell reaches a first
   * unpopped cell, and that cell is costed at no more than its position.
   */
  lemma {:induction false} Frontier(grid: seq<seq<int>>, rows: int, cols: int, start: Cell, target: Cell,
                                    cost: map<Cell, int>, visited: set<Cell>, p: seq<Cell>) returns (j: int)
    requires CS.Settled(grid, rows, cols, start, cost, visited) && CS.Relaxed(grid, rows, cols, target, cost, visited, {})
    requires visited <= cost.Keys && start in cost && cost[start] == 0
    requires |p| >= 1 && p[0] == start && IsRoute(grid, rows, cols, p) && p[|p| - 1] !in visited
    ensures 0 <= j < |p| && p[j] !in visited && p[j] in cost && cost[p[j]] <= j
    decreases |p|
  {
    if |p| == 1 {
      j := 0;
    } else {
      var q := p[..|p| - 1];
      assert IsRoute(grid, rows, cols, q);
      var u := p[|p| - 2];
      if u in visited {
        assert Connects(grid, rows, cols, q, start, u);
        assert Move(grid, rows, cols, u, p[|p| - 1]);
        j := |p| - 1;
      } else {
        j := Frontier(grid, rows, cols, start, target, cost, visited, q);
      }
    }
  }

  /**
   * The first time a cell is popped its entry carries its current cost,
   * and that cost is the length of a shortest route to it: every cheaper
   * route would have left an entry with a smaller key behind.
   */
  lemma FirstPop(grid: seq<seq<int>>, rows: int, cols: int, start: Cell, target: Cell, informed: bool,
                 pq: seq<Entry<Item>>, i: int, visited: set<Cell>, parent: map<Cell, Cell>, cost: map<Cell, int>)
    requires CS.Round(grid, rows, cols, start, target, informed, pq, visited, parent, cost)
    requires IsLeast(pq, i) && pq[i].item.1 !in visited
    ensures pq[i].item.1 in cost && pq[i].item.0 == cost[pq[i].item.1]
    ensures CS.Shortest(grid, rows, cols, start, pq[i].item.1, cost)
  {
    var c, x := pq[i].item.0, pq[i].item.1;
    assert pq[i] in pq;
    var k :| 0 <= k < |pq| && pq[k] == Push(informed, target, cost[x], x);
    PushOrder(informed, target, pq[i], pq[k]);
    forall p | Connects(grid, rows, cols, p, start, x)
      ensures cost[x] <= |p| - 1
    {
      var j := Frontier(grid, rows, cols, start, target, cost, visited, p);
      var w := p[j];
      var kw :| 0 <= kw < |pq| && pq[kw] == Push(informed, target, cost[w], w);
      PushOrder(informed, target, pq[i], pq[kw]);
      EstimateAlong(grid, rows, cols, informed, target, p, j);
    }
  }

  /**
   * While the target has not been popped, the least entry's cost plus
   * estimate is at most the length of any route to the target: the
   * route's first unpopped cell waits in the heap with no larger key.
   */
  lemma WithinReach(grid: seq<seq<int>>, rows: int, cols: int, start: Cell, target: Cell, informed: bool,
                    pq: seq<Entry<Item>>, i: int, visited: set<Cell>, parent: map<Cell, Cell>, cost: map<Cell, int>)
    requires CS.Round(grid, rows, cols, start, target, informed, pq, visited, parent, cost)
    requires IsLeast(pq, i) && pq[i].item.1 in cost && pq[i].item.0 == cost[pq[i].item.1]
    ensures forall p :: Connects(grid, rows, cols, p, start, target) ==>
              cost[pq[i].item.1] + Estimate(informed, pq[i].item.1, target) <= |p| - 1
  {
    var x := pq[i].item.1;
    assert pq[i] in pq;
    forall p | Connects(grid, rows, cols, p, start, target)
      ensures cost[x] + Estimate(informed, x, target) <= |p| - 1
    {
      var j := Frontier(grid, rows, cols, start, target, cost, visited, p);
      var w := p[j];
      var kw :| 0 <= kw < |pq| && pq[kw] == Push(informed, target, cost[w], w);
      PushOrder(informed, target, pq[i], pq[kw]);
      EstimateAlong(grid, rows, cols, informed, target, p, j);
    }
  }

  /** An entry for a cell popped before is dropped and nothing else changes. */
  lemma Stale(grid: seq<seq<int>>, rows: int, cols: int, start: Cell, target: Cell, informed: bool,
              pq: seq<Entry<Item>>, i: int, visited: set<Cell>, parent: map<Cell, Cell>, cost: map<Cell, int>)
    requires CS.Round(grid, rows, cols, start, target, informed, pq, visited, parent, cost)
    requires 0 <= i < |pq| && pq[i].item.1 in visited
    ensures CS.Round(grid, rows, cols, start, target, informed, RemoveAt(pq, i), visited, parent, cost)
  {
    Removed(pq, i);
  }

  /**
   * A cell popped for the first time joins `visited` with its shortest
   * cost settled; its own moves are still to be relaxed.
   */
  lemma Fresh(grid: seq<seq<int>>, rows: int, cols: int, start: Cell, target: Cell, informed: bool,
              pq: seq<Entry<Item>>, i: int, visited: set<Cell>, parent: map<Cell, Cell>, cost: map<Cell, int>)
    requires CS.Round(grid, rows, cols, start, target, informed, pq, visited, parent, cost)
    requires IsLeast(pq, i) && pq[i].item.1 !in visited
    ensures var x, r := pq[i].item.1, RemoveAt(pq, i);
            && x in cost && pq[i].item.0 == cost[x]
            && CS.Shortest(grid, rows, cols, start, x, cost)
            && CS.Queued(informed, target, r, cost)
            && CS.Pending(informed, target, r, cost, visited + {x})
            && CS.Costed(grid, rows, cols, start, parent, cost, visited + {x})
            && CS.Settled(grid, rows, cols, start, cost, visited + {x})
            && CS.Focused(grid, rows, cols, start, target, informed, cost, visited + {x})
            && CS.Relaxed(grid, rows, cols, target, cost, visited + {x}, {x})
            && |Board(rows, cols) + {start} - (visited + {x})| < |Board(rows, cols) + {start} - visited|
  {
    var x := pq[i].item.1;
    FirstPop(grid, rows, cols, start, target, informed, pq, i, visited, parent, cost);
    WithinReach(grid, rows, cols, start, target, informed, pq, i, visited, parent, cost);
    FreshHeap(informed, target, pq, i, cost, visited);
    FreshCosts(grid, rows, cols, start, target, informed, parent, cost, visited, x);
  }

  /** The popped entry leaves the heap; every other unpopped cell's entry stays. */
  lemma FreshHeap(informed: bool, target: Cell, pq: seq<Entry<Item>>, i: int, cost: map<Cell, int>, visited: set<Cell>)
    requires CS.Queued(informed, target, pq, cost) && CS.Pending(informed, target, pq, cost, visited)
    requires 0 <= i < |pq|
    ensures CS.Queued(informed, target, RemoveAt(pq, i), cost)
    ensures CS.Pending(informed, target, RemoveAt(pq, i), cost, visited + {pq[i].item.1})
  {
    Removed(pq, i);
  }

  /** Settling `x` keeps the forest and the costs of the other popped cells, and shrinks what is left to pop. */
  lemma FreshCosts(grid: seq<seq<int>>, rows: int, cols: int, start: Cell, target: Cell, informed: bool,
                   parent: map<Cell, Cell>, cost: map<Cell, int>, visited: set<Cell>, x: Cell)
    requires CS.Costed(grid, rows, cols, start, parent, cost, visited)
    requires CS.Settled(grid, rows, cols, start, cost, visited)
    requires CS.Focused(grid, rows, cols, start, target, informed, cost, visited)
    requires CS.Relaxed(grid, rows, cols, target, cost, visited, {})
    requires x !in visited && CS.Shortest(grid, rows, cols, start, x, cost)
    requires forall p :: Connects(grid, rows, cols, p, start, target) ==> cost[x] + Estimate(informed, x, target) <= |p| - 1
    ensures CS.Costed(grid, rows, cols, start, parent, cost, visited + {x})
    ensures CS.Settled(grid, rows, cols, start, cost, visited + {x})
    ensures CS.Focused(grid, rows, cols, start, target, informed, cost, visited + {x})
    ensures CS.Relaxed(grid, rows, cols, target, cost, visited + {x}, {x})
    ensures |Board(rows, cols) + {start} - (visited + {x})| < |Board(rows, cols) + {start} - visited|
  {
    var board := Board(rows, cols) + {start};
    assert x in board by {
      if x != start {
        assert InBounds(rows, cols, x);
      }
    }
    var a, b := board - (visited + {x}), board - visited;
    assert b == a + (b - a) && a * (b - a) == {};
    assert x in b - a;
  }

  /** A neighbour already as cheap as `c + 1` is left alone. */
  lemma Keep(grid: seq<seq<int>>, rows: int, cols: int, start: Cell, target: Cell, informed: bool,
             cur: Cell, c: int, ns: seq<Cell>, k: int,
             pq: seq<Entry<Item>>, visited: set<Cell>, parent: map<Cell, Cell>, cost: map<Cell, int>)
    requires CS.Relaxing(grid, rows, cols, start, target, informed, cur, c, ns, k, pq, visited, parent, cost)
    requires k < |ns| && ns[k] in cost && cost[ns[k]] <= c + 1
    ensures CS.Relaxing(grid, rows, cols, start, target, informed, cur, c, ns, k + 1, pq, visited, parent, cost)
  {
  }

  /**
   * A cell whose cost a popped cell's move would lower has not been
   * popped: the parent chain of the popped cell and that move would be a
   * route shorter than the popped cell's settled cost allows.
   */
  lemma Unpopped(grid: seq<seq<int>>, rows: int, cols: int, start: Cell,
                 parent: map<Cell, Cell>, cost: map<Cell, int>, visited: set<Cell>, cur: Cell, nb: Cell)
    requires CS.Costed(grid, rows, cols, start, parent, cost, visited) && CS.Settled(grid, rows, cols, start, cost, visited)
    requires cur in visited && Move(grid, rows, cols, cur, nb)
    requires nb !in cost || cost[cur] + 1 < cost[nb]
    ensures nb !in visited
  {
    var q := Lineage(grid, rows, cols, start, parent, cost.Keys, cost, cur);
    var r := q + [nb];
    assert forall i :: 0 <= i < |q| ==> r[i] == q[i];
    assert Connects(grid, rows, cols, r, start, nb);
  }

  /** Lowering an unpopped cell's cost and re-parenting it keeps the forest. */
  lemma LowerForest(grid: seq<seq<int>>, rows: int, cols: int, start: Cell,
                    parent: map<Cell, Cell>, cost: map<Cell, int>, visited: set<Cell>, cur: Cell, nb: Cell, c: int)
    requires CS.Costed(grid, rows, cols, start, parent, cost, visited)
    requires cur in visited && Move(grid, rows, cols, cur, nb) && nb !in visited
    requires cur in cost && cost[cur] == c && (nb !in cost || c + 1 < cost[nb])
    ensures CS.Costed(grid, rows, cols, start, parent[nb := cur], cost[nb := c + 1], visited)
  {
    LowerLinks(grid, rows, cols, start, parent, cost, visited, cur, nb, c);
    LowerLayers(start, parent, cost, visited, cur, nb, c);
  }

  /** The re-parented link is a move up one unit of cost; every other link is unchanged. */
  lemma LowerLinks(grid: seq<seq<int>>, rows: int, cols: int, start: Cell,
                   parent: map<Cell, Cell>, cost: map<Cell, int>, visited: set<Cell>, cur: Cell, nb: Cell, c: int)
    requires Forest(grid, rows, cols, start, parent, cost.Keys, cost) && Layers(start, parent, cost)
    requires forall t {:trigger parent[t]} :: t in parent ==> parent[t] in visited
    requires visited <= cost.Keys
    requires cur in visited && Move(grid, rows, cols, cur, nb) && nb !in visited
    requires cost[cur] == c && (nb !in cost || c + 1 < cost[nb])
    ensures Forest(grid, rows, cols, start, parent[nb := cur], cost[nb := c + 1].Keys, cost[nb := c + 1])
  {
    var parent', cost' := parent[nb := cur], cost[nb := c + 1];
    assert nb != start;
    assert forall t {:trigger parent'[t]} :: t in parent' && t != nb ==> parent'[t] == parent[t] && parent[t] != nb;
  }

  /** The re-parented cell sits one layer below its new parent; every other cell keeps its layer. */
  lemma LowerLayers(start: Cell, parent: map<Cell, Cell>, cost: map<Cell, int>, visited: set<Cell>, cur: Cell, nb: Cell, c: int)
    requires Layers(start, parent, cost)
    requires forall t {:trigger parent[t]} :: t in parent ==> parent[t] in visited
    requires cur in visited && cur in cost && nb !in visited
    requires cost[cur] == c && (nb !in cost || c + 1 < cost[nb])
    ensures Layers(start, parent[nb := cur], cost[nb := c + 1])
  {
    var parent', cost' := parent[nb := cur], cost[nb := c + 1];
    assert nb != start;
    assert forall t {:trigger parent'[t]} :: t in parent' && t != nb ==> parent'[t] == parent[t] && parent[t] != nb;
  }

  /** A neighbour `c + 1` would make cheaper gets that cost, `cur` as parent and a new heap entry. */
  lemma Lower(grid: seq<seq<int>>, rows: int, cols: int, start: Cell, target: Cell, informed: bool,
              cur: Cell, c: int, ns: seq<Cell>, k: int,
              pq: seq<Entry<Item>>, visited: set<Cell>, parent: map<Cell, Cell>, cost: map<Cell, int>)
    requires CS.Relaxing(grid, rows, cols, start, target, informed, cur, c, ns, k, pq, visited, parent, cost)
    requires k < |ns| && Move(grid, rows, cols, cur, ns[k])
    requires ns[k] !in cost || c + 1 < cost[ns[k]]
    ensures ns[k] !in visited
    ensures CS.Relaxing(grid, rows, cols, start, target, informed, cur, c, ns, k + 1,
                        pq + [Push(informed, target, c + 1, ns[k])], visited, parent[ns[k] := cur], cost[ns[k] := c + 1])
  {
    Unpopped(grid, rows, cols, start, parent, cost, visited, cur, ns[k]);
    Lowered(grid, rows, cols, start, target, informed, cur, ns[k], c, pq, visited, parent, cost);
    LowerCheap(ns, k, cost, c + 1);
  }

  /** `Lower` once the neighbour is known not to have been popped. */
  lemma Lowered(grid: seq<seq<int>>, rows: int, cols: int, start: Cell, target: Cell, informed: bool,
                cur: Cell, nb: Cell, c: int,
                pq: seq<Entry<Item>>, visited: set<Cell>, parent: map<Cell, Cell>, cost: map<Cell, int>)
    requires CS.Queued(informed, target, pq, cost)
    requires CS.Pending(informed, target, pq, cost, visited)
    requires CS.Costed(grid, rows, cols, start, parent, cost, visited)
    requires CS.Settled(grid, rows, cols, start, cost, visited)
    requires CS.Focused(grid, rows, cols, start, target, informed, cost, visited)
    requires CS.Relaxed(grid, rows, cols, target, cost, visited, {cur})
    requires cur in visited && cur in cost && cost[cur] == c
    requires Move(grid, rows, cols, cur, nb) && nb !in visited
    requires nb !in cost || c + 1 < cost[nb]
    ensures CS.Queued(informed, target, pq + [Push(informed, target, c + 1, nb)], cost[nb := c + 1])
    ensures CS.Pending(informed, target, pq + [Push(informed, target, c + 1, nb)], cost[nb := c + 1], visited)
    ensures CS.Costed(grid, rows, cols, start, parent[nb := cur], cost[nb := c + 1], visited)
    ensures CS.Settled(grid, rows, cols, start, cost[nb := c + 1], visited)
    ensures CS.Focused(grid, rows, cols, start, target, informed, cost[nb := c + 1], visited)
    ensures CS.Relaxed(grid, rows, cols, target, cost[nb := c + 1], visited, {cur})
  {
    LowerForest(grid, rows, cols, start, parent, cost, visited, cur, nb, c);
    LowerEntries(informed, target, pq, cost, visited, nb, c + 1);
    LowerCosts(grid, rows, cols, start, target, cost, visited, cur, nb, c + 1);
    LowerFocus(grid, rows, cols, start, target, informed, cost, visited, nb, c + 1);
  }

  /** Lowering the cost of the next neighbour to `c` extends the cheap prefix. */
  lemma LowerCheap(ns: seq<Cell>, k: int, cost: map<Cell, int>, c: int)
    requires CS.Cheap(ns, k, cost, c) && k < |ns|
    ensures CS.Cheap(ns, k + 1, cost[ns[k] := c], c)
  {
  }

  /** Lowering an unpopped cell's cost keeps the popped cells within the target's distance. */
  lemma LowerFocus(grid: seq<seq<int>>, rows: int, cols: int, start: Cell, target: Cell, informed: bool,
                   cost: map<Cell, int>, visited: set<Cell>, nb: Cell, c: int)
    requires CS.Focused(grid, rows, cols, start, target, informed, cost, visited) && nb !in visited
    ensures CS.Focused(grid, rows, cols, start, target, informed, cost[nb := c], visited)
  {
  }

  /** A lowered cost keeps every entry above its cell's cost, and the new entry is the one pending. */
  lemma LowerEntries(informed: bool, target: Cell, pq: seq<Entry<Item>>, cost: map<Cell, int>, visited: set<Cell>,
                     nb: Cell, c: int)
    requires CS.Queued(informed, target, pq, cost) && CS.Pending(informed, target, pq, cost, visited)
    requires nb !in visited && (nb !in cost || c < cost[nb])
    ensures CS.Queued(informed, target, pq + [Push(informed, target, c, nb)], cost[nb := c])
    ensures CS.Pending(informed, target, pq + [Push(informed, target, c, nb)], cost[nb := c], visited)
  {
    var pq' := pq + [Push(informed, target, c, nb)];
    assert forall e :: e in pq' <==> e in pq || e == Push(informed, target, c, nb);
  }

  /** Lowering an unpopped cell's cost keeps the popped cells settled and relaxed. */
  lemma LowerCosts(grid: seq<seq<int>>, rows: int, cols: int, start: Cell, target: Cell,
                   cost: map<Cell, int>, visited: set<Cell>, cur: Cell, nb: Cell, c: int)
    requires CS.Settled(grid, rows, cols, start, cost, visited) && CS.Relaxed(grid, rows, cols, target, cost, visited, {cur})
    requires nb !in visited && (nb !in cost || c < cost[nb])
    ensures CS.Settled(grid, rows, cols, start, cost[nb := c], visited)
    ensures CS.Relaxed(grid, rows, cols, target, cost[nb := c], visited, {cur})
  {
  }

  /** Once every neighbour is relaxed, the popped cell no longer waits. */
  lemma AllRelaxed(grid: seq<seq<int>>, rows: int, cols: int, start: Cell, target: Cell, informed: bool,
                cur: Cell, c: int, ns: seq<Cell>,
                pq: seq<Entry<Item>>, visited: set<Cell>, parent: map<Cell, Cell>, cost: map<Cell, int>)
    requires CS.Relaxing(grid, rows, cols, start, target, informed, cur, c, ns, |ns|, pq, visited, parent, cost)
    requires forall t :: t in ns <==> Move(grid, rows, cols, cur, t)
    ensures CS.Round(grid, rows, cols, start, target, informed, pq, visited, parent, cost)
  {
  }

  /** The state `ucs` and `a_star` start from: the start alone, at cost 0, in the heap. */
  lemma Begin(grid: seq<seq<int>>, rows: int, cols: int, start: Cell, target: Cell, informed: bool)
    ensures CS.Round(grid, rows, cols, start, target, informed, [Push(informed, target, 0, start)], {}, map[], map[start := 0])
  {
  }

  /** The state the neighbour loop starts from. */
  lemma Enter(grid: seq<seq<int>>, rows: int, cols: int, start: Cell, target: Cell, informed: bool,
              cur: Cell, c: int, ns: seq<Cell>,
              pq: seq<Entry<Item>>, visited: set<Cell>, parent: map<Cell, Cell>, cost: map<Cell, int>)
    requires cur in visited && cur in cost && cost[cur] == c && cur != target
    requires CS.Queued(informed, target, pq, cost)
    requires CS.Pending(informed, target, pq, cost, visited)
    requires CS.Costed(grid, rows, cols, start, parent, cost, visited)
    requires CS.Settled(grid, rows, cols, start, cost, visited)
    requires CS.Focused(grid, rows, cols, start, target, informed, cost, visited)
    requires CS.Relaxed(grid, rows, cols, target, cost, visited, {cur})
    ensures CS.Relaxing(grid, rows, cols, start, target, informed, cur, c, ns, 0, pq, visited, parent, cost)
  {
  }

  /**
   * The neighbour loop of one round: each neighbour that `cur` reaches
   * more cheaply than any cost recorded so far gets the new cost, `cur` as
   * its parent and a fresh heap entry. Afterwards every move out of `cur`
   * is relaxed.
   */
  method Relax(grid: seq<seq<int>>, rows: int, cols: int, start: Cell, target: Cell, informed: bool,
               cur: Cell, c: int, pq0: seq<Entry<Item>>, visited: set<Cell>,
               parent0: map<Cell, Cell>, cost0: map<Cell, int>)
    returns (pq: seq<Entry<Item>>, parent: map<Cell, Cell>, cost: map<Cell, int>)
    requires Shaped(grid, rows, cols)
    requires cur in visited && cur in cost0 && cost0[cur] == c && cur != target
    requires CS.Queued(informed, target, pq0, cost0)
    requires CS.Pending(informed, target, pq0, cost0, visited)
    requires CS.Costed(grid, rows, cols, start, parent0, cost0, visited)
    requires CS.Settled(grid, rows, cols, start, cost0, visited)
    requires CS.Focused(grid, rows, cols, start, target, informed, cost0, visited)
    requires CS.Relaxed(grid, rows, cols, target, cost0, visited, {cur})
    ensures CS.Round(grid, rows, cols, start, target, informed, pq, visited, parent, cost)
  {
    var ns := Neighbors(grid, rows, cols, cur);
    pq, parent, cost := pq0, parent0, cost0;
    Enter(grid, rows, cols, start, target, informed, cur, c, ns, pq, visited, parent, cost);
    for k := 0 to |ns|
      invariant CS.Relaxing(grid, rows, cols, start, target, informed, cur, c, ns, k, pq, visited, parent, cost)
    {
      var nb := ns[k];
      var newCost := c + 1;
      if nb !in cost || newCost < cost[nb] {
        assert nb in ns;
        Lower(grid, rows, cols, start, target, informed, cur, c, ns, k, pq, visited, parent, cost);
        cost := cost[nb := newCost];
        parent := parent[nb := cur];
        pq := pq + [Push(informed, target, newCost, nb)];
      } else {
        Keep(grid, rows, cols, start, target, informed, cur, c, ns, k, pq, visited, parent, cost);
      }
    }
    AllRelaxed(grid, rows, cols, start, target, informed, cur, c, ns, pq, visited, parent, cost);
  }

  /**
   * An empty heap ends the search unsuccessfully: every costed cell has
   * been popped, so the popped cells are closed under moves and do not
   * hold the target.
   */
  lemma Drained(grid: seq<seq<int>>, rows: int, cols: int, start: Cell, target: Cell, informed: bool,
                visited: set<Cell>, parent: map<Cell, Cell>, cost: map<Cell, int>)
    requires CS.Round(grid, rows, cols, start, target, informed, [], visited, parent, cost)
    ensures target !in cost && start in visited
    ensures !Reachable(grid, rows, cols, start, target)
  {
    assert cost.Keys <= visited;
    TrappedUnreachable(grid, rows, cols, visited, start, target);
  }

  /**
   * `ucs(grid, start, target)` when `informed` is false, `a_star(grid,
   * start, target)` when it is true: success exactly when a route over
   * open cells leads from the start to the target, and the path is then a
   * shortest such route; otherwise the path is `[]`.
   */
  method CostSearch(grid: seq<seq<int>>, rows: int, cols: int, start: Cell, target: Cell, informed: bool)
    returns (visited: set<Cell>, path: seq<Cell>, success: bool)
    requires Shaped(grid, rows, cols)
    ensures success <==> Reachable(grid, rows, cols, start, target)
    ensures success ==> Connects(grid, rows, cols, path, start, target)
    ensures success ==> forall p :: Connects(grid, rows, cols, p, start, target) ==> |path| <= |p|
    ensures !success ==> path == []
    ensures start in visited
    ensures forall u :: u in visited ==> Within(grid, rows, cols, start, target, informed, u)
  {
    var pq := [Push(informed, target, 0, start)];
    visited := {};
    var parent: map<Cell, Cell> := map[];
    var cost := map[start := 0];
    success := false;
    Begin(grid, rows, cols, start, target, informed);
    while |pq| > 0 && !success
      invariant !success ==> CS.Round(grid, rows, cols, start, target, informed, pq, visited, parent, cost)
      invariant success ==> CS.Costed(grid, rows, cols, start, parent, cost, visited) && target in visited
                            && CS.Shortest(grid, rows, cols, start, target, cost)
                            && CS.Focused(grid, rows, cols, start, target, informed, cost, visited)
      invariant start in visited || (visited == {} && pq == [Push(informed, target, 0, start)])
      decreases |Board(rows, cols) + {start} - visited|, |pq|
    {
      var i := PopIndex(pq);
      var c, cur := pq[i].item.0, pq[i].item.1;
      if cur in visited {
        Stale(grid, rows, cols, start, target, informed, pq, i, visited, parent, cost);
        pq := RemoveAt(pq, i);
      } else {
        Fresh(grid, rows, cols, start, target, informed, pq, i, visited, parent, cost);
        pq := RemoveAt(pq, i);
        visited := visited + {cur};
        if cur == target {
          success := true;
        } else {
          pq, parent, cost := Relax(grid, rows, cols, start, target, informed, cur, c, pq, visited, parent, cost);
        }
      }
    }
    if !success {
      Drained(grid, rows, cols, start, target, informed, visited, parent, cost);
    }
    path := ReadRoute(grid, rows, cols, start, target, cost.Keys, parent, cost);
    Explored(grid, rows, cols, start, target, informed, parent, cost, visited);
  }

  /**
   * `u` lies within the target's reach: some route leads to it that,
   * with the estimate from `u` added, is no longer than any route to the
   * target.
   */
  ghost predicate Within(grid: seq<seq<int>>, rows: int, cols: int, start: Cell, target: Cell, informed: bool, u: Cell)
  {
    exists q :: Connects(grid, rows, cols, q, start, u) &&
      forall p :: Connects(grid, rows, cols, p, start, target) ==> |q| + Estimate(informed, u, target) <= |p|
  }

  /** The parent chain of each popped cell witnesses that it lies within the target's reach. */
  lemma Explored(grid: seq<seq<int>>, rows: int, cols: int, start: Cell, target: Cell, informed: bool,
                 parent: map<Cell, Cell>, cost: map<Cell, int>, visited: set<Cell>)
    requires CS.Costed(grid, rows, cols, start, parent, cost, visited)
    requires CS.Focused(grid, rows, cols, start, target, informed, cost, visited)
    ensures forall u :: u in visited ==> Within(grid, rows, cols, start, target, informed, u)
  {
    forall u | u in visited
      ensures Within(grid, rows, cols, start, target, informed, u)
    {
      var q := Lineage(grid, rows, cols, start, parent, cost.Keys, cost, u);
      assert Connects(grid, rows, cols, q, start, u);
    }
  }

  /**
   * `ucs(grid, start, target)`: a shortest route when there is one, and
   * every popped cell is no farther from the start than the target.
   */
  method Ucs(grid: seq<seq<int>>, rows: int, cols: int, start: Cell, target: Cell)
    returns (visited: set<Cell>, path: seq<Cell>, success: bool)
    requires Shaped(grid, rows, cols)
    ensures success <==> Reachable(grid, rows, cols, start, target)
    ensures success ==> Connects(grid, rows, cols, path, start, target)
    ensures success ==> forall p :: Connects(grid, rows, cols, p, start, target) ==> |path| <= |p|
    ensures !success ==> path == []
    ensures start in visited
    ensures forall u :: u in visited ==>
              exists q :: Connects(grid, rows, cols, q, start, u) &&
                forall p :: Connects(grid, rows, cols, p, start, target) ==> |q| <= |p|
  {
    visited, path, success := CostSearch(grid, rows, cols, start, target, false);
  }

  /**
   * `a_star(grid, start, target)`: a shortest route when there is one,
   * and every popped cell's distance plus its Manhattan estimate is at
   * most the target's distance.
   */
  method AStar(grid: seq<seq<int>>, rows: int, cols: int, start: Cell, target: Cell)
    returns (visited: set<Cell>, path: seq<Cell>, success: bool)
    requires Shaped(grid, rows, cols)
    ensures success <==> Reachable(grid, rows, cols, start, target)
    ensures success ==> Connects(grid, rows, cols, path, start, target)
    ensures success ==> forall p :: Connects(grid, rows, cols, p, start, target) ==> |path| <= |p|
    ensures !success ==> path == []
    ensures start in visited
    ensures forall u :: u in visited ==>
              exists q :: Connects(grid, rows, cols, q, start, u) &&
                forall p :: Connects(grid, rows, cols, p, start, target) ==> |q| + Heuristic(u, target) <= |p|
  {
    visited, path, success := CostSearch(grid, rows, cols, start, target, true);
  }
}
