/**
 * The bookkeeping of `greedy` in `SnakeSearch.py` between steps: heap
 * entries keyed by the Manhattan estimate alone, parent links set (and
 * overwritten) for every unpopped neighbour, and the ranks that show those
 * links never form a cycle.
 */
module GreedyState {
  import opened Grid
  import opened SnakeGrid
  import opened PriorityQueue

  /** The tuple `greedy` pushes for a cell: `(heuristic(cell, target), cell)`. */
  function Push(target: Cell, n: Cell): Entry<Cell>
  {
    Entry([Heuristic(n, target) as real, n.0 as real, n.1 as real], n)
  }

  /** The cells the search has met: the start and every cell with a parent. */
  function Known(start: Cell, parent: map<Cell, Cell>): set<Cell>
  {
    parent.Keys + {start}
  }

  /** Every heap entry is one `greedy` pushed, for a cell it has met. */
  ghost predicate Queued(target: Cell, start: Cell, pq: seq<Entry<Cell>>, parent: map<Cell, Cell>)
  {
    forall e {:trigger e in pq} :: e in pq ==> e == Push(target, e.item) && e.item in Known(start, parent)
  }

  /** Every met cell not yet popped waits in the heap. */
  ghost predicate Pending(target: Cell, start: Cell, pq: seq<Entry<Cell>>, parent: map<Cell, Cell>, visited: set<Cell>)
  {
    forall v {:trigger v in Known(start, parent)} :: v in Known(start, parent) && v !in visited ==> Push(target, v) in pq
  }

  /**
   * The parent links form a forest over the met cells, ranked by the
   * order of popping: `clock` counts the pops so far, a popped cell's rank
   * is the count before its own pop, and an unpopped cell's rank is at
   * most `clock`. Links point to popped cells, and the start is popped first.
   */
  ghost predicate Linked(grid: seq<seq<int>>, rows: int, cols: int, start: Cell,
                         parent: map<Cell, Cell>, visited: set<Cell>, rank: map<Cell, int>, clock: int)
  {
    && Forest(grid, rows, cols, start, parent, Known(start, parent), rank)
    && (forall t {:trigger parent[t]} :: t in parent ==> parent[t] in visited)
    && visited <= Known(start, parent)
    && (forall t {:trigger t in Known(start, parent)} :: t in Known(start, parent) ==> t == start || InBounds(rows, cols, t))
    && (forall u {:trigger u in visited} :: u in visited ==> u in rank && rank[u] < clock)
    && (forall t {:trigger rank[t]} :: t in rank ==> rank[t] <= clock)
    && (visited == {} ==> parent == map[])
    && (visited != {} ==> start in visited)
  }

  /** The target has not been popped, and each popped cell not `pending` has met all its moves. */
  ghost predicate Explored(grid: seq<seq<int>>, rows: int, cols: int, start: Cell, target: Cell,
                           parent: map<Cell, Cell>, visited: set<Cell>, pending: set<Cell>)
  {
    forall u {:trigger u in visited} :: u in visited && u !in pending ==>
      u != target && forall v {:trigger Move(grid, rows, cols, u, v)} :: Move(grid, rows, cols, u, v) ==> v in Known(start, parent)
  }

  /** What holds between two rounds of the loop. */
  ghost predicate Round(grid: seq<seq<int>>, rows: int, cols: int, start: Cell, target: Cell,
                        pq: seq<Entry<Cell>>, visited: set<Cell>, parent: map<Cell, Cell>, rank: map<Cell, int>, clock: int)
  {
    && Queued(target, start, pq, parent)
    && Pending(target, start, pq, parent, visited)
    && Linked(grid, rows, cols, start, parent, visited, rank, clock)
    && Explored(grid, rows, cols, start, target, parent, visited, {})
  }

  /** The first `k` cells of `ns` have been met. */
  ghost predicate Met(ns: seq<Cell>, k: int, start: Cell, parent: map<Cell, Cell>)
  {
    0 <= k <= |ns| && forall j :: 0 <= j < k ==> ns[j] in Known(start, parent)
  }

  /** The inner loop of a round after `k` of the popped cell's neighbours. */
  ghost predicate Linking(grid: seq<seq<int>>, rows: int, cols: int, start: Cell, target: Cell,
                          cur: Cell, ns: seq<Cell>, k: int,
                          pq: seq<Entry<Cell>>, visited: set<Cell>, parent: map<Cell, Cell>, rank: map<Cell, int>, clock: int)
  {
    && cur in visited && cur != target
    && Queued(target, start, pq, parent)
    && Pending(target, start, pq, parent, visited)
    && Linked(grid, rows, cols, start, parent, visited, rank, clock)
    && Explored(grid, rows, cols, start, target, parent, visited, {cur})
    && Met(ns, k, start, parent)
  }

  /** Raising the rank of a cell that no link points at keeps the forest. */
  lemma Reranked(grid: seq<seq<int>>, rows: int, cols: int, start: Cell,
                 parent: map<Cell, Cell>, known: set<Cell>, rank: map<Cell, int>, x: Cell, v: int)
    requires Forest(grid, rows, cols, start, parent, known, rank)
    requires forall t {:trigger parent[t]} :: t in parent ==> parent[t] != x
    requires x in parent ==> rank[parent[x]] < v
    ensures Forest(grid, rows, cols, start, parent, known, rank[x := v])
  {
  }

  /** Pointing a cell that no link points at to a lower-ranked known cell keeps the forest. */
  lemma Relinked(grid: seq<seq<int>>, rows: int, cols: int, start: Cell,
                 parent: map<Cell, Cell>, known: set<Cell>, rank: map<Cell, int>, x: Cell, px: Cell, v: int)
    requires Forest(grid, rows, cols, start, parent, known, rank)
    requires forall t {:trigger parent[t]} :: t in parent ==> parent[t] != x
    requires x != start && px != x && px in known && Move(grid, rows, cols, px, x)
    requires px in rank && rank[px] < v
    ensures Forest(grid, rows, cols, start, parent[x := px], known + {x}, rank[x := v])
  {
  }

  /** The cell popped next is ranked by the count of pops before it. */
  lemma Visit(visited: set<Cell>, rank: map<Cell, int>, clock: int, x: Cell)
    requires forall u {:trigger u in visited} :: u in visited ==> u in rank && rank[u] < clock
    requires forall t {:trigger rank[t]} :: t in rank ==> rank[t] <= clock
    requires x !in visited
    ensures var visited', rank' := visited + {x}, rank[x := clock];
            && (forall u {:trigger u in visited'} :: u in visited' ==> u in rank' && rank'[u] < clock + 1)
            && (forall t {:trigger rank'[t]} :: t in rank' ==> rank'[t] <= clock + 1)
  {
  }

  /** Popping `x` ranks it after every cell popped before; no link points at it yet. */
  lemma FreshLinks(grid: seq<seq<int>>, rows: int, cols: int, start: Cell,
                   parent: map<Cell, Cell>, visited: set<Cell>, rank: map<Cell, int>, clock: int, x: Cell)
    requires Linked(grid, rows, cols, start, parent, visited, rank, clock)
    requires x in Known(start, parent) && x !in visited
    ensures Linked(grid, rows, cols, start, parent, visited + {x}, rank[x := clock], clock + 1)
    ensures x == start || InBounds(rows, cols, x)
  {
    var known := Known(start, parent);
    assert forall t {:trigger parent[t]} :: t in parent ==> parent[t] != x;
    Reranked(grid, rows, cols, start, parent, known, rank, x, clock);
    Visit(visited, rank, clock, x);
    assert visited == {} ==> x == start;
  }
}

/**
 * `greedy(grid, start, target)` of `SnakeSearch.py`: best-first search on
 * the Manhattan estimate alone. It finds a route exactly when one exists,
 * but not necessarily a shortest one.
 */
module SnakeGreedy {
  import opened Grid
  import opened SnakeGrid
  import opened PriorityQueue
  import GS = GreedyState

  /** The state `greedy` starts from: the start alone in the heap. */
  lemma Begin(grid: seq<seq<int>>, rows: int, cols: int, start: Cell, target: Cell)
    ensures GS.Round(grid, rows, cols, start, target, [GS.Push(target, start)], {}, map[], map[start := 0], 0)
  {
    assert GS.Known(start, map[]) == {start};
  }

  /** An entry for a cell popped before is dropped and nothing else changes. */
  lemma Stale(grid: seq<seq<int>>, rows: int, cols: int, start: Cell, target: Cell,
              pq: seq<Entry<Cell>>, i: int, visited: set<Cell>, parent: map<Cell, Cell>, rank: map<Cell, int>, clock: int)
    requires GS.Round(grid, rows, cols, start, target, pq, visited, parent, rank, clock)
    requires 0 <= i < |pq| && pq[i].item in visited
    ensures GS.Round(grid, rows, cols, start, target, RemoveAt(pq, i), visited, parent, rank, clock)
  {
    Removed(pq, i);
  }

  /** The popped entry leaves the heap; every other unpopped cell's entry stays. */
  lemma FreshHeap(target: Cell, start: Cell, pq: seq<Entry<Cell>>, i: int, parent: map<Cell, Cell>, visited: set<Cell>)
    requires GS.Queued(target, start, pq, parent) && GS.Pending(target, start, pq, parent, visited)
    requires 0 <= i < |pq|
    ensures pq[i].item in GS.Known(start, parent)
    ensures GS.Queued(target, start, RemoveAt(pq, i), parent)
    ensures GS.Pending(target, start, RemoveAt(pq, i), parent, visited + {pq[i].item})
  {
    assert pq[i] in pq;
    Removed(pq, i);
  }

  /** A cell popped for the first time joins `visited`; its own moves are still to be met. */
  lemma Fresh(grid: seq<seq<int>>, rows: int, cols: int, start: Cell, target: Cell,
              pq: seq<Entry<Cell>>, i: int, visited: set<Cell>, parent: map<Cell, Cell>, rank: map<Cell, int>, clock: int)
    requires GS.Round(grid, rows, cols, start, target, pq, visited, parent, rank, clock)
    requires 0 <= i < |pq| && pq[i].item !in visited
    ensures var x, r := pq[i].item, RemoveAt(pq, i);
            && GS.Queued(target, start, r, parent)
            && GS.Pending(target, start, r, parent, visited + {x})
            && GS.Linked(grid, rows, cols, start, parent, visited + {x}, rank[x := clock], clock + 1)
            && GS.Explored(grid, rows, cols, start, target, parent, visited + {x}, {x})
            && |Board(rows, cols) + {start} - (visited + {x})| < |Board(rows, cols) + {start} - visited|
  {
    FreshHeap(target, start, pq, i, parent, visited);
    GS.FreshLinks(grid, rows, cols, start, parent, visited, rank, clock, pq[i].item);
    Shrinks(rows, cols, start, visited, pq[i].item);
  }

  /** A neighbour popped before is skipped. */
  lemma Skip(grid: seq<seq<int>>, rows: int, cols: int, start: Cell, target: Cell, cur: Cell, ns: seq<Cell>, k: int,
             pq: seq<Entry<Cell>>, visited: set<Cell>, parent: map<Cell, Cell>, rank: map<Cell, int>, clock: int)
    requires GS.Linking(grid, rows, cols, start, target, cur, ns, k, pq, visited, parent, rank, clock)
    requires k < |ns| && ns[k] in visited
    ensures GS.Linking(grid, rows, cols, start, target, cur, ns, k + 1, pq, visited, parent, rank, clock)
  {
  }

  /** Linking an unpopped neighbour to the popped cell keeps the ranked forest. */
  lemma LinkForest(grid: seq<seq<int>>, rows: int, cols: int, start: Cell,
                   parent: map<Cell, Cell>, visited: set<Cell>, rank: map<Cell, int>, clock: int, cur: Cell, nb: Cell)
    requires GS.Linked(grid, rows, cols, start, parent, visited, rank, clock)
    requires cur in visited && Move(grid, rows, cols, cur, nb) && nb !in visited
    ensures GS.Linked(grid, rows, cols, start, parent[nb := cur], visited, rank[nb := clock], clock)
  {
    var known := GS.Known(start, parent);
    assert forall t {:trigger parent[t]} :: t in parent ==> parent[t] != nb;
    GS.Relinked(grid, rows, cols, start, parent, known, rank, nb, cur, clock);
    assert GS.Known(start, parent[nb := cur]) == known + {nb};
  }

  /** Linking an unpopped neighbour pushes its entry, and the popped cells stay explored. */
  lemma LinkHeap(grid: seq<seq<int>>, rows: int, cols: int, start: Cell, target: Cell, cur: Cell,
                 pq: seq<Entry<Cell>>, visited: set<Cell>, parent: map<Cell, Cell>, nb: Cell)
    requires GS.Queued(target, start, pq, parent) && GS.Pending(target, start, pq, parent, visited)
    requires GS.Explored(grid, rows, cols, start, target, parent, visited, {cur})
    ensures GS.Queued(target, start, pq + [GS.Push(target, nb)], parent[nb := cur])
    ensures GS.Pending(target, start, pq + [GS.Push(target, nb)], parent[nb := cur], visited)
    ensures GS.Explored(grid, rows, cols, start, target, parent[nb := cur], visited, {cur})
  {
    var pq' := pq + [GS.Push(target, nb)];
    assert GS.Known(start, parent[nb := cur]) == GS.Known(start, parent) + {nb};
    assert forall e :: e in pq' <==> e in pq || e == GS.Push(target, nb);
  }

  /** A neighbour not popped yet gets the popped cell as parent and a heap entry. */
  lemma Adopt(grid: seq<seq<int>>, rows: int, cols: int, start: Cell, target: Cell, cur: Cell, ns: seq<Cell>, k: int,
             pq: seq<Entry<Cell>>, visited: set<Cell>, parent: map<Cell, Cell>, rank: map<Cell, int>, clock: int)
    requires GS.Linking(grid, rows, cols, start, target, cur, ns, k, pq, visited, parent, rank, clock)
    requires k < |ns| && Move(grid, rows, cols, cur, ns[k]) && ns[k] !in visited
    ensures GS.Linking(grid, rows, cols, start, target, cur, ns, k + 1, pq + [GS.Push(target, ns[k])], visited,
                       parent[ns[k] := cur], rank[ns[k] := clock], clock)
  {
    LinkForest(grid, rows, cols, start, parent, visited, rank, clock, cur, ns[k]);
    LinkHeap(grid, rows, cols, start, target, cur, pq, visited, parent, ns[k]);
    LinkMet(ns, k, start, parent, cur);
  }

  /** Linking the next neighbour extends the met prefix. */
  lemma LinkMet(ns: seq<Cell>, k: int, start: Cell, parent: map<Cell, Cell>, cur: Cell)
    requires GS.Met(ns, k, start, parent) && k < |ns|
    ensures GS.Met(ns, k + 1, start, parent[ns[k] := cur])
  {
    assert GS.Known(start, parent[ns[k] := cur]) == GS.Known(start, parent) + {ns[k]};
  }

  /** The state the neighbour loop starts from. */
  lemma Enter(grid: seq<seq<int>>, rows: int, cols: int, start: Cell, target: Cell, cur: Cell, ns: seq<Cell>,
              pq: seq<Entry<Cell>>, visited: set<Cell>, parent: map<Cell, Cell>, rank: map<Cell, int>, clock: int)
    requires cur in visited && cur != target
    requires GS.Queued(target, start, pq, parent)
    requires GS.Pending(target, start, pq, parent, visited)
    requires GS.Linked(grid, rows, cols, start, parent, visited, rank, clock)
    requires GS.Explored(grid, rows, cols, start, target, parent, visited, {cur})
    ensures GS.Linking(grid, rows, cols, start, target, cur, ns, 0, pq, visited, parent, rank, clock)
  {
  }

  /** Once every neighbour is met, the popped cell no longer waits. */
  lemma AllMet(grid: seq<seq<int>>, rows: int, cols: int, start: Cell, target: Cell, cur: Cell, ns: seq<Cell>,
               pq: seq<Entry<Cell>>, visited: set<Cell>, parent: map<Cell, Cell>, rank: map<Cell, int>, clock: int)
    requires GS.Linking(grid, rows, cols, start, target, cur, ns, |ns|, pq, visited, parent, rank, clock)
    requires forall t :: t in ns <==> Move(grid, rows, cols, cur, t)
    ensures GS.Round(grid, rows, cols, start, target, pq, visited, parent, rank, clock)
  {
  }

  /**
   * The neighbour loop of one round: every neighbour not popped yet gets
   * `cur` as its parent, overwriting an earlier one, and a heap entry.
   */
  method Link(grid: seq<seq<int>>, rows: int, cols: int, start: Cell, target: Cell, cur: Cell,
              pq0: seq<Entry<Cell>>, visited: set<Cell>, parent0: map<Cell, Cell>, ghost rank0: map<Cell, int>, ghost clock: int)
    returns (pq: seq<Entry<Cell>>, parent: map<Cell, Cell>, ghost rank: map<Cell, int>)
    requires Shaped(grid, rows, cols)
    requires cur in visited && cur != target
    requires GS.Queued(target, start, pq0, parent0)
    requires GS.Pending(target, start, pq0, parent0, visited)
    requires GS.Linked(grid, rows, cols, start, parent0, visited, rank0, clock)
    requires GS.Explored(grid, rows, cols, start, target, parent0, visited, {cur})
    ensures GS.Round(grid, rows, cols, start, target, pq, visited, parent, rank, clock)
  {
    var ns := Neighbors(grid, rows, cols, cur);
    pq, parent, rank := pq0, parent0, rank0;
    Enter(grid, rows, cols, start, target, cur, ns, pq, visited, parent, rank, clock);
    for k := 0 to |ns|
      invariant GS.Linking(grid, rows, cols, start, target, cur, ns, k, pq, visited, parent, rank, clock)
    {
      var nb := ns[k];
      if nb !in visited {
        assert nb in ns;
        Adopt(grid, rows, cols, start, target, cur, ns, k, pq, visited, parent, rank, clock);
        parent := parent[nb := cur];
        rank := rank[nb := clock];
        pq := pq + [GS.Push(target, nb)];
      } else {
        Skip(grid, rows, cols, start, target, cur, ns, k, pq, visited, parent, rank, clock);
      }
    }
    AllMet(grid, rows, cols, start, target, cur, ns, pq, visited, parent, rank, clock);
  }

  /**
   * An empty heap ends the search unsuccessfully: every met cell has been
   * popped, so the popped cells are closed under moves and do not hold
   * the target.
   */
  lemma Drained(grid: seq<seq<int>>, rows: int, cols: int, start: Cell, target: Cell,
                visited: set<Cell>, parent: map<Cell, Cell>, rank: map<Cell, int>, clock: int)
    requires GS.Round(grid, rows, cols, start, target, [], visited, parent, rank, clock)
    ensures target !in GS.Known(start, parent) && start in visited
    ensures !Reachable(grid, rows, cols, start, target)
  {
    assert GS.Known(start, parent) <= visited;
    TrappedUnreachable(grid, rows, cols, visited, start, target);
  }

  /**
   * `greedy(grid, start, target)`: success exactly when a route over open
   * cells leads from the start to the target, and the path is then such
   * a route; otherwise the path is `[]`.
   */
  method Greedy(grid: seq<seq<int>>, rows: int, cols: int, start: Cell, target: Cell)
    returns (visited: set<Cell>, path: seq<Cell>, success: bool)
    requires Shaped(grid, rows, cols)
    ensures success <==> Reachable(grid, rows, cols, start, target)
    ensures success ==> Connects(grid, rows, cols, path, start, target)
    ensures !success ==> path == []
    ensures start in visited
  {
    var pq := [GS.Push(target, start)];
    visited := {};
    var parent: map<Cell, Cell> := map[];
    ghost var rank := map[start := 0];
    ghost var clock := 0;
    success := false;
    Begin(grid, rows, cols, start, target);
    while |pq| > 0 && !success
      invariant !success ==> GS.Round(grid, rows, cols, start, target, pq, visited, parent, rank, clock)
      invariant success ==> GS.Linked(grid, rows, cols, start, parent, visited, rank, clock) && target in visited
      invariant visited != {} || pq == [GS.Push(target, start)]
      decreases |Board(rows, cols) + {start} - visited|, |pq|
    {
      var i := PopIndex(pq);
      var cur := pq[i].item;
      if cur in visited {
        Stale(grid, rows, cols, start, target, pq, i, visited, parent, rank, clock);
        pq := RemoveAt(pq, i);
      } else {
        Fresh(grid, rows, cols, start, target, pq, i, visited, parent, rank, clock);
        rank := rank[cur := clock];
        clock := clock + 1;
        pq := RemoveAt(pq, i);
        visited := visited + {cur};
        if cur == target {
          success := true;
        } else {
          pq, parent, rank := Link(grid, rows, cols, start, target, cur, pq, visited, parent, rank, clock);
        }
      }
    }
    if !success {
      Drained(grid, rows, cols, start, target, visited, parent, rank, clock);
    }
    path := FollowParents(grid, rows, cols, start, target, GS.Known(start, parent), parent, rank);
  }
}
