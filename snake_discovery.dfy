/**
 * `bfs` and `dfs` of `SnakeSearch.py`: both mark a cell visited and record
 * its parent the first time it is discovered, and append it to their
 * container; `bfs` takes cells from the front of a deque, `dfs` from the
 * back of a list. The loop stops when the target is taken out, and the
 * path is then read back with `reconstruct_path`.
 */
module SnakeDiscovery {
  import opened Common
  import opened Grid
  import opened SnakeGrid
  import Chain

  /**
   * The bookkeeping both loops keep: queued cells are visited, the parent
   * map is a forest over the visited cells rooted at the start, and every
   * discovered cell is one layer deeper than the cell it was found from.
   */
  ghost predicate Discovered(grid: seq<seq<int>>, rows: int, cols: int, start: Cell, queue: seq<Cell>,
                             visited: set<Cell>, parent: map<Cell, Cell>, depth: map<Cell, int>)
  {
    && visited == depth.Keys
    && (forall i :: 0 <= i < |queue| ==> queue[i] in visited)
    && Forest(grid, rows, cols, start, parent, visited, depth)
    && Layers(start, parent, depth)
    && (forall t :: t in visited ==> t == start || InBounds(rows, cols, t))
  }

  /**
   * A visited cell that is neither queued nor `pending` has been expanded:
   * it is not the target and every move out of it leads to a visited cell.
   */
  ghost predicate Explored(grid: seq<seq<int>>, rows: int, cols: int, target: Cell, queue: seq<Cell>,
                           visited: set<Cell>, pending: set<Cell>)
  {
    forall u :: u in visited && u !in queue && u !in pending ==>
      u != target && forall v :: Move(grid, rows, cols, u, v) ==> v in visited
  }

  /** What holds between two rounds of either loop. */
  ghost predicate Searching(grid: seq<seq<int>>, rows: int, cols: int, start: Cell, target: Cell, queue: seq<Cell>,
                            visited: set<Cell>, parent: map<Cell, Cell>, depth: map<Cell, int>)
  {
    && Discovered(grid, rows, cols, start, queue, visited, parent, depth)
    && Explored(grid, rows, cols, target, queue, visited, {})
    && visited <= Board(rows, cols) + {start}
  }

  /**
   * Breadth-first layering: the first `ahead` queued cells are `level`
   * deep and the others one deeper, cells no longer queued are at most
   * `level` deep, and the moves out of an expanded cell go at most one
   * layer deeper.
   */
  ghost predicate Layered(grid: seq<seq<int>>, rows: int, cols: int, queue: seq<Cell>, pending: set<Cell>,
                          depth: map<Cell, int>, level: int, ahead: int)
  {
    && 0 <= ahead <= |queue|
    && (forall i :: 0 <= i < |queue| ==>
          queue[i] in depth && depth[queue[i]] == (if i < ahead then level else level + 1))
    && (forall u :: u in depth && u !in queue ==> depth[u] <= level)
    && (forall u, v :: u in depth && u !in queue && u !in pending && Move(grid, rows, cols, u, v) ==>
          v in depth && depth[v] <= depth[u] + 1)
  }

  /**
   * How one expansion of `cur` grows the search state: old entries are
   * kept, and each cell seen for the first time is appended to the
   * container, is a move from `cur`, has `cur` as its parent and lies one
   * layer below it.
   */
  ghost predicate Grown(grid: seq<seq<int>>, rows: int, cols: int, cur: Cell,
                        queue0: seq<Cell>, visited0: set<Cell>, parent0: map<Cell, Cell>, depth0: map<Cell, int>,
                        queue: seq<Cell>, visited: set<Cell>, parent: map<Cell, Cell>, depth: map<Cell, int>)
  {
    && cur in depth0 && visited0 == depth0.Keys && parent0.Keys <= visited0
    && visited0 <= visited && (visited == visited0 ==> queue == queue0)
    && |queue| >= |queue0| && queue[..|queue0|] == queue0
    && (forall i :: |queue0| <= i < |queue| ==>
          queue[i] in depth && queue[i] !in depth0 && Move(grid, rows, cols, cur, queue[i])
          && depth[queue[i]] == depth0[cur] + 1)
    && (forall t :: t in parent0 ==> t in parent && parent[t] == parent0[t])
    && (forall t :: t in parent && t !in parent0 ==> parent[t] == cur)
    && (forall t :: t in depth0 ==> t in depth && depth[t] == depth0[t])
    && (forall t :: t in depth && t !in depth0 ==> t in queue[|queue0|..])
  }

  /** The state part way through expanding `cur`. */
  ghost predicate Expanding(grid: seq<seq<int>>, rows: int, cols: int, start: Cell, target: Cell, cur: Cell,
                            queue0: seq<Cell>, visited0: set<Cell>, parent0: map<Cell, Cell>, depth0: map<Cell, int>,
                            queue: seq<Cell>, visited: set<Cell>, parent: map<Cell, Cell>, depth: map<Cell, int>)
  {
    && Discovered(grid, rows, cols, start, queue, visited, parent, depth)
    && Explored(grid, rows, cols, target, queue, visited, {cur})
    && Grown(grid, rows, cols, cur, queue0, visited0, parent0, depth0, queue, visited, parent, depth)
  }

  /** Part way through the neighbours `ns` of `cur`: the first `k` of them are visited. */
  ghost predicate Partway(grid: seq<seq<int>>, rows: int, cols: int, start: Cell, target: Cell, cur: Cell,
                          ns: seq<Cell>, k: int,
                          queue0: seq<Cell>, visited0: set<Cell>, parent0: map<Cell, Cell>, depth0: map<Cell, int>,
                          queue: seq<Cell>, visited: set<Cell>, parent: map<Cell, Cell>, depth: map<Cell, int>)
  {
    && 0 <= k <= |ns|
    && Expanding(grid, rows, cols, start, target, cur, queue0, visited0, parent0, depth0, queue, visited, parent, depth)
    && (forall i :: 0 <= i < k ==> ns[i] in visited)
  }

  /** A neighbour seen before is passed over. */
  lemma Pass(grid: seq<seq<int>>, rows: int, cols: int, start: Cell, target: Cell, cur: Cell,
             ns: seq<Cell>, k: int,
             queue0: seq<Cell>, visited0: set<Cell>, parent0: map<Cell, Cell>, depth0: map<Cell, int>,
             queue: seq<Cell>, visited: set<Cell>, parent: map<Cell, Cell>, depth: map<Cell, int>)
    requires Partway(grid, rows, cols, start, target, cur, ns, k, queue0, visited0, parent0, depth0,
                     queue, visited, parent, depth)
    requires k < |ns| && ns[k] in visited
    ensures Partway(grid, rows, cols, start, target, cur, ns, k + 1, queue0, visited0, parent0, depth0,
                    queue, visited, parent, depth)
  {
  }

  /** A neighbour seen for the first time is discovered. */
  lemma Take(grid: seq<seq<int>>, rows: int, cols: int, start: Cell, target: Cell, cur: Cell,
             ns: seq<Cell>, k: int,
             queue0: seq<Cell>, visited0: set<Cell>, parent0: map<Cell, Cell>, depth0: map<Cell, int>,
             queue: seq<Cell>, visited: set<Cell>, parent: map<Cell, Cell>, depth: map<Cell, int>)
    requires Partway(grid, rows, cols, start, target, cur, ns, k, queue0, visited0, parent0, depth0,
                     queue, visited, parent, depth)
    requires k < |ns| && ns[k] !in visited && Move(grid, rows, cols, cur, ns[k])
    ensures cur in depth
    ensures Partway(grid, rows, cols, start, target, cur, ns, k + 1, queue0, visited0, parent0, depth0,
                    queue + [ns[k]], visited + {ns[k]}, parent[ns[k] := cur], depth[ns[k] := depth[cur] + 1])
  {
    Discover(grid, rows, cols, start, target, cur, ns[k], queue0, visited0, parent0, depth0,
             queue, visited, parent, depth);
  }

  /** Discovering `nb` from `cur` keeps the bookkeeping and is growth. */
  lemma Discover(grid: seq<seq<int>>, rows: int, cols: int, start: Cell, target: Cell, cur: Cell, nb: Cell,
                 queue0: seq<Cell>, visited0: set<Cell>, parent0: map<Cell, Cell>, depth0: map<Cell, int>,
                 queue: seq<Cell>, visited: set<Cell>, parent: map<Cell, Cell>, depth: map<Cell, int>)
    requires Expanding(grid, rows, cols, start, target, cur, queue0, visited0, parent0, depth0,
                       queue, visited, parent, depth)
    requires Move(grid, rows, cols, cur, nb) && nb !in visited
    ensures cur in depth
    ensures Expanding(grid, rows, cols, start, target, cur, queue0, visited0, parent0, depth0,
                      queue + [nb], visited + {nb}, parent[nb := cur], depth[nb := depth[cur] + 1])
  {
    KeepsBookkeeping(grid, rows, cols, start, target, cur, nb, queue, visited, parent, depth);
    Grow(grid, rows, cols, cur, nb, queue0, visited0, parent0, depth0, queue, visited, parent, depth);
  }

  /** Discovering `nb` from `cur` keeps the bookkeeping. */
  lemma KeepsBookkeeping(grid: seq<seq<int>>, rows: int, cols: int, start: Cell, target: Cell, cur: Cell, nb: Cell,
                         queue: seq<Cell>, visited: set<Cell>, parent: map<Cell, Cell>, depth: map<Cell, int>)
    requires Discovered(grid, rows, cols, start, queue, visited, parent, depth)
    requires Explored(grid, rows, cols, target, queue, visited, {cur})
    requires cur in visited && Move(grid, rows, cols, cur, nb) && nb !in visited
    ensures Discovered(grid, rows, cols, start, queue + [nb], visited + {nb}, parent[nb := cur], depth[nb := depth[cur] + 1])
    ensures Explored(grid, rows, cols, target, queue + [nb], visited + {nb}, {cur})
  {
    var q := queue + [nb];
    assert forall i :: 0 <= i < |queue| ==> q[i] == queue[i];
    assert q[|queue|] == nb;
    KeepsForest(grid, rows, cols, start, cur, nb, visited, parent, depth);
  }

  /** Hanging `nb` below `cur` keeps the forest and its layers. */
  lemma KeepsForest(grid: seq<seq<int>>, rows: int, cols: int, start: Cell, cur: Cell, nb: Cell,
                    visited: set<Cell>, parent: map<Cell, Cell>, depth: map<Cell, int>)
    requires Forest(grid, rows, cols, start, parent, visited, depth) && visited == depth.Keys
    requires Layers(start, parent, depth)
    requires cur in visited && Move(grid, rows, cols, cur, nb) && nb !in visited
    ensures Forest(grid, rows, cols, start, parent[nb := cur], visited + {nb}, depth[nb := depth[cur] + 1])
    ensures Layers(start, parent[nb := cur], depth[nb := depth[cur] + 1])
  {
  }

  /** Discovering `nb` from `cur` is growth. */
  lemma Grow(grid: seq<seq<int>>, rows: int, cols: int, cur: Cell, nb: Cell,
             queue0: seq<Cell>, visited0: set<Cell>, parent0: map<Cell, Cell>, depth0: map<Cell, int>,
             queue: seq<Cell>, visited: set<Cell>, parent: map<Cell, Cell>, depth: map<Cell, int>)
    requires Grown(grid, rows, cols, cur, queue0, visited0, parent0, depth0, queue, visited, parent, depth)
    requires visited == depth.Keys
    requires Move(grid, rows, cols, cur, nb) && nb !in visited
    ensures Grown(grid, rows, cols, cur, queue0, visited0, parent0, depth0,
                  queue + [nb], visited + {nb}, parent[nb := cur], depth[nb := depth[cur] + 1])
  {
    var q := queue + [nb];
    assert q[..|queue0|] == queue[..|queue0|];
    assert q[|queue0|..] == queue[|queue0|..] + [nb];
    assert forall i :: |queue0| <= i < |queue| ==> q[i] == queue[i];
  }

  /**
   * The inner `for neighbor in neighbors(current)` loop: each neighbour
   * not yet visited is marked visited, gets `current` as its parent and is
   * appended to the container. Cells seen before keep their parent, and
   * afterwards every move out of `current` leads to a visited cell.
   */
  method Expand(grid: seq<seq<int>>, rows: int, cols: int, start: Cell, target: Cell, cur: Cell,
                queue0: seq<Cell>, visited0: set<Cell>, parent0: map<Cell, Cell>, ghost depth0: map<Cell, int>)
    returns (queue: seq<Cell>, visited: set<Cell>, parent: map<Cell, Cell>, ghost depth: map<Cell, int>)
    requires Shaped(grid, rows, cols)
    requires cur in visited0 && cur != target
    requires Discovered(grid, rows, cols, start, queue0, visited0, parent0, depth0)
    requires Explored(grid, rows, cols, target, queue0, visited0, {cur})
    ensures Discovered(grid, rows, cols, start, queue, visited, parent, depth)
    ensures Explored(grid, rows, cols, target, queue, visited, {})
    ensures Grown(grid, rows, cols, cur, queue0, visited0, parent0, depth0, queue, visited, parent, depth)
    ensures forall t :: Move(grid, rows, cols, cur, t) ==> t in depth
  {
    var ns := Neighbors(grid, rows, cols, cur);
    queue, visited, parent, depth := Visit(grid, rows, cols, start, target, cur, ns, queue0, visited0, parent0, depth0);
    Finish(grid, rows, cols, start, target, cur, ns, queue0, visited0, parent0, depth0, queue, visited, parent, depth);
  }

  /** The loop body of the expansion, over the neighbours `ns` of `cur`. */
  method Visit(grid: seq<seq<int>>, rows: int, cols: int, start: Cell, target: Cell, cur: Cell, ns: seq<Cell>,
               queue0: seq<Cell>, visited0: set<Cell>, parent0: map<Cell, Cell>, ghost depth0: map<Cell, int>)
    returns (queue: seq<Cell>, visited: set<Cell>, parent: map<Cell, Cell>, ghost depth: map<Cell, int>)
    requires forall i :: 0 <= i < |ns| ==> Move(grid, rows, cols, cur, ns[i])
    requires cur in visited0
    requires Discovered(grid, rows, cols, start, queue0, visited0, parent0, depth0)
    requires Explored(grid, rows, cols, target, queue0, visited0, {cur})
    ensures Expanding(grid, rows, cols, start, target, cur, queue0, visited0, parent0, depth0,
                      queue, visited, parent, depth)
    ensures forall i :: 0 <= i < |ns| ==> ns[i] in visited
  {
    queue, visited, parent, depth := queue0, visited0, parent0, depth0;
    for k := 0 to |ns|
      invariant Partway(grid, rows, cols, start, target, cur, ns, k, queue0, visited0, parent0, depth0,
                        queue, visited, parent, depth)
    {
      var nb := ns[k];
      if nb !in visited {
        Take(grid, rows, cols, start, target, cur, ns, k, queue0, visited0, parent0, depth0,
             queue, visited, parent, depth);
        visited := visited + {nb};
        parent := parent[nb := cur];
        depth := depth[nb := depth[cur] + 1];
        queue := queue + [nb];
      } else {
        Pass(grid, rows, cols, start, target, cur, ns, k, queue0, visited0, parent0, depth0,
             queue, visited, parent, depth);
      }
    }
  }

  /** Once every neighbour is visited, `cur` counts as expanded. */
  lemma Finish(grid: seq<seq<int>>, rows: int, cols: int, start: Cell, target: Cell, cur: Cell, ns: seq<Cell>,
               queue0: seq<Cell>, visited0: set<Cell>, parent0: map<Cell, Cell>, depth0: map<Cell, int>,
               queue: seq<Cell>, visited: set<Cell>, parent: map<Cell, Cell>, depth: map<Cell, int>)
    requires forall t :: t in ns <==> Move(grid, rows, cols, cur, t)
    requires forall i :: 0 <= i < |ns| ==> ns[i] in visited
    requires cur != target
    requires Expanding(grid, rows, cols, start, target, cur, queue0, visited0, parent0, depth0,
                       queue, visited, parent, depth)
    ensures Discovered(grid, rows, cols, start, queue, visited, parent, depth)
    ensures Explored(grid, rows, cols, target, queue, visited, {})
    ensures Grown(grid, rows, cols, cur, queue0, visited0, parent0, depth0, queue, visited, parent, depth)
    ensures forall t :: Move(grid, rows, cols, cur, t) ==> t in depth
  {
  }

  /** Taking the front cell out of a layered queue makes its depth the new level. */
  lemma PopFront(grid: seq<seq<int>>, rows: int, cols: int, queue: seq<Cell>, depth: map<Cell, int>, level: int, ahead: int)
    requires Layered(grid, rows, cols, queue, {}, depth, level, ahead) && |queue| > 0
    ensures Layered(grid, rows, cols, queue[1..], {queue[0]}, depth, depth[queue[0]],
                    if ahead > 0 then ahead - 1 else |queue| - 1)
  {
    var rest := queue[1..];
    assert forall i :: 1 <= i < |queue| ==> queue[i] == rest[i - 1];
    assert forall u :: u in queue <==> u == queue[0] || u in rest;
  }

  /** Expanding the cell just taken from the front keeps the layering. */
  lemma ExpandLayered(grid: seq<seq<int>>, rows: int, cols: int, cur: Cell, ahead: int,
                      queue0: seq<Cell>, visited0: set<Cell>, parent0: map<Cell, Cell>, depth0: map<Cell, int>,
                      queue: seq<Cell>, visited: set<Cell>, parent: map<Cell, Cell>, depth: map<Cell, int>)
    requires cur in depth0 && Layered(grid, rows, cols, queue0, {cur}, depth0, depth0[cur], ahead)
    requires Grown(grid, rows, cols, cur, queue0, visited0, parent0, depth0, queue, visited, parent, depth)
    requires forall t :: Move(grid, rows, cols, cur, t) ==> t in depth
    ensures Layered(grid, rows, cols, queue, {}, depth, depth0[cur], ahead)
  {
    var level := depth0[cur];
    assert forall i :: 0 <= i < |queue0| ==> queue[i] == queue0[i];
    assert forall u :: u in queue0 ==> u in queue;
    forall i | 0 <= i < |queue|
      ensures queue[i] in depth && depth[queue[i]] == (if i < ahead then level else level + 1)
    {
    }
    forall u, v | u in depth && u !in queue && Move(grid, rows, cols, u, v)
      ensures v in depth && depth[v] <= depth[u] + 1
    {
      if u == cur && v in depth0 && v in queue0 {
        var i :| 0 <= i < |queue0| && queue0[i] == v;
      }
    }
  }

  /**
   * While the target waits at the front, every route from the start shorter
   * than the target's depth ends at an expanded cell no deeper than the
   * route is long, so no route reaches the target in fewer moves.
   */
  lemma {:induction false} ShortRoutesStayInside(grid: seq<seq<int>>, rows: int, cols: int, start: Cell, target: Cell,
                                                 queue: seq<Cell>, depth: map<Cell, int>, ahead: int, p: seq<Cell>)
    requires target in depth && Layered(grid, rows, cols, queue, {target}, depth, depth[target], ahead)
    requires start in depth && depth[start] == 0
    requires |p| >= 1 && p[0] == start && IsRoute(grid, rows, cols, p) && |p| - 1 < depth[target]
    ensures p[|p| - 1] in depth && depth[p[|p| - 1]] <= |p| - 1
    ensures p[|p| - 1] !in queue && p[|p| - 1] != target
    decreases |p|
  {
    var x := p[|p| - 1];
    if |p| > 1 {
      var q := p[..|p| - 1];
      assert IsRoute(grid, rows, cols, q);
      ShortRoutesStayInside(grid, rows, cols, start, target, queue, depth, ahead, q);
      assert Move(grid, rows, cols, p[|p| - 2], x);
    }
  }

  /** When the container runs dry every visited cell has been expanded, so the target cannot be reached. */
  lemma Drained(grid: seq<seq<int>>, rows: int, cols: int, start: Cell, target: Cell,
                visited: set<Cell>, parent: map<Cell, Cell>, depth: map<Cell, int>)
    requires Searching(grid, rows, cols, start, target, [], visited, parent, depth)
    ensures target !in visited
    ensures !Reachable(grid, rows, cols, start, target)
  {
    TrappedUnreachable(grid, rows, cols, visited, start, target);
  }

  /**
   * Taking one cell out of the container, from the front or from the
   * back, leaves it pending.
   */
  lemma Popped(grid: seq<seq<int>>, rows: int, cols: int, start: Cell, target: Cell,
               queue: seq<Cell>, front: bool, visited: set<Cell>, parent: map<Cell, Cell>, depth: map<Cell, int>)
    requires Searching(grid, rows, cols, start, target, queue, visited, parent, depth)
    requires |queue| > 0
    ensures var cur := if front then queue[0] else queue[|queue| - 1];
            var rest := if front then queue[1..] else queue[..|queue| - 1];
            && cur in visited
            && Discovered(grid, rows, cols, start, rest, visited, parent, depth)
            && Explored(grid, rows, cols, target, rest, visited, {cur})
  {
    var cur := if front then queue[0] else queue[|queue| - 1];
    var rest := if front then queue[1..] else queue[..|queue| - 1];
    if front {
      assert queue == [cur] + rest;
    } else {
      assert queue == rest + [cur];
    }
    Leaves(grid, rows, cols, start, target, queue, rest, cur, visited, parent, depth);
  }

  /** What the container held is the cell taken out and what is left. */
  lemma Leaves(grid: seq<seq<int>>, rows: int, cols: int, start: Cell, target: Cell,
               queue: seq<Cell>, rest: seq<Cell>, cur: Cell,
               visited: set<Cell>, parent: map<Cell, Cell>, depth: map<Cell, int>)
    requires Searching(grid, rows, cols, start, target, queue, visited, parent, depth)
    requires queue == [cur] + rest || queue == rest + [cur]
    ensures cur in visited
    ensures Discovered(grid, rows, cols, start, rest, visited, parent, depth)
    ensures Explored(grid, rows, cols, target, rest, visited, {cur})
  {
    assert cur in queue;
    forall i | 0 <= i < |rest|
      ensures rest[i] in visited
    {
      assert rest[i] in queue;
    }
  }

  /** No route from the start reaches the target in fewer moves than its depth. */
  ghost predicate Nearest(grid: seq<seq<int>>, rows: int, cols: int, start: Cell, target: Cell, depth: map<Cell, int>)
  {
    target in depth && forall p :: Connects(grid, rows, cols, p, start, target) ==> depth[target] <= |p| - 1
  }

  /** With the target at the front of the layered queue no route reaches it in fewer moves than its depth. */
  lemma TargetFirst(grid: seq<seq<int>>, rows: int, cols: int, start: Cell, target: Cell,
                    queue: seq<Cell>, depth: map<Cell, int>, ahead: int)
    requires target in depth && Layered(grid, rows, cols, queue, {target}, depth, depth[target], ahead)
    requires start in depth && depth[start] == 0
    ensures Nearest(grid, rows, cols, start, target, depth)
  {
    forall p | Connects(grid, rows, cols, p, start, target)
      ensures depth[target] <= |p| - 1
    {
      if |p| - 1 < depth[target] {
        ShortRoutesStayInside(grid, rows, cols, start, target, queue, depth, ahead, p);
      }
    }
  }

  /** The visited cells are board cells or the start, so each discovery brings the search closer to its end. */
  lemma Shrinks(grid: seq<seq<int>>, rows: int, cols: int, start: Cell, target: Cell, queue: seq<Cell>,
                visited: set<Cell>, parent: map<Cell, Cell>, depth: map<Cell, int>, visited0: set<Cell>)
    requires Discovered(grid, rows, cols, start, queue, visited, parent, depth)
    requires Explored(grid, rows, cols, target, queue, visited, {})
    requires visited0 <= visited
    ensures Searching(grid, rows, cols, start, target, queue, visited, parent, depth)
    ensures visited != visited0 ==> |Board(rows, cols) + {start} - visited| < |Board(rows, cols) + {start} - visited0|
  {
    var board := Board(rows, cols) + {start};
    forall t | t in visited
      ensures t in board
    {
      if t != start {
        assert InBounds(rows, cols, t);
      }
    }
    if visited != visited0 {
      var x :| x in visited && x !in visited0;
      var a, b := board - visited, board - visited0;
      assert b == a + (b - a) && a * (b - a) == {};
      assert x in b - a;
    }
  }

  /** One round of `bfs` up to the expansion: the front cell is taken out and becomes the level. */
  lemma BfsPop(grid: seq<seq<int>>, rows: int, cols: int, start: Cell, target: Cell, queue: seq<Cell>,
               visited: set<Cell>, parent: map<Cell, Cell>, depth: map<Cell, int>, level: int, ahead: int)
    requires Searching(grid, rows, cols, start, target, queue, visited, parent, depth)
    requires Layered(grid, rows, cols, queue, {}, depth, level, ahead) && |queue| > 0
    ensures queue[0] in visited && queue[0] in depth
    ensures Discovered(grid, rows, cols, start, queue[1..], visited, parent, depth)
    ensures Explored(grid, rows, cols, target, queue[1..], visited, {queue[0]})
    ensures Layered(grid, rows, cols, queue[1..], {queue[0]}, depth, depth[queue[0]],
                    if ahead > 0 then ahead - 1 else |queue| - 1)
    ensures queue[0] == target ==> Nearest(grid, rows, cols, start, target, depth)
  {
    PopFront(grid, rows, cols, queue, depth, level, ahead);
    Popped(grid, rows, cols, start, target, queue, true, visited, parent, depth);
    if queue[0] == target {
      TargetFirst(grid, rows, cols, start, target, queue[1..], depth, if ahead > 0 then ahead - 1 else |queue| - 1);
    }
  }

  /** One round of `bfs` after the expansion: the layering and the loop invariant are back. */
  lemma BfsPush(grid: seq<seq<int>>, rows: int, cols: int, start: Cell, target: Cell, cur: Cell, ahead: int,
                queue0: seq<Cell>, visited0: set<Cell>, parent0: map<Cell, Cell>, depth0: map<Cell, int>,
                queue: seq<Cell>, visited: set<Cell>, parent: map<Cell, Cell>, depth: map<Cell, int>)
    requires cur in depth0 && Layered(grid, rows, cols, queue0, {cur}, depth0, depth0[cur], ahead)
    requires Discovered(grid, rows, cols, start, queue, visited, parent, depth)
    requires Explored(grid, rows, cols, target, queue, visited, {})
    requires Grown(grid, rows, cols, cur, queue0, visited0, parent0, depth0, queue, visited, parent, depth)
    requires forall t :: Move(grid, rows, cols, cur, t) ==> t in depth
    ensures Searching(grid, rows, cols, start, target, queue, visited, parent, depth)
    ensures Layered(grid, rows, cols, queue, {}, depth, depth0[cur], ahead)
    ensures visited0 <= visited && (visited == visited0 ==> queue == queue0)
    ensures visited != visited0 ==> |Board(rows, cols) + {start} - visited| < |Board(rows, cols) + {start} - visited0|
  {
    ExpandLayered(grid, rows, cols, cur, ahead, queue0, visited0, parent0, depth0, queue, visited, parent, depth);
    Shrinks(grid, rows, cols, start, target, queue, visited, parent, depth, visited0);
  }

  /**
   * `bfs(grid, start, target)`: success exactly when a route over open
   * cells leads from the start to the target, and the path is then a
   * shortest such route; otherwise the path is `[]`.
   */
  method Bfs(grid: seq<seq<int>>, rows: int, cols: int, start: Cell, target: Cell)
    returns (visited: set<Cell>, path: seq<Cell>, success: bool)
    requires Shaped(grid, rows, cols)
    ensures success <==> Reachable(grid, rows, cols, start, target)
    ensures success ==> Connects(grid, rows, cols, path, start, target)
    ensures success ==> forall p :: Connects(grid, rows, cols, p, start, target) ==> |path| <= |p|
    ensures !success ==> path == []
    ensures start in visited
  {
    var queue := [start];
    visited := {start};
    var parent: map<Cell, Cell> := map[];
    ghost var depth := map[start := 0];
    ghost var level, ahead := 0, 1;
    ghost var board := Board(rows, cols) + {start};
    success := false;
    while |queue| > 0 && !success
      invariant !success ==> Searching(grid, rows, cols, start, target, queue, visited, parent, depth)
                             && Layered(grid, rows, cols, queue, {}, depth, level, ahead)
      invariant success ==> Discovered(grid, rows, cols, start, queue, visited, parent, depth) && target in visited
                            && Nearest(grid, rows, cols, start, target, depth)
      decreases |board - visited|, |queue|
    {
      BfsPop(grid, rows, cols, start, target, queue, visited, parent, depth, level, ahead);
      var cur := queue[0];
      level, ahead := depth[cur], if ahead > 0 then ahead - 1 else |queue| - 1;
      queue := queue[1..];
      if cur == target {
        success := true;
      } else {
        ghost var q0, v0, d0 := queue, visited, depth;
        ghost var p0 := parent;
        queue, visited, parent, depth := Expand(grid, rows, cols, start, target, cur, queue, visited, parent, depth);
        BfsPush(grid, rows, cols, start, target, cur, ahead, q0, v0, p0, d0, queue, visited, parent, depth);
      }
    }
    if !success {
      Drained(grid, rows, cols, start, target, visited, parent, depth);
    }
    path := ReadRoute(grid, rows, cols, start, target, visited, parent, depth);
  }

  /**
   * `dfs(grid, start, target)`: success exactly when a route over open
   * cells leads from the start to the target, and the path is then such a
   * route, not necessarily a shortest one; otherwise the path is `[]`.
   */
  method Dfs(grid: seq<seq<int>>, rows: int, cols: int, start: Cell, target: Cell)
    returns (visited: set<Cell>, path: seq<Cell>, success: bool)
    requires Shaped(grid, rows, cols)
    ensures success <==> Reachable(grid, rows, cols, start, target)
    ensures success ==> Connects(grid, rows, cols, path, start, target)
    ensures !success ==> path == []
    ensures start in visited
  {
    var stack := [start];
    visited := {start};
    var parent: map<Cell, Cell> := map[];
    ghost var depth := map[start := 0];
    ghost var board := Board(rows, cols) + {start};
    success := false;
    while |stack| > 0 && !success
      invariant !success ==> Searching(grid, rows, cols, start, target, stack, visited, parent, depth)
      invariant success ==> Discovered(grid, rows, cols, start, stack, visited, parent, depth) && target in visited
      decreases |board - visited|, |stack|
    {
      Popped(grid, rows, cols, start, target, stack, false, visited, parent, depth);
      var cur := stack[|stack| - 1];
      stack := stack[..|stack| - 1];
      if cur == target {
        success := true;
      } else {
        ghost var v0 := visited;
        stack, visited, parent, depth := Expand(grid, rows, cols, start, target, cur, stack, visited, parent, depth);
        Shrinks(grid, rows, cols, start, target, stack, visited, parent, depth, v0);
      }
    }
    if !success {
      Drained(grid, rows, cols, start, target, visited, parent, depth);
    }
    path := ReadRoute(grid, rows, cols, start, target, visited, parent, depth);
  }
}
