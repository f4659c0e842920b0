/**
 * The bookkeeping of `a_star(grid, food_objects, start, target, max_steps)`
 * in `Search.py` between rounds. Each heap entry carries its cell, its
 * step count, the points collected so far and the path that led to it.
 * The heap pops the entry with the most points first.
 */
module PointsState {
  import opened Grid
  import opened PriorityQueue
  import opened FoodPoints
  import SnakeGrid

  /** The tuple fields after the score: `(current, steps, collected_points, path)`. */
  datatype Visit = Visit(cell: Cell, steps: int, collected: int, path: seq<Cell>)

  /** The cells of a path in order, flattened into numbers. */
  function Flat(path: seq<Cell>): seq<real>
  {
    if |path| == 0 then [] else [path[0].0 as real, path[0].1 as real] + Flat(path[1..])
  }

  /** The tuple `a_star` pushes: `(-collected, cell, steps, collected, path)`. */
  function Push(v: Visit): Entry<Visit>
  {
    Entry([-v.collected as real, v.cell.0 as real, v.cell.1 as real, v.steps as real, v.collected as real] + Flat(v.path), v)
  }

  /** The points `c` is worth: its food's points, 0 without food. */
  function Gain(food: map<Cell, Food>, c: Cell): int
  {
    if c in food then food[c].points else 0
  }

  /** The points collected along `t`, counting every cell after the first. */
  function Collected(food: map<Cell, Food>, t: seq<Cell>): int
    decreases |t|
  {
    if |t| <= 1 then 0 else Collected(food, t[..|t| - 1]) + Gain(food, t[|t| - 1])
  }

  /** No cell occurs twice in `t`. */
  predicate Distinct(t: seq<Cell>)
  {
    forall i, j :: 0 <= i < j < |t| ==> t[i] != t[j]
  }

  /** A walk from `start`: every later cell on the board and a 4-neighbour of the one before, no cell twice. */
  predicate Trail(rows: int, cols: int, start: Cell, t: seq<Cell>)
  {
    && |t| >= 1 && t[0] == start
    && (forall i :: 1 <= i < |t| ==> InBounds(rows, cols, t[i]) && Adjacent(t[i - 1], t[i]))
    && Distinct(t)
  }

  /** A move the search may take: to a 4-neighbour on the board. The grid's contents are never read. */
  predicate Step(rows: int, cols: int, u: Cell, v: Cell)
  {
    InBounds(rows, cols, v) && Adjacent(u, v)
  }

  /** The cells the heap holds entries for. */
  function Cells(pq: seq<Entry<Visit>>): set<Cell>
  {
    set e | e in pq :: e.item.cell
  }

  /**
   * A heap entry is one `a_star` pushed: its path followed by its cell is
   * a trail from the start, its step count is the path's length, its
   * points are the trail's, and the path's cells have all been visited.
   */
  ghost predicate Sound(food: map<Cell, Food>, rows: int, cols: int, start: Cell, e: Entry<Visit>, visited: set<Cell>)
  {
    && e == Push(e.item)
    && Trail(rows, cols, start, e.item.path + [e.item.cell])
    && e.item.steps == |e.item.path|
    && e.item.collected == Collected(food, e.item.path + [e.item.cell])
    && (forall c {:trigger c in e.item.path} :: c in e.item.path ==> c in visited)
  }

  ghost predicate Queued(food: map<Cell, Food>, rows: int, cols: int, start: Cell, pq: seq<Entry<Visit>>, visited: set<Cell>)
  {
    forall e {:trigger e in pq} :: e in pq ==> Sound(food, rows, cols, start, e, visited)
  }

  /** Every visited cell not `pending` has each of its moves visited or waiting in the heap. */
  ghost predicate Explored(rows: int, cols: int, pq: seq<Entry<Visit>>, visited: set<Cell>, pending: set<Cell>)
  {
    forall u {:trigger u in visited} :: u in visited && u !in pending ==>
      forall v {:trigger Step(rows, cols, u, v)} :: Step(rows, cols, u, v) ==> v in visited || v in Cells(pq)
  }

  /** A start on the board and a step budget no trail on the board can exceed. */
  predicate Ample(rows: int, cols: int, start: Cell, maxSteps: int)
  {
    InBounds(rows, cols, start) && maxSteps >= |Board(rows, cols)|
  }

  /** The entry the search starts from. */
  function Init(start: Cell): Entry<Visit>
  {
    Push(Visit(start, 0, 0, []))
  }

  /**
   * What holds between two rounds: the entries are sound, visited cells
   * are on the board (or the start) and never the target, and with an
   * ample budget nothing has been dropped, so the visited cells are
   * explored and hold the start once the first entry is popped.
   */
  ghost predicate Round(food: map<Cell, Food>, rows: int, cols: int, start: Cell, target: Cell, maxSteps: int,
                        pq: seq<Entry<Visit>>, visited: set<Cell>)
  {
    && Queued(food, rows, cols, start, pq, visited)
    && visited <= Board(rows, cols) + {start}
    && target !in visited
    && (Ample(rows, cols, start, maxSteps) ==> Explored(rows, cols, pq, visited, {}))
    && (Ample(rows, cols, start, maxSteps) ==> start in visited || pq == [Init(start)])
  }

  /** The first `k` offsets from `cur` lead off the board, to a visited cell, or to a cell waiting in the heap. */
  ghost predicate Covered(rows: int, cols: int, cur: Cell, k: int, pq: seq<Entry<Visit>>, visited: set<Cell>)
  {
    0 <= k <= 4 && forall j {:trigger SnakeGrid.Toward(cur, j)} :: 0 <= j < k ==>
      !InBounds(rows, cols, SnakeGrid.Toward(cur, j)) || SnakeGrid.Toward(cur, j) in visited || SnakeGrid.Toward(cur, j) in Cells(pq)
  }
}

/**
 * `a_star(grid, food_objects, start, target, max_steps)` of `Search.py`:
 * despite its name a best-first search on collected points. It pops the
 * entry with the most points, drops entries over the step budget, returns
 * as soon as the target is popped, and otherwise visits the popped cell
 * and pushes every unvisited board neighbour with the neighbour's food
 * points added. The grid's values are never read, so food cells stay
 * passable.
 */
module PointsSearch {
  import opened Common
  import opened Grid
  import opened PriorityQueue
  import opened FoodPoints
  import opened PointsState
  import SnakeGrid
  import PS = PointsState

  /** The popped entry has collected at least as many points as any other entry. */
  lemma MostCollected(food: map<Cell, Food>, rows: int, cols: int, start: Cell,
                      pq: seq<Entry<Visit>>, visited: set<Cell>, i: int)
    requires PS.Queued(food, rows, cols, start, pq, visited)
    requires IsLeast(pq, i)
    ensures forall j :: 0 <= j < |pq| ==> pq[j].item.collected <= pq[i].item.collected
  {
    forall j | 0 <= j < |pq|
      ensures pq[j].item.collected <= pq[i].item.collected
    {
      assert pq[i] in pq && pq[j] in pq;
      KeyLeHead(pq[i].key, pq[j].key);
    }
  }

  /** A sequence without repeats whose cells lie in `s` is no longer than `s` is large. */
  lemma {:induction false} DistinctWithin(t: seq<Cell>, s: set<Cell>)
    requires Distinct(t)
    requires forall i :: 0 <= i < |t| ==> t[i] in s
    ensures |t| <= |s|
    decreases |t|
  {
    if |t| > 0 {
      var last := t[|t| - 1];
      var init := t[..|t| - 1];
      assert forall i :: 0 <= i < |init| ==> init[i] == t[i] && init[i] != last;
      DistinctWithin(init, s - {last});
    }
  }

  /** With the start on the board, a trail is no longer than the board is large. */
  lemma TrailShort(rows: int, cols: int, start: Cell, t: seq<Cell>)
    requires Trail(rows, cols, start, t) && InBounds(rows, cols, start)
    ensures |t| <= |Board(rows, cols)|
  {
    DistinctWithin(t, Board(rows, cols));
  }

  /** With an ample budget no entry is ever over the budget. */
  lemma NeverDropped(food: map<Cell, Food>, rows: int, cols: int, start: Cell, maxSteps: int,
                     e: Entry<Visit>, visited: set<Cell>)
    requires PS.Sound(food, rows, cols, start, e, visited)
    ensures Ample(rows, cols, start, maxSteps) ==> e.item.steps < maxSteps
  {
    if InBounds(rows, cols, start) {
      TrailShort(rows, cols, start, e.item.path + [e.item.cell]);
    }
  }

  /** Removing one entry keeps every cell waiting whose entry it was not. */
  lemma CellsRemoved(pq: seq<Entry<Visit>>, i: int)
    requires 0 <= i < |pq|
    ensures Cells(pq) - {pq[i].item.cell} <= Cells(RemoveAt(pq, i))
    ensures Cells(RemoveAt(pq, i)) <= Cells(pq)
  {
    Removed(pq, i);
    forall c | c in Cells(pq) - {pq[i].item.cell}
      ensures c in Cells(RemoveAt(pq, i))
    {
      var e :| e in pq && e.item.cell == c;
      assert e != pq[i];
    }
  }

  /** The state the search starts from. */
  lemma Begin(food: map<Cell, Food>, rows: int, cols: int, start: Cell, target: Cell, maxSteps: int)
    ensures PS.Round(food, rows, cols, start, target, maxSteps, [Init(start)], {})
  {
    var t := Visit(start, 0, 0, []).path + [start];
    assert t == [start];
    assert Collected(food, t) == 0;
  }

  /** An entry over the budget is dropped: only possible when the budget is not ample. */
  lemma Dropped(food: map<Cell, Food>, rows: int, cols: int, start: Cell, target: Cell, maxSteps: int,
                pq: seq<Entry<Visit>>, visited: set<Cell>, i: int)
    requires PS.Round(food, rows, cols, start, target, maxSteps, pq, visited)
    requires 0 <= i < |pq| && pq[i].item.steps > maxSteps
    ensures PS.Round(food, rows, cols, start, target, maxSteps, RemoveAt(pq, i), visited)
  {
    assert pq[i] in pq;
    NeverDropped(food, rows, cols, start, maxSteps, pq[i], visited);
    Removed(pq, i);
  }

  /** An entry for a visited cell is skipped. */
  lemma Stale(food: map<Cell, Food>, rows: int, cols: int, start: Cell, target: Cell, maxSteps: int,
              pq: seq<Entry<Visit>>, visited: set<Cell>, i: int)
    requires PS.Round(food, rows, cols, start, target, maxSteps, pq, visited)
    requires 0 <= i < |pq| && pq[i].item.cell in visited
    ensures PS.Round(food, rows, cols, start, target, maxSteps, RemoveAt(pq, i), visited)
  {
    Removed(pq, i);
    CellsRemoved(pq, i);
  }

  /** A popped cell that is neither visited nor the target is visited; its own moves are still to be pushed. */
  lemma Fresh(food: map<Cell, Food>, rows: int, cols: int, start: Cell, target: Cell, maxSteps: int,
              pq: seq<Entry<Visit>>, visited: set<Cell>, i: int)
    requires PS.Round(food, rows, cols, start, target, maxSteps, pq, visited)
    requires 0 <= i < |pq| && pq[i].item.cell !in visited && pq[i].item.cell != target
    ensures var x, r := pq[i].item.cell, RemoveAt(pq, i);
            && PS.Sound(food, rows, cols, start, pq[i], visited + {x})
            && PS.Queued(food, rows, cols, start, r, visited + {x})
            && visited + {x} <= Board(rows, cols) + {start}
            && target !in visited + {x}
            && (Ample(rows, cols, start, maxSteps) ==> PS.Explored(rows, cols, r, visited + {x}, {x}))
            && start in visited + {x}
            && |Board(rows, cols) + {start} - (visited + {x})| < |Board(rows, cols) + {start} - visited|
  {
    var x := pq[i].item.cell;
    assert pq[i] in pq;
    Removed(pq, i);
    CellsRemoved(pq, i);
    assert x == start || InBounds(rows, cols, x) by {
      var t := pq[i].item.path + [x];
      assert t[|t| - 1] == x;
    }
    assert start in visited + {x} by {
      var t := pq[i].item.path + [x];
      if |pq[i].item.path| > 0 {
        assert pq[i].item.path[0] == t[0] && pq[i].item.path[0] in pq[i].item.path;
      } else {
        assert t == [x];
      }
    }
    Shrinks(rows, cols, start, visited, x);
  }

  /** A trail through visited cells extended by a move to an unvisited cell is a trail. */
  lemma TrailExtended(rows: int, cols: int, start: Cell, t: seq<Cell>, nb: Cell, visited: set<Cell>)
    requires Trail(rows, cols, start, t) && forall c {:trigger c in t} :: c in t ==> c in visited
    requires Step(rows, cols, t[|t| - 1], nb) && nb !in visited
    ensures Trail(rows, cols, start, t + [nb])
  {
    var t' := t + [nb];
    assert forall i :: 0 <= i < |t| ==> t'[i] == t[i] && t[i] in t;
  }

  /** Extending a trail by a cell adds that cell's points. */
  lemma CollectedExtended(food: map<Cell, Food>, t: seq<Cell>, nb: Cell)
    requires |t| >= 1
    ensures Collected(food, t + [nb]) == Collected(food, t) + Gain(food, nb)
  {
    assert (t + [nb])[..|t|] == t;
  }

  /** The entry pushed for a neighbour extends the popped entry's trail by that neighbour and its points. */
  lemma Extended(food: map<Cell, Food>, rows: int, cols: int, start: Cell, cur: Visit, nb: Cell, visited: set<Cell>)
    requires PS.Sound(food, rows, cols, start, Push(cur), visited) && cur.cell in visited
    requires Step(rows, cols, cur.cell, nb) && nb !in visited
    ensures PS.Sound(food, rows, cols, start, Push(Visit(nb, cur.steps + 1, cur.collected + Gain(food, nb), cur.path + [cur.cell])), visited)
  {
    var t := cur.path + [cur.cell];
    assert forall c {:trigger c in t} :: c in t ==> c in visited;
    TrailExtended(rows, cols, start, t, nb, visited);
    CollectedExtended(food, t, nb);
  }

  /** Pushing the next neighbour keeps every entry sound and covers one more offset. */
  lemma Pushed(food: map<Cell, Food>, rows: int, cols: int, start: Cell, cur: Cell, k: int,
               pq: seq<Entry<Visit>>, visited: set<Cell>, e: Entry<Visit>)
    requires 0 <= k < 4 && PS.Sound(food, rows, cols, start, e, visited) && e.item.cell == SnakeGrid.Toward(cur, k)
    requires PS.Queued(food, rows, cols, start, pq, visited)
    requires PS.Covered(rows, cols, cur, k, pq, visited)
    ensures PS.Queued(food, rows, cols, start, pq + [e], visited)
    ensures PS.Covered(rows, cols, cur, k + 1, pq + [e], visited)
    ensures Cells(pq) <= Cells(pq + [e])
  {
    assert forall f :: f in pq + [e] <==> f in pq || f == e;
    assert Cells(pq + [e]) == Cells(pq) + {e.item.cell};
  }

  /** Skipping an offset that leaves the board or leads to a visited cell covers it. */
  lemma Skipped(rows: int, cols: int, cur: Cell, k: int, pq: seq<Entry<Visit>>, visited: set<Cell>)
    requires PS.Covered(rows, cols, cur, k, pq, visited) && k < 4
    requires !InBounds(rows, cols, SnakeGrid.Toward(cur, k)) || SnakeGrid.Toward(cur, k) in visited
    ensures PS.Covered(rows, cols, cur, k + 1, pq, visited)
  {
  }

  /**
   * The neighbour loop of one round: every offset that stays on the
   * board and leads to an unvisited cell gets an entry one step further,
   * with that cell's points added and `cur`'s trail as its path.
   */
  method Expand(food: map<Cell, Food>, rows: int, cols: int, start: Cell, cur: Visit,
                pq0: seq<Entry<Visit>>, visited: set<Cell>)
    returns (pq: seq<Entry<Visit>>)
    requires PS.Sound(food, rows, cols, start, Push(cur), visited) && cur.cell in visited
    requires PS.Queued(food, rows, cols, start, pq0, visited)
    ensures PS.Queued(food, rows, cols, start, pq, visited)
    ensures Cells(pq0) <= Cells(pq)
    ensures forall v :: Step(rows, cols, cur.cell, v) ==> v in visited || v in Cells(pq)
  {
    pq := pq0;
    var path := cur.path + [cur.cell];
    for k := 0 to 4
      invariant PS.Queued(food, rows, cols, start, pq, visited)
      invariant PS.Covered(rows, cols, cur.cell, k, pq, visited)
      invariant Cells(pq0) <= Cells(pq)
    {
      var nb := (cur.cell.0 + SnakeGrid.Directions[k].0, cur.cell.1 + SnakeGrid.Directions[k].1);
      assert nb == SnakeGrid.Toward(cur.cell, k);
      if 0 <= nb.0 < rows && 0 <= nb.1 < cols && nb !in visited {
        var points := if nb in food then food[nb].points else 0;
        var e := Push(Visit(nb, cur.steps + 1, cur.collected + points, path));
        Extended(food, rows, cols, start, cur, nb, visited);
        Pushed(food, rows, cols, start, cur.cell, k, pq, visited, e);
        pq := pq + [e];
      } else {
        Skipped(rows, cols, cur.cell, k, pq, visited);
      }
    }
    forall v | Step(rows, cols, cur.cell, v)
      ensures v in visited || v in Cells(pq)
    {
      var k := SnakeGrid.DirectionOf(cur.cell, v);
    }
  }

  /** Once the popped cell's moves are pushed, the round's invariant is back. */
  lemma Expanded(food: map<Cell, Food>, rows: int, cols: int, start: Cell, target: Cell, maxSteps: int,
                 x: Cell, r: seq<Entry<Visit>>, pq: seq<Entry<Visit>>, visited: set<Cell>)
    requires PS.Queued(food, rows, cols, start, pq, visited)
    requires visited <= Board(rows, cols) + {start} && target !in visited && start in visited
    requires Ample(rows, cols, start, maxSteps) ==> PS.Explored(rows, cols, r, visited, {x})
    requires Cells(r) <= Cells(pq)
    requires forall v :: Step(rows, cols, x, v) ==> v in visited || v in Cells(pq)
    ensures PS.Round(food, rows, cols, start, target, maxSteps, pq, visited)
  {
  }

  /** The board is connected: a set closed under moves that holds one board cell holds them all. */
  lemma {:induction false} Spread(rows: int, cols: int, s: set<Cell>, a: Cell, b: Cell)
    requires forall u, v {:trigger Step(rows, cols, u, v)} :: u in s && Step(rows, cols, u, v) ==> v in s
    requires a in s && InBounds(rows, cols, a) && InBounds(rows, cols, b)
    ensures b in s
    decreases Manhattan(a, b)
  {
    if a != b {
      var n := if a.0 < b.0 then (a.0 + 1, a.1)
               else if a.0 > b.0 then (a.0 - 1, a.1)
               else if a.1 < b.1 then (a.0, a.1 + 1)
               else (a.0, a.1 - 1);
      assert Step(rows, cols, a, n);
      Spread(rows, cols, s, n, b);
    }
  }

  /**
   * An exhausted heap means the budget was not ample or one of the start
   * and the target is off the board.
   */
  lemma Exhausted(food: map<Cell, Food>, rows: int, cols: int, start: Cell, target: Cell, maxSteps: int,
                  visited: set<Cell>)
    requires PS.Round(food, rows, cols, start, target, maxSteps, [], visited)
    ensures !(Ample(rows, cols, start, maxSteps) && InBounds(rows, cols, target))
  {
    if Ample(rows, cols, start, maxSteps) && InBounds(rows, cols, target) {
      assert Cells([]) == {};
      Spread(rows, cols, visited, start, target);
    }
  }

  /** `len(grid[0])`, read only once `len(grid)` has shown a row exists. */
  function Width(grid: seq<seq<int>>): int
  {
    if |grid| == 0 then 0 else |grid[0]|
  }

  /**
   * `a_star(grid, food_objects, start, target, max_steps)`: on success the
   * path is a trail from the start to the target without repeated cells
   * and one cell longer than the returned step count, which is within
   * the budget, and the points are those of the food along it after the
   * start. An exhausted heap returns `(visited, [], None, None)`. With a
   * budget of at least the board's size the search between two board
   * cells always succeeds, whatever the grid holds.
   */
  method BestPoints(grid: seq<seq<int>>, food: map<Cell, Food>, start: Cell, target: Cell, maxSteps: int)
    returns (visited: set<Cell>, path: seq<Cell>, points: Option<int>, steps: Option<int>)
    ensures steps.Some? <==> points.Some?
    ensures steps.Some? ==>
              && Trail(|grid|, Width(grid), start, path)
              && path[|path| - 1] == target
              && |path| == steps.value + 1 && steps.value <= maxSteps
              && points.value == Collected(food, path)
    ensures steps.None? ==> path == []
    ensures start == target && maxSteps >= 0 ==> path == [start] && steps == Some(0) && points == Some(0)
    ensures Ample(|grid|, Width(grid), start, maxSteps) && InBounds(|grid|, Width(grid), target) ==> steps.Some?
  {
    var rows, cols := |grid|, Width(grid);
    var pq := [Init(start)];
    visited := {};
    path, points, steps := [], None, None;
    Begin(food, rows, cols, start, target, maxSteps);
    while |pq| > 0 && steps.None?
      invariant steps.None? ==> PS.Round(food, rows, cols, start, target, maxSteps, pq, visited) && path == [] && points.None?
      invariant steps.Some? ==>
                  && Trail(rows, cols, start, path) && path[|path| - 1] == target
                  && |path| == steps.value + 1 && steps.value <= maxSteps
                  && points == Some(Collected(food, path))
      invariant start == target && maxSteps >= 0 ==>
                  (steps.None? && visited == {} && pq == [Init(start)]) ||
                  (path == [start] && steps == Some(0) && points == Some(0))
      decreases |Board(rows, cols) + {start} - visited|, |pq|
    {
      var i := PopIndex(pq);
      var e := pq[i].item;
      if e.steps > maxSteps {
        Dropped(food, rows, cols, start, target, maxSteps, pq, visited, i);
        pq := RemoveAt(pq, i);
      } else if e.cell == target {
        assert pq[i] in pq;
        path, points, steps := e.path + [e.cell], Some(e.collected), Some(e.steps);
        pq := RemoveAt(pq, i);
      } else if e.cell in visited {
        Stale(food, rows, cols, start, target, maxSteps, pq, visited, i);
        pq := RemoveAt(pq, i);
      } else {
        Fresh(food, rows, cols, start, target, maxSteps, pq, visited, i);
        var r := RemoveAt(pq, i);
        visited := visited + {e.cell};
        pq := Expand(food, rows, cols, start, e, r, visited);
        Expanded(food, rows, cols, start, target, maxSteps, e.cell, r, pq, visited);
      }
    }
    if steps.None? {
      Exhausted(food, rows, cols, start, target, maxSteps, visited);
    }
  }
}
