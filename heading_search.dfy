/**
 * The orientation-aware A* planner of `noros/test/search_class.py`.
 * A search state is a cell together with the robot's heading (0, 90, 180
 * or 270 degrees); a move turns the robot to the heading of the move and
 * drives one cell, costing a weighted sum of turning and driving time
 * minus the reward of the cell it enters.
 */
module HeadingSearch {
  import opened Common
  import opened Grid
  import opened PriorityQueue
  import Chain

  /** (row, col, heading in degrees) */
  type State = (int, int, int)

  function CellOf(s: State): Cell
  {
    (s.0, s.1)
  }

  /** The headings in the order the planner tries them. */
  const Headings: seq<int> := [0, 90, 180, 270]

  /** The cell one step from `c` in heading `d`: 0 is right, 90 down, 180 left, 270 up. */
  function Shift(c: Cell, d: int): Cell
  {
    if d == 0 then (c.0, c.1 + 1)
    else if d == 90 then (c.0 + 1, c.1)
    else if d == 180 then (c.0, c.1 - 1)
    else (c.0 - 1, c.1)
  }

  /** Every heading's step reaches a 4-neighbour. */
  lemma ShiftAdjacent(c: Cell, d: int)
    ensures Adjacent(c, Shift(c, d))
  {
  }

  function AbsInt(x: int): int
  {
    if x < 0 then -x else x
  }

  /**
   * `_normalize_dir`: `d % 360`, then the first of 0, 90, 180, 270 that is
   * nearest to it (headings are not compared across the 0/360 wrap).
   */
  function NormalizeDir(d: int): (h: int)
    ensures h in Headings
    ensures forall x :: x in Headings ==> AbsInt(h - d % 360) <= AbsInt(x - d % 360)
    ensures forall k :: 0 <= k < 4 && Headings[k] < h ==> AbsInt(h - d % 360) < AbsInt(Headings[k] - d % 360)
  {
    var e := d % 360;
    var best0 := 0;
    var best1 := if AbsInt(90 - e) < AbsInt(best0 - e) then 90 else best0;
    var best2 := if AbsInt(180 - e) < AbsInt(best1 - e) then 180 else best1;
    var best3 := if AbsInt(270 - e) < AbsInt(best2 - e) then 270 else best2;
    best3
  }

  /** An exact heading is its own normal form; 315 degrees is as near 270 as 360, and 270 wins. */
  lemma NormalizeDirExamples()
    ensures NormalizeDir(0) == 0 && NormalizeDir(90) == 90 && NormalizeDir(180) == 180 && NormalizeDir(270) == 270
    ensures NormalizeDir(315) == 270
    ensures NormalizeDir(-90) == 270
    ensures NormalizeDir(44) == 0 && NormalizeDir(46) == 90
  {
  }

  /**
   * `_rotation_cost`: the turn between two headings, taken the short way
   * round, in quarter turns times the rotation time.
   */
  function RotationCost(from: int, to: int, rotationSpeed: real): real
  {
    var diff := AbsInt(to - from) % 360;
    var turn := if diff > 180 then 360 - diff else diff;
    (turn as real / 90.0) * rotationSpeed
  }

  /** Between the four headings a turn costs 0, 1 or 2 rotation times, the same either way round. */
  lemma RotationCostCardinal(a: int, b: int, rs: real)
    requires a in Headings && b in Headings
    ensures RotationCost(a, b, rs) == RotationCost(b, a, rs)
    ensures RotationCost(a, b, rs) == (if a == b then 0.0 else if AbsInt(a - b) == 180 then 2.0 * rs else rs)
  {
    var q := if a == b then 0 else if AbsInt(a - b) == 180 then 2 else 1;
    assert (if AbsInt(b - a) % 360 > 180 then 360 - AbsInt(b - a) % 360 else AbsInt(b - a) % 360) == 90 * q;
    assert (if AbsInt(a - b) % 360 > 180 then 360 - AbsInt(a - b) % 360 else AbsInt(a - b) % 360) == 90 * q;
    assert (90 * q) as real / 90.0 == q as real;
  }

  lemma RotationCostNonNegative(a: int, b: int, rs: real)
    requires rs >= 0.0
    ensures RotationCost(a, b, rs) >= 0.0
  {
    var diff := AbsInt(b - a) % 360;
    var turn := if diff > 180 then 360 - diff else diff;
    assert turn >= 0;
    MulNonNegative(turn as real / 90.0, rs);
  }

  lemma MulNonNegative(x: real, y: real)
    requires x >= 0.0 && y >= 0.0
    ensures x * y >= 0.0
  {
  }

  lemma MulPositive(x: real, y: real)
    requires x > 0.0 && y > 0.0
    ensures x * y > 0.0
  {
  }

  class SearchClass {
    var rows: int
    var cols: int
    var obstacles: set<Cell>
    var linearSpeed: real
    var rotationSpeed: real
    var wTime: real
    var wReward: real
    var cellRewards: map<Cell, real>

    /** An empty 0 x 0 board, unit speeds and weights, no rewards. */
    constructor ()
      ensures rows == 0 && cols == 0 && obstacles == {}
      ensures linearSpeed == 1.0 && rotationSpeed == 1.0
      ensures wTime == 1.0 && wReward == 1.0 && cellRewards == map[]
    {
      rows := 0;
      cols := 0;
      obstacles := {};
      linearSpeed := 1.0;
      rotationSpeed := 1.0;
      wTime := 1.0;
      wReward := 1.0;
      cellRewards := map[];
    }

    method SetGridDimensions(r: int, c: int)
      modifies this
      ensures rows == r && cols == c
      ensures obstacles == old(obstacles) && cellRewards == old(cellRewards)
      ensures linearSpeed == old(linearSpeed) && rotationSpeed == old(rotationSpeed)
      ensures wTime == old(wTime) && wReward == old(wReward)
    {
      rows := r;
      cols := c;
    }

    /** An obstacle is recorded only inside the board; outside it the call only warns. */
    method AddObstacle(row: int, col: int)
      modifies this
      ensures obstacles == if InBounds(rows, cols, (row, col)) then old(obstacles) + {(row, col)} else old(obstacles)
      ensures rows == old(rows) && cols == old(cols) && cellRewards == old(cellRewards)
      ensures linearSpeed == old(linearSpeed) && rotationSpeed == old(rotationSpeed)
      ensures wTime == old(wTime) && wReward == old(wReward)
    {
      if InBounds(rows, cols, (row, col)) {
        obstacles := obstacles + {(row, col)};
      }
    }

    method RemoveObstacle(row: int, col: int)
      modifies this
      ensures obstacles == old(obstacles) - {(row, col)}
      ensures rows == old(rows) && cols == old(cols) && cellRewards == old(cellRewards)
      ensures linearSpeed == old(linearSpeed) && rotationSpeed == old(rotationSpeed)
      ensures wTime == old(wTime) && wReward == old(wReward)
    {
      obstacles := obstacles - {(row, col)};
    }

    method ClearObstacles()
      modifies this
      ensures obstacles == {}
      ensures rows == old(rows) && cols == old(cols) && cellRewards == old(cellRewards)
      ensures linearSpeed == old(linearSpeed) && rotationSpeed == old(rotationSpeed)
      ensures wTime == old(wTime) && wReward == old(wReward)
    {
      obstacles := {};
    }

    method SetSpeeds(linear: real, rotation: real)
      modifies this
      ensures linearSpeed == linear && rotationSpeed == rotation
      ensures rows == old(rows) && cols == old(cols) && obstacles == old(obstacles) && cellRewards == old(cellRewards)
      ensures wTime == old(wTime) && wReward == old(wReward)
    {
      linearSpeed := linear;
      rotationSpeed := rotation;
    }

    method SetWeights(time: real, reward: real)
      modifies this
      ensures wTime == time && wReward == reward
      ensures rows == old(rows) && cols == old(cols) && obstacles == old(obstacles) && cellRewards == old(cellRewards)
      ensures linearSpeed == old(linearSpeed) && rotationSpeed == old(rotationSpeed)
    {
      wTime := time;
      wReward := reward;
    }

    /** A reward is recorded only inside the board. */
    method SetCellReward(row: int, col: int, value: real)
      modifies this
      ensures cellRewards == if InBounds(rows, cols, (row, col)) then old(cellRewards)[(row, col) := value] else old(cellRewards)
      ensures rows == old(rows) && cols == old(cols) && obstacles == old(obstacles)
      ensures linearSpeed == old(linearSpeed) && rotationSpeed == old(rotationSpeed)
      ensures wTime == old(wTime) && wReward == old(wReward)
    {
      if InBounds(rows, cols, (row, col)) {
        cellRewards := cellRewards[(row, col) := value];
      }
    }

    method ClearRewards()
      modifies this
      ensures cellRewards == map[]
      ensures rows == old(rows) && cols == old(cols) && obstacles == old(obstacles)
      ensures linearSpeed == old(linearSpeed) && rotationSpeed == old(rotationSpeed)
      ensures wTime == old(wTime) && wReward == old(wReward)
    {
      cellRewards := map[];
    }

    /** `t` is one drive from `s` in one of the four headings, and lies on the board. */
    predicate IsMove(s: State, t: State)
      reads this
    {
      (t.2 == 0 || t.2 == 90 || t.2 == 180 || t.2 == 270)
      && CellOf(t) == Shift(CellOf(s), t.2) && InBounds(rows, cols, CellOf(t))
    }

    /** The state one move in heading `d` reaches, if it stays on the board. */
    function MoveTo(s: State, d: int): seq<State>
      reads this
    {
      var c := Shift(CellOf(s), d);
      if InBounds(rows, cols, c) then [(c.0, c.1, d)] else []
    }

    /**
     * The states `_get_neighbors_and_costs` generates from `s`, in its
     * order: one per heading whose step stays on the board.
     */
    function Moves(s: State): (ms: seq<State>)
      reads this
      ensures |ms| <= 4
    {
      MoveTo(s, 0) + MoveTo(s, 90) + MoveTo(s, 180) + MoveTo(s, 270)
    }

    lemma MoveAt(s: State, k: int)
      requires 0 <= k < |Moves(s)|
      ensures IsMove(s, Moves(s)[k])
    {
      MovesExact(s);
    }

    /** The generated states are exactly the moves out of `s`. */
    lemma MovesExact(s: State)
      ensures forall t :: t in Moves(s) <==> IsMove(s, t)
    {
    }

    /** `cell_rewards.get(cell, 0.0)` */
    function RewardAt(c: Cell): real
      reads this
    {
      if c in cellRewards then cellRewards[c] else 0.0
    }

    /** `w_time * (rotation + 1 / linear_speed) - w_reward * reward` for moving from heading `dir` into `t`. */
    function StepCost(dir: int, t: State): real
      reads this
      requires linearSpeed != 0.0
    {
      wTime * (RotationCost(dir, t.2, rotationSpeed) + 1.0 / linearSpeed) - wReward * RewardAt(CellOf(t))
    }

    /** `_get_neighbors_and_costs(r, c, direction)`: each generated state with the cost of moving there. */
    function NeighborsAndCosts(s: State): (ns: seq<(State, real)>)
      reads this
      requires linearSpeed != 0.0
      ensures |ns| == |Moves(s)|
      ensures forall k :: 0 <= k < |ns| ==> ns[k] == (Moves(s)[k], StepCost(s.2, Moves(s)[k]))
    {
      seq(|Moves(s)|, k reads this requires 0 <= k < |Moves(s)| && linearSpeed != 0.0 => (Moves(s)[k], StepCost(s.2, Moves(s)[k])))
    }

    /** `w_reward * reward <= 0`: the cell's reward, weighted, only ever adds cost. */
    predicate NoGain(reward: real)
      reads this
    {
      (wReward >= 0.0 && reward <= 0.0) || (wReward <= 0.0 && reward >= 0.0)
    }

    /**
     * Settings under which every move costs a positive amount: positive
     * time weight and speed, a non-negative turning time, and no reward
     * that lowers the cost of entering a cell.
     */
    predicate PositiveCosts()
      reads this
    {
      wTime > 0.0 && linearSpeed > 0.0 && rotationSpeed >= 0.0
      && forall c :: c in cellRewards ==> NoGain(cellRewards[c])
    }

    lemma StepCostPositive(dir: int, t: State)
      requires PositiveCosts()
      ensures StepCost(dir, t) > 0.0
    {
      RotationCostNonNegative(dir, t.2, rotationSpeed);
      assert 1.0 / linearSpeed > 0.0;
      MulPositive(wTime, RotationCost(dir, t.2, rotationSpeed) + 1.0 / linearSpeed);
      var rw := RewardAt(CellOf(t));
      assert NoGain(rw);
      if wReward >= 0.0 && rw <= 0.0 {
        MulNonNegative(wReward, -rw);
      } else {
        MulNonNegative(-wReward, rw);
      }
    }

    /** A move the search may take: a generated state whose cell is not an obstacle. */
    predicate Step(s: State, t: State)
      reads this
    {
      IsMove(s, t) && CellOf(t) !in obstacles
    }

    /** Consecutive states of `p` are moves the search may take. */
    predicate IsStatePath(p: seq<State>)
      reads this
    {
      forall i :: 1 <= i < |p| ==> Step(p[i - 1], p[i])
    }

    /** `s` has been expanded: it is not at the goal and all its moves lead into `found`. */
    ghost predicate Closed(s: State, goal: Cell, found: set<State>)
      reads this
    {
      CellOf(s) != goal && forall t :: Step(s, t) ==> t in found
    }

    /** Every queued state and the start state have a finite g-score. */
    ghost predicate Scored(ss: State, queue: seq<Entry<State>>, g: map<State, real>)
    {
      ss in g && forall k :: 0 <= k < |queue| ==> queue[k].item in g
    }

    /** Every state of `open_set_hash` has an entry in the queue. */
    ghost predicate OpenQueued(open: set<State>, queue: seq<Entry<State>>)
    {
      open <= ItemsOf(queue)
    }

    /** Every recorded predecessor is scored and one allowed move before its state. */
    ghost predicate ParentsValid(cameFrom: map<State, State>, g: map<State, real>)
      reads this
    {
      forall t :: t in cameFrom ==> t in g && cameFrom[t] in g && Step(cameFrom[t], t)
    }

    /** The start state is the only scored state without a predecessor. */
    ghost predicate Rooted(ss: State, cameFrom: map<State, State>, g: map<State, real>)
    {
      forall t :: t in g ==> t == ss || t in cameFrom
    }

    /** A scored state is still open, being expanded, or closed. */
    ghost predicate Frontier(goal: Cell, open: set<State>, pending: set<State>, g: map<State, real>)
      reads this
    {
      forall s :: s in g ==> s in open || s in pending || Closed(s, goal, g.Keys)
    }

    /** With positive costs a predecessor's g-score is below its successor's. */
    ghost predicate RankedIfPositive(cameFrom: map<State, State>, g: map<State, real>)
      reads this
    {
      PositiveCosts() ==> forall t :: t in cameFrom ==> cameFrom[t] in g && t in g && g[cameFrom[t]] < g[t]
    }

    /**
     * What holds of the search between steps. `g` holds the finite
     * g-scores (a state missing from it still has the initial infinity);
     * `open` is `open_set_hash`; states in `pending` are being expanded.
     */
    ghost predicate Inv(ss: State, goal: Cell, queue: seq<Entry<State>>, open: set<State>,
                        cameFrom: map<State, State>, g: map<State, real>, pending: set<State>)
      reads this
    {
      && Scored(ss, queue, g)
      && OpenQueued(open, queue)
      && ParentsValid(cameFrom, g)
      && Rooted(ss, cameFrom, g)
      && Frontier(goal, open, pending, g)
      && RankedIfPositive(cameFrom, g)
    }

    /** A set closed under moves that holds the start holds every state a path from the start reaches. */
    lemma {:induction false} ClosedSetTraps(found: set<State>, goal: Cell, p: seq<State>)
      requires forall s :: s in found ==> Closed(s, goal, found)
      requires |p| >= 1 && p[0] in found && IsStatePath(p)
      ensures p[|p| - 1] in found && CellOf(p[|p| - 1]) != goal
      decreases |p|
    {
      if |p| > 1 {
        var q := p[..|p| - 1];
        assert IsStatePath(q);
        ClosedSetTraps(found, goal, q);
        assert Step(p[|p| - 2], p[|p| - 1]);
      }
    }

    /** The predecessor walk from a scored state is a path of moves from the start. */
    lemma WalkIsPath(ss: State, cameFrom: map<State, State>, g: map<State, real>, x: State, p: seq<State>)
      requires ParentsValid(cameFrom, g) && Rooted(ss, cameFrom, g)
      requires x in g
      requires |p| >= 1 && p[|p| - 1] == x && p[0] !in cameFrom && Chain.LinkedBy(cameFrom, p)
      ensures p[0] == ss && IsStatePath(p)
    {
      if |p| > 1 {
        assert p[1] in cameFrom && cameFrom[p[1]] == p[0];
      }
      forall i | 1 <= i < |p|
        ensures Step(p[i - 1], p[i])
      {
        assert p[i] in cameFrom && cameFrom[p[i]] == p[i - 1];
      }
    }

    /**
     * One pass of the inner loop of `find_path`: the move from `cur` to
     * `next` with its cost. A lower g-score records `cur` as the
     * predecessor, and `next` is queued unless `open_set_hash` holds it.
     */
    method Relax(ss: State, goal: Cell, cur: State, next: State, cost: real,
                 queue0: seq<Entry<State>>, open0: set<State>, cameFrom0: map<State, State>, g0: map<State, real>)
      returns (queue: seq<Entry<State>>, open: set<State>, cameFrom: map<State, State>, g: map<State, real>)
      requires linearSpeed != 0.0
      requires Step(cur, next) && cost == StepCost(cur.2, next)
      requires cur in g0 && CellOf(cur) != goal && cur !in open0
      requires Inv(ss, goal, queue0, open0, cameFrom0, g0, {cur})
      ensures Inv(ss, goal, queue, open, cameFrom, g, {cur})
      ensures next in g && g0.Keys <= g.Keys
      ensures cur in g && cur !in open && g[cur] == g0[cur]
    {
      queue, open, cameFrom, g := queue0, open0, cameFrom0, g0;
      assert CellOf(next) != CellOf(cur);
      var tentative := g[cur] + cost;
      if next !in g || tentative < g[next] {
        if PositiveCosts() {
          StepCostPositive(cur.2, next);
        }
        RecordParent(ss, cameFrom, g, cur, next, tentative);
        cameFrom := cameFrom[next := cur];
        g := g[next := tentative];
        if next !in open {
          var f := tentative + Manhattan(CellOf(next), goal) as real;
          queue := queue + [Entry([f, next.0 as real, next.1 as real, next.2 as real], next)];
          open := open + {next};
          PushKeeps(ss, next, f, queue0, open0, g);
        }
        FrontierGrows(goal, open0, open, cur, g0, next, tentative);
      }
    }

    /** Recording `cur` as the predecessor of `next` at a lower g-score keeps the predecessor map valid. */
    lemma RecordParent(ss: State, cameFrom: map<State, State>, g: map<State, real>, cur: State, next: State, v: real)
      requires ParentsValid(cameFrom, g) && Rooted(ss, cameFrom, g) && RankedIfPositive(cameFrom, g)
      requires cur in g && Step(cur, next) && next != cur
      requires next !in g || v < g[next]
      requires PositiveCosts() ==> g[cur] < v
      ensures ParentsValid(cameFrom[next := cur], g[next := v])
      ensures Rooted(ss, cameFrom[next := cur], g[next := v])
      ensures RankedIfPositive(cameFrom[next := cur], g[next := v])
    {
    }

    /** Appending an entry for a scored state keeps the queue scored and `open_set_hash` queued. */
    lemma PushKeeps(ss: State, next: State, f: real, queue: seq<Entry<State>>, open: set<State>, g: map<State, real>)
      requires forall k :: 0 <= k < |queue| ==> queue[k].item in g
      requires ss in g && next in g
      requires OpenQueued(open, queue)
      ensures Scored(ss, queue + [Entry([f, next.0 as real, next.1 as real, next.2 as real], next)], g)
      ensures OpenQueued(open + {next}, queue + [Entry([f, next.0 as real, next.1 as real, next.2 as real], next)])
    {
      var q := queue + [Entry([f, next.0 as real, next.1 as real, next.2 as real], next)];
      forall s | s in open + {next}
        ensures s in ItemsOf(q)
      {
        if s != next {
          var k :| 0 <= k < |queue| && queue[k].item == s;
          assert q[k] == queue[k];
        } else {
          assert q[|q| - 1].item == next;
        }
      }
    }

    /** Scoring `next` anew either queues it or finds it already open; no other state changes. */
    lemma FrontierGrows(goal: Cell, open0: set<State>, open: set<State>, cur: State,
                        g0: map<State, real>, next: State, v: real)
      requires Frontier(goal, open0, {cur}, g0)
      requires open0 <= open && next in open
      ensures Frontier(goal, open, {cur}, g0[next := v])
    {
      var g := g0[next := v];
      forall s | s in g
        ensures s in open || s in {cur} || Closed(s, goal, g.Keys)
      {
        if s != next && s !in open && s != cur {
          assert Closed(s, goal, g0.Keys);
        }
      }
    }

    /**
     * The inner loop of `find_path` for the popped state `cur`: every move
     * out of it that lowers a g-score records `cur` as the predecessor and
     * is queued unless `open_set_hash` already holds it.
     */
    method Expand(ss: State, goal: Cell, cur: State, queue0: seq<Entry<State>>, open0: set<State>,
                  cameFrom0: map<State, State>, g0: map<State, real>)
      returns (queue: seq<Entry<State>>, open: set<State>, cameFrom: map<State, State>, g: map<State, real>)
      requires linearSpeed != 0.0
      requires cur in g0 && CellOf(cur) != goal && cur !in open0
      requires Inv(ss, goal, queue0, open0, cameFrom0, g0, {cur})
      ensures Inv(ss, goal, queue, open, cameFrom, g, {})
    {
      queue, open, cameFrom, g := queue0, open0, cameFrom0, g0;
      var nbrs := NeighborsAndCosts(cur);
      var j := 0;
      while j < |nbrs|
        invariant 0 <= j <= |nbrs|
        invariant cur in g && cur !in open
        invariant Inv(ss, goal, queue, open, cameFrom, g, {cur})
        invariant PartlyClosed(cur, j, g)
      {
        var next := nbrs[j].0;
        var cost := nbrs[j].1;
        assert next == Moves(cur)[j] && cost == StepCost(cur.2, next);
        MoveAt(cur, j);
        if CellOf(next) !in obstacles {
          ghost var g1 := g;
          queue, open, cameFrom, g := Relax(ss, goal, cur, next, cost, queue, open, cameFrom, g);
          PartlyClosedStep(cur, j, g1, g);
        } else {
          PartlyClosedStep(cur, j, g, g);
        }
        j := j + 1;
      }
      FinishExpand(goal, open, g, cur);
    }

    /** The first `j` generated moves out of `cur` that are not blocked are scored. */
    ghost predicate PartlyClosed(cur: State, j: int, g: map<State, real>)
      reads this
    {
      forall k :: 0 <= k < j && k < |Moves(cur)| && CellOf(Moves(cur)[k]) !in obstacles ==> Moves(cur)[k] in g
    }

    lemma PartlyClosedStep(cur: State, j: int, g0: map<State, real>, g: map<State, real>)
      requires 0 <= j < |Moves(cur)|
      requires PartlyClosed(cur, j, g0) && g0.Keys <= g.Keys
      requires CellOf(Moves(cur)[j]) !in obstacles ==> Moves(cur)[j] in g
      ensures PartlyClosed(cur, j + 1, g)
    {
    }

    /** After the inner loop every allowed move out of `cur` is scored, so `cur` is closed. */
    lemma FinishExpand(goal: Cell, open: set<State>, g: map<State, real>, cur: State)
      requires Frontier(goal, open, {cur}, g) && CellOf(cur) != goal
      requires PartlyClosed(cur, |Moves(cur)|, g)
      ensures Frontier(goal, open, {}, g)
    {
      MovesCovered(cur, g.Keys);
      CloseState(goal, open, g, cur);
    }

    lemma MovesCovered(cur: State, found: set<State>)
      requires forall k :: 0 <= k < |Moves(cur)| && CellOf(Moves(cur)[k]) !in obstacles ==> Moves(cur)[k] in found
      ensures forall t :: Step(cur, t) ==> t in found
    {
      MovesExact(cur);
      forall t | Step(cur, t)
        ensures t in found
      {
        assert t in Moves(cur);
        var k :| 0 <= k < |Moves(cur)| && Moves(cur)[k] == t;
      }
    }

    /** A goal cell off the board or blocked, other than the start cell, ends no path from the start. */
    lemma UnreachableGoal(start: Cell, goal: Cell)
      requires start != goal && (!InBounds(rows, cols, goal) || goal in obstacles)
      ensures forall p :: |p| >= 1 && CellOf(p[0]) == start && IsStatePath(p) ==> CellOf(p[|p| - 1]) != goal
    {
      forall p | |p| >= 1 && CellOf(p[0]) == start && IsStatePath(p)
        ensures CellOf(p[|p| - 1]) != goal
      {
        if |p| > 1 {
          assert Step(p[|p| - 2], p[|p| - 1]);
        }
      }
    }

    /**
     * `_reconstruct_path(came_from, current)` once the popped state `cur`
     * is on the goal cell: a path of moves from the start state, unless the
     * predecessor walk is endless, which positive costs rule out.
     */
    method Reconstruct(ss: State, goal: Cell, cameFrom: map<State, State>, g: map<State, real>, cur: State)
      returns (r: Run<seq<State>>)
      requires ParentsValid(cameFrom, g) && Rooted(ss, cameFrom, g) && RankedIfPositive(cameFrom, g)
      requires cur in g && CellOf(cur) == goal
      ensures r.Done? || r.Diverged?
      ensures r.Done? ==> |r.value| >= 1 && r.value[0] == ss && CellOf(r.value[|r.value| - 1]) == goal && IsStatePath(r.value)
      ensures PositiveCosts() ==> !r.Diverged?
    {
      r := Chain.ReconstructToRoot(cameFrom, cur);
      if r.Done? {
        WalkIsPath(ss, cameFrom, g, cur, r.value);
      }
      if PositiveCosts() {
        assert Chain.Ranked(cameFrom, g);
        Chain.RankedNotEndless(cameFrom, g, cur);
      }
    }

    /** Taking the entry at `i` off the queue and out of `open_set_hash` leaves its state pending. */
    lemma PopKeeps(ss: State, goal: Cell, queue: seq<Entry<State>>, open: set<State>, g: map<State, real>, i: int)
      requires Scored(ss, queue, g) && OpenQueued(open, queue) && Frontier(goal, open, {}, g)
      requires 0 <= i < |queue|
      ensures queue[i].item in g
      ensures Scored(ss, RemoveAt(queue, i), g)
      ensures OpenQueued(open - {queue[i].item}, RemoveAt(queue, i))
      ensures Frontier(goal, open - {queue[i].item}, {queue[i].item}, g)
    {
      PopOpenQueued(open, queue, i);
      PopFrontier(goal, open, g, queue[i].item);
    }

    lemma PopOpenQueued(open: set<State>, queue: seq<Entry<State>>, i: int)
      requires OpenQueued(open, queue)
      requires 0 <= i < |queue|
      ensures OpenQueued(open - {queue[i].item}, RemoveAt(queue, i))
    {
      var rest := RemoveAt(queue, i);
      forall s | s in open - {queue[i].item}
        ensures s in ItemsOf(rest)
      {
        var k :| 0 <= k < |queue| && queue[k].item == s;
        if k < i {
          assert rest[k] == queue[k];
        } else {
          assert rest[k - 1] == queue[k];
        }
      }
    }

    lemma PopFrontier(goal: Cell, open: set<State>, g: map<State, real>, x: State)
      requires Frontier(goal, open, {}, g)
      ensures Frontier(goal, open - {x}, {x}, g)
    {
    }

    /** When the queue runs dry every scored state is closed, so no path from the start reaches the goal. */
    lemma Exhausted(ss: State, goal: Cell, queue: seq<Entry<State>>, open: set<State>, g: map<State, real>)
      requires Scored(ss, queue, g) && OpenQueued(open, queue) && Frontier(goal, open, {}, g)
      requires |queue| == 0
      ensures forall p :: |p| >= 1 && p[0] == ss && IsStatePath(p) ==> CellOf(p[|p| - 1]) != goal
    {
      assert open == {};
      forall p | |p| >= 1 && p[0] == ss && IsStatePath(p)
        ensures CellOf(p[|p| - 1]) != goal
      {
        ClosedSetTraps(g.Keys, goal, p);
      }
    }

    /** Once every move out of `cur` is scored, `cur` no longer needs to be pending. */
    lemma CloseState(goal: Cell, open: set<State>, g: map<State, real>, cur: State)
      requires Frontier(goal, open, {cur}, g)
      requires CellOf(cur) != goal && forall t :: Step(cur, t) ==> t in g
      ensures Frontier(goal, open, {}, g)
    {
      assert Closed(cur, goal, g.Keys);
    }

    /**
     * `find_path(start, goal, initial_direction)`. The early exits return
     * `[]`; a found path leads by allowed moves from the start state to a
     * state on the goal cell; `[]` after a search means no path of moves
     * reaches the goal; a zero linear speed raises ZeroDivisionError;
     * walking `came_from` can loop forever only when some move has a
     * non-positive cost. The search is bounded by `fuel` pops.
     */
    method FindPath(start: Cell, goal: Cell, initialDir: int, fuel: nat) returns (r: Run<seq<State>>)
      ensures !InBounds(rows, cols, start) || !InBounds(rows, cols, goal) || start in obstacles || goal in obstacles
              ==> r == Done([])
      ensures r.Done? && r.value != [] ==>
                r.value[0] == (start.0, start.1, NormalizeDir(initialDir))
                && CellOf(r.value[|r.value| - 1]) == goal && IsStatePath(r.value)
      ensures r == Done([]) && InBounds(rows, cols, start) && start !in obstacles ==>
                forall p :: |p| >= 1 && p[0] == (start.0, start.1, NormalizeDir(initialDir)) && IsStatePath(p)
                  ==> CellOf(p[|p| - 1]) != goal
      ensures r.Raised? ==> linearSpeed == 0.0
      ensures PositiveCosts() ==> !r.Diverged?
    {
      if !InBounds(rows, cols, start) || !InBounds(rows, cols, goal) || start in obstacles || goal in obstacles {
        if InBounds(rows, cols, start) && start !in obstacles {
          UnreachableGoal(start, goal);
        }
        return Done([]);
      }
      var ss: State := (start.0, start.1, NormalizeDir(initialDir));
      var queue := [Entry([0.0, ss.0 as real, ss.1 as real, ss.2 as real], ss)];
      var open := {ss};
      var cameFrom: map<State, State> := map[];
      var g: map<State, real> := map[ss := 0.0];
      assert queue[0].item == ss;
      var left := fuel;
      while |queue| > 0
        invariant Inv(ss, goal, queue, open, cameFrom, g, {})
        decreases left
      {
        if left == 0 {
          return OutOfFuel;
        }
        left := left - 1;
        var i := PopIndex(queue);
        var cur := queue[i].item;
        PopKeeps(ss, goal, queue, open, g, i);
        queue := RemoveAt(queue, i);
        open := open - {cur};
        if CellOf(cur) == goal {
          r := Reconstruct(ss, goal, cameFrom, g, cur);
          return;
        }
        if linearSpeed == 0.0 {
          if |Moves(cur)| > 0 {
            return Raised;
          }
          MovesCovered(cur, g.Keys);
          CloseState(goal, open, g, cur);
        } else {
          queue, open, cameFrom, g := Expand(ss, goal, cur, queue, open, cameFrom, g);
        }
      }
      Exhausted(ss, goal, queue, open, g);
      return Done([]);
    }
  }
}
