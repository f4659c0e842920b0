/**
 * What the `MovementClass` variants of the motion link share: turning a
 * planned path of (row, col, heading) states into TURN/FORWARD segments,
 * the heading arithmetic, the label-to-cell converter, and the text of a
 * `VERB,PARAM` request and of the `DONE,VERB,PARAM` acknowledgement the
 * client waits for.
 */
module Motion {
  import opened Common
  import opened Grid
  import opened Text
  import HS = HeadingSearch
  import opened Link

  /** A planned state `(row, col, heading)` as the heading-aware planner returns it. */
  type PathState = HS.State

  /**
   * One `(cmd_type, value)` pair of a compressed path. `_compress_path`
   * only ever emits the two verbs `"TURN"` (value in degrees) and
   * `"FORWARD"` (value in cells).
   */
  datatype Segment = Turn(degrees: int) | Forward(cells: int)

  /** The `cmd_type` string of a segment. */
  function VerbOf(s: Segment): string
  {
    if s.Turn? then "TURN" else "FORWARD"
  }

  /** The `value` of a segment. */
  function ValueOf(s: Segment): int
  {
    if s.Turn? then s.degrees else s.cells
  }

  /** A segment's verb is already upper case, and it is `"TURN"` exactly for a turn. */
  lemma VerbUpper(s: Segment)
    ensures Upper(VerbOf(s)) == VerbOf(s)
    ensures VerbOf(s) == "TURN" <==> s.Turn?
  {
    assert "FORWARD" != "TURN";
  }

  /** One command `execute_path` sent, and whether its acknowledgement matched. */
  datatype Attempt = Attempt(message: string, ok: bool)

  function Messages(log: seq<Attempt>): (m: seq<string>)
    ensures |m| == |log|
    ensures forall k :: 0 <= k < |log| ==> m[k] == log[k].message
  {
    if |log| == 0 then [] else Messages(log[..|log| - 1]) + [log[|log| - 1].message]
  }

  // ---------------------------------------------------------------- headings

  /** The turn `_compress_path` computes between two headings: `(dir2 - dir1) % 360`, moved into (-180, 180]. */
  function TurnDelta(dir1: int, dir2: int): (t: int)
    ensures -180 < t <= 180
  {
    var d := (dir2 - dir1) % 360;
    if d > 180 then d - 360 else d
  }

  /** The turn is the change of heading up to whole turns. */
  lemma TurnDeltaCongruent(dir1: int, dir2: int)
    ensures (TurnDelta(dir1, dir2) - (dir2 - dir1)) % 360 == 0
  {
  }

  /** `_calculate_angle_difference(actual, expected)`: the error taken into [-180, 180). */
  function AngleDifference(actual: int, expected: int): (d: int)
    ensures -180 <= d < 180
  {
    (actual - expected + 180) % 360 - 180
  }

  /** The error is the true difference up to whole turns. */
  lemma AngleDifferenceCongruent(actual: int, expected: int)
    ensures (AngleDifference(actual, expected) - (actual - expected)) % 360 == 0
  {
  }

  /** Two angles that agree modulo 360 differ by a whole number of turns. */
  lemma {:induction false} Turns(x: int, y: int, z: int)
    requires (x - z) % 360 == 0 && (y - z) % 360 == 0
    ensures x - y == 360 * ((x - y) / 360)
  {
    assert x - z == 360 * ((x - z) / 360);
    assert y - z == 360 * ((y - z) / 360);
    DivModUnique(x - y, 360, (x - z) / 360 - (y - z) / 360, 0);
  }

  /** No other angle congruent to the error is closer to zero: the difference is the smallest one. */
  lemma {:induction false} AngleDifferenceSmallest(actual: int, expected: int, x: int)
    requires (x - (actual - expected)) % 360 == 0
    ensures Abs(AngleDifference(actual, expected)) <= Abs(x)
  {
    var d := AngleDifference(actual, expected);
    AngleDifferenceCongruent(actual, expected);
    Turns(x, d, actual - expected);
    var k := (x - d) / 360;
    if k >= 1 {
      MulAtLeast(360, k);
    } else if k <= -1 {
      MulAtLeast(360, -k);
    }
  }

  /** Adding a turn that is congruent to the change of heading lands on the new heading. */
  lemma {:induction false} LandsOn(a: int, t: int, b: int)
    requires 0 <= b < 360
    requires (t - (b - a)) % 360 == 0
    ensures (a + t) % 360 == b
  {
    var k := (t - (b - a)) / 360;
    assert t - (b - a) == 360 * k;
    DivModUnique(a + t, 360, k, b);
  }

  // ---------------------------------------------------------------- path compression

  /** How a variant sizes a FORWARD segment. */
  datatype StepRule =
    | ByHypot      // `max(int(math.hypot(dr, dc) / cells_per_command), 1)`
    | ByManhattan  // `abs(dr) + abs(dc)`

  const CellsPerCommand: int := 1

  /** `n * n`, as the sum of the first `n` odd numbers. */
  function Sq(n: nat): nat
  {
    if n == 0 then 0 else Sq(n - 1) + 2 * n - 1
  }

  lemma {:induction false} SqIsProduct(n: nat)
    ensures Sq(n) == n * n
  {
    if n > 0 {
      SqIsProduct(n - 1);
      assert (n - 1) * (n - 1) == n * n - 2 * n + 1;
    }
  }

  lemma {:induction false} SqMonotone(a: nat, b: nat)
    requires a < b
    ensures Sq(a) < Sq(b)
    decreases b - a
  {
    if a + 1 < b {
      SqMonotone(a, b - 1);
    }
  }

  lemma {:induction false} SqSuperadditive(a: nat, b: nat)
    ensures Sq(a) + Sq(b) <= Sq(a + b)
    decreases b
  {
    if b > 0 {
      SqSuperadditive(a, b - 1);
    }
  }

  /** The floor of the square root of `x`, counting up from `r`. */
  function RootFrom(x: nat, r: nat): nat
    requires Sq(r) <= x
    decreases x - Sq(r)
  {
    if Sq(r + 1) <= x then RootFrom(x, r + 1) else r
  }

  /** `int(math.hypot(dr, dc))` for integer offsets, `x` being `dr * dr + dc * dc`. */
  function FloorSqrt(x: nat): nat
  {
    RootFrom(x, 0)
  }

  /** Counting up from `r` stops at the last number whose square is at most `x`. */
  lemma {:induction false} RootFromBounds(x: nat, r: nat)
    requires Sq(r) <= x
    ensures Sq(RootFrom(x, r)) <= x < Sq(RootFrom(x, r) + 1)
    decreases x - Sq(r)
  {
    if Sq(r + 1) <= x {
      RootFromBounds(x, r + 1);
    }
  }

  /** The floor of the exact square root. */
  lemma FloorSqrtBounds(x: nat)
    ensures Sq(FloorSqrt(x)) <= x < Sq(FloorSqrt(x) + 1)
  {
    RootFromBounds(x, 0);
  }

  /** Only one number has its square at most `x` and the next square above it. */
  lemma {:induction false} RootUnique(x: nat, s: nat, t: nat)
    requires Sq(s) <= x < Sq(s + 1) && Sq(t) <= x < Sq(t + 1)
    ensures s == t
  {
    if s < t {
      if s + 1 < t {
        SqMonotone(s + 1, t);
      }
    } else if t < s {
      if t + 1 < s {
        SqMonotone(t + 1, s);
      }
    }
  }

  /** The root of a square is its side. */
  lemma {:induction false} FloorSqrtSquare(k: nat)
    ensures FloorSqrt(Sq(k)) == k
  {
    assert Sq(k + 1) == Sq(k) + 2 * k + 1;
    FloorSqrtBounds(Sq(k));
    RootUnique(Sq(k), FloorSqrt(Sq(k)), k);
  }

  /** A number no larger than `Sq(m)` has a root no larger than `m`. */
  lemma {:induction false} RootAtMost(x: nat, m: nat)
    requires x <= Sq(m)
    ensures FloorSqrt(x) <= m
  {
    var s := FloorSqrt(x);
    FloorSqrtBounds(x);
    if s > m {
      SqMonotone(m, s);
    }
  }

  /** The root of a sum of squares is at most the sum of the sides. */
  lemma {:induction false} HypotAtMost(a: nat, b: nat)
    ensures FloorSqrt(Sq(a) + Sq(b)) <= a + b
  {
    SqSuperadditive(a, b);
    RootAtMost(Sq(a) + Sq(b), a + b);
  }

  /** The FORWARD count of a move by `(dr, dc)`. */
  function ForwardCount(rule: StepRule, dr: int, dc: int): int
  {
    match rule
    case ByHypot =>
      var k := FloorSqrt(Sq(Abs(dr)) + Sq(Abs(dc))) / CellsPerCommand;
      if k > 1 then k else 1
    case ByManhattan => Abs(dr) + Abs(dc)
  }

  /**
   * A move is always at least one FORWARD and never more than its
   * Manhattan length; for a straight move both rules count its cells, and
   * a diagonal unit move is one step for the hypotenuse and two for the
   * Manhattan rule.
   */
  lemma {:induction false} ForwardCountBounds(rule: StepRule, dr: int, dc: int)
    requires dr != 0 || dc != 0
    ensures 1 <= ForwardCount(rule, dr, dc) <= Abs(dr) + Abs(dc)
    ensures dr == 0 || dc == 0 ==> ForwardCount(rule, dr, dc) == Abs(dr) + Abs(dc)
    ensures Abs(dr) == 1 && Abs(dc) == 1 ==> ForwardCount(rule, dr, dc) == if rule == ByHypot then 1 else 2
  {
    if rule == ByHypot {
      HypotAtMost(Abs(dr), Abs(dc));
      if dr == 0 {
        assert Sq(0) == 0;
        FloorSqrtSquare(Abs(dc));
      } else if dc == 0 {
        assert Sq(0) == 0;
        FloorSqrtSquare(Abs(dr));
      }
      if Abs(dr) == 1 && Abs(dc) == 1 {
        RootOfTwo();
      }
    }
  }

  lemma {:induction false} RootOfTwo()
    ensures FloorSqrt(Sq(1) + Sq(1)) == 1
  {
    assert Sq(1) == 1 && Sq(2) == 4;
    FloorSqrtBounds(2);
    RootUnique(2, FloorSqrt(2), 1);
  }

  /** The segments `_compress_path` emits for one consecutive pair: a TURN when the heading changes by more than a degree, then a FORWARD when the cell changes. */
  function PairSegments(rule: StepRule, s1: PathState, s2: PathState): seq<Segment>
  {
    TurnPart(s1, s2) + MovePart(rule, s1, s2)
  }

  /** The TURN of a pair, if any. */
  function TurnPart(s1: PathState, s2: PathState): seq<Segment>
  {
    var t := TurnDelta(s1.2, s2.2);
    if Abs(t) > 1 then [Turn(t)] else []
  }

  /** The FORWARD of a pair, if any. */
  function MovePart(rule: StepRule, s1: PathState, s2: PathState): seq<Segment>
  {
    var dr, dc := s2.0 - s1.0, s2.1 - s1.1;
    if dr == 0 && dc == 0 then [] else [Forward(ForwardCount(rule, dr, dc))]
  }

  /** The segments of every consecutive pair of `path`, in path order; a path shorter than two has none. */
  function Compressed(rule: StepRule, path: seq<PathState>): seq<Segment>
  {
    if |path| < 2 then []
    else Compressed(rule, path[..|path| - 1]) + PairSegments(rule, path[|path| - 2], path[|path| - 1])
  }

  /** `_compress_path(path)`. */
  method CompressPath(rule: StepRule, path: seq<PathState>) returns (commands: seq<Segment>)
    ensures commands == Compressed(rule, path)
  {
    if |path| < 2 {
      return [];
    }
    commands := [];
    var current := path[0];
    for i := 1 to |path|
      invariant current == path[i - 1]
      invariant commands == Compressed(rule, path[..i])
    {
      var next := path[i];
      ghost var before := commands;
      commands := AppendTurn(commands, current, next);
      commands := AppendMove(rule, commands, current, next);
      AppendAssoc(before, TurnPart(current, next), MovePart(rule, current, next));
      current := next;
      CompressedStep(rule, path, i);
    }
    assert path[..|path|] == path;
  }

  /** The heading half of the loop body: a TURN when the heading changes by more than a degree. */
  method AppendTurn(commands: seq<Segment>, current: PathState, next: PathState) returns (out: seq<Segment>)
    ensures out == commands + TurnPart(current, next)
  {
    var (_, _, dir1) := current;
    var (_, _, dir2) := next;
    var turnDiff := (dir2 - dir1) % 360;
    if turnDiff > 180 {
      turnDiff := turnDiff - 360;
    }
    out := commands;
    if Abs(turnDiff) > 1 {
      out := out + [Turn(turnDiff)];
    }
  }

  /** The cell half of the loop body: a FORWARD when the cell changes. */
  method AppendMove(rule: StepRule, commands: seq<Segment>, current: PathState, next: PathState) returns (out: seq<Segment>)
    ensures out == commands + MovePart(rule, current, next)
  {
    var (r1, c1, _) := current;
    var (r2, c2, _) := next;
    var dr, dc := r2 - r1, c2 - c1;
    out := commands;
    if dr == 0 && dc == 0 {
    } else {
      var steps := ForwardCount(rule, dr, dc);
      out := out + [Forward(steps)];
    }
  }

  /** Extending a prefix of `path` by one state adds that pair's segments. */
  lemma CompressedStep(rule: StepRule, path: seq<PathState>, i: nat)
    requires 1 <= i < |path|
    ensures Compressed(rule, path[..i + 1]) == Compressed(rule, path[..i]) + PairSegments(rule, path[i - 1], path[i])
  {
    assert path[..i + 1][..i] == path[..i];
  }

  /** The number of turns (`turns`) or of forward moves (`!turns`) among `segs`. */
  function Tally(segs: seq<Segment>, turns: bool): nat
  {
    if |segs| == 0 then 0
    else Tally(segs[..|segs| - 1], turns) + (if segs[|segs| - 1].Turn? == turns then 1 else 0)
  }

  lemma {:induction false} TallyAppend(a: seq<Segment>, b: seq<Segment>, turns: bool)
    ensures Tally(a + b, turns) == Tally(a, turns) + Tally(b, turns)
    decreases |b|
  {
    if |b| > 0 {
      assert (a + b)[..|a + b| - 1] == a + b[..|b| - 1];
      TallyAppend(a, b[..|b| - 1], turns);
    } else {
      assert a + b == a;
    }
  }

  /** The consecutive pairs of `path` whose cells differ. */
  function MovingPairs(path: seq<PathState>): nat
  {
    if |path| < 2 then 0
    else
      var p, q := path[|path| - 2], path[|path| - 1];
      MovingPairs(path[..|path| - 1]) + (if p.0 != q.0 || p.1 != q.1 then 1 else 0)
  }

  /** The consecutive pairs of `path` whose headings differ by more than a degree. */
  function TurningPairs(path: seq<PathState>): nat
  {
    if |path| < 2 then 0
    else TurningPairs(path[..|path| - 1]) + (if Abs(TurnDelta(path[|path| - 2].2, path[|path| - 1].2)) > 1 then 1 else 0)
  }

  /** A segment as `_compress_path` makes it: a turn of 2 to 180 degrees either way, or at least one cell forward. */
  predicate WellFormed(s: Segment)
  {
    match s
    case Turn(d) => 1 < Abs(d) <= 180
    case Forward(n) => n >= 1
  }

  /** What one pair contributes: its number of segments of each kind, all well formed. */
  lemma {:induction false} PairCounts(rule: StepRule, p: PathState, q: PathState)
    ensures Tally(PairSegments(rule, p, q), false) == (if p.0 != q.0 || p.1 != q.1 then 1 else 0)
    ensures Tally(PairSegments(rule, p, q), true) == (if Abs(TurnDelta(p.2, q.2)) > 1 then 1 else 0)
    ensures |PairSegments(rule, p, q)| == Tally(PairSegments(rule, p, q), false) + Tally(PairSegments(rule, p, q), true)
    ensures forall k :: 0 <= k < |PairSegments(rule, p, q)| ==> WellFormed(PairSegments(rule, p, q)[k])
  {
    var turn, fwd := TurnPart(p, q), MovePart(rule, p, q);
    TurnPartCounts(p, q);
    MovePartCounts(rule, p, q);
    TallyAppend(turn, fwd, false);
    TallyAppend(turn, fwd, true);
    assert forall k :: |turn| <= k < |turn + fwd| ==> (turn + fwd)[k] == fwd[k - |turn|];
  }

  lemma TurnPartCounts(p: PathState, q: PathState)
    ensures Tally(TurnPart(p, q), false) == 0
    ensures Tally(TurnPart(p, q), true) == |TurnPart(p, q)| == (if Abs(TurnDelta(p.2, q.2)) > 1 then 1 else 0)
    ensures forall k :: 0 <= k < |TurnPart(p, q)| ==> WellFormed(TurnPart(p, q)[k])
  {
    if |TurnPart(p, q)| == 1 {
      assert TurnPart(p, q)[..0] == [];
    }
  }

  lemma MovePartCounts(rule: StepRule, p: PathState, q: PathState)
    ensures Tally(MovePart(rule, p, q), true) == 0
    ensures Tally(MovePart(rule, p, q), false) == |MovePart(rule, p, q)| == (if p.0 != q.0 || p.1 != q.1 then 1 else 0)
    ensures forall k :: 0 <= k < |MovePart(rule, p, q)| ==> WellFormed(MovePart(rule, p, q)[k])
  {
    if p.0 != q.0 || p.1 != q.1 {
      ForwardCountBounds(rule, q.0 - p.0, q.1 - p.1);
      assert MovePart(rule, p, q)[..0] == [];
    }
  }

  /**
   * Compression never merges moves: there is one FORWARD per pair that
   * changes cell and one TURN per pair that changes heading by more than a
   * degree, and nothing else.
   */
  lemma {:induction false} CompressedCounts(rule: StepRule, path: seq<PathState>)
    ensures Tally(Compressed(rule, path), false) == MovingPairs(path)
    ensures Tally(Compressed(rule, path), true) == TurningPairs(path)
    ensures |Compressed(rule, path)| == MovingPairs(path) + TurningPairs(path)
    ensures forall k :: 0 <= k < |Compressed(rule, path)| ==> WellFormed(Compressed(rule, path)[k])
    decreases |path|
  {
    if |path| >= 2 {
      var front := path[..|path| - 1];
      var p, q := path[|path| - 2], path[|path| - 1];
      CompressedCounts(rule, front);
      assert front[|front| - 1] == p;
      var head, tail := Compressed(rule, front), PairSegments(rule, p, q);
      assert Compressed(rule, path) == head + tail;
      PairCounts(rule, p, q);
      TallyAppend(head, tail, false);
      TallyAppend(head, tail, true);
      AppendAt(head, tail);
    }
  }

  /**
   * A path the heading-aware planner returns: every heading is one of the
   * four it uses, and each state lies one cell on from the one before, in
   * its own heading.
   */
  predicate Driven(path: seq<PathState>)
  {
    (forall i :: 0 <= i < |path| ==> path[i].2 in HS.Headings)
    && (forall i :: 1 <= i < |path| ==> HS.CellOf(path[i]) == HS.Shift(HS.CellOf(path[i - 1]), path[i].2))
  }

  /** A prefix of a planner path is one too. */
  lemma DrivenFront(path: seq<PathState>)
    requires |path| >= 2 && Driven(path)
    ensures Driven(path[..|path| - 1])
    ensures HS.CellOf(path[|path| - 1]) == HS.Shift(HS.CellOf(path[|path| - 2]), path[|path| - 1].2)
    ensures path[|path| - 2].2 in HS.Headings && path[|path| - 1].2 in HS.Headings
  {
  }

  /** `n` single-cell FORWARD segments. */
  function Forwards(n: nat): (r: seq<Segment>)
    ensures |r| == n && forall k :: 0 <= k < n ==> r[k] == Forward(1)
  {
    seq(n, _ => Forward(1))
  }

  /** A planner step moves exactly one cell, along a row or a column. */
  lemma UnitStep(p: PathState, q: PathState)
    requires HS.CellOf(q) == HS.Shift(HS.CellOf(p), q.2)
    ensures Abs(q.0 - p.0) + Abs(q.1 - p.1) == 1
    ensures q.0 - p.0 == 0 || q.1 - p.1 == 0
  {
  }

  /** Between two of the planner's headings the turn is a quarter or half turn, or none exactly when they agree. */
  lemma QuarterTurns(dir1: int, dir2: int)
    requires dir1 in HS.Headings && dir2 in HS.Headings
    ensures TurnDelta(dir1, dir2) in {0, 90, -90, 180}
    ensures TurnDelta(dir1, dir2) == 0 <==> dir1 == dir2
  {
  }

  /** The segments of one planner step whose heading changes by `t`: the turn, unless `t` is 0, then one cell forward. */
  function StepSegments(t: int): seq<Segment>
  {
    (if t == 0 then [] else [Turn(t)]) + [Forward(1)]
  }

  /** A step's segments are quarter or half turns and single-cell FORWARDs, with exactly one FORWARD. */
  lemma {:induction false} StepSegmentsKinds(t: int)
    requires t in {0, 90, -90, 180}
    ensures forall k :: 0 <= k < |StepSegments(t)| ==> StepSegments(t)[k] in {Turn(90), Turn(-90), Turn(180), Forward(1)}
    ensures Tally(StepSegments(t), false) == 1
  {
    var turn: seq<Segment> := if t == 0 then [] else [Turn(t)];
    TallyAppend(turn, [Forward(1)], false);
    assert [Forward(1)][..0] == [];
    if t != 0 {
      assert turn[..0] == [];
    }
  }

  /** What one planner step turns into: a quarter or half turn when the heading changes, then one cell forward. */
  lemma {:induction false} DrivenPair(rule: StepRule, p: PathState, q: PathState)
    requires p.2 in HS.Headings && q.2 in HS.Headings
    requires HS.CellOf(q) == HS.Shift(HS.CellOf(p), q.2)
    ensures PairSegments(rule, p, q) == StepSegments(TurnDelta(p.2, q.2))
    ensures TurnDelta(p.2, q.2) in {0, 90, -90, 180}
    ensures TurnDelta(p.2, q.2) == 0 <==> p.2 == q.2
  {
    UnitStep(p, q);
    QuarterTurns(p.2, q.2);
    ForwardCountBounds(rule, q.0 - p.0, q.1 - p.1);
  }

  /** A planner path compresses into quarter or half turns and single-cell FORWARDs only. */
  lemma {:induction false} DrivenCompressed(rule: StepRule, path: seq<PathState>)
    requires |path| >= 1 && Driven(path)
    ensures forall k :: 0 <= k < |Compressed(rule, path)| ==>
              Compressed(rule, path)[k] in {Turn(90), Turn(-90), Turn(180), Forward(1)}
    decreases |path|
  {
    if |path| >= 2 {
      var front := path[..|path| - 1];
      var p, q := path[|path| - 2], path[|path| - 1];
      assert front[|front| - 1] == p;
      DrivenFront(path);
      DrivenCompressed(rule, front);
      DrivenPair(rule, p, q);
      StepSegmentsKinds(TurnDelta(p.2, q.2));
      var head, tail := Compressed(rule, front), PairSegments(rule, p, q);
      assert Compressed(rule, path) == head + tail;
      AppendAt(head, tail);
    }
  }

  /** A planner path compresses into one FORWARD per step. */
  lemma {:induction false} DrivenForwards(rule: StepRule, path: seq<PathState>)
    requires |path| >= 1 && Driven(path)
    ensures Tally(Compressed(rule, path), false) == |path| - 1
    decreases |path|
  {
    if |path| >= 2 {
      var front := path[..|path| - 1];
      var p, q := path[|path| - 2], path[|path| - 1];
      assert front[|front| - 1] == p;
      DrivenFront(path);
      DrivenForwards(rule, front);
      DrivenPair(rule, p, q);
      StepSegmentsKinds(TurnDelta(p.2, q.2));
      var head, tail := Compressed(rule, front), PairSegments(rule, p, q);
      assert Compressed(rule, path) == head + tail;
      TallyAppend(head, tail, false);
    }
  }

  /** A planner path that keeps one heading becomes `|path| - 1` separate FORWARDs, never one long one. */
  lemma {:induction false} SteadyCompressed(rule: StepRule, path: seq<PathState>)
    requires |path| >= 1 && Driven(path)
    requires forall i :: 0 <= i < |path| ==> path[i].2 == path[0].2
    ensures Compressed(rule, path) == Forwards(|path| - 1)
    decreases |path|
  {
    if |path| >= 2 {
      var front := path[..|path| - 1];
      var p, q := path[|path| - 2], path[|path| - 1];
      assert front[|front| - 1] == p;
      DrivenFront(path);
      assert forall i :: 0 <= i < |front| ==> front[i].2 == front[0].2;
      SteadyCompressed(rule, front);
      DrivenPair(rule, p, q);
      assert p.2 == path[0].2 == q.2;
      assert PairSegments(rule, p, q) == [Forward(1)];
      assert Forwards(|path| - 1) == Forwards(|path| - 2) + [Forward(1)];
    }
  }

  /** How `execute_path` advances `expected_angle` over segments: each TURN adds its value, modulo 360. */
  function Replay(angle: int, segs: seq<Segment>): int
    decreases |segs|
  {
    if |segs| == 0 then angle
    else Replay(if segs[0].Turn? then (angle + segs[0].degrees) % 360 else angle, segs[1..])
  }

  lemma {:induction false} ReplayAppend(angle: int, a: seq<Segment>, b: seq<Segment>)
    ensures Replay(angle, a + b) == Replay(Replay(angle, a), b)
    decreases |a|
  {
    if |a| > 0 {
      assert (a + b)[1..] == a[1..] + b;
      assert (a + b)[0] == a[0];
      var next := if a[0].Turn? then (angle + a[0].degrees) % 360 else angle;
      ReplayAppend(next, a[1..], b);
    } else {
      assert a + b == b;
    }
  }

  /** Replaying one pair's segments from its first heading lands on its second, when that is in [0, 360) and the change is not a single degree. */
  lemma {:induction false} ReplayPair(rule: StepRule, p: PathState, q: PathState)
    requires 0 <= p.2 < 360 && 0 <= q.2 < 360
    requires Abs(TurnDelta(p.2, q.2)) != 1
    ensures Replay(p.2, PairSegments(rule, p, q)) == q.2
  {
    var t := TurnDelta(p.2, q.2);
    TurnDeltaCongruent(p.2, q.2);
    var fwd := MovePart(rule, p, q);
    assert Replay(q.2, fwd) == q.2 by {
      if |fwd| == 1 {
        assert fwd[1..] == [];
      }
    }
    if Abs(t) > 1 {
      LandsOn(p.2, t, q.2);
      assert PairSegments(rule, p, q) == [Turn(t)] + fwd;
      assert (PairSegments(rule, p, q))[1..] == fwd;
    } else {
      assert t == 0;
      Turns(q.2, p.2, q.2 - p.2 + p.2);
      assert p.2 == q.2 by {
        var k := (q.2 - p.2) / 360;
        if k >= 1 {
          MulAtLeast(360, k);
        } else if k <= -1 {
          MulAtLeast(360, -k);
        }
      }
      assert PairSegments(rule, p, q) == fwd;
    }
  }

  /**
   * Replaying the TURNs of a compressed path from its first heading lands
   * on its last heading, provided headings are given in [0, 360) and no
   * step changes heading by exactly one degree (such a change is dropped).
   */
  lemma {:induction false} ReplayCompressed(rule: StepRule, path: seq<PathState>)
    requires |path| >= 1
    requires forall i :: 0 <= i < |path| ==> 0 <= path[i].2 < 360
    requires forall i :: 1 <= i < |path| ==> Abs(TurnDelta(path[i - 1].2, path[i].2)) != 1
    ensures Replay(path[0].2, Compressed(rule, path)) == path[|path| - 1].2
    decreases |path|
  {
    if |path| >= 2 {
      var front := path[..|path| - 1];
      var p, q := path[|path| - 2], path[|path| - 1];
      assert front[|front| - 1] == p && front[0] == path[0];
      ReplayCompressed(rule, front);
      ReplayAppend(path[0].2, Compressed(rule, front), PairSegments(rule, p, q));
      ReplayPair(rule, p, q);
    }
  }

  // ---------------------------------------------------------------- labels

  /**
   * `_converter(cell_label)`: a 1-based row-major cell label back to
   * (row, col) on a board `cols` wide, with Python's floor division and
   * modulo; `cols == 0` raises ZeroDivisionError (None).
   */
  function Converter(cellLabel: int, cols: int): (rc: Option<Cell>)
    ensures rc.None? <==> cols == 0
  {
    if cols == 0 then None
    else if FloorMod(cellLabel, cols) == 0 then Some((FloorDiv(cellLabel, cols) - 1, cols - 1))
    else Some((FloorDiv(cellLabel, cols), FloorMod(cellLabel, cols) - 1))
  }

  /** The cellLabel of a cell: `row * cols + col + 1`. */
  function Label(cell: Cell, cols: int): int
  {
    cell.0 * cols + cell.1 + 1
  }

  /** For a positive cellLabel the converter is `((cellLabel - 1) // cols, (cellLabel - 1) % cols)`, a cell of the board whose cellLabel it is. */
  lemma {:induction false} ConverterOfLabel(cellLabel: int, cols: int)
    requires cols >= 1 && cellLabel >= 1
    ensures Converter(cellLabel, cols) == Some(((cellLabel - 1) / cols, (cellLabel - 1) % cols))
    ensures Converter(cellLabel, cols).value.0 >= 0 && 0 <= Converter(cellLabel, cols).value.1 < cols
    ensures Label(Converter(cellLabel, cols).value, cols) == cellLabel
  {
    var q, r := (cellLabel - 1) / cols, (cellLabel - 1) % cols;
    assert cellLabel - 1 == cols * q + r;
    if r == cols - 1 {
      DivModUnique(cellLabel, cols, q + 1, 0);
    } else {
      DivModUnique(cellLabel, cols, q, r + 1);
    }
    assert q >= 0 by {
      if q < 0 {
        MulAtLeast(cols, -q);
      }
    }
  }

  /** Converting the cellLabel of a board cell gives the cell back. */
  lemma {:induction false} ConverterLabel(cell: Cell, cols: int)
    requires cols >= 1 && cell.0 >= 0 && 0 <= cell.1 < cols
    ensures Converter(Label(cell, cols), cols) == Some(cell)
  {
    var cellLabel := Label(cell, cols);
    assert cell.0 * cols >= 0;
    DivModUnique(cellLabel - 1, cols, cell.0, cell.1);
    ConverterOfLabel(cellLabel, cols);
  }

  // ---------------------------------------------------------------- the request and its acknowledgement

  /** `f"{command.upper()},{param}\n"`. */
  function Message(command: string, param: string): string
  {
    Upper(command) + "," + param + "\n"
  }

  /** `f"DONE,{command.upper()},{param}"`. */
  function ExpectedAck(command: string, param: string): string
  {
    "DONE," + Upper(command) + "," + param
  }

  /** The acknowledgement check: the received text, stripped, is exactly the expected ack. */
  predicate AckMatches(received: string, command: string, param: string)
  {
    Strip(received) == ExpectedAck(command, param)
  }

  /** A request line is its command, upper-cased, a comma, the parameter and one newline; upper-casing the command first changes nothing. */
  lemma MessageShape(command: string, param: string)
    ensures Message(command, param)[..|command|] == Upper(command)
    ensures Message(command, param)[|command|] == ','
    ensures Message(command, param)[|command| + 1..] == param + "\n"
    ensures Message(Upper(command), param) == Message(command, param)
    ensures ExpectedAck(Upper(command), param) == ExpectedAck(command, param)
  {
    UpperIdempotent(command);
  }

  /** One `sendall` of `Message(command, param)` and one `recv`: the ack is accepted only when the stripped reply is exactly `DONE,COMMAND,PARAM`. */
  function Request(command: string, param: string, script: seq<Reply>): (r: (bool, seq<Reply>))
  {
    var x := Exchange(script);
    (x.sent && x.received.Some? && AckMatches(x.received.value, command, param), x.rest)
  }

  /** A request is acknowledged exactly when the next reply is an answer whose stripped text is the expected ack. */
  lemma RequestAcked(command: string, param: string, script: seq<Reply>)
    ensures Request(command, param, script).0 <==>
              |script| > 0 && script[0].Answer? && Strip(script[0].text) == ExpectedAck(command, param)
    ensures Request(command, param, script).1 == if |script| == 0 then [] else script[1..]
  {
  }

  /** The line the firmware answers `command,param` with when it has carried it out. */
  function AckLine(command: string, param: string): Reply
  {
    Answer(ExpectedAck(command, param) + "\n")
  }

  /** An acknowledgement line is accepted for its own request, and is the only reply consumed. */
  lemma AckLineAccepted(command: string, param: string, more: seq<Reply>)
    requires |param| > 0 && !IsSpace(param[|param| - 1])
    ensures Request(command, param, [AckLine(command, param)] + more) == (true, more)
  {
    var e := ExpectedAck(command, param);
    assert e[0] == 'D' && e[|e| - 1] == param[|param| - 1];
    StripNewline(e);
    assert ([AckLine(command, param)] + more)[1..] == more;
  }
}
