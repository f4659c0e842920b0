/**
 * `noros/test/movement_class5.py`: the client that drives the robot
 * along a planned path one cell at a time, waits for each
 * `DONE,VERB,PARAM` acknowledgement, and after each move corrects the
 * heading in 5-degree TURNs and the position in encoder-step CORRECTIONs,
 * from the detector's pose readings.
 */
module Movement5 {
  import opened Common
  import opened Grid
  import opened Text
  import opened Motion
  import opened Link
  import HS = HeadingSearch

  /** `position_threshold`, in detector pixels. */
  const PositionThreshold: int := 10
  /** `orientation_threshold`, in degrees. */
  const OrientationThreshold: int := 5
  /** `steps_per_cell`: encoder steps of one cell; one cell is 135 pixels (`conversion_factor = 51 / 135`). */
  const StepsPerCell: int := 51
  const PixelsPerCell: int := 135

  /** The verbs `_send_command_wait_ack` accepts. */
  const ValidCommands: seq<string> := ["FORWARD", "BACK", "TURN", "STOP", "DANCE", "CORRECTION"]

  // ---------------------------------------------------------------- sizing the corrections

  /** The heading correction of `_continuous_angle_correction`: `min(|diff|, 5)`, positive when the error is negative. */
  function AngleStep(diff: int): (c: int)
    ensures diff < 0 ==> c > 0
    ensures diff > 0 ==> c < 0
    ensures Abs(c) <= 5 && Abs(c) <= Abs(diff)
  {
    var m := if Abs(diff) < 5 then Abs(diff) else 5;
    if diff < 0 then m else -m
  }

  /**
   * Outside the threshold every correction is a full 5 degrees towards
   * the expected heading: turning by it cuts the error by exactly 5.
   */
  lemma AngleStepCloses(diff: int)
    requires Abs(diff) > OrientationThreshold
    ensures Abs(AngleStep(diff)) == 5
    ensures Abs(diff + AngleStep(diff)) == Abs(diff) - 5
  {
  }

  /** `int(round(d * 51 / 135))` for a distance `d >= 0`: `17 d / 45` rounded to the nearest integer, which is never a tie. */
  function RoundedSteps(d: nat): nat
  {
    (34 * d + 45) / 90
  }

  /** The rounding is to the nearest integer: `|r - 17 d / 45| < 1/2`, both ways, so there is no tie to break. */
  lemma RoundedStepsNearest(d: nat)
    ensures -45 <= 90 * RoundedSteps(d) - 34 * d < 45
    ensures 90 * RoundedSteps(d) - 34 * d != -45
  {
    var r := RoundedSteps(d);
    var rem := (34 * d + 45) % 90;
    assert 34 * d + 45 == 90 * r + rem;
    assert rem == 2 * (17 * d + 22 - 45 * r) + 1;
  }

  /** `correction_steps = max(5, int(round(abs(diff) * conversion_factor)))`. */
  function CorrectionSteps(diff: int): (n: int)
    ensures n >= 5
    ensures n == 5 || n == RoundedSteps(Abs(diff))
  {
    var r := RoundedSteps(Abs(diff));
    if r > 5 then r else 5
  }

  // ---------------------------------------------------------------- the position correction

  /**
   * The signed distance `_continuous_position_correction` measures for a
   * heading: `expected - current` along x at 0, reversed at 180; along y
   * at 90, reversed at 270; nothing for any other heading.
   */
  function AxisDiff(heading: int, expected: (int, int), current: (int, int)): Option<int>
  {
    if heading == 0 then Some(expected.0 - current.0)
    else if heading == 180 then Some(current.0 - expected.0)
    else if heading == 90 then Some(expected.1 - current.1)
    else if heading == 270 then Some(current.1 - expected.1)
    else None
  }

  /** The direction the source picks for a measured distance, as written: `None` within the threshold. */
  function DirectionAsWritten(heading: int, diff: int): (dir: Option<string>)
    ensures dir.Some? <==> Abs(diff) > PositionThreshold
  {
    if diff > PositionThreshold then
      Some(if heading == 0 then "BACK" else if heading == 180 then "FORWARD" else if heading == 90 then "Forward" else "BACK")
    else if diff < -PositionThreshold then
      Some(if heading == 0 then "FORWARD" else if heading == 180 then "BACK" else if heading == 90 then "BACK" else "FORWARD")
    else None
  }

  /**
   * The direction as evidently intended (the comment on the heading-0
   * branch says the robot moves forward when it is short of the centre):
   * forward when short of the centre, back when past it, at every
   * heading; heading 90 keeps its mixed-case `"Forward"`.
   */
  function Direction(heading: int, diff: int): (dir: Option<string>)
    ensures dir.Some? <==> Abs(diff) > PositionThreshold
  {
    if diff > PositionThreshold then Some(if heading == 90 then "Forward" else "FORWARD")
    else if diff < -PositionThreshold then Some("BACK")
    else None
  }

  /** Where a move of `dist` pixels along `heading` (negative for backwards) takes the robot: 0 is +x, 90 is +y, 180 is -x, 270 is -y, as in the planner's `Shift`. */
  function Advance(heading: int, pos: (int, int), dist: int): (int, int)
  {
    if heading == 0 then (pos.0 + dist, pos.1)
    else if heading == 90 then (pos.0, pos.1 + dist)
    else if heading == 180 then (pos.0 - dist, pos.1)
    else (pos.0, pos.1 - dist)
  }

  /** The signed length of a move in `direction`: the firmware upper-cases the verb, so `"Forward"` is forward. */
  function Signed(direction: string, dist: int): int
  {
    if Upper(direction) == "FORWARD" then dist else -dist
  }

  /** The measured distance is what is left to go along the heading: moving forward by `s` takes `s` off it. */
  lemma AxisDiffAdvance(heading: int, expected: (int, int), current: (int, int), s: int)
    requires heading in HS.Headings
    ensures AxisDiff(heading, expected, current).Some?
    ensures AxisDiff(heading, expected, Advance(heading, current, s)) == Some(AxisDiff(heading, expected, current).value - s)
  {
  }

  /**
   * Corrected rule: at every heading, a correction of any length short of
   * twice the error brings the robot strictly closer to the cell centre.
   */
  lemma {:induction false} DirectionCloses(heading: int, expected: (int, int), current: (int, int), dist: int)
    requires heading in HS.Headings
    requires Direction(heading, AxisDiff(heading, expected, current).value).Some?
    requires 0 < dist < 2 * Abs(AxisDiff(heading, expected, current).value)
    ensures var d := AxisDiff(heading, expected, current).value;
            var dir := Direction(heading, d).value;
            Abs(AxisDiff(heading, expected, Advance(heading, current, Signed(dir, dist))).value) < Abs(d)
  {
    var d := AxisDiff(heading, expected, current).value;
    var dir := Direction(heading, d).value;
    assert Upper("FORWARD") == "FORWARD" && Upper("Forward") == "FORWARD";
    assert Upper("BACK") == "BACK" && "BACK" != "FORWARD";
    AxisDiffAdvance(heading, expected, current, Signed(dir, dist));
  }

  /**
   * As written, at headings 0 and 270 every correction outside the
   * threshold drives the robot further from the cell centre.
   */
  lemma {:induction false} DirectionAsWrittenDrivesAway(heading: int, expected: (int, int), current: (int, int), dist: int)
    requires heading == 0 || heading == 270
    requires DirectionAsWritten(heading, AxisDiff(heading, expected, current).value).Some?
    requires dist > 0
    ensures var d := AxisDiff(heading, expected, current).value;
            var dir := DirectionAsWritten(heading, d).value;
            Abs(AxisDiff(heading, expected, Advance(heading, current, Signed(dir, dist))).value) > Abs(d)
  {
    var d := AxisDiff(heading, expected, current).value;
    var dir := DirectionAsWritten(heading, d).value;
    assert Upper("FORWARD") == "FORWARD";
    assert Upper("BACK") == "BACK" && "BACK" != "FORWARD";
    AxisDiffAdvance(heading, expected, current, Signed(dir, dist));
  }

  /** The input that shows it: facing 0 at (80, 50) with the centre at (100, 50), the source says BACK. */
  lemma DirectionAsWrittenExample()
    ensures AxisDiff(0, (100, 50), (80, 50)) == Some(20)
    ensures DirectionAsWritten(0, 20) == Some("BACK")
    ensures Direction(0, 20) == Some("FORWARD")
  {
  }

  /** The parameter of a position correction: `f"{direction},{correction_steps}"`. */
  function CorrectionParam(direction: string, diff: int): string
  {
    direction + "," + IntToString(CorrectionSteps(diff))
  }

  // ---------------------------------------------------------------- what a run sends

  /** `f"STATUS,{message}\n"`. */
  function StatusMessage(message: string): string
  {
    "STATUS," + message + "\n"
  }

  // ---------------------------------------------------------------- one command exchange

  /** What the socket and the detector will do, in order: the replies still to come and the pose readings still to come. */
  datatype World = World(script: seq<Reply>, poses: seq<Option<Pose>>)

  /** The messages a stretch of the client sent, and the world it left. */
  datatype Trace = Trace(sent: seq<string>, world: World)

  /** The verbs the client itself sends are all accepted, already in upper case. */
  lemma ClientVerbsValid()
    ensures Upper("TURN") == "TURN" && "TURN" in ValidCommands
    ensures Upper("FORWARD") == "FORWARD" && "FORWARD" in ValidCommands
    ensures Upper("CORRECTION") == "CORRECTION" && "CORRECTION" in ValidCommands
  {
  }

  /** The next pose reading, `None` when none is left. */
  function NextPose(poses: seq<Option<Pose>>): Option<Pose>
  {
    if |poses| == 0 then None else poses[0]
  }

  /** The pose readings left after one reading. */
  function Pop(poses: seq<Option<Pose>>): seq<Option<Pose>>
  {
    if |poses| == 0 then [] else poses[1..]
  }

  // ---------------------------------------------------------------- the correction loops

  /**
   * `_continuous_angle_correction` against `expected`, with a detector:
   * read a pose; stop when there is none, or when the heading is within
   * the threshold; otherwise send a 5-degree TURN towards `expected` and
   * stop if it is not acknowledged. `expected` itself never changes.
   * The loop is split in three, one function per decision, in the order
   * the source takes them.
   */
  function AngleLoop(expected: int, w: World): Trace
    decreases |w.poses|, 2
  {
    if |w.poses| == 0 then Trace([], w)
    else AngleAfterReading(expected, w.poses[0], World(w.script, w.poses[1..]))
  }

  /** The angle loop once the pose `p` has been read; `w` holds the readings after it. */
  function AngleAfterReading(expected: int, p: Option<Pose>, w: World): Trace
    decreases |w.poses| + 1, 1
  {
    if p.None? then Trace([], w) else AngleCorrect(expected, p.value.2, w)
  }

  /** The angle loop once the heading `angle` has been read. */
  function AngleCorrect(expected: int, angle: int, w: World): Trace
    decreases |w.poses| + 1, 0
  {
    var diff := AngleDifference(angle, expected);
    if Abs(diff) <= OrientationThreshold then Trace([], w)
    else
      var param := IntToString(AngleStep(diff));
      var r := Request("TURN", param, w.script);
      if !r.0 then Trace([Message("TURN", param)], World(r.1, w.poses))
      else
        var t := AngleLoop(expected, World(r.1, w.poses));
        Trace([Message("TURN", param)] + t.sent, t.world)
  }

  /**
   * `_continuous_position_correction(expected_x, expected_y)` along
   * `heading`, with a detector and the corrected direction rule: read a
   * pose; stop when there is none, the heading is not cardinal, or the
   * distance left along the heading is within the threshold; otherwise
   * send a CORRECTION of `CorrectionSteps` encoder steps and stop if it
   * is not acknowledged.
   */
  function PositionLoop(heading: int, target: (int, int), w: World): Trace
    decreases |w.poses|, 2
  {
    if |w.poses| == 0 then Trace([], w)
    else PositionAfterReading(heading, target, w.poses[0], World(w.script, w.poses[1..]))
  }

  /** The position loop once the pose `p` has been read. */
  function PositionAfterReading(heading: int, target: (int, int), p: Option<Pose>, w: World): Trace
    decreases |w.poses| + 1, 1
  {
    if p.None? then Trace([], w) else PositionCorrect(heading, target, (p.value.0, p.value.1), w)
  }

  /** The position loop once the position `pos` has been read. */
  function PositionCorrect(heading: int, target: (int, int), pos: (int, int), w: World): Trace
    decreases |w.poses| + 1, 0
  {
    var d := AxisDiff(heading, target, pos);
    if d.None? || DirectionAsWritten(heading, d.value).None? then Trace([], w)
    else
      var param := CorrectionParam(DirectionAsWritten(heading, d.value).value, d.value);
      var r := Request("CORRECTION", param, w.script);
      if !r.0 then Trace([Message("CORRECTION", param)], World(r.1, w.poses))
      else
        var t := PositionLoop(heading, target, World(r.1, w.poses));
        Trace([Message("CORRECTION", param)] + t.sent, t.world)
  }

  /** `ms` sent ahead of a trace. */
  function Prepend(ms: seq<string>, t: Trace): Trace
  {
    Trace(ms + t.sent, t.world)
  }

  /** Reading a pose, as `get_robot_position` does it: the next reading, or `None` once there are none. */
  lemma AngleLoopRead(expected: int, w: World)
    ensures AngleLoop(expected, w) == AngleAfterReading(expected, NextPose(w.poses), World(w.script, Pop(w.poses)))
  {
  }

  lemma PositionLoopRead(heading: int, target: (int, int), w: World)
    ensures PositionLoop(heading, target, w) == PositionAfterReading(heading, target, NextPose(w.poses), World(w.script, Pop(w.poses)))
  {
  }

  /** Every heading correction is a TURN of exactly 5 degrees, and there is at most one per pose reading. */
  lemma {:induction false} AngleLoopFiveDegrees(expected: int, w: World)
    ensures var t := AngleLoop(expected, w);
            |t.sent| <= |w.poses| &&
            forall k :: 0 <= k < |t.sent| ==> t.sent[k] in {Message("TURN", "5"), Message("TURN", "-5")}
    decreases |w.poses|
  {
    if |w.poses| > 0 && w.poses[0].Some? {
      var rest := World(w.script, w.poses[1..]);
      assert AngleLoop(expected, w) == AngleCorrect(expected, w.poses[0].value.2, rest);
      var diff := AngleDifference(w.poses[0].value.2, expected);
      if Abs(diff) > OrientationThreshold {
        AngleStepCloses(diff);
        assert IntToString(5) == "5" && IntToString(-5) == "-5";
        var r := Request("TURN", IntToString(AngleStep(diff)), w.script);
        AngleLoopFiveDegrees(expected, World(r.1, rest.poses));
      }
    }
  }

  /** There is at most one position correction per pose reading, and none at all off a cardinal heading. */
  lemma {:induction false} PositionLoopBounded(heading: int, target: (int, int), w: World)
    ensures var t := PositionLoop(heading, target, w);
            |t.sent| <= |w.poses| &&
            (heading !in HS.Headings ==> t.sent == [])
    decreases |w.poses|
  {
    if |w.poses| > 0 && w.poses[0].Some? {
      var p := w.poses[0].value;
      var rest := World(w.script, w.poses[1..]);
      assert PositionLoop(heading, target, w) == PositionCorrect(heading, target, (p.0, p.1), rest);
      var d := AxisDiff(heading, target, (p.0, p.1));
      if d.Some? && DirectionAsWritten(heading, d.value).Some? {
        var param := CorrectionParam(DirectionAsWritten(heading, d.value).value, d.value);
        var r := Request("CORRECTION", param, w.script);
        PositionLoopBounded(heading, target, World(r.1, rest.poses));
      }
    }
  }

  /** The heading corrections when there may be no detector: without one the loop stops at once. */
  function AngleCorrections(hasDetector: bool, expected: int, w: World): Trace
  {
    if hasDetector then AngleLoop(expected, w) else Trace([], w)
  }

  /** The position corrections when there may be no detector. */
  function PositionCorrections(hasDetector: bool, heading: int, target: (int, int), w: World): Trace
  {
    if hasDetector then PositionLoop(heading, target, w) else Trace([], w)
  }

  // ---------------------------------------------------------------- following a path

  /** What `execute_path` works from: the path, the detector's cell centres, and whether there is a detector at all. */
  datatype Env = Env(path: seq<HS.State>, centers: map<Cell, (int, int)>, hasDetector: bool)

  /**
   * How `execute_path` ends: every message it sent, the final
   * `current_step_index` and `expected_angle`, whether it raised (the
   * AttributeError of a missing detector), and the world it left.
   */
  datatype Outcome = Outcome(sent: seq<string>, step: int, angle: int, raised: bool, world: World)

  /** `ms` sent ahead of an outcome. */
  function Cat(ms: seq<string>, o: Outcome): Outcome
  {
    Outcome(ms + o.sent, o.step, o.angle, o.raised, o.world)
  }

  /**
   * The segment loop of `execute_path` from `segs` on, at step `step`
   * with expected angle `angle`. Like the correction loops it is split
   * in levels, one per decision of the source.
   */
  function Follow(env: Env, segs: seq<Segment>, step: int, angle: int, w: World): Outcome
    decreases |segs|, 0, 3
  {
    if |segs| == 0 then Outcome([], step, angle, false, w)
    else FollowSegment(env, segs[0], segs[1..], step, angle, w)
  }

  /** One segment, then the rest. */
  function FollowSegment(env: Env, seg: Segment, rest: seq<Segment>, step: int, angle: int, w: World): Outcome
    decreases |rest| + 1, 0, 2
  {
    match seg
    case Turn(d) => Turning(env, d, rest, step, (angle + d) % 360, w)
    case Forward(n) => Drive(env, n, rest, step, angle, w)
  }

  /**
   * A TURN segment by `d`, the expected angle already moved to `a`: an
   * unacknowledged TURN ends the run; an acknowledged one is followed by
   * the heading corrections.
   */
  function Turning(env: Env, d: int, rest: seq<Segment>, step: int, a: int, w: World): Outcome
    decreases |rest| + 1, 0, 1
  {
    var param := IntToString(d);
    var r := Request("TURN", param, w.script);
    if !r.0 then Outcome([Message("TURN", param)], step, a, false, World(r.1, w.poses))
    else Cat([Message("TURN", param)], AfterTurn(env, rest, step, a, World(r.1, w.poses)))
  }

  /** After an acknowledged TURN: the heading corrections, then the rest of the path. */
  function AfterTurn(env: Env, rest: seq<Segment>, step: int, a: int, w: World): Outcome
    decreases |rest| + 1, 0, 0
  {
    var c := AngleCorrections(env.hasDetector, a, w);
    Cat(c.sent, Follow(env, rest, step, a, c.world))
  }

  /** A TURN segment split at the acknowledgement: `w1` is the world after the request, `w2` after the corrections. */
  lemma TurningSplit(env: Env, d: int, rest: seq<Segment>, step: int, a: int, w0: World, w1: World, more: seq<string>, w2: World)
    requires w1 == World(Request("TURN", IntToString(d), w0.script).1, w0.poses)
    requires Request("TURN", IntToString(d), w0.script).0 ==> AfterTurn(env, rest, step, a, w1) == Cat(more, Follow(env, rest, step, a, w2))
    ensures var ok := Request("TURN", IntToString(d), w0.script).0;
            Turning(env, d, rest, step, a, w0) ==
              if ok then Cat([Message("TURN", IntToString(d))] + more, Follow(env, rest, step, a, w2))
              else Outcome([Message("TURN", IntToString(d))], step, a, false, w1)
  {
    if Request("TURN", IntToString(d), w0.script).0 {
      AppendAssoc([Message("TURN", IntToString(d))], more, Follow(env, rest, step, a, w2).sent);
    }
  }

  /** A FORWARD segment of `n` cells, one `FORWARD,1` per cell. */
  function Drive(env: Env, n: int, rest: seq<Segment>, step: int, angle: int, w: World): Outcome
    decreases |rest|, if n > 0 then n else 0, 4
  {
    if n <= 0 then Follow(env, rest, step, angle, w)
    else DriveStep(env, n - 1, rest, step + 1, angle, w)
  }

  /**
   * One cell of a FORWARD segment, at the already advanced step `s`,
   * with `left` cells to go after it: inside the path the target is the
   * detector's centre of the path's cell (no detector raises, an unknown
   * cell is skipped without sending); past the end there is no target.
   */
  function DriveStep(env: Env, left: nat, rest: seq<Segment>, s: int, angle: int, w: World): Outcome
    decreases |rest|, left + 1, 2
  {
    if 0 <= s < |env.path| then
      if !env.hasDetector then Outcome([], s, angle, true, w)
      else if HS.CellOf(env.path[s]) !in env.centers then Drive(env, left, rest, s, angle, w)
      else Moving(env, left, rest, s, angle, Some(env.centers[HS.CellOf(env.path[s])]), w)
    else Moving(env, left, rest, s, angle, None, w)
  }

  /**
   * Sending `FORWARD,1`: unacknowledged, the segment is abandoned and
   * the run goes on with the next one; acknowledged, the heading
   * corrections follow, then the position corrections when the target
   * is known.
   */
  function Moving(env: Env, left: nat, rest: seq<Segment>, s: int, angle: int, target: Option<(int, int)>, w: World): Outcome
    decreases |rest|, left + 1, 1
  {
    var m := Message("FORWARD", "1");
    var r := Request("FORWARD", "1", w.script);
    if !r.0 then Cat([m], Follow(env, rest, s, angle, World(r.1, w.poses)))
    else Cat([m], AfterForward(env, left, rest, s, angle, target, World(r.1, w.poses)))
  }

  /** After an acknowledged FORWARD: the heading corrections, the position corrections when there is a target, then the next cell. */
  function AfterForward(env: Env, left: nat, rest: seq<Segment>, s: int, angle: int, target: Option<(int, int)>, w: World): Outcome
    decreases |rest|, left + 1, 0
  {
    var c := AngleCorrections(env.hasDetector, angle, w);
    var p := if target.Some? then PositionCorrections(env.hasDetector, angle, target.value, c.world) else Trace([], c.world);
    Cat(c.sent + p.sent, Drive(env, left, rest, s, angle, p.world))
  }

  /** How one pass of the FORWARD loop ends: the AttributeError, an unacknowledged FORWARD, or on to the next cell. */
  datatype CellResult = NoDetector | Refused | Moved

  // ---------------------------------------------------------------- properties of a run

  /**
   * Only a missing detector raises: the AttributeError comes from the
   * cell-centre lookup, and every other way out of a segment either goes
   * on or stops without raising.
   */
  lemma {:induction false} FollowRaised(env: Env, segs: seq<Segment>, step: int, angle: int, w: World)
    ensures Follow(env, segs, step, angle, w).raised ==> !env.hasDetector
    decreases |segs|, 0
  {
    if |segs| > 0 {
      var rest := segs[1..];
      match segs[0]
      case Turn(d) =>
        var a := (angle + d) % 360;
        var r := Request("TURN", IntToString(d), w.script);
        assert Follow(env, segs, step, angle, w) == Turning(env, d, rest, step, a, w);
        if r.0 {
          var c := AngleCorrections(env.hasDetector, a, World(r.1, w.poses));
          assert Turning(env, d, rest, step, a, w) == Cat([Message("TURN", IntToString(d))], AfterTurn(env, rest, step, a, World(r.1, w.poses)));
          assert AfterTurn(env, rest, step, a, World(r.1, w.poses)) == Cat(c.sent, Follow(env, rest, step, a, c.world));
          FollowRaised(env, rest, step, a, c.world);
        }
      case Forward(n) =>
        assert Follow(env, segs, step, angle, w) == Drive(env, n, rest, step, angle, w);
        DriveRaised(env, n, rest, step, angle, w);
    }
  }

  /** `FollowRaised` for the cells of a FORWARD segment. */
  lemma {:induction false} DriveRaised(env: Env, n: int, rest: seq<Segment>, step: int, angle: int, w: World)
    ensures Drive(env, n, rest, step, angle, w).raised ==> !env.hasDetector
    decreases |rest|, (if n > 0 then n else 0) + 1
  {
    if n <= 0 {
      assert Drive(env, n, rest, step, angle, w) == Follow(env, rest, step, angle, w);
      FollowRaised(env, rest, step, angle, w);
    } else {
      var s := step + 1;
      var inPath := 0 <= s < |env.path|;
      assert Drive(env, n, rest, step, angle, w) == DriveStep(env, n - 1, rest, s, angle, w);
      if inPath && env.hasDetector && HS.CellOf(env.path[s]) !in env.centers {
        assert DriveStep(env, n - 1, rest, s, angle, w) == Drive(env, n - 1, rest, s, angle, w);
        DriveRaised(env, n - 1, rest, s, angle, w);
      } else if !inPath || env.hasDetector {
        var target := if inPath then Some(env.centers[HS.CellOf(env.path[s])]) else None;
        assert Drive(env, n, rest, step, angle, w) == Moving(env, n - 1, rest, s, angle, target, w);
        var r := Request("FORWARD", "1", w.script);
        var m := Message("FORWARD", "1");
        if !r.0 {
          assert Moving(env, n - 1, rest, s, angle, target, w) == Cat([m], Follow(env, rest, s, angle, World(r.1, w.poses)));
          FollowRaised(env, rest, s, angle, World(r.1, w.poses));
        } else {
          var c := AngleCorrections(env.hasDetector, angle, World(r.1, w.poses));
          var p := if target.Some? then PositionCorrections(env.hasDetector, angle, target.value, c.world) else Trace([], c.world);
          assert Moving(env, n - 1, rest, s, angle, target, w) == Cat([m], AfterForward(env, n - 1, rest, s, angle, target, World(r.1, w.poses)));
          assert AfterForward(env, n - 1, rest, s, angle, target, World(r.1, w.poses)) == Cat(c.sent + p.sent, Drive(env, n - 1, rest, s, angle, p.world));
          DriveRaised(env, n - 1, rest, s, angle, p.world);
        }
      }
    }
  }

  /** `n` copies of `x`; none when `n <= 0`. */
  function Repeat<T>(x: T, n: int): (r: seq<T>)
    ensures |r| == if n > 0 then n else 0
    decreases if n > 0 then n else 0
  {
    if n <= 0 then [] else [x] + Repeat(x, n - 1)
  }

  /** The messages of `segs` when every command is acknowledged and no correction is called for. */
  function PlainMessages(segs: seq<Segment>): seq<string>
  {
    if |segs| == 0 then []
    else
      (match segs[0]
       case Turn(d) => [Message("TURN", IntToString(d))]
       case Forward(n) => Repeat(Message("FORWARD", "1"), n))
      + PlainMessages(segs[1..])
  }

  /** The replies that acknowledge each of `PlainMessages(segs)` in turn. */
  function PlainAcks(segs: seq<Segment>): seq<Reply>
  {
    if |segs| == 0 then []
    else
      (match segs[0]
       case Turn(d) => [AckLine("TURN", IntToString(d))]
       case Forward(n) => Repeat(AckLine("FORWARD", "1"), n))
      + PlainAcks(segs[1..])
  }

  /** The cells the FORWARD segments of `segs` cover. */
  function Cells(segs: seq<Segment>): nat
  {
    if |segs| == 0 then 0
    else (if segs[0].Forward? && segs[0].cells > 0 then segs[0].cells else 0) + Cells(segs[1..])
  }

  /** Every cell on the path has a centre the detector knows. */
  ghost predicate AllCentred(env: Env)
  {
    forall k :: 0 <= k < |env.path| ==> HS.CellOf(env.path[k]) in env.centers
  }

  /** One acknowledged cell of a FORWARD segment when the detector sees nothing: one `FORWARD,1`, one step. */
  lemma DriveCellAcked(env: Env, n: int, rest: seq<Segment>, step: int, angle: int, more: seq<Reply>)
    requires n > 0 && env.hasDetector && AllCentred(env)
    ensures Drive(env, n, rest, step, angle, World([AckLine("FORWARD", "1")] + more, [])) ==
            Cat([Message("FORWARD", "1")], Drive(env, n - 1, rest, step + 1, angle, World(more, [])))
  {
    var s := step + 1;
    var w := World([AckLine("FORWARD", "1")] + more, []);
    var w' := World(more, []);
    AckLineAccepted("FORWARD", "1", more);
    var target := if 0 <= s < |env.path| then Some(env.centers[HS.CellOf(env.path[s])]) else None;
    assert Drive(env, n, rest, step, angle, w) == DriveStep(env, n - 1, rest, s, angle, w);
    assert DriveStep(env, n - 1, rest, s, angle, w) == Moving(env, n - 1, rest, s, angle, target, w);
    assert AngleCorrections(true, angle, w') == Trace([], w');
    assert target.Some? ==> PositionCorrections(true, angle, target.value, w') == Trace([], w');
    assert Moving(env, n - 1, rest, s, angle, target, w) ==
           Cat([Message("FORWARD", "1")], AfterForward(env, n - 1, rest, s, angle, target, w'));
    assert AfterForward(env, n - 1, rest, s, angle, target, w') == Drive(env, n - 1, rest, s, angle, w');
  }

  /**
   * A FORWARD segment of `n` cells when each `FORWARD,1` is acknowledged
   * and the detector sees nothing: `n` messages, `n` steps, and the path
   * goes on with the rest of the replies.
   */
  lemma {:induction false} DriveAcked(env: Env, n: int, rest: seq<Segment>, step: int, angle: int, more: seq<Reply>)
    requires env.hasDetector && AllCentred(env)
    ensures Drive(env, n, rest, step, angle, World(Repeat(AckLine("FORWARD", "1"), n) + more, [])) ==
            Cat(Repeat(Message("FORWARD", "1"), n), Follow(env, rest, step + (if n > 0 then n else 0), angle, World(more, [])))
    decreases if n > 0 then n else 0
  {
    var a := AckLine("FORWARD", "1");
    var m := Message("FORWARD", "1");
    if n > 0 {
      AppendAssoc([a], Repeat(a, n - 1), more);
      DriveCellAcked(env, n, rest, step, angle, Repeat(a, n - 1) + more);
      DriveAcked(env, n - 1, rest, step + 1, angle, more);
      var tail := Follow(env, rest, step + n, angle, World(more, []));
      assert step + 1 + (if n - 1 > 0 then n - 1 else 0) == step + n;
      AppendAssoc([m], Repeat(m, n - 1), tail.sent);
    } else {
      assert Repeat(a, n) + more == more;
      var tail := Follow(env, rest, step, angle, World(more, []));
      assert Repeat(m, n) + tail.sent == tail.sent;
    }
  }

  /** An acknowledged TURN when the detector sees nothing: its message, the angle moved, no correction. */
  lemma TurnAcked(env: Env, segs: seq<Segment>, step: int, angle: int, more: seq<Reply>)
    requires |segs| > 0 && segs[0].Turn? && env.hasDetector
    ensures var d := segs[0].degrees;
            Follow(env, segs, step, angle, World([AckLine("TURN", IntToString(d))] + more, [])) ==
            Cat([Message("TURN", IntToString(d))], Follow(env, segs[1..], step, (angle + d) % 360, World(more, [])))
  {
    FollowTurnHead(env, segs, step, angle, World([AckLine("TURN", IntToString(segs[0].degrees))] + more, []));
    TurningAcked(env, segs[0].degrees, segs[1..], step, (angle + segs[0].degrees) % 360, more);
  }

  /** A path that starts with a TURN is that TURN's `Turning`, the expected angle moved by it. */
  lemma FollowTurnHead(env: Env, segs: seq<Segment>, step: int, angle: int, w: World)
    requires |segs| > 0 && segs[0].Turn?
    ensures Follow(env, segs, step, angle, w) == Turning(env, segs[0].degrees, segs[1..], step, (angle + segs[0].degrees) % 360, w)
  {
  }

  /** `Turning` after an acknowledgement from a blind detector: the TURN's message, then the rest of the path. */
  lemma TurningAcked(env: Env, d: int, rest: seq<Segment>, step: int, a: int, more: seq<Reply>)
    requires env.hasDetector
    ensures Turning(env, d, rest, step, a, World([AckLine("TURN", IntToString(d))] + more, [])) ==
            Cat([Message("TURN", IntToString(d))], Follow(env, rest, step, a, World(more, [])))
  {
    var param := IntToString(d);
    var w' := World(more, []);
    AckLineAccepted("TURN", param, more);
    BlindAfterTurn(env, rest, step, a, w');
  }

  /** With no pose to read, no heading correction is sent after a TURN. */
  lemma BlindAfterTurn(env: Env, rest: seq<Segment>, step: int, a: int, w: World)
    requires env.hasDetector && w.poses == []
    ensures AfterTurn(env, rest, step, a, w) == Follow(env, rest, step, a, w)
  {
    assert AngleCorrections(true, a, w) == Trace([], w);
  }

  /**
   * The run of `segs` when every command is acknowledged and the detector
   * sees nothing, so that no correction is sent: exactly the segments'
   * own messages, in order; the step advanced by every cell; the
   * expected angle replayed over every TURN; no exception.
   */
  ghost predicate RunsPlainly(env: Env, segs: seq<Segment>, step: int, angle: int, more: seq<Reply>)
  {
    Follow(env, segs, step, angle, World(PlainAcks(segs) + more, [])) ==
    Outcome(PlainMessages(segs), step + Cells(segs), Replay(angle, segs), false, World(more, []))
  }

  /** `RunsPlainly` carries over a leading TURN. */
  lemma FollowAckedTurn(env: Env, segs: seq<Segment>, step: int, angle: int, more: seq<Reply>)
    requires |segs| > 0 && segs[0].Turn? && env.hasDetector
    requires RunsPlainly(env, segs[1..], step, (angle + segs[0].degrees) % 360, more)
    ensures RunsPlainly(env, segs, step, angle, more)
  {
    var rest := segs[1..];
    AppendAssoc([AckLine("TURN", IntToString(segs[0].degrees))], PlainAcks(rest), more);
    TurnAcked(env, segs, step, angle, PlainAcks(rest) + more);
  }

  /** `RunsPlainly` carries over a leading FORWARD. */
  lemma FollowAckedForward(env: Env, segs: seq<Segment>, step: int, angle: int, more: seq<Reply>)
    requires |segs| > 0 && segs[0].Forward? && env.hasDetector && AllCentred(env)
    requires var n := segs[0].cells; RunsPlainly(env, segs[1..], step + (if n > 0 then n else 0), angle, more)
    ensures RunsPlainly(env, segs, step, angle, more)
  {
    var rest := segs[1..];
    var n := segs[0].cells;
    var w := World(PlainAcks(segs) + more, []);
    AppendAssoc(Repeat(AckLine("FORWARD", "1"), n), PlainAcks(rest), more);
    assert Follow(env, segs, step, angle, w) == Drive(env, n, rest, step, angle, w);
    DriveAcked(env, n, rest, step, angle, PlainAcks(rest) + more);
    AppendAssoc(Repeat(Message("FORWARD", "1"), n), PlainMessages(rest), []);
  }

  /** Every path runs plainly when every command is acknowledged and the detector sees nothing. */
  lemma {:induction false} FollowAcked(env: Env, segs: seq<Segment>, step: int, angle: int, more: seq<Reply>)
    requires env.hasDetector && AllCentred(env)
    ensures RunsPlainly(env, segs, step, angle, more)
    decreases |segs|
  {
    if |segs| == 0 {
      assert PlainAcks(segs) + more == more;
    } else if segs[0].Turn? {
      FollowAcked(env, segs[1..], step, (angle + segs[0].degrees) % 360, more);
      FollowAckedTurn(env, segs, step, angle, more);
    } else {
      var n := segs[0].cells;
      FollowAcked(env, segs[1..], step + (if n > 0 then n else 0), angle, more);
      FollowAckedForward(env, segs, step, angle, more);
    }
  }

  /**
   * `execute_path` on a well-formed path with every command acknowledged
   * and nothing to correct: the compressed path's messages are sent, and
   * the expected angle ends on the last state's heading.
   */
  lemma ExecuteAcked(path: seq<HS.State>, centers: map<Cell, (int, int)>, more: seq<Reply>)
    requires |path| > 0 && AllCentred(Env(path, centers, true))
    requires forall i :: 0 <= i < |path| ==> 0 <= path[i].2 < 360
    requires forall i :: 1 <= i < |path| ==> Abs(TurnDelta(path[i - 1].2, path[i].2)) != 1
    ensures var segs := Compressed(ByHypot, path);
            var out := Follow(Env(path, centers, true), segs, 0, path[0].2, World(PlainAcks(segs) + more, []));
            out.sent == PlainMessages(segs) && out.angle == path[|path| - 1].2 && !out.raised &&
            out.step == Cells(segs) && out.world == World(more, [])
  {
    FollowAcked(Env(path, centers, true), Compressed(ByHypot, path), 0, path[0].2, more);
    assert RunsPlainly(Env(path, centers, true), Compressed(ByHypot, path), 0, path[0].2, more);
    ReplayCompressed(ByHypot, path);
  }

  /** A TURN that is not acknowledged ends the run: nothing is sent after it, and nothing is raised. */
  lemma TurnRefusedEnds(env: Env, d: int, rest: seq<Segment>, step: int, angle: int, w: World)
    requires !Request("TURN", IntToString(d), w.script).0
    ensures var out := Follow(env, [Turn(d)] + rest, step, angle, w);
            out.sent == [Message("TURN", IntToString(d))] && !out.raised && out.step == step &&
            out.angle == (angle + d) % 360
  {
    assert ([Turn(d)] + rest)[1..] == rest;
    assert Follow(env, [Turn(d)] + rest, step, angle, w) == Turning(env, d, rest, step, (angle + d) % 360, w);
  }

  /**
   * A FORWARD that is not acknowledged abandons only its own segment:
   * the run goes on with the next segment from the next reply.
   */
  lemma ForwardRefusedGoesOn(env: Env, n: int, rest: seq<Segment>, step: int, angle: int, w: World)
    requires n > 0 && env.hasDetector && AllCentred(env)
    requires !Request("FORWARD", "1", w.script).0
    ensures Follow(env, [Forward(n)] + rest, step, angle, w) ==
            Cat([Message("FORWARD", "1")], Follow(env, rest, step + 1, angle, World(Exchange(w.script).rest, w.poses)))
  {
    assert ([Forward(n)] + rest)[1..] == rest;
    var s := step + 1;
    var target := if 0 <= s < |env.path| then Some(env.centers[HS.CellOf(env.path[s])]) else None;
    assert Drive(env, n, rest, step, angle, w) == Moving(env, n - 1, rest, s, angle, target, w);
  }

  // ---------------------------------------------------------------- the client

  /** The pose readings a detector still holds; none without a detector. */
  function PosesOf(d: Detector?): seq<Option<Pose>>
    reads d
  {
    if d == null then [] else d.poses
  }

  /** The cell centres a detector knows; none without a detector. */
  function CentersOf(d: Detector?): map<Cell, (int, int)>
    reads d
  {
    if d == null then map[] else d.cellCenters
  }

  class MovementClass {
    var clientSocket: Socket?
    var detector: Detector?
    var expectedAngle: Option<int>
    var currentStepIndex: int

    /** `__init__`: not connected, no expected angle yet. */
    constructor (detector: Detector?)
      ensures clientSocket == null && this.detector == detector
      ensures expectedAngle.None? && currentStepIndex == 0
    {
      clientSocket := null;
      this.detector := detector;
      expectedAngle := None;
      currentStepIndex := 0;
    }

    /** The socket's and the detector's scripts as one world. */
    function Now(): World
      reads this, clientSocket, detector
      requires clientSocket != null
    {
      World(clientSocket.script, PosesOf(detector))
    }

    /** `_recv_line`: one `recv`, stripped; `None` on a timeout, an error or without a socket. */
    method RecvLine() returns (line: Option<string>)
      modifies clientSocket
      ensures clientSocket == null ==> line.None?
      ensures clientSocket != null ==>
                var s := old(clientSocket.script);
                line == (if |s| > 0 && s[0].Answer? then Some(Strip(s[0].text)) else None) &&
                clientSocket.script == (if |s| == 0 then [] else s[1..]) &&
                clientSocket.written == old(clientSocket.written) && clientSocket.closed == old(clientSocket.closed)
    {
      if clientSocket == null {
        return None;
      }
      var r := clientSocket.Recv();
      line := if r.Some? then Some(Strip(r.value)) else None;
    }

    /**
     * `connect`: `endpoint` is the socket the connection gives, `null`
     * when connecting fails; once connected, the Pico's greeting is read
     * and discarded.
     */
    method Connect(endpoint: Socket?)
      modifies this, endpoint
      ensures clientSocket == endpoint
      ensures detector == old(detector) && expectedAngle == old(expectedAngle) && currentStepIndex == old(currentStepIndex)
      ensures endpoint != null ==>
                endpoint.script == (if |old(endpoint.script)| == 0 then [] else old(endpoint.script)[1..]) &&
                endpoint.written == old(endpoint.written) && endpoint.closed == old(endpoint.closed)
    {
      clientSocket := endpoint;
      if endpoint != null {
        var greeting := RecvLine();
      }
    }

    /** `disconnect`: close the socket, if any, and forget it. */
    method Disconnect()
      modifies this, clientSocket
      ensures clientSocket == null
      ensures old(clientSocket) != null ==>
                old(clientSocket).closed && old(clientSocket).written == old(clientSocket.written) &&
                old(clientSocket).script == old(clientSocket.script)
      ensures detector == old(detector) && expectedAngle == old(expectedAngle) && currentStepIndex == old(currentStepIndex)
    {
      if clientSocket != null {
        clientSocket.Close();
        clientSocket := null;
      }
    }

    /**
     * `_send_command_wait_ack`: a verb outside `ValidCommands` (after
     * upper-casing) is refused without sending, and so is everything
     * without a socket; otherwise one request goes out and only the
     * exact acknowledgement counts as success.
     */
    method SendCommandWaitAck(command: string, param: string) returns (success: bool)
      modifies clientSocket
      ensures Upper(command) !in ValidCommands || clientSocket == null ==>
                !success && (clientSocket != null ==> unchanged(clientSocket))
      ensures Upper(command) in ValidCommands && clientSocket != null ==>
                var r := Request(command, param, old(clientSocket.script));
                clientSocket.written == old(clientSocket.written) + [Message(command, param)] &&
                clientSocket.script == r.1 && success == r.0 && clientSocket.closed == old(clientSocket.closed)
    {
      if Upper(command) !in ValidCommands || clientSocket == null {
        return false;
      }
      var message := Message(command, param);
      var sentOk := clientSocket.SendAll(message);
      if !sentOk {
        return false;
      }
      var ack := clientSocket.Recv();
      success := ack.Some? && Strip(ack.value) == ExpectedAck(command, param);
    }

    /** `send_status_message`: `STATUS,message`, acknowledged only by exactly `Taken`. */
    method SendStatusMessage(message: string) returns (success: bool)
      modifies clientSocket
      ensures clientSocket == null ==> !success
      ensures clientSocket != null ==>
                var x := Exchange(old(clientSocket.script));
                clientSocket.written == old(clientSocket.written) + [StatusMessage(message)] &&
                clientSocket.script == x.rest && clientSocket.closed == old(clientSocket.closed) &&
                (success <==> x.sent && x.received.Some? && Strip(x.received.value) == "Taken")
    {
      if clientSocket == null {
        return false;
      }
      var sentOk := clientSocket.SendAll(StatusMessage(message));
      if !sentOk {
        return false;
      }
      var ack := clientSocket.Recv();
      success := ack.Some? && Strip(ack.value) == "Taken";
    }

    /**
     * One round of `_continuous_angle_correction`: read a pose and, unless
     * the loop stops there, send one correction. `again` says whether the
     * loop goes on.
     */
    method AngleCorrectionRound() returns (again: bool, ghost delta: seq<string>)
      requires clientSocket != null && detector != null && expectedAngle.Some?
      modifies clientSocket, detector
      ensures detector.cellCenters == old(detector.cellCenters) && detector.cols == old(detector.cols)
      ensures clientSocket.written == old(clientSocket.written) + delta
      ensures again ==> |detector.poses| < old(|detector.poses|)
      ensures AngleLoop(expectedAngle.value, old(Now())) ==
                Prepend(delta, if again then AngleLoop(expectedAngle.value, Now()) else Trace([], Now()))
    {
      ghost var w := Now();
      AngleLoopRead(expectedAngle.value, w);
      delta := [];
      var position := detector.GetRobotPosition();
      assert position == NextPose(w.poses) && Now() == World(w.script, Pop(w.poses));
      if position.None? {
        return false, delta;
      }
      ghost var rest := Now();
      assert AngleLoop(expectedAngle.value, w) == AngleCorrect(expectedAngle.value, position.value.2, rest);
      var angleDiff := AngleDifference(position.value.2, expectedAngle.value);
      if Abs(angleDiff) <= OrientationThreshold {
        return false, delta;
      }
      var param := IntToString(AngleStep(angleDiff));
      ClientVerbsValid();
      ghost var r := Request("TURN", param, rest.script);
      var success := SendCommandWaitAck("TURN", param);
      assert success == r.0 && Now() == World(r.1, rest.poses);
      delta := [Message("TURN", param)];
      again := success;
    }

    /** `_continuous_angle_correction`, against the current expected angle. */
    method ContinuousAngleCorrection()
      requires clientSocket != null && expectedAngle.Some?
      modifies clientSocket, detector
      ensures var t := AngleCorrections(detector != null, expectedAngle.value, old(Now()));
              clientSocket.written == old(clientSocket.written) + t.sent && Now() == t.world
      ensures detector != null ==> detector.cellCenters == old(detector.cellCenters) && detector.cols == old(detector.cols)
    {
      if detector == null {
        return;
      }
      ghost var sent: seq<string> := [];
      var again := true;
      while again
        invariant clientSocket.written == old(clientSocket.written) + sent
        invariant detector.cellCenters == old(detector.cellCenters) && detector.cols == old(detector.cols)
        invariant AngleLoop(expectedAngle.value, old(Now())) ==
                    Prepend(sent, if again then AngleLoop(expectedAngle.value, Now()) else Trace([], Now()))
        decreases again, |detector.poses|
      {
        ghost var delta;
        again, delta := AngleCorrectionRound();
        ghost var pending := if again then AngleLoop(expectedAngle.value, Now()) else Trace([], Now());
        assert (sent + delta) + pending.sent == sent + (delta + pending.sent);
        assert old(clientSocket.written) + (sent + delta) == (old(clientSocket.written) + sent) + delta;
        sent := sent + delta;
      }
    }

    /**
     * One round of `_continuous_position_correction`: read a pose and,
     * unless the loop stops there, send one correction.
     */
    method PositionCorrectionRound(expectedX: int, expectedY: int) returns (again: bool, ghost delta: seq<string>)
      requires clientSocket != null && detector != null && expectedAngle.Some?
      modifies clientSocket, detector
      ensures detector.cellCenters == old(detector.cellCenters) && detector.cols == old(detector.cols)
      ensures clientSocket.written == old(clientSocket.written) + delta
      ensures again ==> |detector.poses| < old(|detector.poses|)
      ensures PositionLoop(expectedAngle.value, (expectedX, expectedY), old(Now())) ==
                Prepend(delta, if again then PositionLoop(expectedAngle.value, (expectedX, expectedY), Now()) else Trace([], Now()))
    {
      ghost var w := Now();
      PositionLoopRead(expectedAngle.value, (expectedX, expectedY), w);
      delta := [];
      var position := detector.GetRobotPosition();
      assert position == NextPose(w.poses) && Now() == World(w.script, Pop(w.poses));
      if position.None? {
        return false, delta;
      }
      ghost var rest := Now();
      var current := (position.value.0, position.value.1);
      assert PositionLoop(expectedAngle.value, (expectedX, expectedY), w) ==
             PositionCorrect(expectedAngle.value, (expectedX, expectedY), current, rest);
      var diff := AxisDiff(expectedAngle.value, (expectedX, expectedY), current);
      if diff.None? {
        return false, delta;
      }
      var direction := DirectionAsWritten(expectedAngle.value, diff.value);
      if direction.None? {
        return false, delta;
      }
      var param := CorrectionParam(direction.value, diff.value);
      ClientVerbsValid();
      ghost var r := Request("CORRECTION", param, rest.script);
      var success := SendCommandWaitAck("CORRECTION", param);
      assert success == r.0 && Now() == World(r.1, rest.poses);
      delta := [Message("CORRECTION", param)];
      again := success;
    }

    /** `_continuous_position_correction(expected_x, expected_y)`, along the current expected heading. */
    method ContinuousPositionCorrection(expectedX: int, expectedY: int)
      requires clientSocket != null && expectedAngle.Some?
      modifies clientSocket, detector
      ensures var t := PositionCorrections(detector != null, expectedAngle.value, (expectedX, expectedY), old(Now()));
              clientSocket.written == old(clientSocket.written) + t.sent && Now() == t.world
      ensures detector != null ==> detector.cellCenters == old(detector.cellCenters) && detector.cols == old(detector.cols)
    {
      if detector == null {
        return;
      }
      ghost var sent: seq<string> := [];
      var again := true;
      while again
        invariant clientSocket.written == old(clientSocket.written) + sent
        invariant detector.cellCenters == old(detector.cellCenters) && detector.cols == old(detector.cols)
        invariant PositionLoop(expectedAngle.value, (expectedX, expectedY), old(Now())) ==
                    Prepend(sent, if again then PositionLoop(expectedAngle.value, (expectedX, expectedY), Now()) else Trace([], Now()))
        decreases again, |detector.poses|
      {
        ghost var delta;
        again, delta := PositionCorrectionRound(expectedX, expectedY);
        ghost var pending := if again then PositionLoop(expectedAngle.value, (expectedX, expectedY), Now()) else Trace([], Now());
        assert (sent + delta) + pending.sent == sent + (delta + pending.sent);
        assert old(clientSocket.written) + (sent + delta) == (old(clientSocket.written) + sent) + delta;
        sent := sent + delta;
      }
    }

    /** The detector as `env` sees it: present or not, and with the same cell centres. */
    ghost predicate Matches(env: Env)
      reads this, detector
    {
      env.hasDetector == (detector != null) && (detector != null ==> env.centers == detector.cellCenters)
    }

    /**
     * A TURN segment of `execute_path`, the expected angle already moved:
     * send the TURN, and on success run the heading corrections. `ok` is
     * false when the TURN was not acknowledged, which ends the path.
     */
    method TurnSegment(ghost env: Env, d: int, ghost rest: seq<Segment>) returns (ok: bool, ghost delta: seq<string>)
      requires clientSocket != null && expectedAngle.Some? && Matches(env)
      modifies clientSocket, detector
      ensures detector != null ==> detector.cellCenters == old(detector.cellCenters)
      ensures clientSocket.written == old(clientSocket.written) + delta
      ensures Turning(env, d, rest, currentStepIndex, expectedAngle.value, old(Now())) ==
                if ok then Cat(delta, Follow(env, rest, currentStepIndex, expectedAngle.value, Now()))
                else Outcome(delta, currentStepIndex, expectedAngle.value, false, Now())
    {
      ghost var w0, step, a := Now(), currentStepIndex, expectedAngle.value;
      ok := SendTurn(d);
      ghost var w1 := Now();
      delta := [Message("TURN", IntToString(d))];
      if !ok {
        TurningSplit(env, d, rest, step, a, w0, w1, [], w1);
        return;
      }
      ghost var more := CorrectAfterTurn(env, rest);
      TurningSplit(env, d, rest, step, a, w0, w1, more, Now());
      AppendAssoc(old(clientSocket.written), delta, more);
      delta := delta + more;
    }

    /** `TURN,d` and its acknowledgement. */
    method SendTurn(d: int) returns (ok: bool)
      requires clientSocket != null
      modifies clientSocket
      ensures var r := Request("TURN", IntToString(d), old(clientSocket.script));
              ok == r.0 && clientSocket.script == r.1 &&
              clientSocket.written == old(clientSocket.written) + [Message("TURN", IntToString(d))]
    {
      ClientVerbsValid();
      ok := SendCommandWaitAck("TURN", IntToString(d));
    }

    /** `FORWARD,1` and its acknowledgement. */
    method SendForward() returns (ok: bool)
      requires clientSocket != null
      modifies clientSocket
      ensures var r := Request("FORWARD", "1", old(clientSocket.script));
              ok == r.0 && clientSocket.script == r.1 &&
              clientSocket.written == old(clientSocket.written) + [Message("FORWARD", "1")]
    {
      ClientVerbsValid();
      ok := SendCommandWaitAck("FORWARD", "1");
    }

    /** The heading corrections after an acknowledged TURN. */
    method CorrectAfterTurn(ghost env: Env, ghost rest: seq<Segment>) returns (ghost delta: seq<string>)
      requires clientSocket != null && expectedAngle.Some? && Matches(env)
      modifies clientSocket, detector
      ensures detector != null ==> detector.cellCenters == old(detector.cellCenters)
      ensures clientSocket.written == old(clientSocket.written) + delta
      ensures AfterTurn(env, rest, currentStepIndex, expectedAngle.value, old(Now())) ==
                Cat(delta, Follow(env, rest, currentStepIndex, expectedAngle.value, Now()))
    {
      ContinuousAngleCorrection();
      delta := AngleCorrections(env.hasDetector, expectedAngle.value, old(Now())).sent;
    }

    /**
     * One pass of the FORWARD loop of `execute_path`, `left` passes before
     * the segment ends: advance the step, find the target centre, then
     * move one cell.
     */
    method ForwardCell(path: seq<HS.State>, ghost env: Env, ghost left: nat, ghost rest: seq<Segment>) returns (result: CellResult, ghost delta: seq<string>)
      requires clientSocket != null && expectedAngle.Some? && Matches(env) && env.path == path
      modifies this, clientSocket, detector
      ensures clientSocket == old(clientSocket) && detector == old(detector) && expectedAngle == old(expectedAngle) && Matches(env)
      ensures currentStepIndex == old(currentStepIndex) + 1
      ensures detector != null ==> detector.cellCenters == old(detector.cellCenters)
      ensures clientSocket.written == old(clientSocket.written) + delta
      ensures DriveStep(env, left, rest, currentStepIndex, expectedAngle.value, old(Now())) ==
                match result
                case NoDetector => Outcome(delta, currentStepIndex, expectedAngle.value, true, Now())
                case Refused => Cat(delta, Follow(env, rest, currentStepIndex, expectedAngle.value, Now()))
                case Moved => Cat(delta, Drive(env, left, rest, currentStepIndex, expectedAngle.value, Now()))
    {
      delta := [];
      currentStepIndex := currentStepIndex + 1;
      var target: Option<(int, int)> := None;
      if 0 <= currentStepIndex < |path| {
        if detector == null {
          return NoDetector, delta;
        }
        var cell := (path[currentStepIndex].0, path[currentStepIndex].1);
        if cell !in detector.cellCenters {
          return Moved, delta;
        }
        target := Some(detector.cellCenters[cell]);
      }
      var moved;
      moved, delta := MoveCell(env, left, rest, target);
      result := if moved then Moved else Refused;
    }

    /** Send `FORWARD,1` towards `target` and, when it is acknowledged, run both corrections. */
    method MoveCell(ghost env: Env, ghost left: nat, ghost rest: seq<Segment>, target: Option<(int, int)>) returns (moved: bool, ghost delta: seq<string>)
      requires clientSocket != null && expectedAngle.Some? && Matches(env)
      modifies clientSocket, detector
      ensures detector != null ==> detector.cellCenters == old(detector.cellCenters)
      ensures clientSocket.written == old(clientSocket.written) + delta
      ensures Moving(env, left, rest, currentStepIndex, expectedAngle.value, target, old(Now())) ==
                Cat(delta, if moved then Drive(env, left, rest, currentStepIndex, expectedAngle.value, Now())
                           else Follow(env, rest, currentStepIndex, expectedAngle.value, Now()))
    {
      moved := SendForward();
      delta := [Message("FORWARD", "1")];
      if moved {
        ghost var more := CorrectAfterForward(env, left, rest, target);
        ghost var tail := Drive(env, left, rest, currentStepIndex, expectedAngle.value, Now());
        AppendAssoc(delta, more, tail.sent);
        AppendAssoc(old(clientSocket.written), delta, more);
        delta := delta + more;
      }
    }

    /** The heading corrections, then the position corrections when there is a target. */
    method CorrectAfterForward(ghost env: Env, ghost left: nat, ghost rest: seq<Segment>, target: Option<(int, int)>) returns (ghost delta: seq<string>)
      requires clientSocket != null && expectedAngle.Some? && Matches(env)
      modifies clientSocket, detector
      ensures detector != null ==> detector.cellCenters == old(detector.cellCenters)
      ensures clientSocket.written == old(clientSocket.written) + delta
      ensures AfterForward(env, left, rest, currentStepIndex, expectedAngle.value, target, old(Now())) ==
                Cat(delta, Drive(env, left, rest, currentStepIndex, expectedAngle.value, Now()))
    {
      ghost var acked := Now();
      ContinuousAngleCorrection();
      ghost var c := AngleCorrections(env.hasDetector, expectedAngle.value, acked);
      ghost var pc: Trace := Trace([], c.world);
      if target.Some? {
        pc := PositionCorrections(env.hasDetector, expectedAngle.value, target.value, c.world);
        ContinuousPositionCorrection(target.value.0, target.value.1);
      }
      delta := c.sent + pc.sent;
    }

    /**
     * A FORWARD segment of `n` cells of `execute_path`: one pass of the
     * FORWARD loop per cell, ending early on the AttributeError (`raised`)
     * or on an unacknowledged FORWARD, after which the path goes on.
     */
    method ForwardSegment(path: seq<HS.State>, ghost env: Env, n: int, ghost rest: seq<Segment>) returns (raised: bool, ghost delta: seq<string>)
      requires clientSocket != null && expectedAngle.Some? && Matches(env) && env.path == path
      modifies this, clientSocket, detector
      ensures clientSocket == old(clientSocket) && detector == old(detector) && expectedAngle == old(expectedAngle) && Matches(env)
      ensures detector != null ==> detector.cellCenters == old(detector.cellCenters)
      ensures clientSocket.written == old(clientSocket.written) + delta
      ensures Drive(env, n, rest, old(currentStepIndex), expectedAngle.value, old(Now())) ==
                if raised then Outcome(delta, currentStepIndex, expectedAngle.value, true, Now())
                else Cat(delta, Follow(env, rest, currentStepIndex, expectedAngle.value, Now()))
    {
      raised := false;
      delta := [];
      var j := 0;
      while j < n
        invariant 0 <= j && (j <= n || j == 0)
        invariant clientSocket == old(clientSocket) && detector == old(detector) && expectedAngle == old(expectedAngle) && Matches(env)
        invariant clientSocket.written == old(clientSocket.written) + delta
        invariant detector != null ==> detector.cellCenters == old(detector.cellCenters)
        invariant Drive(env, n, rest, old(currentStepIndex), expectedAngle.value, old(Now())) ==
                    Cat(delta, Drive(env, n - j, rest, currentStepIndex, expectedAngle.value, Now()))
        decreases n - j
      {
        assert Drive(env, n - j, rest, currentStepIndex, expectedAngle.value, Now()) ==
               DriveStep(env, n - j - 1, rest, currentStepIndex + 1, expectedAngle.value, Now());
        var result, more := ForwardCell(path, env, n - j - 1, rest);
        ghost var tail := if result.Moved? then Drive(env, n - j - 1, rest, currentStepIndex, expectedAngle.value, Now())
                          else Follow(env, rest, currentStepIndex, expectedAngle.value, Now());
        AppendAssoc(delta, more, tail.sent);
        AppendAssoc(old(clientSocket.written), delta, more);
        delta := delta + more;
        if result.NoDetector? {
          return true, delta;
        } else if result.Refused? {
          return false, delta;
        }
        j := j + 1;
      }
      assert Drive(env, n - j, rest, currentStepIndex, expectedAngle.value, Now()) ==
             Follow(env, rest, currentStepIndex, expectedAngle.value, Now());
    }

    /**
     * `execute_path(path)`: nothing without a connection or for an empty
     * path; otherwise the path is compressed with the hypotenuse rule and
     * followed segment by segment from the first state's heading, exactly
     * as `Follow` describes.
     */
    method ExecutePath(path: seq<HS.State>) returns (raised: bool)
      modifies this, clientSocket, detector
      ensures clientSocket == old(clientSocket) && detector == old(detector)
      ensures old(clientSocket) == null || |path| == 0 ==>
                !raised && expectedAngle == old(expectedAngle) && currentStepIndex == old(currentStepIndex) &&
                (clientSocket != null ==> unchanged(clientSocket)) && (detector != null ==> unchanged(detector))
      ensures old(clientSocket) != null && |path| > 0 ==>
                var out := Follow(Env(path, old(CentersOf(detector)), detector != null), Compressed(ByHypot, path), 0, path[0].2, old(Now()));
                clientSocket.written == old(clientSocket.written) + out.sent && Now() == out.world &&
                expectedAngle == Some(out.angle) && currentStepIndex == out.step && raised == out.raised
      ensures detector != null ==> detector.cellCenters == old(detector.cellCenters)
    {
      raised := false;
      if clientSocket == null || |path| == 0 {
        return;
      }
      var segments := CompressPath(ByHypot, path);
      expectedAngle := Some(path[0].2);
      currentStepIndex := 0;
      ghost var env := Env(path, CentersOf(detector), detector != null);
      raised := FollowSegments(path, env, segments);
    }

    /** The segment loop of `execute_path`, from the current step and heading: it does what `Follow` describes. */
    method FollowSegments(path: seq<HS.State>, ghost env: Env, segments: seq<Segment>) returns (raised: bool)
      requires clientSocket != null && expectedAngle.Some? && Matches(env) && env.path == path
      modifies this, clientSocket, detector
      ensures clientSocket == old(clientSocket) && detector == old(detector)
      ensures detector != null ==> detector.cellCenters == old(detector.cellCenters)
      ensures var out := Follow(env, segments, old(currentStepIndex), old(expectedAngle.value), old(Now()));
              clientSocket.written == old(clientSocket.written) + out.sent && Now() == out.world &&
              expectedAngle == Some(out.angle) && currentStepIndex == out.step && raised == out.raised
    {
      raised := false;
      ghost var sent: seq<string> := [];
      var i := 0;
      while i < |segments|
        invariant 0 <= i <= |segments| && !raised
        invariant clientSocket == old(clientSocket) && detector == old(detector) && expectedAngle.Some? && Matches(env)
        invariant clientSocket.written == old(clientSocket.written) + sent
        invariant detector != null ==> detector.cellCenters == old(detector.cellCenters)
        invariant Follow(env, segments, old(currentStepIndex), old(expectedAngle.value), old(Now())) ==
                    Cat(sent, Follow(env, segments[i..], currentStepIndex, expectedAngle.value, Now()))
        decreases |segments| - i
      {
        assert segments[i..][1..] == segments[i + 1..];
        ghost var rest := segments[i + 1..];
        assert Follow(env, segments[i..], currentStepIndex, expectedAngle.value, Now()) ==
               FollowSegment(env, segments[i], rest, currentStepIndex, expectedAngle.value, Now());
        var stop;
        ghost var delta;
        stop, raised, delta := FollowOne(path, env, segments[i], rest);
        ghost var tail := Follow(env, rest, currentStepIndex, expectedAngle.value, Now());
        AppendAssoc(sent, delta, tail.sent);
        AppendAssoc(old(clientSocket.written), sent, delta);
        sent := sent + delta;
        if stop {
          return;
        }
        i := i + 1;
      }
    }

    /**
     * One segment of the loop of `execute_path`. `stop` is set when the
     * path ends here: an unacknowledged TURN, or the AttributeError
     * (`raised`).
     */
    method FollowOne(path: seq<HS.State>, ghost env: Env, seg: Segment, ghost rest: seq<Segment>) returns (stop: bool, raised: bool, ghost delta: seq<string>)
      requires clientSocket != null && expectedAngle.Some? && Matches(env) && env.path == path
      modifies this, clientSocket, detector
      ensures clientSocket == old(clientSocket) && detector == old(detector) && expectedAngle.Some? && Matches(env)
      ensures detector != null ==> detector.cellCenters == old(detector.cellCenters)
      ensures clientSocket.written == old(clientSocket.written) + delta
      ensures raised ==> stop
      ensures FollowSegment(env, seg, rest, old(currentStepIndex), old(expectedAngle.value), old(Now())) ==
                if stop then Outcome(delta, currentStepIndex, expectedAngle.value, raised, Now())
                else Cat(delta, Follow(env, rest, currentStepIndex, expectedAngle.value, Now()))
    {
      raised := false;
      match seg {
        case Turn(d) =>
          expectedAngle := Some((expectedAngle.value + d) % 360);
          var ok;
          ok, delta := TurnSegment(env, d, rest);
          stop := !ok;
        case Forward(n) =>
          raised, delta := ForwardSegment(path, env, n, rest);
          stop := raised;
      }
    }
  }
}
