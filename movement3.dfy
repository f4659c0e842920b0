/**
 * The third version of the host-side `MovementClass`
 * (`Final_Project/noros/test/movement_class3.py`): the path is compressed
 * as in the fifth version, each segment is sent and acknowledged in turn,
 * and after every acknowledged command a single position check reads the
 * detector. That check is where this version differs: when the heading is
 * off by more than 15 degrees it sends one TURN correction and then
 * refers to an undefined name, so the NameError ends `execute_path`.
 */
module Movement3 {
  import opened Common
  import opened Grid
  import opened Text
  import opened Motion
  import opened Link
  import HS = HeadingSearch

  /** `orientation_threshold`, in degrees. */
  const OrientationThreshold := 15

  /** The verbs `_send_command_wait_ack` accepts; there is no CORRECTION here. */
  const ValidCommands: seq<string> := ["FORWARD", "BACK", "TURN", "STOP", "DANCE"]

  /** The verbs `_compress_path` produces are accepted, and are their own upper case. */
  lemma SegmentVerbsValid(s: Segment)
    ensures Upper(VerbOf(s)) == VerbOf(s) && VerbOf(s) in ValidCommands
  {
    VerbUpper(s);
  }

  /** The position corrections of the fifth version are refused here. */
  lemma CorrectionRefused()
    ensures Upper("CORRECTION") !in ValidCommands
  {
    assert Upper("CORRECTION") == "CORRECTION";
  }

  // ---------------------------------------------------------------- the world the client sees

  /** The replies still to come and the detector's readings still to come: poses and cell labels. */
  datatype World = World(script: seq<Reply>, poses: seq<Option<Pose>>, labels: seq<Option<int>>)

  /** Whether there is a detector, and its column count. */
  datatype Env = Env(hasDetector: bool, cols: int)

  /** The request line of a compressed segment: `f"{cmd_type.upper()},{value}\n"`. */
  function SegmentMessage(s: Segment): string
  {
    Message(VerbOf(s), IntToString(ValueOf(s)))
  }

  /** The correction `_check_and_correct_position` turns by: `min(|diff|, 5)`, with the sign of `diff`. */
  function Correction(diff: int): (c: int)
    ensures diff > 0 ==> 0 < c <= 5 && c <= diff
    ensures diff <= 0 ==> -5 <= c <= 0 && c >= diff
    ensures diff != 0 ==> c != 0
  {
    var m := if Abs(diff) < 5 then Abs(diff) else 5;
    if diff > 0 then m else -m
  }

  /** What one position check does: the messages it sent, the expected angle it leaves, whether it raised, and the world after it. */
  datatype Probe = Probe(sent: seq<string>, angle: int, raised: bool, world: World)

  /**
   * `_check_and_correct_position` at expected angle `angle`. Without a
   * detector, without a cell label or without a pose it does nothing; a
   * detector with no columns raises ZeroDivisionError in `_converter`;
   * a heading within the threshold needs nothing; otherwise one TURN
   * correction goes out, moves the expected angle when acknowledged, and
   * the NameError that follows raises.
   */
  function Check(env: Env, angle: int, w: World): Probe
  {
    if !env.hasDetector then Probe([], angle, false, w)
    else
      var cellLabel := if |w.labels| == 0 then None else w.labels[0];
      var w1 := World(w.script, w.poses, if |w.labels| == 0 then [] else w.labels[1..]);
      if cellLabel.None? then Probe([], angle, false, w1)
      else if Converter(cellLabel.value, env.cols).None? then Probe([], angle, true, w1)
      else
        var pos := if |w1.poses| == 0 then None else w1.poses[0];
        var w2 := World(w1.script, if |w1.poses| == 0 then [] else w1.poses[1..], w1.labels);
        if pos.None? then Probe([], angle, false, w2)
        else HeadingCheck(pos.value.2, angle, w2)
  }

  /**
   * The heading part of the check, for a detected heading: within the
   * threshold nothing happens; otherwise one TURN correction goes out,
   * moves the expected angle when acknowledged, and the NameError that
   * follows raises.
   */
  function HeadingCheck(heading: int, angle: int, w: World): Probe
  {
    var diff := AngleDifference(heading, angle);
    if Abs(diff) <= OrientationThreshold then Probe([], angle, false, w)
    else
      var c := Correction(diff);
      var r := Request("TURN", IntToString(c), w.script);
      Probe([Message("TURN", IntToString(c))], if r.0 then (angle + c) % 360 else angle, true,
            World(r.1, w.poses, w.labels))
  }

  // ---------------------------------------------------------------- following a path

  /**
   * One pass of the segment loop: the messages it sent, the expected
   * angle it leaves, whether the loop ends here (a break or an
   * exception), whether it raised, and the world after it.
   */
  datatype Step = Step(sent: seq<string>, angle: int, stop: bool, raised: bool, world: World)

  /** One segment: a TURN moves the expected angle first, then the segment is sent. */
  function SegmentStep(env: Env, seg: Segment, angle: int, w: World): Step
  {
    SendStep(env, seg, Turned(seg, angle), w)
  }

  /** The expected angle once a segment's own turn is applied. */
  function Turned(seg: Segment, angle: int): int
  {
    if seg.Turn? then (angle + seg.degrees) % 360 else angle
  }

  /**
   * Sending a segment at expected angle `a`: an unacknowledged request
   * breaks the loop, an acknowledged one is followed by the position
   * check, whose exception ends the loop.
   */
  function SendStep(env: Env, seg: Segment, a: int, w: World): Step
  {
    var r := Request(VerbOf(seg), IntToString(ValueOf(seg)), w.script);
    var w' := World(r.1, w.poses, w.labels);
    if !r.0 then Step([SegmentMessage(seg)], a, true, false, w')
    else
      var p := Check(env, a, w');
      Step([SegmentMessage(seg)] + p.sent, p.angle, p.raised, p.raised, p.world)
  }

  /** How `execute_path` ends: every message sent, the final expected angle, whether it raised, and the world it left. */
  datatype Outcome = Outcome(sent: seq<string>, angle: int, raised: bool, world: World)

  function Cat(ms: seq<string>, o: Outcome): Outcome
  {
    Outcome(ms + o.sent, o.angle, o.raised, o.world)
  }

  /** The segment loop of `execute_path` from `segs` on, at expected angle `angle`. */
  function Follow(env: Env, segs: seq<Segment>, angle: int, w: World): Outcome
    decreases |segs|
  {
    if |segs| == 0 then Outcome([], angle, false, w)
    else
      var st := SegmentStep(env, segs[0], angle, w);
      if st.stop then Outcome(st.sent, st.angle, st.raised, st.world)
      else Cat(st.sent, Follow(env, segs[1..], st.angle, st.world))
  }

  /** `Follow` on a non-empty path, given the step its first segment makes. */
  lemma FollowStep(env: Env, segs: seq<Segment>, angle: int, w: World, st: Step)
    requires |segs| > 0 && st == SendStep(env, segs[0], Turned(segs[0], angle), w)
    ensures st.raised ==> st.stop
    ensures Follow(env, segs, angle, w) ==
            if st.stop then Outcome(st.sent, st.angle, st.raised, st.world)
            else Cat(st.sent, Follow(env, segs[1..], st.angle, st.world))
  {
    StepStops(env, segs[0], angle, w);
  }

  lemma CatCat(a: seq<string>, b: seq<string>, o: Outcome)
    ensures Cat(a, Cat(b, o)) == Cat(a + b, o)
  {
    AppendAssoc(a, b, o.sent);
  }

  // ---------------------------------------------------------------- properties

  /**
   * A position check sends at most one message, and a check that sends
   * one always raises; a check that does not raise leaves the expected
   * angle alone.
   */
  lemma CheckAtMostOne(env: Env, angle: int, w: World)
    ensures var p := Check(env, angle, w);
            |p.sent| <= 1 && (|p.sent| == 1 ==> p.raised) && (!p.raised ==> p.angle == angle)
  {
  }

  /**
   * With a label, columns and a pose whose heading is off by more than
   * the threshold, exactly one TURN of `Correction(diff)` is sent; the
   * expected angle moves by it exactly when it is acknowledged; and the
   * check raises either way.
   */
  lemma CheckCorrectsOnce(env: Env, angle: int, w: World)
    requires env.hasDetector && env.cols != 0 && |w.labels| > 0 && w.labels[0].Some?
    requires |w.poses| > 0 && w.poses[0].Some?
    requires Abs(AngleDifference(w.poses[0].value.2, angle)) > OrientationThreshold
    ensures var c := Correction(AngleDifference(w.poses[0].value.2, angle));
            var p := Check(env, angle, w);
            var acked := Request("TURN", IntToString(c), w.script).0;
            p.sent == [Message("TURN", IntToString(c))] && p.raised &&
            p.angle == (if acked then (angle + c) % 360 else angle)
  {
    assert Converter(w.labels[0].value, env.cols).Some?;
  }

  /** A check sends nothing and does not raise when the heading is within the threshold, or nothing can be read. */
  lemma CheckQuiet(env: Env, angle: int, w: World)
    requires env.cols != 0
    requires !env.hasDetector || |w.labels| == 0 || w.labels[0].None? || |w.poses| == 0 || w.poses[0].None? ||
             Abs(AngleDifference(w.poses[0].value.2, angle)) <= OrientationThreshold
    ensures var p := Check(env, angle, w); p.sent == [] && !p.raised && p.angle == angle
  {
    if env.hasDetector && |w.labels| > 0 && w.labels[0].Some? {
      assert Converter(w.labels[0].value, env.cols).Some?;
    }
  }

  /** A detector that reads nothing leaves everything as it was. */
  lemma CheckBlind(env: Env, angle: int, w: World)
    requires |w.labels| == 0
    ensures Check(env, angle, w) == Probe([], angle, false, w)
  {
  }

  /** A step never raises without ending the loop, and moves the expected angle only by its own TURN and correction. */
  lemma StepStops(env: Env, seg: Segment, angle: int, w: World)
    ensures var st := SegmentStep(env, seg, angle, w);
            (st.raised ==> st.stop) && 1 <= |st.sent| <= 2 && st.sent[0] == SegmentMessage(seg) &&
            (|st.sent| == 2 ==> st.raised)
  {
    var a := if seg.Turn? then (angle + seg.degrees) % 360 else angle;
    var r := Request(VerbOf(seg), IntToString(ValueOf(seg)), w.script);
    CheckAtMostOne(env, a, World(r.1, w.poses, w.labels));
  }

  /** The first unacknowledged command ends the run: nothing after it is sent, and nothing raises. */
  lemma RefusedStops(env: Env, segs: seq<Segment>, angle: int, w: World)
    requires |segs| > 0 && !Request(VerbOf(segs[0]), IntToString(ValueOf(segs[0])), w.script).0
    ensures var out := Follow(env, segs, angle, w);
            out.sent == [SegmentMessage(segs[0])] && !out.raised
  {
  }

  /** A segment followed by a correction raises, so the segments after it are never sent. */
  lemma CorrectionEndsRun(env: Env, segs: seq<Segment>, angle: int, w: World)
    requires |segs| > 0
    ensures var st := SegmentStep(env, segs[0], angle, w);
            |st.sent| == 2 ==> Follow(env, segs, angle, w) == Outcome(st.sent, st.angle, true, st.world)
  {
    StepStops(env, segs[0], angle, w);
  }

  /** The request lines of `segs`, one per segment, in order. */
  function SegmentMessages(segs: seq<Segment>): (ms: seq<string>)
    ensures |ms| == |segs|
  {
    if |segs| == 0 then [] else [SegmentMessage(segs[0])] + SegmentMessages(segs[1..])
  }

  /** The replies that acknowledge each of `segs` in turn. */
  function SegmentAcks(segs: seq<Segment>): seq<Reply>
  {
    if |segs| == 0 then [] else [AckLine(VerbOf(segs[0]), IntToString(ValueOf(segs[0])))] + SegmentAcks(segs[1..])
  }

  /** `script` acknowledges each request of `segs` in turn, and leaves `more`. */
  predicate AcceptsAll(segs: seq<Segment>, script: seq<Reply>, more: seq<Reply>)
    decreases |segs|
  {
    if |segs| == 0 then script == more
    else
      var r := Request(VerbOf(segs[0]), IntToString(ValueOf(segs[0])), script);
      r.0 && AcceptsAll(segs[1..], r.1, more)
  }

  /** The firmware's own acknowledgement lines are accepted, each for its own request. */
  lemma {:induction false} AcksAccepted(segs: seq<Segment>, more: seq<Reply>)
    ensures AcceptsAll(segs, SegmentAcks(segs) + more, more)
    decreases |segs|
  {
    if |segs| == 0 {
      assert SegmentAcks(segs) + more == more;
    } else {
      var ack := AckLine(VerbOf(segs[0]), IntToString(ValueOf(segs[0])));
      AppendAssoc([ack], SegmentAcks(segs[1..]), more);
      AckLineAccepted(VerbOf(segs[0]), IntToString(ValueOf(segs[0])), SegmentAcks(segs[1..]) + more);
      AcksAccepted(segs[1..], more);
    }
  }

  /** An acknowledged segment, with nothing for the check to read, sends its own line and goes on. */
  lemma StepAcked(env: Env, s: Segment, angle: int, script: seq<Reply>, tail: seq<Reply>)
    requires Request(VerbOf(s), IntToString(ValueOf(s)), script) == (true, tail)
    ensures SegmentStep(env, s, angle, World(script, [], [])) ==
            Step([SegmentMessage(s)], if s.Turn? then (angle + s.degrees) % 360 else angle, false, false, World(tail, [], []))
  {
    var a := if s.Turn? then (angle + s.degrees) % 360 else angle;
    CheckBlind(env, a, World(tail, [], []));
    assert [SegmentMessage(s)] + [] == [SegmentMessage(s)];
  }

  /** The messages and the replayed angle of a path, from its first segment. */
  lemma FirstOfPath(segs: seq<Segment>, angle: int)
    requires |segs| > 0
    ensures SegmentMessages(segs) == [SegmentMessage(segs[0])] + SegmentMessages(segs[1..])
    ensures Replay(angle, segs) == Replay(if segs[0].Turn? then (angle + segs[0].degrees) % 360 else angle, segs[1..])
  {
  }

  /**
   * Against replies that acknowledge every command, with nothing for the
   * detector to read, a path sends every segment's line in order, the
   * expected angle is replayed over every TURN, and nothing raises.
   */
  lemma {:induction false} RunAcked(env: Env, segs: seq<Segment>, angle: int, script: seq<Reply>, more: seq<Reply>)
    requires AcceptsAll(segs, script, more)
    ensures Follow(env, segs, angle, World(script, [], [])) ==
            Outcome(SegmentMessages(segs), Replay(angle, segs), false, World(more, [], []))
    decreases |segs|
  {
    if |segs| != 0 {
      var r := Request(VerbOf(segs[0]), IntToString(ValueOf(segs[0])), script);
      var a := if segs[0].Turn? then (angle + segs[0].degrees) % 360 else angle;
      RunAcked(env, segs[1..], a, r.1, more);
      StepAcked(env, segs[0], angle, script, r.1);
      FirstOfPath(segs, angle);
    }
  }

  /**
   * `execute_path` on a well-formed path, with the firmware acknowledging
   * every command and nothing to correct: one line per compressed
   * segment, and the expected angle ends on the last state's heading.
   */
  lemma ExecuteAcked(env: Env, path: seq<HS.State>, more: seq<Reply>)
    requires |path| > 0
    requires forall i :: 0 <= i < |path| ==> 0 <= path[i].2 < 360
    requires forall i :: 1 <= i < |path| ==> Abs(TurnDelta(path[i - 1].2, path[i].2)) != 1
    ensures var segs := Compressed(ByHypot, path);
            var out := Follow(env, segs, path[0].2, World(SegmentAcks(segs) + more, [], []));
            out.sent == SegmentMessages(segs) && out.angle == path[|path| - 1].2 && !out.raised &&
            out.world == World(more, [], [])
  {
    var segs := Compressed(ByHypot, path);
    AcksAccepted(segs, more);
    RunAcked(env, segs, path[0].2, SegmentAcks(segs) + more, more);
    ReplayCompressed(ByHypot, path);
  }

  // ---------------------------------------------------------------- the client

  function PosesOf(d: Detector?): seq<Option<Pose>>
    reads d
  {
    if d == null then [] else d.poses
  }

  function LabelsOf(d: Detector?): seq<Option<int>>
    reads d
  {
    if d == null then [] else d.labels
  }

  /** The environment a detector gives the position check. */
  function EnvOf(d: Detector?): Env
    reads d
  {
    Env(d != null, if d == null then 0 else d.cols)
  }

  class MovementClass {
    var clientSocket: Socket?
    var detector: Detector?
    var expectedAngle: Option<int>

    /** `__init__`: not connected, no expected angle yet. */
    constructor (detector: Detector?)
      ensures clientSocket == null && this.detector == detector && expectedAngle.None?
    {
      clientSocket := null;
      this.detector := detector;
      expectedAngle := None;
    }

    /** The socket's and the detector's scripts as one world. */
    function Now(): World
      reads this, clientSocket, detector
      requires clientSocket != null
    {
      World(clientSocket.script, PosesOf(detector), LabelsOf(detector))
    }

    /** `_recv_line`: one `recv`, stripped; `None` on a timeout or an error. */
    method RecvLine() returns (line: Option<string>)
      requires clientSocket != null
      modifies clientSocket
      ensures var s := old(clientSocket.script);
              line == (if |s| > 0 && s[0].Answer? then Some(Strip(s[0].text)) else None) &&
              clientSocket.script == (if |s| == 0 then [] else s[1..]) &&
              clientSocket.written == old(clientSocket.written) && clientSocket.closed == old(clientSocket.closed)
    {
      var r := clientSocket.Recv();
      line := if r.Some? then Some(Strip(r.value)) else None;
    }

    /** `connect`: `endpoint` is the socket the connection gives, `null` when connecting fails; the greeting is read and discarded. */
    method Connect(endpoint: Socket?)
      modifies this, endpoint
      ensures clientSocket == endpoint && detector == old(detector) && expectedAngle == old(expectedAngle)
      ensures endpoint != null ==>
                endpoint.script == (if |old(endpoint.script)| == 0 then [] else old(endpoint.script)[1..]) &&
                endpoint.written == old(endpoint.written) && endpoint.closed == old(endpoint.closed)
    {
      clientSocket := endpoint;
      if endpoint != null {
        var greeting := RecvLine();
      }
    }

    /** `disconnect`: close the socket, if any, and forget it. */
    method Disconnect()
      modifies this, clientSocket
      ensures clientSocket == null && detector == old(detector) && expectedAngle == old(expectedAngle)
      ensures old(clientSocket) != null ==>
                old(clientSocket).closed && old(clientSocket).written == old(clientSocket.written) &&
                old(clientSocket).script == old(clientSocket.script)
    {
      if clientSocket != null {
        clientSocket.Close();
        clientSocket := null;
      }
    }

    /**
     * `_send_command_wait_ack`: a verb outside `ValidCommands` (after
     * upper-casing) is refused without sending; otherwise one request
     * goes out and only the exact acknowledgement counts as success.
     */
    method SendCommandWaitAck(command: string, param: string) returns (success: bool)
      requires clientSocket != null
      modifies clientSocket
      ensures Upper(command) !in ValidCommands ==> !success && unchanged(clientSocket)
      ensures Upper(command) in ValidCommands ==>
                var r := Request(command, param, old(clientSocket.script));
                clientSocket.written == old(clientSocket.written) + [Message(command, param)] &&
                clientSocket.script == r.1 && success == r.0 && clientSocket.closed == old(clientSocket.closed)
    {
      if Upper(command) !in ValidCommands {
        return false;
      }
      var message := Message(command, param);
      var sentOk := clientSocket.SendAll(message);
      if !sentOk {
        return false;
      }
      var ack := clientSocket.Recv();
      success := ack.Some? && Strip(ack.value) == ExpectedAck(command, param);
    }

    /** One compressed segment sent as its request line. */
    method SendSegment(s: Segment) returns (ok: bool)
      requires clientSocket != null
      modifies clientSocket
      ensures var r := Request(VerbOf(s), IntToString(ValueOf(s)), old(clientSocket.script));
              ok == r.0 && clientSocket.script == r.1 &&
              clientSocket.written == old(clientSocket.written) + [SegmentMessage(s)]
    {
      SegmentVerbsValid(s);
      ok := SendCommandWaitAck(VerbOf(s), IntToString(ValueOf(s)));
    }

    /**
     * `_check_and_correct_position`, as `Check` describes it. `raised`
     * stands for the exception that leaves the method: ZeroDivisionError
     * from `_converter`, or the NameError after a correction.
     */
    method CheckAndCorrectPosition() returns (raised: bool)
      requires clientSocket != null && expectedAngle.Some?
      modifies this, clientSocket, detector
      ensures clientSocket == old(clientSocket) && detector == old(detector)
      ensures detector != null ==> detector.cols == old(detector.cols)
      ensures var p := Check(old(EnvOf(detector)), old(expectedAngle.value), old(Now()));
              clientSocket.written == old(clientSocket.written) + p.sent && Now() == p.world &&
              expectedAngle == Some(p.angle) && raised == p.raised
    {
      if detector == null {
        return false;
      }
      var cellLabel := detector.GetRobotCellLabel();
      if cellLabel.None? {
        return false;
      }
      var cell := Converter(cellLabel.value, detector.cols);
      if cell.None? {
        return true;
      }
      var position := detector.GetRobotPosition();
      if position.None? {
        return false;
      }
      raised := CorrectHeading(position.value.2);
    }

    /** The heading part of `_check_and_correct_position`, as `HeadingCheck` describes it. */
    method CorrectHeading(heading: int) returns (raised: bool)
      requires clientSocket != null && expectedAngle.Some?
      modifies this, clientSocket
      ensures clientSocket == old(clientSocket) && detector == old(detector)
      ensures var p := HeadingCheck(heading, old(expectedAngle.value), old(Now()));
              clientSocket.written == old(clientSocket.written) + p.sent && Now() == p.world &&
              expectedAngle == Some(p.angle) && raised == p.raised
    {
      var angleDiff := AngleDifference(heading, expectedAngle.value);
      // The source loops while the heading is off, but its body always
      // raises, so the loop never gets past its first pass.
      if Abs(angleDiff) > OrientationThreshold {
        var correction := Correction(angleDiff);
        assert Upper("TURN") == "TURN";
        var success := SendCommandWaitAck("TURN", IntToString(correction));
        if success {
          expectedAngle := Some((expectedAngle.value + correction) % 360);
        }
        // `print(angle_dif, "1")`: `angle_dif` is not defined, so NameError.
        return true;
      }
      raised := false;
    }

    /**
     * `execute_path(path)`: nothing without a connection or for an empty
     * path; otherwise the compressed path is followed from the first
     * state's heading, exactly as `Follow` describes.
     */
    method ExecutePath(path: seq<HS.State>) returns (raised: bool)
      modifies this, clientSocket, detector
      ensures clientSocket == old(clientSocket) && detector == old(detector)
      ensures old(clientSocket) == null || |path| == 0 ==>
                !raised && expectedAngle == old(expectedAngle) &&
                (clientSocket != null ==> unchanged(clientSocket)) && (detector != null ==> unchanged(detector))
      ensures old(clientSocket) != null && |path| > 0 ==>
                var out := Follow(old(EnvOf(detector)), Compressed(ByHypot, path), path[0].2, old(Now()));
                clientSocket.written == old(clientSocket.written) + out.sent && Now() == out.world &&
                expectedAngle == Some(out.angle) && raised == out.raised
    {
      raised := false;
      if clientSocket == null || |path| == 0 {
        return;
      }
      var segments := CompressPath(ByHypot, path);
      expectedAngle := Some(path[0].2);
      raised := FollowSegments(EnvOf(detector), segments);
    }

    /** The segment loop of `execute_path`, as `Follow` describes it. */
    method FollowSegments(ghost env: Env, segments: seq<Segment>) returns (raised: bool)
      requires clientSocket != null && expectedAngle.Some? && EnvOf(detector) == env
      modifies this, clientSocket, detector
      ensures clientSocket == old(clientSocket) && detector == old(detector)
      ensures var out := Follow(env, segments, old(expectedAngle.value), old(Now()));
              clientSocket.written == old(clientSocket.written) + out.sent && Now() == out.world &&
              expectedAngle == Some(out.angle) && raised == out.raised
    {
      raised := false;
      ghost var sent: seq<string> := [];
      var rest := segments;
      while |rest| > 0
        invariant !raised
        invariant clientSocket == old(clientSocket) && detector == old(detector) && expectedAngle.Some?
        invariant EnvOf(detector) == env
        invariant clientSocket.written == old(clientSocket.written) + sent
        invariant Follow(env, segments, old(expectedAngle.value), old(Now())) ==
                    Cat(sent, Follow(env, rest, expectedAngle.value, Now()))
        decreases |rest|
      {
        ghost var delta;
        var stop;
        stop, raised, delta := FollowNext(env, rest);
        CatCat(sent, delta, Follow(env, rest[1..], expectedAngle.value, Now()));
        AppendAssoc(old(clientSocket.written), sent, delta);
        sent := sent + delta;
        if stop {
          return;
        }
        rest := rest[1..];
      }
    }

    /** The first segment of `rest`, and what it leaves of the loop. */
    method FollowNext(ghost env: Env, rest: seq<Segment>) returns (stop: bool, raised: bool, ghost delta: seq<string>)
      requires |rest| > 0
      requires clientSocket != null && expectedAngle.Some? && EnvOf(detector) == env
      modifies this, clientSocket, detector
      ensures clientSocket == old(clientSocket) && detector == old(detector) && expectedAngle.Some?
      ensures EnvOf(detector) == env
      ensures raised ==> stop
      ensures clientSocket.written == old(clientSocket.written) + delta
      ensures Follow(env, rest, old(expectedAngle.value), old(Now())) ==
                if stop then Outcome(delta, expectedAngle.value, raised, Now())
                else Cat(delta, Follow(env, rest[1..], expectedAngle.value, Now()))
    {
      ghost var a0, w0 := expectedAngle.value, Now();
      expectedAngle := Some(Turned(rest[0], expectedAngle.value));
      assert Now() == w0;
      stop, raised, delta := FollowOne(env, rest[0]);
      FollowStep(env, rest, a0, w0, Step(delta, expectedAngle.value, stop, raised, Now()));
    }

    /** Sending one segment and checking the position after it, as `SendStep` describes it. */
    method FollowOne(ghost env: Env, s: Segment) returns (stop: bool, raised: bool, ghost delta: seq<string>)
      requires clientSocket != null && expectedAngle.Some? && EnvOf(detector) == env
      modifies this, clientSocket, detector
      ensures clientSocket == old(clientSocket) && detector == old(detector) && expectedAngle.Some?
      ensures EnvOf(detector) == env
      ensures SendStep(env, s, old(expectedAngle.value), old(Now())) ==
                Step(delta, expectedAngle.value, stop, raised, Now())
      ensures clientSocket.written == old(clientSocket.written) + delta
    {
      var ok := SendSegment(s);
      delta := [SegmentMessage(s)];
      if !ok {
        return true, false, delta;
      }
      ghost var p := Check(env, expectedAngle.value, Now());
      raised := CheckAndCorrectPosition();
      stop := raised;
      AppendAssoc(old(clientSocket.written), delta, p.sent);
      delta := delta + p.sent;
    }
  }
}
