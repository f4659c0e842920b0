/**
 * The second version of the host-side `MovementClass`
 * (`Final_Project/noros/test/movement_class2.py`). The path is compressed
 * with Manhattan FORWARD counts, each segment is sent and acknowledged in
 * turn, and the first refused command ends the run. After every
 * acknowledged command one position check reads the detector and may send
 * one small TURN correction; unlike the third version the run goes on
 * after it. The expected heading is not kept by the client: it lives in
 * the detector and is read and written through its getter and setter.
 */
module Movement2 {
  import opened Common
  import opened Grid
  import opened Text
  import opened Motion
  import opened Link
  import M3 = Movement3
  import HS = HeadingSearch

  /** `orientation_threshold`, in degrees. */
  const OrientationThreshold := 15

  /**
   * The heading error of this version: `(angle - expected + 180) % 360 - 270`,
   * which always lies in [-270, 90).
   */
  function AngleError(actual: int, expected: int): (d: int)
    ensures -270 <= d < 90
  {
    (actual - expected + 180) % 360 - 270
  }

  /** The error is the fifth version's difference moved down by a quarter turn. */
  lemma AngleErrorOffset(actual: int, expected: int)
    ensures AngleError(actual, expected) == AngleDifference(actual, expected) - 90
  {
  }

  /**
   * A robot exactly on its expected heading reads an error of -90, which
   * is over the threshold, so the check turns it by -5 degrees.
   */
  lemma AlignedStillCorrected(angle: int)
    ensures AngleError(angle, angle) == -90 && Abs(AngleError(angle, angle)) > OrientationThreshold
    ensures M3.Correction(AngleError(angle, angle)) == -5
  {
  }

  /** The check is quiet exactly for readings within 15 degrees of a quarter turn past the expected heading. */
  lemma QuietWindow(actual: int, expected: int)
    ensures Abs(AngleError(actual, expected)) <= OrientationThreshold <==>
              Abs(AngleDifference(actual, expected + 90)) <= OrientationThreshold
  {
    var u := actual - expected + 180;
    assert actual - (expected + 90) + 180 == u - 90;
    if u % 360 >= 90 {
      DivModUnique(u - 90, 360, u / 360, u % 360 - 90);
    } else {
      DivModUnique(u - 90, 360, u / 360 - 1, u % 360 + 270);
    }
  }

  // ---------------------------------------------------------------- the position check

  /**
   * `_check_and_correct_position` at the detector's expected angle
   * `angle`. Without a detector, a cell label or a pose it does nothing;
   * a detector with no columns raises ZeroDivisionError in `_converter`;
   * otherwise the heading part decides.
   */
  function Check(env: M3.Env, angle: int, w: M3.World): M3.Probe
  {
    if !env.hasDetector then M3.Probe([], angle, false, w)
    else
      var cellLabel := if |w.labels| == 0 then None else w.labels[0];
      var w1 := M3.World(w.script, w.poses, if |w.labels| == 0 then [] else w.labels[1..]);
      if cellLabel.None? then M3.Probe([], angle, false, w1)
      else if Converter(cellLabel.value, env.cols).None? then M3.Probe([], angle, true, w1)
      else
        var pos := if |w1.poses| == 0 then None else w1.poses[0];
        var w2 := M3.World(w1.script, if |w1.poses| == 0 then [] else w1.poses[1..], w1.labels);
        if pos.None? then M3.Probe([], angle, false, w2)
        else HeadingCheck(pos.value.2, angle, w2)
  }

  /**
   * The heading part of the check: within the threshold nothing happens;
   * otherwise one TURN of `Correction(diff)` goes out and, when it is
   * acknowledged, the detector's expected angle moves by it.
   */
  function HeadingCheck(heading: int, angle: int, w: M3.World): M3.Probe
  {
    var diff := AngleError(heading, angle);
    if Abs(diff) <= OrientationThreshold then M3.Probe([], angle, false, w)
    else
      var c := M3.Correction(diff);
      var r := Request("TURN", IntToString(c), w.script);
      M3.Probe([Message("TURN", IntToString(c))], if r.0 then (angle + c) % 360 else angle, false,
               M3.World(r.1, w.poses, w.labels))
  }

  /**
   * The heading check sends a TURN exactly when the error is over the
   * threshold; that TURN is `Correction` of the error, between 1 and 5
   * degrees either way; the expected angle moves exactly when it is
   * acknowledged; and the check never raises.
   */
  lemma HeadingCheckCorrects(heading: int, angle: int, w: M3.World)
    ensures var p := HeadingCheck(heading, angle, w);
            var diff := AngleError(heading, angle);
            var c := M3.Correction(diff);
            !p.raised &&
            (p.sent == [] <==> Abs(diff) <= OrientationThreshold) &&
            (p.sent == [] ==> p.angle == angle && p.world == w) &&
            (p.sent != [] ==>
               p.sent == [Message("TURN", IntToString(c))] && 1 <= Abs(c) <= 5 &&
               p.angle == (if Request("TURN", IntToString(c), w.script).0 then (angle + c) % 360 else angle))
  {
  }

  /**
   * A check sends at most one message; it raises only for a detector
   * without columns, and then sends nothing; and a check that sends
   * nothing leaves the expected angle alone.
   */
  lemma CheckAtMostOne(env: M3.Env, angle: int, w: M3.World)
    ensures var p := Check(env, angle, w);
            |p.sent| <= 1 && (p.raised ==> p.sent == [] && env.cols == 0) &&
            (p.sent == [] ==> p.angle == angle)
  {
  }

  /** A detector that reads no cell label leaves everything as it was. */
  lemma CheckBlind(env: M3.Env, angle: int, w: M3.World)
    requires |w.labels| == 0
    ensures Check(env, angle, w) == M3.Probe([], angle, false, w)
  {
  }

  // ---------------------------------------------------------------- following a path

  /**
   * One segment: a TURN first moves the detector's expected angle, which
   * raises AttributeError when there is no detector; then the segment is
   * sent.
   */
  function SegmentStep(env: M3.Env, seg: Segment, angle: int, w: M3.World): M3.Step
  {
    if seg.Turn? && !env.hasDetector then M3.Step([], angle, true, true, w)
    else SendStep(env, seg, M3.Turned(seg, angle), w)
  }

  /**
   * Sending a segment at expected angle `a`: an unacknowledged request
   * breaks the loop; an acknowledged one is followed by the position
   * check, which ends the loop only when it raises.
   */
  function SendStep(env: M3.Env, seg: Segment, a: int, w: M3.World): M3.Step
  {
    var r := Request(VerbOf(seg), IntToString(ValueOf(seg)), w.script);
    var w' := M3.World(r.1, w.poses, w.labels);
    if !r.0 then M3.Step([M3.SegmentMessage(seg)], a, true, false, w')
    else
      var p := Check(env, a, w');
      M3.Step([M3.SegmentMessage(seg)] + p.sent, p.angle, p.raised, p.raised, p.world)
  }

  /** The segment loop of `execute_path` from `segs` on, at expected angle `angle`. */
  function Follow(env: M3.Env, segs: seq<Segment>, angle: int, w: M3.World): M3.Outcome
    decreases |segs|
  {
    if |segs| == 0 then M3.Outcome([], angle, false, w)
    else
      var st := SegmentStep(env, segs[0], angle, w);
      if st.stop then M3.Outcome(st.sent, st.angle, st.raised, st.world)
      else M3.Cat(st.sent, Follow(env, segs[1..], st.angle, st.world))
  }

  /**
   * A step raises only by ending the loop; it sends its own line first
   * and at most one correction after it; and it sends nothing only when a
   * TURN finds no detector.
   */
  lemma StepStops(env: M3.Env, seg: Segment, angle: int, w: M3.World)
    ensures var st := SegmentStep(env, seg, angle, w);
            (st.raised ==> st.stop) && |st.sent| <= 2 &&
            (st.sent != [] ==> st.sent[0] == M3.SegmentMessage(seg)) &&
            (st.sent == [] <==> seg.Turn? && !env.hasDetector)
  {
    if !(seg.Turn? && !env.hasDetector) {
      var r := Request(VerbOf(seg), IntToString(ValueOf(seg)), w.script);
      CheckAtMostOne(env, M3.Turned(seg, angle), M3.World(r.1, w.poses, w.labels));
    }
  }

  /** `Follow` on a non-empty path, given the step its first segment makes. */
  lemma FollowStep(env: M3.Env, segs: seq<Segment>, angle: int, w: M3.World, st: M3.Step)
    requires |segs| > 0 && st == SegmentStep(env, segs[0], angle, w)
    ensures st.raised ==> st.stop
    ensures Follow(env, segs, angle, w) ==
            if st.stop then M3.Outcome(st.sent, st.angle, st.raised, st.world)
            else M3.Cat(st.sent, Follow(env, segs[1..], st.angle, st.world))
  {
    StepStops(env, segs[0], angle, w);
  }

  /** The first unacknowledged command ends the run: nothing after it is sent, and nothing raises. */
  lemma RefusedStops(env: M3.Env, segs: seq<Segment>, angle: int, w: M3.World)
    requires |segs| > 0 && (env.hasDetector || segs[0].Forward?)
    requires !Request(VerbOf(segs[0]), IntToString(ValueOf(segs[0])), w.script).0
    ensures var out := Follow(env, segs, angle, w);
            out.sent == [M3.SegmentMessage(segs[0])] && !out.raised && out.angle == M3.Turned(segs[0], angle)
  {
  }

  /** Without a detector the first TURN raises before it is sent. */
  lemma TurnWithoutDetector(env: M3.Env, segs: seq<Segment>, angle: int, w: M3.World)
    requires |segs| > 0 && segs[0].Turn? && !env.hasDetector
    ensures Follow(env, segs, angle, w) == M3.Outcome([], angle, true, w)
  {
  }

  /** A correction does not end the run: with columns, an acknowledged segment always lets the next one go out. */
  lemma CorrectionGoesOn(env: M3.Env, seg: Segment, angle: int, w: M3.World)
    requires env.cols != 0 && (env.hasDetector || seg.Forward?)
    requires Request(VerbOf(seg), IntToString(ValueOf(seg)), w.script).0
    ensures !SegmentStep(env, seg, angle, w).stop && !SegmentStep(env, seg, angle, w).raised
  {
    var r := Request(VerbOf(seg), IntToString(ValueOf(seg)), w.script);
    CheckAtMostOne(env, M3.Turned(seg, angle), M3.World(r.1, w.poses, w.labels));
  }

  /** An acknowledged segment, with nothing for the detector to read, sends its own line and goes on. */
  lemma StepAcked(env: M3.Env, s: Segment, angle: int, script: seq<Reply>, tail: seq<Reply>)
    requires env.hasDetector
    requires Request(VerbOf(s), IntToString(ValueOf(s)), script) == (true, tail)
    ensures SegmentStep(env, s, angle, M3.World(script, [], [])) ==
            M3.Step([M3.SegmentMessage(s)], M3.Turned(s, angle), false, false, M3.World(tail, [], []))
  {
    CheckBlind(env, M3.Turned(s, angle), M3.World(tail, [], []));
    assert [M3.SegmentMessage(s)] + [] == [M3.SegmentMessage(s)];
  }

  /**
   * With a detector that reads nothing and replies that acknowledge every
   * command, a path sends every segment's line in order, the expected
   * angle is replayed over every TURN, and nothing raises.
   */
  lemma {:induction false} RunAcked(env: M3.Env, segs: seq<Segment>, angle: int, script: seq<Reply>, more: seq<Reply>)
    requires env.hasDetector && M3.AcceptsAll(segs, script, more)
    ensures Follow(env, segs, angle, M3.World(script, [], [])) ==
            M3.Outcome(M3.SegmentMessages(segs), Replay(angle, segs), false, M3.World(more, [], []))
    decreases |segs|
  {
    if |segs| != 0 {
      var r := Request(VerbOf(segs[0]), IntToString(ValueOf(segs[0])), script);
      RunAcked(env, segs[1..], M3.Turned(segs[0], angle), r.1, more);
      StepAcked(env, segs[0], angle, script, r.1);
      M3.FirstOfPath(segs, angle);
    }
  }

  /**
   * `execute_path` on a well-formed path, with the firmware acknowledging
   * every command and nothing to correct: one line per compressed segment,
   * FORWARD counts are Manhattan lengths, and the detector's expected
   * angle ends on the last state's heading.
   */
  lemma ExecuteAcked(env: M3.Env, path: seq<HS.State>, more: seq<Reply>)
    requires env.hasDetector && |path| > 0
    requires forall i :: 0 <= i < |path| ==> 0 <= path[i].2 < 360
    requires forall i :: 1 <= i < |path| ==> Abs(TurnDelta(path[i - 1].2, path[i].2)) != 1
    ensures var segs := Compressed(ByManhattan, path);
            var out := Follow(env, segs, path[0].2, M3.World(M3.SegmentAcks(segs) + more, [], []));
            out.sent == M3.SegmentMessages(segs) && out.angle == path[|path| - 1].2 && !out.raised &&
            out.world == M3.World(more, [], [])
  {
    var segs := Compressed(ByManhattan, path);
    M3.AcksAccepted(segs, more);
    RunAcked(env, segs, path[0].2, M3.SegmentAcks(segs) + more, more);
    ReplayCompressed(ByManhattan, path);
  }

  // ---------------------------------------------------------------- the client

  /** The expected angle the detector holds; 0 stands in when there is none, and is never read then. */
  function AngleOf(d: Detector?): int
    reads d
  {
    if d == null then 0 else d.expectedAngle
  }

  class MovementClass {
    var clientSocket: Socket?
    var detector: Detector?

    /** `__init__`: not connected. */
    constructor (detector: Detector?)
      ensures clientSocket == null && this.detector == detector
    {
      clientSocket := null;
      this.detector := detector;
    }

    /** The socket's and the detector's scripts as one world. */
    function Now(): M3.World
      reads this, clientSocket, detector
      requires clientSocket != null
    {
      M3.World(clientSocket.script, M3.PosesOf(detector), M3.LabelsOf(detector))
    }

    /** `_recv_line`: one `recv`, stripped; `None` on a timeout or an error. */
    method RecvLine() returns (line: Option<string>)
      requires clientSocket != null
      modifies clientSocket
      ensures var s := old(clientSocket.script);
              line == (if |s| > 0 && s[0].Answer? then Some(Strip(s[0].text)) else None) &&
              clientSocket.script == (if |s| == 0 then [] else s[1..]) &&
              clientSocket.written == old(clientSocket.written) && clientSocket.closed == old(clientSocket.closed)
    {
      var r := clientSocket.Recv();
      line := if r.Some? then Some(Strip(r.value)) else None;
    }

    /** `connect`: `endpoint` is the socket the connection gives, `null` when connecting fails; the greeting is read and discarded. */
    method Connect(endpoint: Socket?)
      modifies this, endpoint
      ensures clientSocket == endpoint && detector == old(detector)
      ensures endpoint != null ==>
                endpoint.script == (if |old(endpoint.script)| == 0 then [] else old(endpoint.script)[1..]) &&
                endpoint.written == old(endpoint.written) && endpoint.closed == old(endpoint.closed)
    {
      clientSocket := endpoint;
      if endpoint != null {
        var greeting := RecvLine();
      }
    }

    /** `disconnect`: close the socket, if any, and forget it. */
    method Disconnect()
      modifies this, clientSocket
      ensures clientSocket == null && detector == old(detector)
      ensures old(clientSocket) != null ==>
                old(clientSocket).closed && old(clientSocket).written == old(clientSocket.written) &&
                old(clientSocket).script == old(clientSocket.script)
    {
      if clientSocket != null {
        clientSocket.Close();
        clientSocket := null;
      }
    }

    /**
     * `_send_command_wait_ack`: a verb outside FORWARD, BACK, TURN, STOP
     * and DANCE (after upper-casing) is refused without sending; otherwise
     * one request goes out and only the exact acknowledgement counts.
     */
    method SendCommandWaitAck(command: string, param: string) returns (success: bool)
      requires clientSocket != null
      modifies clientSocket
      ensures Upper(command) !in M3.ValidCommands ==> !success && unchanged(clientSocket)
      ensures Upper(command) in M3.ValidCommands ==>
                var r := Request(command, param, old(clientSocket.script));
                clientSocket.written == old(clientSocket.written) + [Message(command, param)] &&
                clientSocket.script == r.1 && success == r.0 && clientSocket.closed == old(clientSocket.closed)
    {
      if Upper(command) !in M3.ValidCommands {
        return false;
      }
      var message := Message(command, param);
      var sentOk := clientSocket.SendAll(message);
      if !sentOk {
        return false;
      }
      var ack := clientSocket.Recv();
      success := ack.Some? && Strip(ack.value) == ExpectedAck(command, param);
    }

    /** One compressed segment sent as its request line. */
    method SendSegment(s: Segment) returns (ok: bool)
      requires clientSocket != null
      modifies clientSocket
      ensures var r := Request(VerbOf(s), IntToString(ValueOf(s)), old(clientSocket.script));
              ok == r.0 && clientSocket.script == r.1 &&
              clientSocket.written == old(clientSocket.written) + [M3.SegmentMessage(s)]
    {
      M3.SegmentVerbsValid(s);
      ok := SendCommandWaitAck(VerbOf(s), IntToString(ValueOf(s)));
    }

    /**
     * `_check_and_correct_position`, as `Check` describes it; `raised`
     * stands for the ZeroDivisionError a detector without columns gives.
     */
    method CheckAndCorrectPosition() returns (raised: bool)
      requires clientSocket != null
      modifies clientSocket, detector
      ensures detector != null ==> detector.cols == old(detector.cols)
      ensures var p := Check(old(M3.EnvOf(detector)), old(AngleOf(detector)), old(Now()));
              clientSocket.written == old(clientSocket.written) + p.sent && Now() == p.world &&
              (detector != null ==> AngleOf(detector) == p.angle) && raised == p.raised
    {
      if detector == null {
        return false;
      }
      var cellLabel := detector.GetRobotCellLabel();
      if cellLabel.None? {
        return false;
      }
      var cell := Converter(cellLabel.value, detector.cols);
      if cell.None? {
        return true;
      }
      var position := detector.GetRobotPosition();
      if position.None? {
        return false;
      }
      CorrectHeading(position.value.2);
      raised := false;
    }

    /** The heading part of `_check_and_correct_position`, as `HeadingCheck` describes it. */
    method CorrectHeading(heading: int)
      requires clientSocket != null && detector != null
      modifies clientSocket, detector
      ensures detector.cols == old(detector.cols)
      ensures var p := HeadingCheck(heading, old(AngleOf(detector)), old(Now()));
              clientSocket.written == old(clientSocket.written) + p.sent && Now() == p.world &&
              AngleOf(detector) == p.angle
    {
      var expected := detector.GetExpectedAngle();
      var angleDiff := AngleError(heading, expected);
      if Abs(angleDiff) > OrientationThreshold {
        var correction := M3.Correction(angleDiff);
        assert Upper("TURN") == "TURN";
        var success := SendCommandWaitAck("TURN", IntToString(correction));
        if success {
          detector.SetExpectedAngle((expected + correction) % 360);
        }
      }
    }

    /**
     * `execute_path(path)`: nothing without a connection or for an empty
     * path; otherwise the path, compressed with Manhattan FORWARD counts,
     * is followed from the detector's own expected angle, exactly as
     * `Follow` describes.
     */
    method ExecutePath(path: seq<HS.State>) returns (raised: bool)
      modifies clientSocket, detector
      ensures old(clientSocket) == null || |path| == 0 ==>
                !raised && (clientSocket != null ==> unchanged(clientSocket)) && (detector != null ==> unchanged(detector))
      ensures old(clientSocket) != null && |path| > 0 ==>
                var out := Follow(old(M3.EnvOf(detector)), Compressed(ByManhattan, path), old(AngleOf(detector)), old(Now()));
                clientSocket.written == old(clientSocket.written) + out.sent && Now() == out.world &&
                (detector != null ==> AngleOf(detector) == out.angle) && raised == out.raised
    {
      raised := false;
      if clientSocket == null || |path| == 0 {
        return;
      }
      var segments := CompressPath(ByManhattan, path);
      raised := FollowSegments(M3.EnvOf(detector), segments);
    }

    /** The segment loop of `execute_path`, as `Follow` describes it. */
    method FollowSegments(ghost env: M3.Env, segments: seq<Segment>) returns (raised: bool)
      requires clientSocket != null && M3.EnvOf(detector) == env
      modifies clientSocket, detector
      ensures var out := Follow(env, segments, old(AngleOf(detector)), old(Now()));
              clientSocket.written == old(clientSocket.written) + out.sent && Now() == out.world &&
              (detector != null ==> AngleOf(detector) == out.angle) && raised == out.raised
    {
      raised := false;
      ghost var sent: seq<string> := [];
      var rest := segments;
      while |rest| > 0
        invariant !raised
        invariant M3.EnvOf(detector) == env
        invariant clientSocket.written == old(clientSocket.written) + sent
        invariant Follow(env, segments, old(AngleOf(detector)), old(Now())) ==
                    M3.Cat(sent, Follow(env, rest, AngleOf(detector), Now()))
        decreases |rest|
      {
        ghost var delta;
        var stop;
        stop, raised, delta := FollowNext(env, rest);
        M3.CatCat(sent, delta, Follow(env, rest[1..], AngleOf(detector), Now()));
        AppendAssoc(old(clientSocket.written), sent, delta);
        sent := sent + delta;
        if stop {
          return;
        }
        rest := rest[1..];
      }
    }

    /** The first segment of `rest`, and what it leaves of the loop. */
    method FollowNext(ghost env: M3.Env, rest: seq<Segment>) returns (stop: bool, raised: bool, ghost delta: seq<string>)
      requires |rest| > 0
      requires clientSocket != null && M3.EnvOf(detector) == env
      modifies clientSocket, detector
      ensures M3.EnvOf(detector) == env
      ensures raised ==> stop
      ensures clientSocket.written == old(clientSocket.written) + delta
      ensures Follow(env, rest, old(AngleOf(detector)), old(Now())) ==
                if stop then M3.Outcome(delta, AngleOf(detector), raised, Now())
                else M3.Cat(delta, Follow(env, rest[1..], AngleOf(detector), Now()))
    {
      ghost var a0, w0 := AngleOf(detector), Now();
      if rest[0].Turn? && detector == null {
        // `self.detector.set_expected_angle(...)` on None: AttributeError.
        FollowStep(env, rest, a0, w0, M3.Step([], a0, true, true, w0));
        return true, true, [];
      }
      AdvanceExpected(rest[0]);
      stop, raised, delta := FollowOne(env, rest[0]);
      FollowStep(env, rest, a0, w0, M3.Step(delta, AngleOf(detector), stop, raised, Now()));
    }

    /** A TURN segment moves the detector's expected angle by its degrees, modulo 360. */
    method AdvanceExpected(s: Segment)
      requires clientSocket != null && (detector != null || s.Forward?)
      modifies detector
      ensures AngleOf(detector) == M3.Turned(s, old(AngleOf(detector)))
      ensures Now() == old(Now()) && M3.EnvOf(detector) == old(M3.EnvOf(detector))
    {
      if s.Turn? {
        var expected := detector.GetExpectedAngle();
        detector.SetExpectedAngle((expected + s.degrees) % 360);
      }
    }

    /** Sending one segment and checking the position after it, as `SendStep` describes it. */
    method FollowOne(ghost env: M3.Env, s: Segment) returns (stop: bool, raised: bool, ghost delta: seq<string>)
      requires clientSocket != null && M3.EnvOf(detector) == env
      modifies clientSocket, detector
      ensures M3.EnvOf(detector) == env
      ensures SendStep(env, s, old(AngleOf(detector)), old(Now())) ==
                M3.Step(delta, AngleOf(detector), stop, raised, Now())
      ensures clientSocket.written == old(clientSocket.written) + delta
    {
      var ok := SendSegment(s);
      delta := [M3.SegmentMessage(s)];
      if !ok {
        return true, false, delta;
      }
      ghost var p := Check(env, AngleOf(detector), Now());
      raised := CheckAndCorrectPosition();
      stop := raised;
      AppendAssoc(old(clientSocket.written), delta, p.sent);
      delta := delta + p.sent;
    }
  }
}
