/**
 * The first version of the host-side `MovementClass`
 * (`Final_Project/noros/test/movement_class.py`). The path is compressed
 * with Manhattan FORWARD counts and every segment is sent in order; the
 * reply is read but never inspected, so nothing the Pico answers can stop
 * the run. The position check after each segment only reads the detector
 * and sends nothing. It raises in two cases: the detector has no columns,
 * or the pose it reads first is a pose and the one it reads next is None.
 */
module Movement1 {
  import opened Common
  import opened Grid
  import opened Text
  import opened Motion
  import opened Link
  import M3 = Movement3
  import HS = HeadingSearch

  /** What a position check leaves: whether it raised, and the world after it. */
  datatype Glance = Glance(raised: bool, world: M3.World)

  /**
   * `_check_and_correct_position`: without a detector or a cell label it
   * does nothing; a detector with no columns raises ZeroDivisionError in
   * `_converter`. Otherwise the pose is read, and read again when the first
   * reading is not None. That second reading is unpacked as
   * `_, _, angle_deg`, so a None there (the robot lost between the two
   * reads, or the script over) raises TypeError.
   */
  function Check(env: M3.Env, w: M3.World): Glance
  {
    if !env.hasDetector then Glance(false, w)
    else
      var cellLabel := if |w.labels| == 0 then None else w.labels[0];
      var w1 := M3.World(w.script, w.poses, if |w.labels| == 0 then [] else w.labels[1..]);
      if cellLabel.None? then Glance(false, w1)
      else if Converter(cellLabel.value, env.cols).None? then Glance(true, w1)
      else
        var pos := if |w1.poses| == 0 then None else w1.poses[0];
        var rest := if |w1.poses| == 0 then [] else w1.poses[1..];
        if pos.None? then Glance(false, M3.World(w1.script, rest, w1.labels))
        else
          var again := if |rest| == 0 then None else rest[0];
          Glance(again.None?, M3.World(w1.script, if |rest| == 0 then [] else rest[1..], w1.labels))
  }

  /** The first pose reading is a pose and the next one is None, so the second read cannot be unpacked. */
  predicate LostPose(poses: seq<Option<Pose>>)
  {
    |poses| > 0 && poses[0].Some? && (|poses| == 1 || poses[1].None?)
  }

  /**
   * A check raises exactly when the detector reads a cell label and then
   * either has no columns or loses the robot's pose on its second read;
   * it never touches the replies.
   */
  lemma CheckRaises(env: M3.Env, w: M3.World)
    ensures var g := Check(env, w);
            (g.raised <==> env.hasDetector && |w.labels| > 0 && w.labels[0].Some? &&
                           (env.cols == 0 || LostPose(w.poses))) &&
            g.world.script == w.script
  {
  }

  /**
   * A pose script that checks can never lose: read as the checks read it,
   * a None is one reading and a pose is followed by a second pose.
   */
  predicate Paired(poses: seq<Option<Pose>>)
    decreases |poses|
  {
    if |poses| == 0 then true
    else if poses[0].None? then Paired(poses[1..])
    else |poses| >= 2 && poses[1].Some? && Paired(poses[2..])
  }

  /** On a paired pose script a check raises only on a detector without columns, and leaves the script paired. */
  lemma CheckPaired(env: M3.Env, w: M3.World)
    requires Paired(w.poses)
    ensures var g := Check(env, w);
            Paired(g.world.poses) && (g.raised ==> env.cols == 0)
  {
    CheckRaises(env, w);
    if |w.poses| > 0 && w.poses[0].Some? {
      assert |w.poses| >= 2 && w.poses[1].Some? && Paired(w.poses[2..]);
      assert w.poses[1..][1..] == w.poses[2..];
    }
  }

  /** Reading a pose while the robot is lost right after raises, even on a board with columns. */
  lemma LostPoseRaises(cols: int, cellLabel: int, p: Pose, script: seq<Reply>)
    ensures Check(M3.Env(true, cols), M3.World(script, [Some(p), None], [Some(cellLabel)])).raised
    ensures Check(M3.Env(true, cols), M3.World(script, [Some(p)], [Some(cellLabel)])).raised
  {
    CheckRaises(M3.Env(true, cols), M3.World(script, [Some(p), None], [Some(cellLabel)]));
    CheckRaises(M3.Env(true, cols), M3.World(script, [Some(p)], [Some(cellLabel)]));
  }

  /** The messages `execute_path` sent, whether it raised, and the world it left. */
  datatype Sent = Sent(sent: seq<string>, raised: bool, world: M3.World)

  function Prepend(ms: seq<string>, o: Sent): Sent
  {
    Sent(ms + o.sent, o.raised, o.world)
  }

  /**
   * The segment loop of `execute_path` from `segs` on: each segment is
   * sent and its reply read, whatever it is, and then the position is
   * checked; only a check that raises ends the loop early.
   */
  function Follow(env: M3.Env, segs: seq<Segment>, w: M3.World): Sent
    decreases |segs|
  {
    if |segs| == 0 then Sent([], false, w)
    else
      var w1 := M3.World(Exchange(w.script).rest, w.poses, w.labels);
      var g := Check(env, w1);
      if g.raised then Sent([M3.SegmentMessage(segs[0])], true, g.world)
      else Prepend([M3.SegmentMessage(segs[0])], Follow(env, segs[1..], g.world))
  }

  /**
   * Whatever the replies, the lines sent are the segments' own lines in
   * order, cut short only by a raising check: at least the first one goes
   * out, all of them when nothing raises, and a raise needs a detector:
   * one without columns or a pose script that loses the robot.
   */
  lemma {:induction false} FollowPrefix(env: M3.Env, segs: seq<Segment>, w: M3.World)
    ensures var out := Follow(env, segs, w);
            |out.sent| <= |segs| && out.sent == M3.SegmentMessages(segs)[..|out.sent|] &&
            (|segs| > 0 ==> |out.sent| >= 1) &&
            (!out.raised ==> |out.sent| == |segs|) &&
            (out.raised ==> env.hasDetector && (env.cols == 0 || !Paired(w.poses)))
    decreases |segs|
  {
    if |segs| > 0 {
      var w1 := M3.World(Exchange(w.script).rest, w.poses, w.labels);
      var g := Check(env, w1);
      CheckRaises(env, w1);
      var ms := M3.SegmentMessages(segs);
      assert ms == [M3.SegmentMessage(segs[0])] + M3.SegmentMessages(segs[1..]);
      if Paired(w1.poses) {
        CheckPaired(env, w1);
      }
      if !g.raised {
        FollowPrefix(env, segs[1..], g.world);
      }
    }
  }

  /**
   * With no detector, or a detector that has columns and whose pose
   * readings never lose the robot between a check's two reads, every
   * segment's line is sent in order, nothing raises, and exactly one
   * reply per segment is used up.
   */
  lemma {:induction false} SendsAll(env: M3.Env, segs: seq<Segment>, w: M3.World)
    requires !env.hasDetector || (env.cols != 0 && Paired(w.poses))
    ensures var out := Follow(env, segs, w);
            out.sent == M3.SegmentMessages(segs) && !out.raised && out.world.script == After(w.script, |segs|)
    decreases |segs|
  {
    if |segs| > 0 {
      var w1 := M3.World(Exchange(w.script).rest, w.poses, w.labels);
      CheckRaises(env, w1);
      if env.hasDetector {
        CheckPaired(env, w1);
      }
      var g := Check(env, w1);
      SendsAll(env, segs[1..], g.world);
      AfterExchange(w.script, |segs| - 1);
    }
  }

  /**
   * `execute_path` on any path, without a detector or with one that has
   * columns and paired pose readings: one line per compressed segment, the
   * FORWARD counts being Manhattan lengths, and the run never aborts.
   */
  lemma ExecuteSendsAll(env: M3.Env, path: seq<HS.State>, w: M3.World)
    requires !env.hasDetector || (env.cols != 0 && Paired(w.poses))
    ensures var segs := Compressed(ByManhattan, path);
            var out := Follow(env, segs, w);
            out.sent == M3.SegmentMessages(segs) && !out.raised && |out.sent| == |segs|
  {
    SendsAll(env, Compressed(ByManhattan, path), w);
  }

  // ---------------------------------------------------------------- the client

  class MovementClass {
    var clientSocket: Socket?
    var detector: Detector?

    /** `__init__`: not connected. */
    constructor (detector: Detector?)
      ensures clientSocket == null && this.detector == detector
    {
      clientSocket := null;
      this.detector := detector;
    }

    /** The socket's and the detector's scripts as one world. */
    function Now(): M3.World
      reads this, clientSocket, detector
      requires clientSocket != null
    {
      M3.World(clientSocket.script, M3.PosesOf(detector), M3.LabelsOf(detector))
    }

    /** `connect`: `endpoint` is the socket the connection gives, `null` when connecting fails; no greeting is read. */
    method Connect(endpoint: Socket?)
      modifies this
      ensures clientSocket == endpoint && detector == old(detector)
    {
      clientSocket := endpoint;
    }

    /** `disconnect`: close the socket, if any, and forget it. */
    method Disconnect()
      modifies this, clientSocket
      ensures clientSocket == null && detector == old(detector)
      ensures old(clientSocket) != null ==>
                old(clientSocket).closed && old(clientSocket).written == old(clientSocket.written) &&
                old(clientSocket).script == old(clientSocket.script)
    {
      if clientSocket != null {
        clientSocket.Close();
        clientSocket := null;
      }
    }

    /** `_recv_line`: one `recv`, stripped; `None` on a timeout or an error. */
    method RecvLine() returns (line: Option<string>)
      requires clientSocket != null
      modifies clientSocket
      ensures var s := old(clientSocket.script);
              line == (if |s| > 0 && s[0].Answer? then Some(Strip(s[0].text)) else None) &&
              clientSocket.script == (if |s| == 0 then [] else s[1..]) &&
              clientSocket.written == old(clientSocket.written) && clientSocket.closed == old(clientSocket.closed)
    {
      var r := clientSocket.Recv();
      line := if r.Some? then Some(Strip(r.value)) else None;
    }

    /**
     * `_send_command_wait_ack`: a verb outside FORWARD, BACK, TURN, STOP
     * and DANCE (after upper-casing) sends nothing; otherwise the request
     * goes out and one reply is read and ignored.
     */
    method SendCommandWaitAck(command: string, param: string)
      requires clientSocket != null
      modifies clientSocket
      ensures Upper(command) !in M3.ValidCommands ==> unchanged(clientSocket)
      ensures Upper(command) in M3.ValidCommands ==>
                clientSocket.written == old(clientSocket.written) + [Message(command, param)] &&
                clientSocket.script == Exchange(old(clientSocket.script)).rest &&
                clientSocket.closed == old(clientSocket.closed)
    {
      if Upper(command) !in M3.ValidCommands {
        return;
      }
      var message := Message(command, param);
      var sentOk := clientSocket.SendAll(message);
      if !sentOk {
        return;
      }
      var ack := RecvLine();
    }

    /**
     * `_check_and_correct_position`, as `Check` describes it: it reads the
     * detector only, so the socket is not even in its frame; `raised`
     * stands for the ZeroDivisionError of a detector without columns and
     * for the TypeError of a second pose reading that is None.
     */
    method CheckAndCorrectPosition() returns (raised: bool)
      requires clientSocket != null
      modifies detector
      ensures detector != null ==> detector.cols == old(detector.cols)
      ensures var g := Check(old(M3.EnvOf(detector)), old(Now()));
              Now() == g.world && raised == g.raised
    {
      if detector == null {
        return false;
      }
      var cellLabel := detector.GetRobotCellLabel();
      if cellLabel.None? {
        return false;
      }
      var cell := Converter(cellLabel.value, detector.cols);
      if cell.None? {
        return true;
      }
      var position := detector.GetRobotPosition();
      raised := false;
      if position.Some? {
        position := detector.GetRobotPosition();
        raised := position.None?;
      }
    }

    /**
     * `execute_path(path)`: nothing without a connection or for an empty
     * path; otherwise the path, compressed with Manhattan FORWARD counts,
     * is sent segment by segment, exactly as `Follow` describes.
     */
    method ExecutePath(path: seq<HS.State>) returns (raised: bool)
      modifies clientSocket, detector
      ensures old(clientSocket) == null || |path| == 0 ==>
                !raised && (clientSocket != null ==> unchanged(clientSocket)) && (detector != null ==> unchanged(detector))
      ensures old(clientSocket) != null && |path| > 0 ==>
                var out := Follow(old(M3.EnvOf(detector)), Compressed(ByManhattan, path), old(Now()));
                clientSocket.written == old(clientSocket.written) + out.sent && Now() == out.world &&
                raised == out.raised
    {
      raised := false;
      if clientSocket == null || |path| == 0 {
        return;
      }
      var segments := CompressPath(ByManhattan, path);
      raised := FollowSegments(M3.EnvOf(detector), segments);
    }

    /** The segment loop of `execute_path`, as `Follow` describes it. */
    method FollowSegments(ghost env: M3.Env, segments: seq<Segment>) returns (raised: bool)
      requires clientSocket != null && M3.EnvOf(detector) == env
      modifies clientSocket, detector
      ensures var out := Follow(env, segments, old(Now()));
              clientSocket.written == old(clientSocket.written) + out.sent && Now() == out.world &&
              raised == out.raised
    {
      raised := false;
      ghost var sent: seq<string> := [];
      var rest := segments;
      while |rest| > 0
        invariant !raised
        invariant M3.EnvOf(detector) == env
        invariant clientSocket.written == old(clientSocket.written) + sent
        invariant Follow(env, segments, old(Now())) == Prepend(sent, Follow(env, rest, Now()))
        decreases |rest|
      {
        raised := FollowOne(env, rest);
        AppendAssoc(old(clientSocket.written), sent, [M3.SegmentMessage(rest[0])]);
        AppendAssoc(sent, [M3.SegmentMessage(rest[0])], Follow(env, rest[1..], Now()).sent);
        sent := sent + [M3.SegmentMessage(rest[0])];
        if raised {
          return;
        }
        rest := rest[1..];
      }
    }

    /** The first segment of `rest`: it is sent, then the position is checked. */
    method FollowOne(ghost env: M3.Env, rest: seq<Segment>) returns (raised: bool)
      requires |rest| > 0 && clientSocket != null && M3.EnvOf(detector) == env
      modifies clientSocket, detector
      ensures M3.EnvOf(detector) == env
      ensures clientSocket.written == old(clientSocket.written) + [M3.SegmentMessage(rest[0])]
      ensures Follow(env, rest, old(Now())) ==
                if raised then Sent([M3.SegmentMessage(rest[0])], true, Now())
                else Prepend([M3.SegmentMessage(rest[0])], Follow(env, rest[1..], Now()))
    {
      M3.SegmentVerbsValid(rest[0]);
      SendCommandWaitAck(VerbOf(rest[0]), IntToString(ValueOf(rest[0])));
      raised := CheckAndCorrectPosition();
    }
  }
}
