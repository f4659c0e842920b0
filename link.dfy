/**
 * The environment the `MovementClass` variants talk to: a TCP socket to
 * the Pico and the camera-side grid detector. Neither is modelled beyond
 * what the clients observe: the socket answers each exchange from a
 * script fixed in advance, and the detector answers its queries from
 * scripts of readings. A script that runs out answers as the real
 * devices do when nothing comes: a receive timeout, or no reading.
 */
module Link {
  import opened Common
  import opened Grid

  /** How the far end handles one exchange. */
  datatype Reply =
    | Unsendable          // `sendall` raises: the connection is gone
    | Silence             // nothing arrives before the timeout, or `recv` raises
    | Answer(text: string)  // `recv` returns these bytes, decoded

  /**
   * What one `sendall` followed by one `recv` gives: whether the send
   * went through, the text received (`None` for a timeout or error), and
   * the script left over.
   */
  datatype Exchanged = Exchanged(sent: bool, received: Option<string>, rest: seq<Reply>)

  function Exchange(script: seq<Reply>): (e: Exchanged)
    ensures !e.sent ==> e.received.None?
    ensures |e.rest| == if |script| == 0 then 0 else |script| - 1
  {
    if |script| == 0 then Exchanged(true, None, [])
    else match script[0]
      case Unsendable => Exchanged(false, None, script[1..])
      case Silence => Exchanged(true, None, script[1..])
      case Answer(t) => Exchanged(true, Some(t), script[1..])
  }

  /** The replies left after `n` exchanges: each exchange uses up one reply, or none when none is left. */
  function After(script: seq<Reply>, n: nat): seq<Reply>
  {
    if n <= |script| then script[n..] else []
  }

  /** An exchange followed by `n` more leaves what `n + 1` exchanges leave. */
  lemma AfterExchange(script: seq<Reply>, n: nat)
    ensures After(Exchange(script).rest, n) == After(script, n + 1)
  {
    if |script| > 0 && n + 1 <= |script| {
      assert script[1..][n..] == script[n + 1..];
    }
  }

  /** One more exchange after `n` leaves what `n + 1` exchanges leave. */
  lemma ExchangeAfter(script: seq<Reply>, n: nat)
    ensures Exchange(After(script, n)).rest == After(script, n + 1)
  {
    if n + 1 <= |script| {
      assert script[n..][1..] == script[n + 1..];
    }
  }

  /** A client socket: every message handed to `sendall`, in order, and the replies still to come. */
  class Socket {
    var written: seq<string>
    var script: seq<Reply>
    var closed: bool

    constructor (replies: seq<Reply>)
      ensures written == [] && script == replies && !closed
    {
      written := [];
      script := replies;
      closed := false;
    }

    /** `sendall(msg)`: fails, consuming the reply, when the far end is gone. */
    method SendAll(msg: string) returns (ok: bool)
      modifies this
      ensures written == old(written) + [msg]
      ensures ok <==> !(|old(script)| > 0 && old(script)[0].Unsendable?)
      ensures script == if ok then old(script) else old(script)[1..]
      ensures closed == old(closed)
    {
      written := written + [msg];
      if |script| > 0 && script[0].Unsendable? {
        script := script[1..];
        ok := false;
      } else {
        ok := true;
      }
    }

    /** `recv(1024).decode()`: the next text, or `None` on a timeout or error. */
    method Recv() returns (r: Option<string>)
      modifies this
      ensures r == (if |old(script)| > 0 && old(script)[0].Answer? then Some(old(script)[0].text) else None)
      ensures script == if |old(script)| == 0 then [] else old(script)[1..]
      ensures written == old(written) && closed == old(closed)
    {
      if |script| == 0 {
        r := None;
      } else {
        r := if script[0].Answer? then Some(script[0].text) else None;
        script := script[1..];
      }
    }

    method Close()
      modifies this
      ensures closed && written == old(written) && script == old(script)
    {
      closed := true;
    }
  }

  /** A sending and a receiving in a row follow `Exchange`. */
  lemma ExchangeSendRecv(script: seq<Reply>)
    ensures var e := Exchange(script);
      (e.sent <==> !(|script| > 0 && script[0].Unsendable?)) &&
      (e.sent ==> e.received == (if |script| > 0 && script[0].Answer? then Some(script[0].text) else None)) &&
      e.rest == (if |script| == 0 then [] else script[1..])
  {
  }

  /** A detected pose `(x, y, angle_deg)`. */
  type Pose = (int, int, int)

  /**
   * The grid detector as the clients use it: its column count, its map
   * from cell (row, col) to the pixel centre of that cell, and the
   * readings its getters will return, one per call.
   */
  class Detector {
    var cols: int
    var cellCenters: map<Cell, (int, int)>
    var poses: seq<Option<Pose>>
    var labels: seq<Option<int>>
    var expectedAngle: int

    constructor (cols: int, cellCenters: map<Cell, (int, int)>, poses: seq<Option<Pose>>, labels: seq<Option<int>>, expectedAngle: int)
      ensures this.cols == cols && this.cellCenters == cellCenters && this.poses == poses
      ensures this.labels == labels && this.expectedAngle == expectedAngle
    {
      this.cols := cols;
      this.cellCenters := cellCenters;
      this.poses := poses;
      this.labels := labels;
      this.expectedAngle := expectedAngle;
    }

    /** `get_robot_position()`: the next reading, `None` when the robot is not seen. */
    method GetRobotPosition() returns (p: Option<Pose>)
      modifies this
      ensures p == (if |old(poses)| == 0 then None else old(poses)[0])
      ensures poses == if |old(poses)| == 0 then [] else old(poses)[1..]
      ensures cols == old(cols) && cellCenters == old(cellCenters) && labels == old(labels)
      ensures expectedAngle == old(expectedAngle)
    {
      if |poses| == 0 {
        p := None;
      } else {
        p := poses[0];
        poses := poses[1..];
      }
    }

    /** `get_robot_cell_label()`: the next reading, `None` when no cell holds the robot. */
    method GetRobotCellLabel() returns (l: Option<int>)
      modifies this
      ensures l == (if |old(labels)| == 0 then None else old(labels)[0])
      ensures labels == if |old(labels)| == 0 then [] else old(labels)[1..]
      ensures cols == old(cols) && cellCenters == old(cellCenters) && poses == old(poses)
      ensures expectedAngle == old(expectedAngle)
    {
      if |labels| == 0 {
        l := None;
      } else {
        l := labels[0];
        labels := labels[1..];
      }
    }

    /** `get_expected_angle()`. */
    method GetExpectedAngle() returns (a: int)
      ensures a == expectedAngle
    {
      a := expectedAngle;
    }

    /** `set_expected_angle(a)`. */
    method SetExpectedAngle(a: int)
      modifies this
      ensures expectedAngle == a
      ensures cols == old(cols) && cellCenters == old(cellCenters) && poses == old(poses) && labels == old(labels)
    {
      expectedAngle := a;
    }
  }
}
