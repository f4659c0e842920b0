/**
 * The Pico side of the motion link (`Final_Project/noros/test/main.py`):
 * each line received is split on commas, its verb upper-cased and
 * dispatched to a motor routine, and a `DONE,VERB,PARAM` line is sent
 * back. Unknown verbs are ignored; a missing or non-integer parameter
 * raises, which ends the session and closes the connection.
 */
module MotionFirmware {
  import opened Common
  import opened Text
  import opened Motion
  import opened Link
  import M3 = Movement3

  /** The motor routines the dispatcher calls. */
  datatype Action = MoveForward(n: int) | MoveBackward(n: int) | TurnDegrees(deg: int) | StopNow | Dance

  /** What one received line does: a motor action and its reply, nothing at all, or an exception. */
  datatype Reaction = Reply(action: Action, ack: string) | Ignore | Fail

  /** The verbs the dispatcher knows. */
  const Verbs: seq<string> := ["FORWARD", "BACK", "TURN", "STOP", "DANCE"]

  /**
   * One pass of the receive loop on the stripped line `data`: the first
   * comma field, upper-cased, picks the routine; FORWARD, BACK and TURN
   * read the second field with `int()`, which raises IndexError when it
   * is missing and ValueError when it is not an integer.
   */
  function Dispatch(data: string): Reaction
  {
    var tokens := Split(data, ',');
    var command := Upper(tokens[0]);
    if command in ["FORWARD", "BACK", "TURN"] then
      if |tokens| < 2 then Fail
      else
        var n := ParseInt(tokens[1]);
        if n.None? then Fail
        else Reply(MoveAction(command, n.value), "DONE," + command + "," + IntToString(n.value) + "\n")
    else if command == "STOP" then Reply(StopNow, "DONE," + command + ",0\n")
    else if command == "DANCE" then Reply(Dance, "DONE," + command + ",0\n")
    else Ignore
  }

  /** The motor routine of a moving verb: `move_forward`, `move_backward` or `turn_degrees`. */
  function MoveAction(command: string, n: int): Action
  {
    if command == "FORWARD" then MoveForward(n)
    else if command == "BACK" then MoveBackward(n)
    else TurnDegrees(n)
  }

  /** A moving verb with an integer parameter runs its routine and replies `DONE,VERB,n`, `n` written back canonically. */
  lemma DispatchMove(command: string, n: int)
    requires command in ["FORWARD", "BACK", "TURN"]
    ensures Dispatch(command + "," + IntToString(n)) ==
              Reply(MoveAction(command, n), "DONE," + command + "," + IntToString(n) + "\n")
  {
    var p := IntToString(n);
    MoveVerbUpper(command);
    assert command + "," + p == command + [','] + p;
    SplitCons(command, ',', p);
    SplitNoSep(p, ',');
    ParseIntToString(n);
  }

  lemma MoveVerbUpper(command: string)
    requires command in ["FORWARD", "BACK", "TURN"]
    ensures Upper(command) == command && ',' !in command
  {
    if command == "FORWARD" {
      assert Upper("FORWARD") == "FORWARD";
    } else if command == "BACK" {
      assert Upper("BACK") == "BACK";
    } else {
      assert Upper("TURN") == "TURN";
    }
  }

  /** A verb outside the five, after upper-casing, is ignored: no action and no reply. */
  lemma UnknownIgnored(data: string)
    requires Upper(Split(data, ',')[0]) !in Verbs
    ensures Dispatch(data) == Ignore
  {
  }

  /** A known verb always gets an action and its reply, or ends the session; it is never ignored. */
  lemma KnownNotIgnored(data: string)
    requires Upper(Split(data, ',')[0]) in Verbs
    ensures Dispatch(data) != Ignore
  {
  }

  /** A verb that is already upper case and not one of the five is ignored, whatever follows its comma. */
  lemma OtherVerbIgnored(verb: string, param: string)
    requires ',' !in verb && Upper(verb) == verb && verb !in Verbs
    ensures Dispatch(verb + "," + param) == Ignore
  {
    assert verb + "," + param == verb + [','] + param;
    SplitCons(verb, ',', param);
  }

  /** The parameter lines of the fifth client's position corrections are ignored. */
  lemma CorrectionIgnored(param: string)
    ensures Dispatch("CORRECTION," + param) == Ignore
  {
    assert Upper("CORRECTION") == "CORRECTION";
    OtherVerbIgnored("CORRECTION", param);
  }

  /** So are the fifth client's status messages. */
  lemma StatusIgnored(param: string)
    ensures Dispatch("STATUS," + param) == Ignore
  {
    assert Upper("STATUS") == "STATUS";
    OtherVerbIgnored("STATUS", param);
  }

  /** STOP and DANCE reply with a parameter of 0, whatever parameter came with them. */
  lemma StopDanceZero(data: string)
    requires Upper(Split(data, ',')[0]) in ["STOP", "DANCE"]
    ensures Dispatch(data).Reply? && Dispatch(data).ack == "DONE," + Upper(Split(data, ',')[0]) + ",0\n"
  {
    var command := Upper(Split(data, ',')[0]);
    assert command[0] in "SD";
    assert command !in ["FORWARD", "BACK", "TURN"];
  }

  /** A moving verb whose parameter is not an integer, such as `TURN,3.2`, raises. */
  lemma NonIntegerFails(data: string)
    requires Upper(Split(data, ',')[0]) in ["FORWARD", "BACK", "TURN"]
    requires |Split(data, ',')| < 2 || '.' in Split(data, ',')[1]
    ensures Dispatch(data) == Fail
  {
    var tokens := Split(data, ',');
    if |tokens| >= 2 {
      ParseIntRejectsDot(tokens[1]);
    }
  }

  /** The motor routine a compressed segment asks for. */
  function SegmentAction(s: Segment): Action
  {
    match s
    case Turn(d) => TurnDegrees(d)
    case Forward(n) => MoveForward(n)
  }

  /** The line a client sends for a segment, as the firmware's stripped `recv` sees it. */
  lemma SegmentLine(s: Segment)
    ensures Strip(M3.SegmentMessage(s)) == VerbOf(s) + "," + IntToString(ValueOf(s))
  {
    var v, p := VerbOf(s), IntToString(ValueOf(s));
    VerbUpper(s);
    assert Message(v, p) == (v + "," + p) + "\n";
    StripNewline(v + "," + p);
  }

  /** The firmware answers a compressed segment's line by running that segment's routine and replying `DONE,VERB,n`. */
  lemma SegmentDispatched(s: Segment)
    ensures Dispatch(Strip(M3.SegmentMessage(s))) ==
              Reply(SegmentAction(s), "DONE," + VerbOf(s) + "," + IntToString(ValueOf(s)) + "\n")
  {
    SegmentLine(s);
    DispatchMove(VerbOf(s), ValueOf(s));
  }

  /**
   * Pairing the two ends: the firmware's reply to a compressed segment's
   * line is exactly the acknowledgement the client waits for, which the
   * client then accepts.
   */
  lemma SegmentAcknowledged(s: Segment, more: seq<Reply>)
    ensures var ack := AckLine(VerbOf(s), IntToString(ValueOf(s)));
            Dispatch(Strip(M3.SegmentMessage(s))) == Reply(SegmentAction(s), ack.text) &&
            Request(VerbOf(s), IntToString(ValueOf(s)), [ack] + more) == (true, more)
  {
    var v, p := VerbOf(s), IntToString(ValueOf(s));
    SegmentDispatched(s);
    VerbUpper(s);
    assert AckLine(v, p).text == "DONE," + v + "," + p + "\n";
    AckLineAccepted(v, p, more);
  }

  /**
   * A STOP whose parameter is not `0` is never acknowledged: the client
   * waits for `DONE,STOP,PARAM` and the firmware sends `DONE,STOP,0`.
   */
  lemma StopAckNeedsZero(param: string, more: seq<Reply>)
    ensures Request("STOP", param, [Answer("DONE,STOP,0\n")] + more).0 <==> param == "0"
  {
    StripNewline("DONE,STOP,0");
    assert Upper("STOP") == "STOP";
    assert ([Answer("DONE,STOP,0\n")] + more)[0] == Answer("DONE,STOP,0\n");
    var e := ExpectedAck("STOP", param);
    assert e == "DONE,STOP," + param;
    assert e[10..] == param;
  }

  // ---------------------------------------------------------------- one session

  /** What a session did: the replies sent, the motor routines run, and whether it ended on an exception. */
  datatype Served = Served(replies: seq<string>, actions: seq<Action>, failed: bool)

  /**
   * The inner receive loop over the chunks `inbox` holds, each stripped:
   * an empty chunk (the peer closed, or nothing but whitespace) ends the
   * session, and so does an exception; when the chunks run out, `recv`
   * returns nothing and the session ends too.
   */
  function Session(inbox: seq<string>): Served
    decreases |inbox|
  {
    if |inbox| == 0 then Served([], [], false)
    else
      var data := Strip(inbox[0]);
      if data == "" then Served([], [], false)
      else match Dispatch(data)
        case Fail => Served([], [], true)
        case Ignore => Session(inbox[1..])
        case Reply(a, ack) =>
          var rest := Session(inbox[1..]);
          Served([ack] + rest.replies, [a] + rest.actions, rest.failed)
  }

  function Actions(segs: seq<Segment>): seq<Action>
  {
    if |segs| == 0 then [] else [SegmentAction(segs[0])] + Actions(segs[1..])
  }

  /** The replies as the client's socket hands them over. */
  function AnswersOf(texts: seq<string>): seq<Reply>
  {
    if |texts| == 0 then [] else [Answer(texts[0])] + AnswersOf(texts[1..])
  }

  /**
   * A session fed a client's segment lines one per chunk runs every
   * segment's routine in order, never fails, and answers with exactly the
   * acknowledgements `SegmentAcks` scripts for the client.
   */
  lemma {:induction false} SessionOfSegments(segs: seq<Segment>)
    ensures var s := Session(M3.SegmentMessages(segs));
            AnswersOf(s.replies) == M3.SegmentAcks(segs) && s.actions == Actions(segs) && !s.failed
    decreases |segs|
  {
    if |segs| > 0 {
      var inbox := M3.SegmentMessages(segs);
      assert inbox[0] == M3.SegmentMessage(segs[0]) && inbox[1..] == M3.SegmentMessages(segs[1..]);
      SegmentAcknowledged(segs[0], []);
      SessionOfSegments(segs[1..]);
      var ack := AckLine(VerbOf(segs[0]), IntToString(ValueOf(segs[0])));
      var rest := Session(inbox[1..]);
      assert ([ack.text] + rest.replies)[1..] == rest.replies;
    }
  }

  /** The receive loop of one connection, as `Session` describes it. */
  method Serve(inbox: seq<string>) returns (replies: seq<string>, actions: seq<Action>, failed: bool)
    ensures Served(replies, actions, failed) == Session(inbox)
  {
    replies, actions, failed := [], [], false;
    var rest := inbox;
    while |rest| > 0
      invariant Session(inbox) == (var s := Session(rest); Served(replies + s.replies, actions + s.actions, s.failed))
      decreases |rest|
    {
      var data := Strip(rest[0]);
      if data == "" {
        assert replies + [] == replies && actions + [] == actions;
        return;
      }
      var reaction := Dispatch(data);
      if reaction.Fail? {
        assert replies + [] == replies && actions + [] == actions;
        failed := true;
        return;
      }
      if reaction.Reply? {
        AppendAssoc(replies, [reaction.ack], Session(rest[1..]).replies);
        AppendAssoc(actions, [reaction.action], Session(rest[1..]).actions);
        replies := replies + [reaction.ack];
        actions := actions + [reaction.action];
      }
      rest := rest[1..];
    }
    assert replies + [] == replies && actions + [] == actions;
  }
}
