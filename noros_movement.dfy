/**
 * The cell-by-cell `MovementClass` of `Final_Project/noros/movement_class.py`:
 * each pair of consecutive cells of a path becomes one of FRONT, BACK,
 * RIGHT or LEFT, sent as a line of its own; pairs that are not 4-neighbours
 * are skipped. The reply is read and dropped, and every socket error is
 * swallowed.
 */
module NorosMovement {
  import opened Common
  import opened Grid
  import opened Link

  /** `_step_to_command(current, nxt)`: the direction word of a unit move, `None` for anything else. */
  function StepToCommand(current: Cell, nxt: Cell): Option<string>
  {
    var dr, dc := nxt.0 - current.0, nxt.1 - current.1;
    if dr == -1 && dc == 0 then Some("FRONT")
    else if dr == 1 && dc == 0 then Some("BACK")
    else if dr == 0 && dc == 1 then Some("RIGHT")
    else if dr == 0 && dc == -1 then Some("LEFT")
    else None
  }

  /** The move a direction word stands for: FRONT is one row up, RIGHT one column on. */
  function CommandDelta(command: string): (int, int)
  {
    if command == "FRONT" then (-1, 0)
    else if command == "BACK" then (1, 0)
    else if command == "RIGHT" then (0, 1)
    else if command == "LEFT" then (0, -1)
    else (0, 0)
  }

  /**
   * A pair gets a command exactly when its cells are 4-neighbours, and the
   * command's own move takes the first cell to the second.
   */
  lemma StepToCommandExact(current: Cell, nxt: Cell)
    ensures StepToCommand(current, nxt).Some? <==> Adjacent(current, nxt)
    ensures StepToCommand(current, nxt).Some? ==>
              var d := CommandDelta(StepToCommand(current, nxt).value);
              nxt == (current.0 + d.0, current.1 + d.1)
  {
  }

  /** The commands of every mapped pair of `path`, in path order. */
  function PathCommands(path: seq<Cell>): seq<string>
  {
    if |path| < 2 then []
    else
      var last := StepToCommand(path[|path| - 2], path[|path| - 1]);
      PathCommands(path[..|path| - 1]) + (if last.Some? then [last.value] else [])
  }

  /** The four direction words. */
  const Directions: seq<string> := ["FRONT", "BACK", "RIGHT", "LEFT"]

  /** Every command of a path is one of the four direction words. */
  lemma {:induction false} PathCommandsWords(path: seq<Cell>)
    ensures forall i :: 0 <= i < |PathCommands(path)| ==> PathCommands(path)[i] in Directions
    decreases |path|
  {
    if |path| >= 2 {
      PathCommandsWords(path[..|path| - 1]);
    }
  }

  /** Where a run of commands leads from `start`. */
  function Walk(start: Cell, commands: seq<string>): Cell
  {
    if |commands| == 0 then start
    else
      var d := CommandDelta(commands[|commands| - 1]);
      var p := Walk(start, commands[..|commands| - 1]);
      (p.0 + d.0, p.1 + d.1)
  }

  /** At most one command per pair of consecutive cells. */
  lemma {:induction false} PathCommandsAtMostOne(path: seq<Cell>)
    ensures |PathCommands(path)| <= if |path| < 2 then 0 else |path| - 1
    decreases |path|
  {
    if |path| >= 2 {
      PathCommandsAtMostOne(path[..|path| - 1]);
    }
  }

  lemma WalkSnoc(start: Cell, commands: seq<string>, c: string)
    ensures var p := Walk(start, commands);
            Walk(start, commands + [c]) == (p.0 + CommandDelta(c).0, p.1 + CommandDelta(c).1)
  {
    assert (commands + [c])[..|commands|] == commands;
  }

  /**
   * Along a 4-connected walk every pair gets its command, and the
   * commands lead from the walk's first cell to its last.
   */
  lemma {:induction false} PathCommandsWalk(path: seq<Cell>)
    ensures |path| >= 1 && IsWalk(path) ==>
              |PathCommands(path)| == |path| - 1 && Walk(path[0], PathCommands(path)) == path[|path| - 1]
    decreases |path|
  {
    if |path| >= 2 && IsWalk(path) {
      var init := path[..|path| - 1];
      assert IsWalk(init) by {
        forall i | 1 <= i < |init| ensures Adjacent(init[i - 1], init[i]) {
          assert init[i - 1] == path[i - 1] && init[i] == path[i];
        }
      }
      PathCommandsWalk(init);
      var prev, last := path[|path| - 2], path[|path| - 1];
      assert Adjacent(prev, last);
      StepToCommandExact(prev, last);
      var c := StepToCommand(prev, last).value;
      assert PathCommands(path) == PathCommands(init) + [c];
      WalkSnoc(path[0], PathCommands(init), c);
      assert init[0] == path[0] && init[|init| - 1] == prev;
    }
  }

  /** Extending a path by one cell adds that pair's command, if any. */
  lemma PathCommandsStep(path: seq<Cell>, i: nat)
    requires 1 <= i < |path|
    ensures var c := StepToCommand(path[i - 1], path[i]);
            PathCommands(path[..i + 1]) == PathCommands(path[..i]) + (if c.Some? then [c.value] else [])
  {
    assert path[..i + 1][..i] == path[..i];
  }

  /** Each command written as its own line: `command + "\n"`. */
  function Lines(commands: seq<string>): (ls: seq<string>)
    ensures |ls| == |commands|
    ensures forall i :: 0 <= i < |commands| ==> ls[i] == commands[i] + "\n"
  {
    if |commands| == 0 then [] else Lines(commands[..|commands| - 1]) + [commands[|commands| - 1] + "\n"]
  }

  lemma LinesSnoc(commands: seq<string>, c: string)
    ensures Lines(commands + [c]) == Lines(commands) + [c + "\n"]
  {
    assert (commands + [c])[..|commands|] == commands;
  }

  class MovementClass {
    var clientSocket: Socket?

    /** `__init__`: not connected. */
    constructor ()
      ensures clientSocket == null
    {
      clientSocket := null;
    }

    /** `connect`: `endpoint` is the socket the connection gives, `null` when connecting fails. */
    method Connect(endpoint: Socket?)
      modifies this
      ensures clientSocket == endpoint
    {
      clientSocket := endpoint;
    }

    /** `disconnect`: close the socket, if any, and forget it; a second call does nothing. */
    method Disconnect()
      modifies this, clientSocket
      ensures clientSocket == null
      ensures old(clientSocket) != null ==>
                old(clientSocket).closed && old(clientSocket).written == old(clientSocket.written) &&
                old(clientSocket).script == old(clientSocket.script)
    {
      if clientSocket != null {
        clientSocket.Close();
        clientSocket := null;
      }
    }

    /**
     * `_send_command(command)`: the line `command + "\n"` goes out and one
     * reply is read, unless the send fails; every error is swallowed.
     */
    method SendCommand(command: string)
      requires clientSocket != null
      modifies clientSocket
      ensures clientSocket.written == old(clientSocket.written) + [command + "\n"]
      ensures clientSocket.script == Exchange(old(clientSocket.script)).rest
      ensures clientSocket.closed == old(clientSocket.closed)
    {
      var message := command + "\n";
      var ok := clientSocket.SendAll(message);
      if ok {
        var response := clientSocket.Recv();
      }
    }

    /**
     * `execute_path(path)`: nothing without a connection; otherwise one
     * line per mapped pair, in path order, each using up one reply.
     */
    method ExecutePath(path: seq<Cell>)
      modifies clientSocket
      ensures clientSocket == old(clientSocket)
      ensures clientSocket != null ==>
                clientSocket.written == old(clientSocket.written) + Lines(PathCommands(path)) &&
                clientSocket.script == After(old(clientSocket.script), |PathCommands(path)|)
    {
      if clientSocket == null {
        return;
      }
      if |path| < 2 {
        assert Lines([]) == [];
        return;
      }
      var i := 0;
      while i + 1 < |path|
        invariant 0 <= i < |path|
        invariant clientSocket.written == old(clientSocket.written) + Lines(PathCommands(path[..i + 1]))
        invariant clientSocket.script == After(old(clientSocket.script), |PathCommands(path[..i + 1])|)
        decreases |path| - i
      {
        var command := StepToCommand(path[i], path[i + 1]);
        ghost var done := PathCommands(path[..i + 1]);
        PathCommandsStep(path, i + 1);
        if command.Some? {
          SendCommand(command.value);
          ExchangeAfter(old(clientSocket.script), |done|);
          LinesSnoc(done, command.value);
          AppendAssoc(old(clientSocket.written), Lines(done), [command.value + "\n"]);
        } else {
          assert done + [] == done;
        }
        i := i + 1;
      }
      assert path[..i + 1] == path;
    }
  }
}
