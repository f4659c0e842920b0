/**
 * The Pico side of the cell-by-cell link (`Final_Project/noros/main.py`):
 * each line received names a verb and a target cell, `MOVE,row,col`; a
 * MOVE updates the global `current_position` and is answered with
 * `ARRIVED,row,col`. A line that is not three comma fields with integer
 * row and column raises, the exception is caught, and the connection is
 * closed.
 */
module MoveFirmware {
  import opened Common
  import opened Grid
  import opened Text
  import opened Link
  import NM = NorosMovement

  /** The grid size the firmware declares, `ROWS, COLS = 3, 4`; nothing reads it. */
  const Rows := 3
  const Cols := 4

  /** What one received line does: move to a cell, nothing, or raise. */
  datatype Reaction = MoveTo(target: Cell) | Stay | Fail

  /**
   * One pass of the receive loop on the stripped line `data`: unpacking
   * the comma fields into three names raises unless there are exactly
   * three, and `int()` raises on a row or column that is not an integer.
   * The verb is compared as received, without upper-casing.
   */
  function Dispatch(data: string): Reaction
  {
    var tokens := Split(data, ',');
    if |tokens| != 3 then Fail
    else
      var row, col := ParseInt(tokens[1]), ParseInt(tokens[2]);
      if row.None? || col.None? then Fail
      else if tokens[0] == "MOVE" then MoveTo((row.value, col.value))
      else Stay
  }

  /** The reply to a MOVE: `ARRIVED,row,col` and a newline. */
  function ArrivedLine(c: Cell): string
  {
    "ARRIVED," + IntToString(c.0) + "," + IntToString(c.1) + "\n"
  }

  /** The request line for a move to `c`, as the firmware sees it once stripped. */
  function MoveLine(c: Cell): string
  {
    "MOVE," + IntToString(c.0) + "," + IntToString(c.1)
  }

  /** `"a,b,c"` splits into its three fields when none of them holds a comma. */
  lemma SplitThree(a: string, b: string, c: string)
    requires ',' !in a && ',' !in b && ',' !in c
    ensures Split(a + "," + b + "," + c, ',') == [a, b, c]
  {
    assert a + "," + b + "," + c == a + [','] + (b + [','] + c);
    SplitCons(a, ',', b + [','] + c);
    SplitCons(b, ',', c);
    SplitNoSep(c, ',');
  }

  /** Every MOVE to any cell, in bounds or not, is carried out: the firmware goes to exactly that cell. */
  lemma MoveRoundTrip(c: Cell)
    ensures Dispatch(MoveLine(c)) == MoveTo(c)
  {
    assert "MOVE," == "MOVE" + ",";
    assert MoveLine(c) == "MOVE" + "," + IntToString(c.0) + "," + IntToString(c.1);
    SplitThree("MOVE", IntToString(c.0), IntToString(c.1));
    ParseIntToString(c.0);
    ParseIntToString(c.1);
  }

  /** The ARRIVED line without its newline. */
  lemma ArrivedStripped(c: Cell)
    ensures Strip(ArrivedLine(c)) == "ARRIVED" + "," + IntToString(c.0) + "," + IntToString(c.1)
  {
    var body := "ARRIVED" + "," + IntToString(c.0) + "," + IntToString(c.1);
    assert "ARRIVED," == "ARRIVED" + ",";
    assert ArrivedLine(c) == body + "\n";
    assert body[0] == 'A';
    StripNewline(body);
  }

  /** Stripped and split, the ARRIVED line is its verb and the cell's row and column. */
  lemma ArrivedFields(c: Cell)
    ensures Split(Strip(ArrivedLine(c)), ',') == ["ARRIVED", IntToString(c.0), IntToString(c.1)]
  {
    ArrivedStripped(c);
    SplitThree("ARRIVED", IntToString(c.0), IntToString(c.1));
  }

  /** The ARRIVED line names the cell moved to: its row and column fields read back as that cell. */
  lemma ArrivedReadsBack(c: Cell)
    ensures var fields := Split(Strip(ArrivedLine(c)), ',');
            |fields| == 3 && fields[0] == "ARRIVED" &&
            ParseInt(fields[1]) == Some(c.0) && ParseInt(fields[2]) == Some(c.1)
  {
    ArrivedFields(c);
    ParseIntToString(c.0);
    ParseIntToString(c.1);
  }

  /**
   * The verb is case sensitive and only MOVE moves: a well-formed line
   * with another verb, `move` included, leaves the position alone and
   * gets no reply.
   */
  lemma OtherVerbStays(verb: string, c: Cell)
    requires ',' !in verb && verb != "MOVE"
    ensures Dispatch(verb + "," + IntToString(c.0) + "," + IntToString(c.1)) == Stay
  {
    SplitThree(verb, IntToString(c.0), IntToString(c.1));
    ParseIntToString(c.0);
    ParseIntToString(c.1);
  }

  /** A line raises exactly when it is not three fields with integer second and third fields. */
  lemma FailExactly(data: string)
    ensures var tokens := Split(data, ',');
            Dispatch(data) == Fail <==>
              |tokens| != 3 || ParseInt(tokens[1]).None? || ParseInt(tokens[2]).None?
  {
  }

  /**
   * There is no bounds check: a MOVE to the cell one past the last row
   * and column of the declared 3-by-4 grid is carried out like any other.
   */
  lemma NoBoundsCheck()
    ensures Dispatch(MoveLine((Rows, Cols))) == MoveTo((Rows, Cols))
    ensures !(0 <= Rows < Rows && 0 <= Cols < Cols)
  {
    MoveRoundTrip((Rows, Cols));
  }

  // ---------------------------------------------------------------- one session

  /** What a session did: the replies sent, the position it left, and whether it ended on an exception. */
  datatype Served = Served(replies: seq<string>, position: Cell, failed: bool)

  /**
   * The inner receive loop over the chunks `inbox` holds, each stripped,
   * from position `pos`: an empty chunk ends the session, and so does an
   * exception; when the chunks run out, `recv` returns nothing.
   */
  function Session(inbox: seq<string>, pos: Cell): Served
    decreases |inbox|
  {
    if |inbox| == 0 then Served([], pos, false)
    else
      var data := Strip(inbox[0]);
      if data == "" then Served([], pos, false)
      else match Dispatch(data)
        case Fail => Served([], pos, true)
        case Stay => Session(inbox[1..], pos)
        case MoveTo(c) =>
          var rest := Session(inbox[1..], c);
          Served([ArrivedLine(c)] + rest.replies, rest.position, rest.failed)
  }

  /**
   * The position a session leaves is the one its last ARRIVED reply
   * names; a session that sent no reply leaves the position it found.
   */
  lemma {:induction false} LastReplyNamesPosition(inbox: seq<string>, pos: Cell)
    ensures var s := Session(inbox, pos);
            if |s.replies| == 0 then s.position == pos
            else s.replies[|s.replies| - 1] == ArrivedLine(s.position)
    decreases |inbox|
  {
    if |inbox| > 0 && Strip(inbox[0]) != "" {
      var r := Dispatch(Strip(inbox[0]));
      if r.Stay? {
        assert Session(inbox, pos) == Session(inbox[1..], pos);
        LastReplyNamesPosition(inbox[1..], pos);
      } else if r.MoveTo? {
        var rest := Session(inbox[1..], r.target);
        assert Session(inbox, pos) == Served([ArrivedLine(r.target)] + rest.replies, rest.position, rest.failed);
        LastReplyNamesPosition(inbox[1..], r.target);
        var rs := [ArrivedLine(r.target)] + rest.replies;
        assert rs[|rs| - 1] == if |rest.replies| == 0 then ArrivedLine(r.target) else rest.replies[|rest.replies| - 1];
      }
    }
  }

  /** One MOVE line per cell. */
  function MoveLines(cells: seq<Cell>): (ls: seq<string>)
    ensures |ls| == |cells|
  {
    if |cells| == 0 then [] else [MoveLine(cells[0])] + MoveLines(cells[1..])
  }

  /** A session whose first chunk is a MOVE line goes to that cell, answers, and carries on from there. */
  lemma MoveFirst(c: Cell, more: seq<string>, pos: Cell)
    ensures var rest := Session(more, c);
            Session([MoveLine(c)] + more, pos) == Served([ArrivedLine(c)] + rest.replies, rest.position, rest.failed)
  {
    var inbox := [MoveLine(c)] + more;
    assert inbox[0] == MoveLine(c) && inbox[1..] == more;
    StripNoSpace(MoveLine(c));
    MoveRoundTrip(c);
  }

  /** One ARRIVED line per cell. */
  function Arrivals(cells: seq<Cell>): (rs: seq<string>)
    ensures |rs| == |cells|
  {
    if |cells| == 0 then [] else [ArrivedLine(cells[0])] + Arrivals(cells[1..])
  }

  /** The `i`-th ARRIVED line names the `i`-th cell. */
  lemma {:induction false} ArrivalsAt(cells: seq<Cell>)
    ensures forall i :: 0 <= i < |cells| ==> Arrivals(cells)[i] == ArrivedLine(cells[i])
    decreases |cells|
  {
    if |cells| > 0 {
      ArrivalsAt(cells[1..]);
      forall i | 0 < i < |cells| ensures Arrivals(cells)[i] == ArrivedLine(cells[i]) {
        assert Arrivals(cells)[i] == Arrivals(cells[1..])[i - 1];
        assert cells[1..][i - 1] == cells[i];
      }
    }
  }

  /** `s` visited `cells` in turn from `pos`, answering each. */
  predicate Visited(cells: seq<Cell>, pos: Cell, s: Served)
  {
    s.replies == Arrivals(cells) && !s.failed &&
    s.position == (if |cells| == 0 then pos else cells[|cells| - 1])
  }

  /** A session fed MOVE lines, one per chunk, visits every cell in turn and answers each with an ARRIVED line naming it. */
  lemma {:induction false} MovesVisited(cells: seq<Cell>, pos: Cell)
    ensures Visited(cells, pos, Session(MoveLines(cells), pos))
    ensures forall i :: 0 <= i < |cells| ==> Session(MoveLines(cells), pos).replies[i] == ArrivedLine(cells[i])
    decreases |cells|
  {
    if |cells| > 0 {
      var c, more := cells[0], cells[1..];
      var lines := MoveLines(more);
      assert MoveLines(cells) == [MoveLine(c)] + lines;
      MoveFirst(c, lines, pos);
      MovesVisited(more, c);
      if |more| > 0 {
        assert more[|more| - 1] == cells[|cells| - 1];
      }
    }
    ArrivalsAt(cells);
  }

  /**
   * The other client of this firmware's folder, the cell-by-cell
   * `MovementClass`, sends one-word lines (FRONT, BACK, RIGHT, LEFT): the
   * first of them raises, so a non-empty path ends the session at once,
   * with no reply and the position unchanged.
   */
  lemma NorosLinesFail(path: seq<Cell>, pos: Cell)
    requires |NM.PathCommands(path)| > 0
    ensures Session(NM.Lines(NM.PathCommands(path)), pos) == Served([], pos, true)
  {
    var cs := NM.PathCommands(path);
    NM.PathCommandsWords(path);
    var w := cs[0];
    assert NM.Lines(cs)[0] == w + "\n";
    DirectionWordFails(w);
  }

  /** A direction word, stripped of its newline, is one field, so `Dispatch` raises on it. */
  lemma DirectionWordFails(w: string)
    requires w in NM.Directions
    ensures Strip(w + "\n") == w && w != "" && Dispatch(w) == Fail
  {
    assert w == "FRONT" || w == "BACK" || w == "RIGHT" || w == "LEFT";
    assert !IsSpace(w[0]) && !IsSpace(w[|w| - 1]) && ',' !in w;
    StripNewline(w);
    SplitNoSep(w, ',');
  }

  /** The firmware's state: the global `current_position`, `[0, 0]` at start-up. */
  class Firmware {
    var position: Cell

    constructor ()
      ensures position == (0, 0)
    {
      position := (0, 0);
    }

    /**
     * The receive loop of one connection over the chunks `inbox` holds:
     * the replies and the new position are those `Session` gives. The
     * position survives the connection, as the global does.
     */
    method Serve(inbox: seq<string>) returns (replies: seq<string>, failed: bool)
      modifies this
      ensures Served(replies, position, failed) == Session(inbox, old(position))
    {
      replies, failed := [], false;
      var rest := inbox;
      while |rest| > 0
        invariant Session(inbox, old(position)) ==
                  (var s := Session(rest, position); Served(replies + s.replies, s.position, s.failed))
        decreases |rest|
      {
        var data := Strip(rest[0]);
        if data == "" {
          assert replies + [] == replies;
          return;
        }
        var reaction := Dispatch(data);
        if reaction.Fail? {
          assert replies + [] == replies;
          failed := true;
          return;
        }
        if reaction.MoveTo? {
          var line := ArrivedLine(reaction.target);
          AppendAssoc(replies, [line], Session(rest[1..], reaction.target).replies);
          position := reaction.target;
          replies := replies + [line];
        }
        rest := rest[1..];
      }
      assert replies + [] == replies;
    }
  }
}
