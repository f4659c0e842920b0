/**
 * `LAB3.py`: two reflective sensors read as a quadrature encoder. The
 * main loop turns each 16-bit reading into a level and counts edges in
 * X1, X2 or X4 mode. A left-button interrupt cycles the mode and a
 * right-button interrupt clears the count, each debounced over 200 ms.
 */
module QuadratureEncoder {
  import opened Ticks

  /** `encoding_modes`. */
  const EncodingModes: seq<int> := [1, 2, 4]
  const DebounceTime := 200
  const QrdThreshold := 10000

  /** `read_qrd`: a reading under the threshold is the dark level 1, any other 0. */
  function ReadQrd(value: int): (level: int)
    ensures level == 0 || level == 1
    ensures level == 1 <==> value < QrdThreshold
  {
    if value < QrdThreshold then 1 else 0
  }

  predicate Level(x: int)
  {
    x == 0 || x == 1
  }

  /**
   * The change one pass of the main loop makes to `encoder_count`, the
   * `if/elif` chain for `mode`. It follows the quadrature rule: a change
   * of A counts +1 when A then differs from B and -1 when it equals it; a
   * change of B, counted only in X4 and only when A kept its level,
   * counts +1 when B then equals A and -1 when it differs. X1 counts only
   * A's rising edges and X2 all of A's. No pass changes the count by more
   * than one.
   */
  function Delta(mode: int, a: int, b: int, lastA: int, lastB: int): (d: int)
    ensures -1 <= d <= 1
    ensures mode !in EncodingModes ==> d == 0
    ensures Level(a) && Level(b) && Level(lastA) && Level(lastB) ==>
              (mode == 1 ==> d == if a == 1 && lastA == 0 then (if a != b then 1 else -1) else 0) &&
              (mode == 2 ==> d == if a != lastA then (if a != b then 1 else -1) else 0) &&
              (mode == 4 ==>
                 d == if a != lastA then (if a != b then 1 else -1)
                      else if b != lastB then (if a == b then 1 else -1)
                      else 0)
  {
    if mode == 1 then
      if a == 1 && lastA == 0 then (if b == 0 then 1 else -1) else 0
    else if mode == 2 then
      if a == 1 && lastA == 0 then (if b == 0 then 1 else -1)
      else if a == 0 && lastA == 1 then (if b == 1 then 1 else -1)
      else 0
    else if mode == 4 then
      if a == 1 && lastA == 0 then (if b == 0 then 1 else -1)
      else if a == 0 && lastA == 1 then (if b == 1 then 1 else -1)
      else if b == 1 && lastB == 0 then (if a == 1 then 1 else -1)
      else if b == 0 && lastB == 1 then (if a == 0 then 1 else -1)
      else 0
    else 0
  }

  /** The count after the sensor levels `levels`, starting from the levels `(lastA, lastB)`. */
  function Count(mode: int, lastA: int, lastB: int, levels: seq<(int, int)>): int
    decreases |levels|
  {
    if |levels| == 0 then 0
    else Delta(mode, levels[0].0, levels[0].1, lastA, lastB) + Count(mode, levels[0].0, levels[0].1, levels[1..])
  }

  /** One turn of the disc forwards, from both sensors light: A darkens first, then B, then A lightens, then B. */
  const Forward: seq<(int, int)> := [(1, 0), (1, 1), (0, 1), (0, 0)]
  /** The same turn backwards. */
  const Backward: seq<(int, int)> := [(0, 1), (1, 1), (1, 0), (0, 0)]

  /** A full turn forwards counts +1, +2 and +4 in X1, X2 and X4; backwards the same, negated. */
  lemma FullTurn()
    ensures Count(1, 0, 0, Forward) == 1 && Count(1, 0, 0, Backward) == -1
    ensures Count(2, 0, 0, Forward) == 2 && Count(2, 0, 0, Backward) == -2
    ensures Count(4, 0, 0, Forward) == 4 && Count(4, 0, 0, Backward) == -4
  {
    assert Forward[1..][1..][1..][1..] == [] && Backward[1..][1..][1..][1..] == [];
  }

  /**
   * In X2 and X4 a step that changes one sensor's level, followed by the
   * step back, leaves the count where it was; X1 does not have this.
   */
  lemma StepBackUndoes(mode: int, a: int, b: int, lastA: int, lastB: int)
    requires Level(a) && Level(b) && Level(lastA) && Level(lastB)
    requires (a != lastA && b == lastB) || (a == lastA && b != lastB)
    requires mode == 2 || mode == 4
    ensures Delta(mode, a, b, lastA, lastB) + Delta(mode, lastA, lastB, a, b) == 0
  {
  }

  /** The module's globals. */
  class Encoder {
    var encoderCount: int
    var lastStateA: int
    var lastStateB: int
    var currentModeIndex: int
    var lastPressL: int
    var lastPressR: int

    predicate Valid()
      reads this
    {
      0 <= currentModeIndex < |EncodingModes| && Level(lastStateA) && Level(lastStateB)
    }

    constructor ()
      ensures Valid()
      ensures encoderCount == 0 && lastStateA == 0 && lastStateB == 0 && currentModeIndex == 0
      ensures lastPressL == 0 && lastPressR == 0
    {
      encoderCount, lastStateA, lastStateB := 0, 0, 0;
      currentModeIndex := 0;
      lastPressL, lastPressR := 0, 0;
    }

    /** `button_L_handler` at time `now`: the next mode, X1, X2, X4, X1, ... */
    method ButtonLHandler(now: int)
      requires Valid()
      modifies this`currentModeIndex, this`lastPressL
      ensures Valid()
      ensures TicksDiff(now, old(lastPressL)) > DebounceTime ==>
                currentModeIndex == (old(currentModeIndex) + 1) % |EncodingModes| && lastPressL == now
      ensures TicksDiff(now, old(lastPressL)) <= DebounceTime ==>
                currentModeIndex == old(currentModeIndex) && lastPressL == old(lastPressL)
    {
      var currentTime := now;
      if TicksDiff(currentTime, lastPressL) > DebounceTime {
        currentModeIndex := (currentModeIndex + 1) % |EncodingModes|;
        lastPressL := currentTime;
      }
    }

    /** `button_R_handler` at time `now`: the count back to zero. */
    method ButtonRHandler(now: int)
      modifies this`encoderCount, this`lastPressR
      ensures TicksDiff(now, old(lastPressR)) > DebounceTime ==> encoderCount == 0 && lastPressR == now
      ensures TicksDiff(now, old(lastPressR)) <= DebounceTime ==>
                encoderCount == old(encoderCount) && lastPressR == old(lastPressR)
    {
      var currentTime := now;
      if TicksDiff(currentTime, lastPressR) > DebounceTime {
        encoderCount := 0;
        lastPressR := currentTime;
      }
    }

    /** One pass of the main loop on the raw readings `rawA` and `rawB`. */
    method Cycle(rawA: int, rawB: int)
      requires Valid()
      modifies this`encoderCount, this`lastStateA, this`lastStateB
      ensures Valid()
      ensures encoderCount == old(encoderCount) +
                Delta(EncodingModes[currentModeIndex], ReadQrd(rawA), ReadQrd(rawB), old(lastStateA), old(lastStateB))
      ensures lastStateA == ReadQrd(rawA) && lastStateB == ReadQrd(rawB)
    {
      var stateA := ReadQrd(rawA);
      var stateB := ReadQrd(rawB);
      var encodingMode := EncodingModes[currentModeIndex];
      if encodingMode == 1 {
        if stateA == 1 && lastStateA == 0 {
          encoderCount := encoderCount + if stateB == 0 then 1 else -1;
        }
      } else if encodingMode == 2 {
        if stateA == 1 && lastStateA == 0 {
          encoderCount := encoderCount + if stateB == 0 then 1 else -1;
        } else if stateA == 0 && lastStateA == 1 {
          encoderCount := encoderCount + if stateB == 1 then 1 else -1;
        }
      } else if encodingMode == 4 {
        if stateA == 1 && lastStateA == 0 {
          encoderCount := encoderCount + if stateB == 0 then 1 else -1;
        } else if stateA == 0 && lastStateA == 1 {
          encoderCount := encoderCount + if stateB == 1 then 1 else -1;
        } else if stateB == 1 && lastStateB == 0 {
          encoderCount := encoderCount + if stateA == 1 then 1 else -1;
        } else if stateB == 0 && lastStateB == 1 {
          encoderCount := encoderCount + if stateA == 0 then 1 else -1;
        }
      }
      lastStateA := stateA;
      lastStateB := stateB;
    }
  }
}
