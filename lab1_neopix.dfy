/**
 * `LAB1NEOPIX.py`: a number in `0 .. 255` written as an eight-character
 * binary string and shown on an eight-pixel NeoPixel strip, and a push
 * button debounced in software.
 */
module NeoPixelByte {
  import opened Common
  import opened Ticks

  function Digit(b: bool): char
  {
    if b then '1' else '0'
  }

  /** `bin(n)[2:]`: the binary digits of `n`, most significant first, without leading zeros. */
  function Bin(n: nat): string
    decreases n
  {
    if n < 2 then [Digit(n == 1)] else Bin(n / 2) + [Digit(n % 2 == 1)]
  }

  function Zeros(k: nat): (s: string)
    ensures |s| == k && forall j :: 0 <= j < k ==> s[j] == '0'
  {
    seq(k, _ => '0')
  }

  predicate Binary(s: string)
  {
    forall k :: 0 <= k < |s| ==> s[k] == '0' || s[k] == '1'
  }

  /** The number a string of binary digits stands for, most significant digit first. */
  function Value(s: string): nat
  {
    if |s| == 0 then 0 else 2 * Value(s[..|s| - 1]) + (if s[|s| - 1] == '1' then 1 else 0)
  }

  function Pow2(k: nat): (p: nat)
    ensures p >= 1
  {
    if k == 0 then 1 else 2 * Pow2(k - 1)
  }

  /** Bit `k` of `n`. */
  predicate Bit(n: nat, k: nat)
  {
    if k == 0 then n % 2 == 1 else Bit(n / 2, k - 1)
  }

  /** `bin` gives binary digits that stand for `n`, no more of them than the width `n` fits in. */
  lemma {:induction false} BinFacts(n: nat, w: nat)
    requires 1 <= w && n < Pow2(w)
    ensures |Bin(n)| <= w && Binary(Bin(n)) && Value(Bin(n)) == n
    decreases n
  {
    if n >= 2 {
      BinFacts(n / 2, w - 1);
      var s := Bin(n / 2);
      assert (s + [Digit(n % 2 == 1)])[..|s|] == s;
    } else {
      assert Bin(n)[..0] == [];
    }
  }

  /** Leading zeros do not change a binary string's value. */
  lemma {:induction false} PadValue(k: nat, s: string)
    ensures Value(Zeros(k) + s) == Value(s)
    decreases |s|
  {
    if |s| == 0 {
      ZerosValue(k);
      assert Zeros(k) + s == Zeros(k);
    } else {
      PadValue(k, s[..|s| - 1]);
      assert (Zeros(k) + s)[..|Zeros(k) + s| - 1] == Zeros(k) + s[..|s| - 1];
    }
  }

  lemma {:induction false} ZerosValue(k: nat)
    ensures Value(Zeros(k)) == 0
    decreases k
  {
    if k > 0 {
      ZerosValue(k - 1);
      assert Zeros(k)[..k - 1] == Zeros(k - 1);
    }
  }

  /** The digit `k` places from the right of a binary string is bit `k` of its value. */
  lemma {:induction false} DigitsAreBits(s: string, k: nat)
    requires Binary(s) && k < |s|
    ensures s[|s| - 1 - k] == Digit(Bit(Value(s), k))
    decreases k
  {
    if k > 0 {
      var init := s[..|s| - 1];
      assert Binary(init);
      DigitsAreBits(init, k - 1);
      assert Value(s) / 2 == Value(init);
    }
  }

  /** A string of `w` binary digits stands for less than `2^w`. */
  lemma {:induction false} ValueBound(s: string)
    ensures Value(s) < Pow2(|s|)
    decreases |s|
  {
    if |s| > 0 {
      ValueBound(s[..|s| - 1]);
    }
  }

  /**
   * `decimal_to_Binary`: eight binary digits, most significant first,
   * standing for `n` when `0 <= n < 256`, and nothing otherwise.
   */
  function DecimalToBinary(n: int): (r: Option<string>)
    ensures r.Some? <==> 0 <= n < 256
    ensures r.Some? ==> |r.value| == 8 && Binary(r.value) && Value(r.value) == n
    ensures r.Some? ==> forall j :: 0 <= j < 8 ==> r.value[j] == Digit(Bit(n, 7 - j))
  {
    if 0 <= n < 256 then
      var temp := Bin(n);
      assert Pow2(8) == 256;
      BinFacts(n, 8);
      var binary := Zeros(8 - |temp|) + temp;
      PadValue(8 - |temp|, temp);
      assert Binary(binary);
      forall j | 0 <= j < 8 ensures binary[j] == Digit(Bit(n, 7 - j)) {
        DigitsAreBits(binary, 7 - j);
      }
      Some(binary)
    else None
  }

  /** Every eight-digit binary string is what `decimal_to_Binary` gives for its value. */
  lemma BinaryRoundTrip(s: string)
    requires |s| == 8 && Binary(s)
    ensures DecimalToBinary(Value(s)) == Some(s)
  {
    ValueBound(s);
    assert Pow2(8) == 256;
    var r := DecimalToBinary(Value(s)).value;
    forall j | 0 <= j < 8 ensures s[j] == r[j] {
      DigitsAreBits(s, 7 - j);
    }
    assert s == r;
  }

  datatype Color = Color(r: int, g: int, b: int)

  const Red := Color(255, 0, 0)
  const Off := Color(0, 0, 0)

  /** `neopixel.NeoPixel(machine.Pin(2), 8)`: pixels `0 .. 7`. */
  const StripLength := 8

  /** The strip after a write loop, and whether a write fell outside it and raised. */
  datatype Painting = Painting(pixels: seq<Color>, raised: bool)

  /** The index iteration `i` writes: `int(binary[8 - i]) * i`, pixel `i` for a set bit and pixel 0 for a clear one. */
  function Target(binary: string, i: int): int
    requires |binary| == 8 && 1 <= i <= 8
  {
    (if binary[8 - i] == '1' then 1 else 0) * i
  }

  /** The first `n` iterations of `ByteDisplay`'s loop; an index past the strip raises and ends it. */
  function Paint(px: seq<Color>, binary: string, n: nat): (p: Painting)
    requires |binary| == 8 && n <= 8
    ensures |p.pixels| == |px|
  {
    if n == 0 then Painting(px, false)
    else
      var before := Paint(px, binary, n - 1);
      var t := Target(binary, n);
      if before.raised then before
      else if 0 <= t < |px| then Painting(before.pixels[t := Red], false)
      else Painting(before.pixels, true)
  }

  /** `ByteDisplay` as written: nothing for a value outside `0 .. 255`. */
  function Display(px: seq<Color>, val: int): Painting
  {
    var binary := DecimalToBinary(val);
    if binary.None? then Painting(px, false) else Paint(px, binary.value, 8)
  }

  lemma {:induction false} PaintAt(px: seq<Color>, binary: string, n: nat)
    requires |px| == StripLength && |binary| == 8 && Binary(binary) && n <= 8
    ensures Paint(px, binary, n).raised <==> n == 8 && binary[0] == '1'
    ensures forall k :: 1 <= k < 8 ==>
              Paint(px, binary, n).pixels[k] == if k <= n && binary[8 - k] == '1' then Red else px[k]
    ensures Paint(px, binary, n).pixels[0] == if exists j :: 8 - n <= j < 8 && binary[j] == '0' then Red else px[0]
    decreases n
  {
    if n > 0 {
      PaintAt(px, binary, n - 1);
      if exists j :: 8 - (n - 1) <= j < 8 && binary[j] == '0' {
        var j :| 8 - (n - 1) <= j < 8 && binary[j] == '0';
        assert 8 - n <= j < 8;
      }
      if exists j :: 8 - n <= j < 8 && binary[j] == '0' {
        var j :| 8 - n <= j < 8 && binary[j] == '0';
        if j > 8 - n {
          assert 8 - (n - 1) <= j < 8;
        }
      }
    }
  }

  /**
   * As written, pixel `k` in `1 .. 7` lights when bit `k - 1` is set,
   * pixel 0 lights whenever some bit is clear, and a set bit 7 writes
   * pixel 8, which the eight-pixel strip does not have: the write raises
   * after the other seven. Other pixels keep what they showed.
   */
  lemma ByteDisplayPixels(px: seq<Color>, val: int)
    requires |px| == StripLength
    ensures !(0 <= val < 256) ==> Display(px, val) == Painting(px, false)
    ensures 0 <= val < 256 ==>
              var p := Display(px, val);
              (p.raised <==> Bit(val, 7)) &&
              (forall k :: 1 <= k < 8 ==> p.pixels[k] == if Bit(val, k - 1) then Red else px[k]) &&
              p.pixels[0] == if exists k :: 0 <= k < 8 && !Bit(val, k) then Red else px[0]
  {
    if 0 <= val < 256 {
      var binary := DecimalToBinary(val).value;
      PaintAt(px, binary, 8);
      var p := Display(px, val);
      assert p == Paint(px, binary, 8);
      assert binary[0] == Digit(Bit(val, 7));
      forall k | 1 <= k < 8 ensures p.pixels[k] == if Bit(val, k - 1) then Red else px[k] {
        assert binary[8 - k] == Digit(Bit(val, 7 - (8 - k)));
      }
      if exists k :: 0 <= k < 8 && !Bit(val, k) {
        var k :| 0 <= k < 8 && !Bit(val, k);
        assert binary[7 - k] == Digit(Bit(val, 7 - (7 - k)));
      }
      if exists j :: 0 <= j < 8 && binary[j] == '0' {
        var j :| 0 <= j < 8 && binary[j] == '0';
        assert !Bit(val, 7 - j);
      }
    }
  }

  /** Showing 128 raises: its set bit 7 writes pixel 8. */
  lemma ByteDisplayRaisesOnHighBit(px: seq<Color>)
    requires |px| == StripLength
    ensures Display(px, 128).raised
  {
    ByteDisplayPixels(px, 128);
    assert Bit(128, 7);
  }

  /** The number a strip shows: pixel `k` lit red is bit `k` set. */
  function ReadStrip(px: seq<Color>): nat
    requires |px| == StripLength
  {
    Value(seq(8, j requires 0 <= j < 8 => Digit(px[7 - j] == Red)))
  }

  /** The intended display: pixel `k` red when bit `k` is set and off when it is clear. */
  function Shown(val: int): (px: seq<Color>)
    requires 0 <= val < 256
    ensures |px| == StripLength
  {
    seq(8, k requires 0 <= k < 8 => if DecimalToBinary(val).value[7 - k] == '1' then Red else Off)
  }

  /** The intended display shows exactly the bits of the value, and reading the strip back gives the value. */
  lemma ShownReadsBack(val: int)
    requires 0 <= val < 256
    ensures forall k :: 0 <= k < StripLength ==> Shown(val)[k] == if Bit(val, k) then Red else Off
    ensures ReadStrip(Shown(val)) == val
  {
    var binary := DecimalToBinary(val).value;
    var shown := Shown(val);
    forall k | 0 <= k < StripLength ensures shown[k] == if Bit(val, k) then Red else Off {
      assert binary[7 - k] == Digit(Bit(val, 7 - (7 - k)));
    }
    var s := seq(8, j requires 0 <= j < 8 => Digit(shown[7 - j] == Red));
    forall j | 0 <= j < 8 ensures s[j] == binary[j] {
      assert shown[7 - j] == if binary[7 - (7 - j)] == '1' then Red else Off;
    }
    assert s == binary;
  }

  /** `ByteDisplay`'s loop over an eight-pixel strip, as written. */
  method ByteDisplay(np: array<Color>, val: int) returns (raised: bool)
    requires np.Length == StripLength
    modifies np
    ensures Painting(np[..], raised) == Display(old(np[..]), val)
  {
    var binary := DecimalToBinary(val);
    if binary.None? {
      return false;
    }
    raised := false;
    var i := 1;
    while i < 9
      invariant 1 <= i <= 9
      invariant Painting(np[..], false) == Paint(old(np[..]), binary.value, i - 1)
    {
      var index := (if binary.value[8 - i] == '1' then 1 else 0) * i;
      if index >= np.Length {
        return true;
      }
      np[index] := Red;
      i := i + 1;
    }
  }

  /** The corrected loop: `np[i - 1]` red for a set bit and off for a clear one. */
  method ByteDisplayFixed(np: array<Color>, val: int)
    requires np.Length == StripLength
    modifies np
    ensures 0 <= val < 256 ==> np[..] == Shown(val)
    ensures !(0 <= val < 256) ==> np[..] == old(np[..])
  {
    var binary := DecimalToBinary(val);
    if binary.None? {
      return;
    }
    var i := 1;
    while i < 9
      invariant 1 <= i <= 9
      invariant forall k :: 0 <= k < i - 1 ==> np[k] == Shown(val)[k]
    {
      np[i - 1] := if binary.value[8 - i] == '1' then Red else Off;
      i := i + 1;
    }
    assert np[..] == Shown(val);
  }

  /** The fields `eliminate_debounce` reads and writes. */
  datatype ButtonState = ButtonState(previousState: bool, lastPressTime: int, pressCount: int, isUp: bool, isDown: bool)

  /**
   * One call of `eliminate_debounce` with the pin reading `current` at
   * time `now`: an edge counts only when more than `threshold` ms have
   * passed since the last counted one.
   */
  function Debounce(s: ButtonState, current: bool, now: int, threshold: int): ButtonState
  {
    if !s.previousState && current then
      if TicksDiff(now, s.lastPressTime) > threshold
      then s.(previousState := current, lastPressTime := now, isUp := true, isDown := false)
      else s
    else if s.previousState && !current then
      if TicksDiff(now, s.lastPressTime) > threshold
      then s.(pressCount := s.pressCount + 1, previousState := current, lastPressTime := now, isUp := false, isDown := true)
      else s
    else s
  }

  /**
   * A call changes the state exactly when the reading differs from the
   * remembered one and the threshold has passed; a counted rising edge
   * sets `isup` and clears `isdown`, a counted falling edge adds exactly
   * one press and sets `isdown`, and each remembers the reading and time.
   */
  lemma DebounceEdges(s: ButtonState, current: bool, now: int, threshold: int)
    ensures Debounce(s, current, now, threshold) != s <==>
              s.previousState != current && TicksDiff(now, s.lastPressTime) > threshold
    ensures var t := Debounce(s, current, now, threshold);
            t != s ==> t.previousState == current && t.lastPressTime == now && t.isUp == current && t.isDown == !current &&
                       t.pressCount == s.pressCount + (if current then 0 else 1)
  {
  }

  /** The state after the readings `polls`, in order. */
  function Polled(s: ButtonState, polls: seq<(bool, int)>, threshold: int): ButtonState
  {
    if |polls| == 0 then s
    else Debounce(Polled(s, polls[..|polls| - 1], threshold), polls[|polls| - 1].0, polls[|polls| - 1].1, threshold)
  }

  /**
   * Over any readings the press count never falls and grows by at most
   * one per reading, and `isup` and `isdown` are never both set once a
   * counted edge has happened.
   */
  lemma {:induction false} PollsCount(s: ButtonState, polls: seq<(bool, int)>, threshold: int)
    requires !(s.isUp && s.isDown)
    ensures var t := Polled(s, polls, threshold);
            s.pressCount <= t.pressCount <= s.pressCount + |polls| && !(t.isUp && t.isDown)
    decreases |polls|
  {
    if |polls| > 0 {
      PollsCount(s, polls[..|polls| - 1], threshold);
    }
  }

  /** `Button`: the pin is read by the caller, and the clock is passed in. */
  class Button {
    var previousState: bool
    var lastPressTime: int
    var pressCount: int
    var isUp: bool
    var isDown: bool

    function State(): ButtonState
      reads this
    {
      ButtonState(previousState, lastPressTime, pressCount, isUp, isDown)
    }

    /** `__init__`, at time `now`. */
    constructor (now: int)
      ensures State() == ButtonState(false, now, 0, false, false)
    {
      previousState := false;
      lastPressTime := now;
      pressCount := 0;
      isUp := false;
      isDown := false;
    }

    /** `eliminate_debounce`. */
    method EliminateDebounce(currentState: bool, now: int, threshold: int)
      modifies this
      ensures State() == Debounce(old(State()), currentState, now, threshold)
    {
      if !previousState && currentState {
        var newTime := now;
        if TicksDiff(newTime, lastPressTime) > threshold {
          previousState := currentState;
          lastPressTime := newTime;
          isUp := true;
          isDown := false;
        }
      } else if previousState && !currentState {
        var newTime := now;
        if TicksDiff(newTime, lastPressTime) > threshold {
          pressCount := pressCount + 1;
          previousState := currentState;
          lastPressTime := newTime;
          isUp := false;
          isDown := true;
        }
      }
    }
  }
}
