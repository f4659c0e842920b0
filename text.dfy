/**
 * The handful of Python string operations the motion link and the
 * firmware dispatchers rely on: `str.strip()`, ASCII `str.upper()`,
 * `str.split(",")`, `str(int)` and `int(str)`.
 */
module Text {
  import opened Common

  /** Python's ASCII whitespace (what `str.strip()` removes). */
  predicate IsSpace(ch: char)
  {
    ch == ' ' || ch == '\t' || ch == '\n' || ch == '\r' || ch == '\U{B}' || ch == '\U{C}'
    || ('\U{1C}' <= ch <= '\U{1F}')
  }

  predicate AllSpace(s: string)
  {
    forall i :: 0 <= i < |s| ==> IsSpace(s[i])
  }

  /** The number of whitespace characters `s` starts with. */
  function LeadingSpace(s: string): (i: nat)
    ensures i <= |s|
    ensures forall k :: 0 <= k < i ==> IsSpace(s[k])
    ensures i < |s| ==> !IsSpace(s[i])
    decreases |s|
  {
    if |s| > 0 && IsSpace(s[0]) then 1 + LeadingSpace(s[1..]) else 0
  }

  /** Where the trailing whitespace of `s` begins, looking no further left than `lo`. */
  function TrailingSpace(s: string, lo: nat): (j: nat)
    requires lo <= |s|
    ensures lo <= j <= |s|
    ensures forall k :: j <= k < |s| ==> IsSpace(s[k])
    ensures j > lo ==> !IsSpace(s[j - 1])
    decreases |s|
  {
    if |s| > lo && IsSpace(s[|s| - 1]) then TrailingSpace(s[..|s| - 1], lo) else |s|
  }

  /**
   * `s.strip()`: what lies between the leading and the trailing
   * whitespace. The result neither starts nor ends with whitespace.
   */
  function Strip(s: string): (r: string)
    ensures |r| <= |s|
    ensures |r| == 0 || (!IsSpace(r[0]) && !IsSpace(r[|r| - 1]))
  {
    var i := LeadingSpace(s);
    s[i..TrailingSpace(s, i)]
  }

  /** Only whitespace lies outside the stripped text. */
  lemma StripSlice(s: string)
    ensures exists i, j :: 0 <= i <= j <= |s| && Strip(s) == s[i..j] && AllSpace(s[..i]) && AllSpace(s[j..])
  {
    var i := LeadingSpace(s);
    var j := TrailingSpace(s, i);
    assert AllSpace(s[..i]);
    assert AllSpace(s[j..]);
  }

  /** Stripping a string that already has no surrounding whitespace is the identity. */
  lemma StripNoSpace(s: string)
    requires |s| == 0 || (!IsSpace(s[0]) && !IsSpace(s[|s| - 1]))
    ensures Strip(s) == s
  {
    assert LeadingSpace(s) == 0;
  }

  /** Stripping `s + "\n"` gives back `s` when `s` has no surrounding whitespace. */
  lemma StripNewline(s: string)
    requires |s| == 0 || (!IsSpace(s[0]) && !IsSpace(s[|s| - 1]))
    ensures Strip(s + "\n") == s
  {
    var t := s + "\n";
    if |s| == 0 {
      assert LeadingSpace(t) == 1;
    } else {
      assert LeadingSpace(t) == 0;
      assert t[..|t| - 1] == s;
      assert TrailingSpace(t, 0) == TrailingSpace(s, 0);
      assert TrailingSpace(s, 0) == |s|;
    }
  }

  function UpperChar(ch: char): (u: char)
    ensures 'a' <= ch <= 'z' ==> 'A' <= u <= 'Z'
    ensures !('a' <= ch <= 'z') ==> u == ch
  {
    if 'a' <= ch <= 'z' then (ch as int - 32) as char else ch
  }

  /** ASCII `str.upper()`. */
  function Upper(s: string): (r: string)
    ensures |r| == |s|
    ensures forall i :: 0 <= i < |s| ==> r[i] == UpperChar(s[i])
  {
    seq(|s|, i requires 0 <= i < |s| => UpperChar(s[i]))
  }

  predicate NoLower(s: string)
  {
    forall i :: 0 <= i < |s| ==> !('a' <= s[i] <= 'z')
  }

  /** Upper-casing is idempotent, and leaves text without lower-case letters unchanged. */
  lemma UpperIdempotent(s: string)
    ensures NoLower(Upper(s))
    ensures Upper(Upper(s)) == Upper(s)
    ensures NoLower(s) ==> Upper(s) == s
  {
  }

  /** `sep.join(parts)` */
  function Join(parts: seq<string>, sep: char): string
  {
    if |parts| == 0 then ""
    else if |parts| == 1 then parts[0]
    else parts[0] + [sep] + Join(parts[1..], sep)
  }

  function IndexOf(s: string, sep: char): (k: int)
    ensures -1 <= k < |s|
    ensures k == -1 ==> sep !in s
    ensures k >= 0 ==> s[k] == sep && sep !in s[..k]
  {
    if |s| == 0 then -1
    else if s[0] == sep then 0
    else
      var k := IndexOf(s[1..], sep);
      assert k >= 0 ==> s[1..][..k] == s[1..k + 1];
      if k == -1 then -1 else k + 1
  }

  /**
   * `s.split(sep)`: never empty, no field holds the separator, and joining
   * the fields with the separator gives back `s`.
   */
  function Split(s: string, sep: char): (r: seq<string>)
    ensures |r| >= 1
    ensures forall i :: 0 <= i < |r| ==> sep !in r[i]
    ensures Join(r, sep) == s
    decreases |s|
  {
    var k := IndexOf(s, sep);
    if k == -1 then [s]
    else
      var rest := Split(s[k + 1..], sep);
      var parts := [s[..k]] + rest;
      assert parts[1..] == rest;
      assert Join(parts, sep) == s[..k] + [sep] + s[k + 1..];
      assert s == s[..k] + [sep] + s[k + 1..];
      parts
  }

  /** Splitting text that holds no separator yields one field. */
  lemma SplitNoSep(s: string, sep: char)
    requires sep !in s
    ensures Split(s, sep) == [s]
  {
  }

  /** Splitting `a + [sep] + b` when `a` holds no separator. */
  lemma SplitCons(a: string, sep: char, b: string)
    requires sep !in a
    ensures Split(a + [sep] + b, sep) == [a] + Split(b, sep)
  {
    var s := a + [sep] + b;
    IndexOfPrefix(a, sep, b);
    assert s[..|a|] == a;
    assert s[|a| + 1..] == b;
  }

  lemma {:induction false} IndexOfPrefix(a: string, sep: char, b: string)
    requires sep !in a
    ensures IndexOf(a + [sep] + b, sep) == |a|
    decreases |a|
  {
    var s := a + [sep] + b;
    if |a| > 0 {
      assert s[0] == a[0];
      assert s[1..] == a[1..] + [sep] + b;
      IndexOfPrefix(a[1..], sep, b);
    }
  }

  predicate IsDigit(ch: char)
  {
    '0' <= ch <= '9'
  }

  predicate AllDigits(s: string)
  {
    forall i :: 0 <= i < |s| ==> IsDigit(s[i])
  }

  function DigitChar(d: nat): (ch: char)
    requires d < 10
    ensures IsDigit(ch)
  {
    ('0' as int + d) as char
  }

  function DigitValue(ch: char): (d: nat)
    requires IsDigit(ch)
    ensures d < 10
  {
    ch as int - '0' as int
  }

  /** The value of a string of decimal digits, most significant first. */
  function DigitsValue(s: string): nat
    requires AllDigits(s)
  {
    if |s| == 0 then 0 else 10 * DigitsValue(s[..|s| - 1]) + DigitValue(s[|s| - 1])
  }

  /** `str(n)` for a natural number: its shortest decimal form. */
  function NatToString(n: nat): (s: string)
    ensures |s| >= 1 && AllDigits(s)
    ensures DigitsValue(s) == n
    ensures |s| == 1 || s[0] != '0'
  {
    if n < 10 then [DigitChar(n)]
    else
      var p := NatToString(n / 10);
      var s := p + [DigitChar(n % 10)];
      assert s[..|s| - 1] == p;
      s
  }

  /** `str(i)` for a Python int. */
  function IntToString(i: int): (s: string)
    ensures |s| >= 1
    ensures !IsSpace(s[0]) && !IsSpace(s[|s| - 1])
    ensures ',' !in s
  {
    if i < 0 then "-" + NatToString(-i) else NatToString(i)
  }

  /**
   * `int(s)` on a string: surrounding whitespace is ignored, an optional
   * sign is followed by one or more ASCII digits; anything else raises
   * ValueError, which is `None` here.
   */
  function ParseInt(s: string): (r: Option<int>)
    ensures r.Some? ==> |Strip(s)| >= 1
  {
    var t := Strip(s);
    if |t| == 0 then None
    else if t[0] == '-' || t[0] == '+' then
      var d := t[1..];
      if |d| > 0 && AllDigits(d) then
        var v: int := DigitsValue(d);
        Some(if t[0] == '-' then -v else v)
      else None
    else if AllDigits(t) then Some(DigitsValue(t))
    else None
  }

  /** `int(str(i)) == i`. */
  lemma ParseIntToString(i: int)
    ensures ParseInt(IntToString(i)) == Some(i)
  {
    var s := IntToString(i);
    StripNoSpace(s);
    if i < 0 {
      var d := NatToString(-i);
      assert s == "-" + d;
      assert s[1..] == d;
    } else {
      var d := NatToString(i);
      assert s == d;
      assert IsDigit(s[0]);
    }
  }

  predicate SignOrDigits(t: string)
  {
    forall m :: 0 <= m < |t| ==> IsDigit(t[m]) || t[m] == '-' || t[m] == '+'
  }

  lemma StrippedCharsAllowed(s: string)
    requires ParseInt(s).Some?
    ensures SignOrDigits(Strip(s))
  {
    var t := Strip(s);
    if t[0] == '-' || t[0] == '+' {
      var d := t[1..];
      assert AllDigits(d);
      forall m | 0 < m < |t| ensures IsDigit(t[m]) {
        assert t[m] == d[m - 1];
      }
    }
  }

  /** Every character of a string `int()` accepts is a digit, a sign or whitespace. */
  lemma ParsedCharsAllowed(s: string)
    requires ParseInt(s).Some?
    ensures forall k :: 0 <= k < |s| ==> IsDigit(s[k]) || s[k] == '-' || s[k] == '+' || IsSpace(s[k])
  {
    var t := Strip(s);
    StrippedCharsAllowed(s);
    var i := LeadingSpace(s);
    var j := TrailingSpace(s, i);
    assert t == s[i..j];
    forall k | 0 <= k < |s|
      ensures IsDigit(s[k]) || s[k] == '-' || s[k] == '+' || IsSpace(s[k])
    {
      if k < i {
        assert s[..i][k] == s[k];
      } else if k >= j {
        assert s[j..][k - j] == s[k];
      } else {
        assert t[k - i] == s[k];
      }
    }
  }

  /** A string holding a '.' never parses, so `int("3.2")` raises. */
  lemma ParseIntRejectsDot(s: string)
    requires '.' in s
    ensures ParseInt(s) == None
  {
    if ParseInt(s).Some? {
      ParsedCharsAllowed(s);
      assert false;
    }
  }
}
