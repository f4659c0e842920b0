/** Shared result wrappers used by every other module. */
module Common {

  /** Python's `None`-or-value. */
  datatype Option<T> = None | Some(value: T)

  /**
   * How a modelled Python computation ends: it returns a value, it raises
   * an exception, it would loop forever (proved, not assumed), or the model
   * ran out of the iteration budget its caller gave it.
   */
  datatype Run<T> = Done(value: T) | Raised | Diverged | OutOfFuel

  /** Sum of a sequence of integers. */
  function Sum(s: seq<int>): int
  {
    if |s| == 0 then 0 else Sum(s[..|s| - 1]) + s[|s| - 1]
  }

  lemma {:induction false} SumAppend(s: seq<int>, t: seq<int>)
    ensures Sum(s + t) == Sum(s) + Sum(t)
    decreases |t|
  {
    if |t| == 0 {
      assert s + t == s;
    } else {
      assert (s + t)[..|s + t| - 1] == s + t[..|t| - 1];
      SumAppend(s, t[..|t| - 1]);
    }
  }

  /** `list.reverse()` / `s[::-1]`. */
  function Reverse<T>(s: seq<T>): (r: seq<T>)
    ensures |r| == |s|
    ensures forall i :: 0 <= i < |s| ==> r[i] == s[|s| - 1 - i]
  {
    if |s| == 0 then [] else [s[|s| - 1]] + Reverse(s[..|s| - 1])
  }

  /** Reversing a concatenation reverses and swaps the parts; reversing twice gives the sequence back. */
  lemma ReverseAppend<T>(a: seq<T>, b: seq<T>)
    ensures Reverse(a + b) == Reverse(b) + Reverse(a)
    ensures Reverse(Reverse(a)) == a
  {
    var l, r := Reverse(a + b), Reverse(b) + Reverse(a);
    forall i | 0 <= i < |l|
      ensures l[i] == r[i]
    {
      if i < |b| {
        assert l[i] == (a + b)[|a| + |b| - 1 - i] == b[|b| - 1 - i];
      } else {
        assert l[i] == (a + b)[|a| + |b| - 1 - i] == a[|a| - 1 - (i - |b|)];
      }
    }
    assert l == r;
    assert Reverse(Reverse(a)) == a;
  }

  /** `a` is `b` with some elements left out, the rest kept in order. */
  predicate Subseq<T(==)>(a: seq<T>, b: seq<T>)
    decreases |b|
  {
    |a| == 0 ||
    (|b| > 0 &&
     if a[|a| - 1] == b[|b| - 1] then Subseq(a[..|a| - 1], b[..|b| - 1]) else Subseq(a, b[..|b| - 1]))
  }

  /** Dropping the last kept element keeps a subsequence. */
  lemma {:induction false} SubseqDropLast<T>(a: seq<T>, b: seq<T>)
    requires |a| > 0 && Subseq(a, b)
    ensures Subseq(a[..|a| - 1], b)
    decreases |b|
  {
    var a', b' := a[..|a| - 1], b[..|b| - 1];
    if a[|a| - 1] == b[|b| - 1] {
      if |a'| > 0 {
        SubseqDropLast(a', b');
        assert a'[..|a'| - 1] == a[..|a| - 1][..|a'| - 1];
        if a'[|a'| - 1] != b[|b| - 1] {
          assert Subseq(a', b');
        }
      }
    } else {
      SubseqDropLast(a, b');
      if |a'| > 0 && a'[|a'| - 1] == b[|b| - 1] {
        SubseqDropLast(a', b');
      }
    }
  }

  /** Appending to the larger sequence keeps a subsequence. */
  lemma {:induction false} SubseqExtend<T>(a: seq<T>, b: seq<T>, c: seq<T>)
    requires Subseq(a, b)
    ensures Subseq(a, b + c)
    decreases |c|
  {
    if |c| == 0 {
      assert b + c == b;
    } else {
      var c' := c[..|c| - 1];
      SubseqExtend(a, b, c');
      assert (b + c)[..|b + c| - 1] == b + c';
      if |a| > 0 && a[|a| - 1] == c[|c| - 1] {
        SubseqDropLast(a, b + c');
      }
    }
  }

  /** Appending the same element to both keeps a subsequence. */
  lemma SubseqBoth<T>(a: seq<T>, b: seq<T>, m: T)
    requires Subseq(a, b)
    ensures Subseq(a + [m], b + [m])
  {
    assert (a + [m])[..|a|] == a && (b + [m])[..|b|] == b;
  }

  /** Concatenation is associative; called where the operands are large terms. */
  lemma AppendAssoc<T>(a: seq<T>, b: seq<T>, c: seq<T>)
    ensures (a + b) + c == a + (b + c)
  {
  }

  /** The elements of a concatenation; called where the operands are large terms. */
  lemma AppendAt<T>(a: seq<T>, b: seq<T>)
    ensures forall k :: 0 <= k < |a| ==> (a + b)[k] == a[k]
    ensures forall k :: |a| <= k < |a + b| ==> (a + b)[k] == b[k - |a|]
  {
  }

  /** Python's `a // b`: the quotient rounded toward minus infinity. */
  function FloorDiv(a: int, b: int): int
    requires b != 0
  {
    if b > 0 then a / b else (-a) / (-b)
  }

  /** Python's `a % b`: what `a // b` leaves over, which takes the sign of `b`. */
  function FloorMod(a: int, b: int): (r: int)
    requires b != 0
    ensures a == b * FloorDiv(a, b) + r
    ensures b > 0 ==> 0 <= r < b
    ensures b < 0 ==> b < r <= 0
  {
    a - b * FloorDiv(a, b)
  }

  /** Euclidean quotient and remainder by a positive divisor are unique. */
  lemma DivModUnique(a: int, b: int, q: int, r: int)
    requires b > 0 && 0 <= r < b && a == b * q + r
    ensures a / b == q && a % b == r
  {
    var q0, r0 := a / b, a % b;
    assert b * q - b * q0 == r0 - r;
    if q > q0 {
      assert b * (q - q0) == b * q - b * q0;
      MulAtLeast(b, q - q0);
    } else if q < q0 {
      assert b * (q0 - q) == b * q0 - b * q;
      MulAtLeast(b, q0 - q);
    }
  }

  lemma {:induction false} MulAtLeast(b: int, k: int)
    requires b > 0 && k >= 1
    ensures b * k >= b
    decreases k
  {
    if k > 1 {
      MulAtLeast(b, k - 1);
      assert b * k == b * (k - 1) + b;
    }
  }

  /** `int(a / b)`: the quotient rounded toward zero, as a float division truncated by `int()`. */
  function TruncDiv(a: int, b: int): int
    requires b != 0
  {
    var q := (if a < 0 then -a else a) / (if b < 0 then -b else b);
    if (a < 0) != (b < 0) then -q else q
  }

  /** Floor division by a positive divisor stays between integer bounds of the exact quotient. */
  lemma DivBetween(a: int, n: int, lo: int, hi: int)
    requires n > 0 && n * lo <= a <= n * hi
    ensures lo <= a / n <= hi
  {
    var q, r := a / n, a % n;
    assert a == n * q + r && 0 <= r < n;
    if q > hi {
      MulAtLeast(n, q - hi);
    }
    if q < lo {
      assert n * (lo - q) == n * lo - n * q;
      MulAtLeast(n, lo - q);
    }
  }

  /**
   * `int(a / n)` for a positive count `n` stays between integer bounds of
   * the exact quotient; this is why a mean of integers lies in their range.
   */
  lemma TruncDivBetween(a: int, n: int, lo: int, hi: int)
    requires n > 0 && n * lo <= a <= n * hi
    ensures lo <= TruncDiv(a, n) <= hi
  {
    if a >= 0 {
      DivBetween(a, n, lo, hi);
    } else {
      NegMulRight(n, hi);
      NegMulRight(n, lo);
      DivBetween(-a, n, -hi, -lo);
    }
  }

  /** Exact division is not changed by truncation. */
  lemma TruncDivExact(a: int, b: int, q: int)
    requires b != 0 && a == q * b
    ensures TruncDiv(a, b) == q
  {
    if q != 0 {
      var nq, nb := (if q < 0 then -q else q), (if b < 0 then -b else b);
      MulAtLeast(nb, nq);
      if b > 0 && q > 0 {
        assert a == nb * nq;
      } else if b > 0 {
        NegMulLeft(nq, b);
        assert -a == nb * nq;
      } else if q > 0 {
        NegMulRight(q, nb);
        assert -a == nb * nq;
      } else {
        NegMul(nq, nb);
        assert a == nb * nq;
      }
      var na := if a < 0 then -a else a;
      DivModUnique(na, nb, nq, 0);
    }
  }

  lemma MulNonNeg(x: int, y: int)
    requires x >= 0 && y >= 0
    ensures x * y >= 0
  {
  }

  lemma MulStepInt(n: int, x: int)
    ensures (n + 1) * x == n * x + x
  {
  }

  lemma NegMul(x: int, y: int)
    ensures (-x) * (-y) == x * y
  {
  }

  lemma NegMulLeft(x: int, y: int)
    ensures (-x) * y == -(x * y)
  {
  }

  lemma NegMulRight(x: int, y: int)
    ensures x * (-y) == -(x * y)
  {
  }

  lemma MulSubLeft(x: int, y: int, z: int)
    ensures x * (y - z) == x * y - x * z
  {
  }

  lemma MulSubRight(x: int, y: int, z: int)
    ensures (x - y) * z == x * z - y * z
  {
  }

  /** The rows of `ss` laid end to end. */
  function Flatten<T>(ss: seq<seq<T>>): seq<T>
  {
    if |ss| == 0 then [] else ss[0] + Flatten(ss[1..])
  }

  /** An element of one row is in the flattened rows. */
  lemma {:induction false} FlattenHas<T>(ss: seq<seq<T>>, k: nat, x: T)
    requires k < |ss| && x in ss[k]
    ensures x in Flatten(ss)
    decreases k
  {
    if k > 0 {
      FlattenHas(ss[1..], k - 1, x);
    }
  }
}
