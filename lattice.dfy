/**
 * The lattice reconstruction shared by the ArUco grid detectors
 * (`Final_Project/ImgProc/GridDetectionFinal2.py` and its siblings):
 * Hough segments are split into near-vertical and near-horizontal
 * families, and every vertical/horizontal pair is intersected in integer
 * pixel coordinates.
 */
module Lattice {
  import opened Common

  /** A pixel position, `(x, y)`, y growing downwards. */
  type Point = (int, int)

  /** A Hough segment from `(x1, y1)` to `(x2, y2)`. */
  datatype Line = Line(x1: int, y1: int, x2: int, y2: int)

  /** The determinant of the two segments' directions; zero when they are parallel. */
  function Denominator(a: Line, b: Line): int
  {
    (a.x1 - a.x2) * (b.y1 - b.y2) - (a.y1 - a.y2) * (b.x1 - b.x2)
  }

  function Cross(l: Line): int
  {
    l.x1 * l.y2 - l.y1 * l.x2
  }

  /** The numerators of Cramer's rule for the crossing point. */
  function NumeratorX(a: Line, b: Line): int
  {
    Cross(a) * (b.x1 - b.x2) - (a.x1 - a.x2) * Cross(b)
  }

  function NumeratorY(a: Line, b: Line): int
  {
    Cross(a) * (b.y1 - b.y2) - (a.y1 - a.y2) * Cross(b)
  }

  /**
   * `compute_intersection`: no point for parallel lines; otherwise the
   * crossing of the two infinite lines, each coordinate truncated toward
   * zero by `int()`.
   */
  function Intersection(a: Line, b: Line): Option<Point>
  {
    var d := Denominator(a, b);
    if d == 0 then None
    else Some((TruncDiv(NumeratorX(a, b), d), TruncDiv(NumeratorY(a, b), d)))
  }

  /** `v` is representable as a numpy `int32`, the type of the segments HoughLinesP returns. */
  predicate Int32(v: int)
  {
    -0x8000_0000 <= v < 0x8000_0000
  }

  /** A product of two factors bounded yb `xb` and `yb` is bounded yb `xb * yb`. */
  lemma ProductWithin(x: int, y: int, xb: int, yb: int)
    requires -xb <= x <= xb && -yb <= y <= yb
    ensures -(xb * yb) <= x * y <= xb * yb
  {
    if x >= 0 && y >= 0 {
      MulAtMost(x, y, xb, yb);
    } else if x >= 0 {
      MulAtMost(x, -y, xb, yb);
    } else if y >= 0 {
      MulAtMost(-x, y, xb, yb);
    } else {
      MulAtMost(-x, -y, xb, yb);
    }
  }

  lemma MulAtMost(x: int, y: int, xb: int, yb: int)
    requires 0 <= x <= xb && 0 <= y <= yb
    ensures x * y <= xb * yb && x * y == (-x) * (-y) && -(x * y) == (-x) * y == x * (-y)
  {
    assert x * y <= xb * y;
    assert xb * y <= xb * yb;
  }

  /** Every coordinate of the segment lies in `0 .. m`. */
  predicate Within(l: Line, m: int)
  {
    0 <= l.x1 <= m && 0 <= l.y1 <= m && 0 <= l.x2 <= m && 0 <= l.y2 <= m
  }

  /** The cross term of a segment inside `0 .. m` lies within `m * m` either way. */
  lemma CrossWithin(l: Line, m: int)
    requires Within(l, m)
    ensures -(m * m) <= Cross(l) <= m * m
  {
    ProductWithin(l.x1, l.y2, m, m);
    ProductWithin(l.y1, l.x2, m, m);
    assert 0 <= l.x1 * l.y2 && 0 <= l.y1 * l.x2;
  }

  /** One product `Cross(a) * (difference of b)` lies within `m * m * m` either way. */
  lemma TermWithin(c: int, dd: int, m: int)
    requires m >= 0 && -(m * m) <= c <= m * m && -m <= dd <= m
    ensures -(m * m * m) <= c * dd <= m * m * m
  {
    ProductWithin(c, dd, m * m, m);
  }

  /**
   * For segments whose pixel coordinates lie in `0 .. 1000` every value
   * `compute_intersection` forms before dividing (the differences, the
   * cross terms, their products, the determinant and both numerators) is
   * an `int32`, so numpy's wrap-around never happens and `Intersection`
   * is what the code computes on any frame up to 1000 pixels a side.
   */
  lemma IntersectionFitsInt32(a: Line, b: Line)
    requires Within(a, 1000) && Within(b, 1000)
    ensures Int32(Cross(a)) && Int32(Cross(b))
    ensures Int32((a.x1 - a.x2) * (b.y1 - b.y2)) && Int32((a.y1 - a.y2) * (b.x1 - b.x2)) && Int32(Denominator(a, b))
    ensures Int32(Cross(a) * (b.x1 - b.x2)) && Int32((a.x1 - a.x2) * Cross(b)) && Int32(NumeratorX(a, b))
    ensures Int32(Cross(a) * (b.y1 - b.y2)) && Int32((a.y1 - a.y2) * Cross(b)) && Int32(NumeratorY(a, b))
  {
    var m := 1000;
    assert m * m == 1_000_000 && m * m * m == 1_000_000_000;
    CrossWithin(a, m);
    CrossWithin(b, m);
    ProductWithin(a.x1 - a.x2, b.y1 - b.y2, m, m);
    ProductWithin(a.y1 - a.y2, b.x1 - b.x2, m, m);
    TermWithin(Cross(a), b.x1 - b.x2, m);
    TermWithin(Cross(a), b.y1 - b.y2, m);
    TermWithin(Cross(b), a.x1 - a.x2, m);
    TermWithin(Cross(b), a.y1 - a.y2, m);
    assert (a.x1 - a.x2) * Cross(b) == Cross(b) * (a.x1 - a.x2);
    assert (a.y1 - a.y2) * Cross(b) == Cross(b) * (a.y1 - a.y2);
  }

  /**
   * On a 1920 x 1080 frame a single product already leaves the `int32`
   * range: the diagonal's cross term times a full-width difference.
   */
  lemma IntersectionOverflowsAt1080(a: Line, b: Line)
    requires a == Line(1919, 0, 0, 1079) && b == Line(1919, 540, 0, 540)
    ensures Cross(a) == 2_070_601 && !Int32(Cross(a) * (b.x1 - b.x2))
  {
  }

  /** `p` lies on the infinite line through the segment's two ends. */
  predicate OnLine(l: Line, p: Point)
  {
    (l.x1 - l.x2) * (p.1 - l.y1) == (l.y1 - l.y2) * (p.0 - l.x1)
  }

  /** The line's equation in the form `dy·x − dx·y == −Cross`. */
  lemma OnLineEquation(l: Line, p: Point)
    ensures OnLine(l, p) <==> (l.y1 - l.y2) * p.0 - (l.x1 - l.x2) * p.1 == -Cross(l)
  {
    var dx, dy := l.x1 - l.x2, l.y1 - l.y2;
    assert dx * (p.1 - l.y1) == dx * p.1 - dx * l.y1;
    assert dy * (p.0 - l.x1) == dy * p.0 - dy * l.x1;
    assert dy * l.x1 - dx * l.y1 == -Cross(l);
  }

  /**
   * Cramer's rule: a point on both lines has its coordinates times the
   * determinant equal to the numerators.
   */
  lemma Cramer(a: Line, b: Line, p: Point)
    requires OnLine(a, p) && OnLine(b, p)
    ensures p.0 * Denominator(a, b) == NumeratorX(a, b)
    ensures p.1 * Denominator(a, b) == NumeratorY(a, b)
  {
    OnLineEquation(a, p);
    OnLineEquation(b, p);
    var dx1, dy1, dx2, dy2 := a.x1 - a.x2, a.y1 - a.y2, b.x1 - b.x2, b.y1 - b.y2;
    var d, nx, ny := Denominator(a, b), NumeratorX(a, b), NumeratorY(a, b);
    CramerX(dx1, dy1, dx2, dy2, p.0, p.1, Cross(a), Cross(b), d, nx);
    CramerY(dx1, dy1, dx2, dy2, p.0, p.1, Cross(a), Cross(b), d, ny);
  }

  /** Eliminating `y` from the two line equations. */
  lemma CramerX(dx1: int, dy1: int, dx2: int, dy2: int, x: int, y: int, ca: int, cb: int, d: int, n: int)
    requires dy1 * x - dx1 * y == -ca && dy2 * x - dx2 * y == -cb
    requires d == dx1 * dy2 - dy1 * dx2 && n == ca * dx2 - dx1 * cb
    ensures x * d == n
  {
    calc {
      x * d;
      dx1 * (dy2 * x - dx2 * y) - dx2 * (dy1 * x - dx1 * y);
      dx1 * (-cb) - dx2 * (-ca);
    }
  }

  /** Eliminating `x` from the two line equations. */
  lemma CramerY(dx1: int, dy1: int, dx2: int, dy2: int, x: int, y: int, ca: int, cb: int, d: int, n: int)
    requires dy1 * x - dx1 * y == -ca && dy2 * x - dx2 * y == -cb
    requires d == dx1 * dy2 - dy1 * dx2 && n == ca * dy2 - dy1 * cb
    ensures y * d == n
  {
    calc {
      y * d;
      dy1 * (dy2 * x - dx2 * y) - dy2 * (dy1 * x - dx1 * y);
      dy1 * (-cb) - dy2 * (-ca);
    }
  }

  /**
   * When the lines are not parallel and cross at a pixel, the crossing
   * `compute_intersection` returns is that pixel: no truncation happens.
   */
  lemma IntersectionOfCommonPoint(a: Line, b: Line, p: Point)
    requires OnLine(a, p) && OnLine(b, p) && Denominator(a, b) != 0
    ensures Intersection(a, b) == Some(p)
  {
    Cramer(a, b, p);
    TruncDivExact(NumeratorX(a, b), Denominator(a, b), p.0);
    TruncDivExact(NumeratorY(a, b), Denominator(a, b), p.1);
  }

  /**
   * Conversely, when the determinant divides both numerators the point
   * returned lies on both lines.
   */
  lemma ExactIntersectionOnLines(a: Line, b: Line)
    requires Denominator(a, b) != 0
    requires NumeratorX(a, b) % Denominator(a, b) == 0 && NumeratorY(a, b) % Denominator(a, b) == 0
    ensures Intersection(a, b).Some?
    ensures OnLine(a, Intersection(a, b).value) && OnLine(b, Intersection(a, b).value)
  {
    var d, nx, ny := Denominator(a, b), NumeratorX(a, b), NumeratorY(a, b);
    var px, py := nx / d, ny / d;
    assert nx == px * d && ny == py * d;
    TruncDivExact(nx, d, px);
    TruncDivExact(ny, d, py);
    ScaledOnLine(a, b, (px, py));
    ScaledOnLine(b, a, (px, py)) by {
      SwapDenominator(a, b, (px, py));
    }
  }

  lemma SwapDenominator(a: Line, b: Line, p: Point)
    requires p.0 * Denominator(a, b) == NumeratorX(a, b) && p.1 * Denominator(a, b) == NumeratorY(a, b)
    ensures p.0 * Denominator(b, a) == NumeratorX(b, a) && p.1 * Denominator(b, a) == NumeratorY(b, a)
  {
    SwapSigns(a, b);
    NegMulRight(p.0, Denominator(a, b));
    NegMulRight(p.1, Denominator(a, b));
  }

  /** Swapping the two lines negates the determinant and both numerators. */
  lemma SwapSigns(a: Line, b: Line)
    ensures Denominator(b, a) == -Denominator(a, b)
    ensures NumeratorX(b, a) == -NumeratorX(a, b)
    ensures NumeratorY(b, a) == -NumeratorY(a, b)
  {
    var dxa, dya, dxb, dyb := a.x1 - a.x2, a.y1 - a.y2, b.x1 - b.x2, b.y1 - b.y2;
    assert dxb * dya == dya * dxb && dyb * dxa == dxa * dyb;
    assert Cross(b) * dxa == dxa * Cross(b) && dxb * Cross(a) == Cross(a) * dxb;
    assert Cross(b) * dya == dya * Cross(b) && dyb * Cross(a) == Cross(a) * dyb;
  }

  /** A point whose coordinates times the determinant are the numerators lies on the first line. */
  lemma ScaledOnLine(a: Line, b: Line, p: Point)
    requires Denominator(a, b) != 0
    requires p.0 * Denominator(a, b) == NumeratorX(a, b) && p.1 * Denominator(a, b) == NumeratorY(a, b)
    ensures OnLine(a, p)
  {
    var dx1, dy1, dx2, dy2 := a.x1 - a.x2, a.y1 - a.y2, b.x1 - b.x2, b.y1 - b.y2;
    var d, nx, ny := Denominator(a, b), NumeratorX(a, b), NumeratorY(a, b);
    Unscale(dx1, dy1, dx2, dy2, p.0, p.1, Cross(a), Cross(b), d, nx, ny);
    OnLineEquation(a, p);
  }

  /** Undoing Cramer's rule: the scaled solution satisfies the first equation. */
  lemma Unscale(dx1: int, dy1: int, dx2: int, dy2: int, x: int, y: int, ca: int, cb: int, d: int, nx: int, ny: int)
    requires d == dx1 * dy2 - dy1 * dx2 && d != 0
    requires nx == ca * dx2 - dx1 * cb && ny == ca * dy2 - dy1 * cb
    requires x * d == nx && y * d == ny
    ensures dy1 * x - dx1 * y == -ca
  {
    calc {
      (dy1 * x - dx1 * y) * d;
      dy1 * (x * d) - dx1 * (y * d);
      dy1 * nx - dx1 * ny;
      -ca * d;
    }
    MulCancel(d, dy1 * x - dx1 * y, -ca);
  }

  lemma MulCancel(d: int, x: int, y: int)
    requires d != 0 && x * d == y * d
    ensures x == y
  {
    assert (x - y) * d == 0;
  }

  /** `abs(x1 - x2) < abs(y1 - y2)`: the segment is steeper than 45 degrees. */
  predicate IsVertical(l: Line)
  {
    Abs(l.x1 - l.x2) < Abs(l.y1 - l.y2)
  }

  function Abs(x: int): nat
  {
    if x < 0 then -x else x
  }

  /** A segment whose two ends coincide. */
  predicate IsPoint(l: Line)
  {
    l.x1 == l.x2 && l.y1 == l.y2
  }

  lemma AbsMul(x: int, y: int)
    ensures Abs(x * y) == Abs(x) * Abs(y)
  {
    if x < 0 { NegMulLeft(-x, y); }
    if y < 0 { NegMulRight(x, -y); }
    if x < 0 && y < 0 { NegMul(-x, -y); }
  }

  /**
   * A near-vertical and a near-horizontal segment are never parallel,
   * unless the horizontal one is a single point.
   */
  lemma VerticalCrossesHorizontal(v: Line, h: Line)
    requires IsVertical(v) && !IsVertical(h) && !IsPoint(h)
    ensures Denominator(v, h) != 0
  {
    SteeperNotParallel(v.x1 - v.x2, v.y1 - v.y2, h.x1 - h.x2, h.y1 - h.y2);
  }

  /** `|p·s| < |q·r|` when `|p| < |q|`, `|s| <= |r|` and `r != 0`. */
  lemma SteeperNotParallel(p: int, q: int, r: int, s: int)
    requires Abs(p) < Abs(q) && Abs(s) <= Abs(r) && r != 0
    ensures p * s - q * r != 0
  {
    var a: int, b: int, c: int, e: int := Abs(p), Abs(q), Abs(r), Abs(s);
    AbsMul(p, s);
    AbsMul(q, r);
    MulNonNeg(a, c - e);
    MulSubLeft(a, c, e);
    MulAtLeast(c, b - a);
    MulSubRight(b, a, c);
  }

  // ---------------------------------------------------------------- find_intersections

  /** The near-vertical segments, in input order. */
  function Verticals(ls: seq<Line>): seq<Line>
  {
    if |ls| == 0 then []
    else Verticals(ls[..|ls| - 1]) + (if IsVertical(ls[|ls| - 1]) then [ls[|ls| - 1]] else [])
  }

  /** The rest, ties (45 degrees) included. */
  function Horizontals(ls: seq<Line>): seq<Line>
  {
    if |ls| == 0 then []
    else Horizontals(ls[..|ls| - 1]) + (if IsVertical(ls[|ls| - 1]) then [] else [ls[|ls| - 1]])
  }

  /** The crossings of one vertical segment with each horizontal one in turn, parallel pairs skipped. */
  function RowCrossings(v: Line, hs: seq<Line>): seq<Point>
  {
    if |hs| == 0 then []
    else
      var pt := Intersection(v, hs[|hs| - 1]);
      RowCrossings(v, hs[..|hs| - 1]) + (if pt.Some? then [pt.value] else [])
  }

  /** The crossings of every vertical segment, in order, with every horizontal one. */
  function Crossings(vs: seq<Line>, hs: seq<Line>): seq<Point>
  {
    if |vs| == 0 then [] else Crossings(vs[..|vs| - 1], hs) + RowCrossings(vs[|vs| - 1], hs)
  }

  /** `find_intersections`: no segments at all gives no points. */
  function Intersections(lines: Option<seq<Line>>): seq<Point>
  {
    if lines.None? then [] else Crossings(Verticals(lines.value), Horizontals(lines.value))
  }

  /** Every segment goes to exactly one family, and keeps its multiplicity. */
  lemma {:induction false} FamiliesSplit(ls: seq<Line>)
    ensures multiset(Verticals(ls)) + multiset(Horizontals(ls)) == multiset(ls)
    decreases |ls|
  {
    if |ls| > 0 {
      var init := ls[..|ls| - 1];
      FamiliesSplit(init);
      assert ls == init + [ls[|ls| - 1]];
    }
  }

  /** The vertical family holds only near-vertical segments, the other none. */
  lemma {:induction false} FamiliesKinds(ls: seq<Line>)
    ensures forall i :: 0 <= i < |Verticals(ls)| ==> IsVertical(Verticals(ls)[i])
    ensures forall i :: 0 <= i < |Horizontals(ls)| ==> !IsVertical(Horizontals(ls)[i])
    decreases |ls|
  {
    if |ls| > 0 {
      FamiliesKinds(ls[..|ls| - 1]);
    }
  }

  /** A row holds at most one crossing per horizontal segment. */
  lemma {:induction false} RowCrossingsAtMost(v: Line, hs: seq<Line>)
    ensures |RowCrossings(v, hs)| <= |hs|
    decreases |hs|
  {
    if |hs| > 0 {
      RowCrossingsAtMost(v, hs[..|hs| - 1]);
    }
  }

  /** Exactly one when no horizontal segment is parallel to `v`. */
  lemma {:induction false} RowCrossingsFull(v: Line, hs: seq<Line>)
    requires forall j :: 0 <= j < |hs| ==> Denominator(v, hs[j]) != 0
    ensures |RowCrossings(v, hs)| == |hs|
    decreases |hs|
  {
    if |hs| > 0 {
      RowCrossingsFull(v, hs[..|hs| - 1]);
    }
  }

  /** `p` is where some vertical segment of `vs` crosses some horizontal one of `hs`. */
  ghost predicate FromPair(vs: seq<Line>, hs: seq<Line>, p: Point)
  {
    exists i, j :: 0 <= i < |vs| && 0 <= j < |hs| && Intersection(vs[i], hs[j]) == Some(p)
  }

  /** Every crossing in a row is where `v` crosses one of `hs`. */
  lemma {:induction false} RowCrossingsFrom(v: Line, hs: seq<Line>)
    ensures forall k :: 0 <= k < |RowCrossings(v, hs)| ==> FromPair([v], hs, RowCrossings(v, hs)[k])
    decreases |hs|
  {
    if |hs| > 0 {
      var init := hs[..|hs| - 1];
      RowCrossingsFrom(v, init);
      var row := RowCrossings(v, hs);
      forall k | 0 <= k < |row| ensures FromPair([v], hs, row[k]) {
        if k < |RowCrossings(v, init)| {
          assert row[k] == RowCrossings(v, init)[k];
          var i, j :| 0 <= i < 1 && 0 <= j < |init| && Intersection([v][i], init[j]) == Some(row[k]);
          assert hs[j] == init[j];
        } else {
          assert Intersection([v][0], hs[|hs| - 1]) == Some(row[k]);
        }
      }
    }
  }

  lemma MulStep(a: nat, b: nat)
    ensures (a + 1) * b == a * b + b
  {
  }

  /** At most one point per vertical/horizontal pair. */
  lemma {:induction false} CrossingsAtMost(vs: seq<Line>, hs: seq<Line>)
    ensures |Crossings(vs, hs)| <= |vs| * |hs|
    decreases |vs|
  {
    if |vs| > 0 {
      CrossingsAtMost(vs[..|vs| - 1], hs);
      RowCrossingsAtMost(vs[|vs| - 1], hs);
      MulStep(|vs| - 1, |hs|);
    }
  }

  /** Exactly one per pair when no pair is parallel. */
  lemma {:induction false} CrossingsFull(vs: seq<Line>, hs: seq<Line>)
    requires forall i, j :: 0 <= i < |vs| && 0 <= j < |hs| ==> Denominator(vs[i], hs[j]) != 0
    ensures |Crossings(vs, hs)| == |vs| * |hs|
    decreases |vs|
  {
    if |vs| > 0 {
      var init := vs[..|vs| - 1];
      assert forall i :: 0 <= i < |init| ==> init[i] == vs[i];
      CrossingsFull(init, hs);
      RowCrossingsFull(vs[|vs| - 1], hs);
      MulStep(|init|, |hs|);
    }
  }

  /** Every point found is where some vertical segment crosses some horizontal one. */
  lemma {:induction false} CrossingsFrom(vs: seq<Line>, hs: seq<Line>)
    ensures forall k :: 0 <= k < |Crossings(vs, hs)| ==> FromPair(vs, hs, Crossings(vs, hs)[k])
    decreases |vs|
  {
    if |vs| > 0 {
      var init, v := vs[..|vs| - 1], vs[|vs| - 1];
      CrossingsFrom(init, hs);
      RowCrossingsFrom(v, hs);
      var all, before, row := Crossings(vs, hs), Crossings(init, hs), RowCrossings(v, hs);
      forall k | 0 <= k < |all| ensures FromPair(vs, hs, all[k]) {
        if k < |before| {
          assert all[k] == before[k];
          var i, j :| 0 <= i < |init| && 0 <= j < |hs| && Intersection(init[i], hs[j]) == Some(all[k]);
          assert vs[i] == init[i];
        } else {
          assert all[k] == row[k - |before|];
          var i, j :| 0 <= i < 1 && 0 <= j < |hs| && Intersection([v][i], hs[j]) == Some(all[k]);
          assert vs[|vs| - 1] == [v][i];
        }
      }
    }
  }

  /**
   * With no single-point segment among the horizontals, every
   * vertical/horizontal pair gives exactly one point.
   */
  lemma EveryPairCrosses(lines: seq<Line>)
    requires forall l :: l in lines && !IsVertical(l) ==> !IsPoint(l)
    ensures |Intersections(Some(lines))| == |Verticals(lines)| * |Horizontals(lines)|
  {
    var vs, hs := Verticals(lines), Horizontals(lines);
    FamiliesSplit(lines);
    FamiliesKinds(lines);
    forall i, j | 0 <= i < |vs| && 0 <= j < |hs| ensures Denominator(vs[i], hs[j]) != 0 {
      assert hs[j] in multiset(lines);
      VerticalCrossesHorizontal(vs[i], hs[j]);
    }
    CrossingsFull(vs, hs);
  }

  lemma FamiliesStep(ls: seq<Line>, i: nat)
    requires i < |ls|
    ensures Verticals(ls[..i + 1]) == Verticals(ls[..i]) + (if IsVertical(ls[i]) then [ls[i]] else [])
    ensures Horizontals(ls[..i + 1]) == Horizontals(ls[..i]) + (if IsVertical(ls[i]) then [] else [ls[i]])
  {
    assert ls[..i + 1][..i] == ls[..i];
  }

  lemma RowCrossingsStep(v: Line, hs: seq<Line>, j: nat)
    requires j < |hs|
    ensures var pt := Intersection(v, hs[j]);
            RowCrossings(v, hs[..j + 1]) == RowCrossings(v, hs[..j]) + (if pt.Some? then [pt.value] else [])
  {
    assert hs[..j + 1][..j] == hs[..j];
  }

  lemma CrossingsStep(vs: seq<Line>, hs: seq<Line>, i: nat)
    requires i < |vs|
    ensures Crossings(vs[..i + 1], hs) == Crossings(vs[..i], hs) + RowCrossings(vs[i], hs)
  {
    assert vs[..i + 1][..i] == vs[..i];
  }

  /** `find_intersections` over the segments OpenCV returns, `None` when it found none. */
  method FindIntersections(lines: Option<seq<Line>>) returns (intersections: seq<Point>)
    ensures intersections == Intersections(lines)
  {
    if lines.None? {
      return [];
    }
    var ls := lines.value;
    var vertical, horizontal := [], [];
    for i := 0 to |ls|
      invariant vertical == Verticals(ls[..i]) && horizontal == Horizontals(ls[..i])
    {
      FamiliesStep(ls, i);
      if IsVertical(ls[i]) {
        vertical := vertical + [ls[i]];
      } else {
        horizontal := horizontal + [ls[i]];
      }
    }
    assert ls[..|ls|] == ls;
    intersections := [];
    for i := 0 to |vertical|
      invariant intersections == Crossings(vertical[..i], horizontal)
    {
      CrossingsStep(vertical, horizontal, i);
      var v := vertical[i];
      ghost var before := intersections;
      for j := 0 to |horizontal|
        invariant intersections == before + RowCrossings(v, horizontal[..j])
      {
        RowCrossingsStep(v, horizontal, j);
        var pt := Intersection(v, horizontal[j]);
        if pt.Some? {
          AppendAssoc(before, RowCrossings(v, horizontal[..j]), [pt.value]);
          intersections := intersections + [pt.value];
        }
      }
      assert horizontal[..|horizontal|] == horizontal;
    }
    assert vertical[..|vertical|] == vertical;
  }
}
