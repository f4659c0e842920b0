/**
 * Arranging cluster centres into rows (`sort_into_grid`): the points are
 * sorted by `(y, x)`, a new row starts wherever a point lies 20 pixels or
 * more below the last point of the row being built, and each row is then
 * sorted by `x` alone.
 */
module LatticeRows {
  import opened Common
  import opened Lattice

  /** `row_tolerance`. */
  const RowTolerance := 20

  /** The sort keys: `x` alone, or `(y, x)` compared lexicographically. */
  predicate KeyLeq(byX: bool, p: Point, q: Point)
  {
    if byX then p.0 <= q.0 else p.1 < q.1 || (p.1 == q.1 && p.0 <= q.0)
  }

  predicate Sorted(byX: bool, s: seq<Point>)
  {
    forall i, j :: 0 <= i < j < |s| ==> KeyLeq(byX, s[i], s[j])
  }

  /** Insertion after every element whose key is not greater, which keeps equal keys in arrival order. */
  function Insert(byX: bool, p: Point, s: seq<Point>): seq<Point>
  {
    if |s| == 0 then [p]
    else if !KeyLeq(byX, s[0], p) then [p] + s
    else [s[0]] + Insert(byX, p, s[1..])
  }

  /** Python's stable `sorted` under one of the two keys. */
  function Sort(byX: bool, s: seq<Point>): seq<Point>
  {
    if |s| == 0 then [] else Insert(byX, s[|s| - 1], Sort(byX, s[..|s| - 1]))
  }

  /** A point no greater than every point of a sorted sequence can lead it. */
  lemma SortedCons(byX: bool, a: Point, t: seq<Point>)
    requires Sorted(byX, t)
    requires forall j :: 0 <= j < |t| ==> KeyLeq(byX, a, t[j])
    ensures Sorted(byX, [a] + t)
  {
    var r := [a] + t;
    forall i, j | 0 <= i < j < |r| ensures KeyLeq(byX, r[i], r[j]) {
      assert r[j] == t[j - 1];
      if i > 0 {
        assert r[i] == t[i - 1];
      }
    }
  }

  /** `KeyLeq` is transitive for both keys. */
  lemma KeyTrans(byX: bool, a: Point, b: Point, c: Point)
    requires KeyLeq(byX, a, b) && KeyLeq(byX, b, c)
    ensures KeyLeq(byX, a, c)
  {
  }

  lemma {:induction false} InsertSorted(byX: bool, p: Point, s: seq<Point>)
    requires Sorted(byX, s)
    ensures Sorted(byX, Insert(byX, p, s))
    ensures multiset(Insert(byX, p, s)) == multiset(s) + multiset{p}
    decreases |s|
  {
    if |s| > 0 {
      var rest := s[1..];
      assert s == [s[0]] + rest;
      if KeyLeq(byX, s[0], p) {
        assert Sorted(byX, rest);
        InsertSorted(byX, p, rest);
        var t := Insert(byX, p, rest);
        forall j | 0 <= j < |t| ensures KeyLeq(byX, s[0], t[j]) {
          assert t[j] in multiset(rest) + multiset{p};
          if t[j] != p {
            assert t[j] in rest;
          }
        }
        SortedCons(byX, s[0], t);
      } else {
        forall j | 0 <= j < |s| ensures KeyLeq(byX, p, s[j]) {
          KeyTrans(byX, p, s[0], s[j]);
        }
        SortedCons(byX, p, s);
      }
    }
  }

  /** The sort orders the points and keeps every one of them, as often as it occurs. */
  lemma {:induction false} SortSorted(byX: bool, s: seq<Point>)
    ensures Sorted(byX, Sort(byX, s))
    ensures multiset(Sort(byX, s)) == multiset(s)
    decreases |s|
  {
    if |s| > 0 {
      var init := s[..|s| - 1];
      SortSorted(byX, init);
      InsertSorted(byX, s[|s| - 1], Sort(byX, init));
      assert s == init + [s[|s| - 1]];
    }
  }

  /** The loop's state: the rows closed so far, before their sort by `x`, and `current_row`. */
  datatype Building = Building(done: seq<seq<Point>>, current: seq<Point>)

  /** One pass of the loop: `p` joins the current row, or closes it and starts the next. */
  function Step(st: Building, p: Point): Building
    requires |st.current| > 0
  {
    var last := st.current[|st.current| - 1];
    if AbsInt(p.1 - last.1) < RowTolerance then Building(st.done, st.current + [p])
    else Building(st.done + [st.current], [p])
  }

  /** The passes over `s[i..]`. */
  function Build(s: seq<Point>, i: nat, st: Building): (r: Building)
    requires |st.current| > 0 && i <= |s|
    ensures |r.current| > 0
    decreases |s| - i
  {
    if i == |s| then st else Build(s, i + 1, Step(st, s[i]))
  }

  /** The rows met over `s`, each in the order its points were met; the last is the row still open. */
  function Buckets(s: seq<Point>): (b: seq<seq<Point>>)
    requires |s| > 0
  {
    var st := Build(s, 1, Building([], [s[0]]));
    st.done + [st.current]
  }

  /** Each row sorted by `x`. */
  function SortRows(b: seq<seq<Point>>): (rows: seq<seq<Point>>)
    ensures |rows| == |b|
  {
    if |b| == 0 then [] else [Sort(true, b[0])] + SortRows(b[1..])
  }

  /** `sort_into_grid`: no points give no rows. */
  function Rows(points: seq<Point>): seq<seq<Point>>
  {
    if |points| == 0 then [] else SortRows(Buckets(Sort(false, points)))
  }

  function AbsInt(x: int): int
  {
    if x < 0 then -x else x
  }

  /** Within a row, consecutive points (in the order met) are less than 20 pixels apart in `y`. */
  predicate RowsTight(b: seq<seq<Point>>)
  {
    forall k, i :: 0 <= k < |b| && 0 < i < |b[k]| ==> AbsInt(b[k][i].1 - b[k][i - 1].1) < RowTolerance
  }

  /** Every point of a later row lies at least 20 pixels below every point of an earlier one. */
  predicate RowsApart(b: seq<seq<Point>>)
  {
    forall k, l, i, j :: 0 <= k < l < |b| && 0 <= i < |b[k]| && 0 <= j < |b[l]| ==>
      b[k][i].1 + RowTolerance <= b[l][j].1
  }

  /** No row is empty. */
  predicate NonEmptyRows(b: seq<seq<Point>>)
  {
    forall k :: 0 <= k < |b| ==> |b[k]| > 0
  }

  /**
   * What the loop keeps after the first `i` points of `s`: the rows, laid
   * end to end, are those points; no row is empty; and the rows are tight.
   */
  predicate Kept(s: seq<Point>, i: nat, st: Building)
  {
    i <= |s| && |st.current| > 0 &&
    Flatten(st.done + [st.current]) == s[..i] &&
    NonEmptyRows(st.done) && RowsTight(st.done + [st.current])
  }

  lemma {:induction false} FlattenSnoc(ss: seq<seq<Point>>, t: seq<Point>)
    ensures Flatten(ss + [t]) == Flatten(ss) + t
    decreases |ss|
  {
    if |ss| > 0 {
      FlattenSnoc(ss[1..], t);
      assert (ss + [t])[1..] == ss[1..] + [t];
      AppendAssoc(ss[0], Flatten(ss[1..]), t);
    } else {
      assert [t][1..] == [];
    }
  }

  lemma StepFlat(done: seq<seq<Point>>, cur: seq<Point>, p: Point, seen: seq<Point>)
    requires |cur| > 0 && Flatten(done + [cur]) == seen
    ensures Flatten(Step(Building(done, cur), p).done + [Step(Building(done, cur), p).current]) == seen + [p]
  {
    FlattenSnoc(done, cur);
    if AbsInt(p.1 - cur[|cur| - 1].1) < RowTolerance {
      FlattenSnoc(done, cur + [p]);
      AppendAssoc(Flatten(done), cur, [p]);
    } else {
      FlattenSnoc(done + [cur], [p]);
    }
  }

  lemma StepTight(done: seq<seq<Point>>, cur: seq<Point>, p: Point)
    requires |cur| > 0 && RowsTight(done + [cur])
    ensures RowsTight(Step(Building(done, cur), p).done + [Step(Building(done, cur), p).current])
  {
    var b := done + [cur];
    var nx := Step(Building(done, cur), p);
    var nb := nx.done + [nx.current];
    if AbsInt(p.1 - cur[|cur| - 1].1) < RowTolerance {
      assert nb == done + [cur + [p]];
      assert forall k :: 0 <= k < |done| ==> nb[k] == b[k];
      forall i | 0 < i < |cur| + 1 ensures AbsInt(nb[|done|][i].1 - nb[|done|][i - 1].1) < RowTolerance {
        if i < |cur| {
          assert nb[|done|][i] == b[|done|][i] && nb[|done|][i - 1] == b[|done|][i - 1];
        }
      }
    } else {
      assert nb == b + [[p]];
      assert forall k :: 0 <= k < |b| ==> nb[k] == b[k];
    }
  }

  /** One pass keeps what the loop keeps. */
  lemma StepKept(s: seq<Point>, i: nat, st: Building)
    requires Kept(s, i, st) && i < |s|
    ensures Kept(s, i + 1, Step(st, s[i]))
  {
    StepFlat(st.done, st.current, s[i], s[..i]);
    assert s[..i] + [s[i]] == s[..i + 1];
    StepTight(st.done, st.current, s[i]);
  }

  lemma {:induction false} BuildKept(s: seq<Point>, i: nat, st: Building)
    requires Kept(s, i, st)
    ensures Kept(s, |s|, Build(s, i, st))
    decreases |s| - i
  {
    if i < |s| {
      StepKept(s, i, st);
      BuildKept(s, i + 1, Step(st, s[i]));
    }
  }

  /**
   * The rows, laid end to end, are the points in the order they were met;
   * no row is empty; and within a row consecutive points are less than
   * 20 pixels apart in `y`.
   */
  lemma BucketsShape(s: seq<Point>)
    requires |s| > 0
    ensures Flatten(Buckets(s)) == s && NonEmptyRows(Buckets(s)) && RowsTight(Buckets(s))
  {
    var st0 := Building([], [s[0]]);
    assert Flatten([] + [[s[0]]]) == [s[0]] + [] && [s[0]] == s[..1];
    BuildKept(s, 1, st0);
    assert s[..|s|] == s;
  }

  /** No point of any row lies below the last point of the last row. */
  predicate LastLowest(b: seq<seq<Point>>)
    requires |b| > 0 && |b[|b| - 1]| > 0
  {
    var cur := b[|b| - 1];
    forall k, j :: 0 <= k < |b| && 0 <= j < |b[k]| ==> b[k][j].1 <= cur[|cur| - 1].1
  }

  /** What the loop keeps besides over `(y, x)`-sorted points. */
  predicate KeptSorted(s: seq<Point>, i: nat, st: Building)
  {
    Kept(s, i, st) && 0 < i &&
    st.current[|st.current| - 1] == s[i - 1] &&
    LastLowest(st.done + [st.current]) && RowsApart(st.done + [st.current])
  }

  lemma StepApart(done: seq<seq<Point>>, cur: seq<Point>, p: Point)
    requires |cur| > 0 && NonEmptyRows(done)
    requires LastLowest(done + [cur]) && RowsApart(done + [cur])
    requires cur[|cur| - 1].1 <= p.1
    ensures var nx := Step(Building(done, cur), p);
            nx.current[|nx.current| - 1] == p &&
            LastLowest(nx.done + [nx.current]) && RowsApart(nx.done + [nx.current])
  {
    var nx := Step(Building(done, cur), p);
    if AbsInt(p.1 - cur[|cur| - 1].1) < RowTolerance {
      assert nx == Building(done, cur + [p]);
      JoinApart(done, cur, p);
    } else {
      assert nx == Building(done + [cur], [p]);
      BreakApart(done, cur, p);
    }
  }

  /** `p` joins the current row. */
  lemma JoinApart(done: seq<seq<Point>>, cur: seq<Point>, p: Point)
    requires |cur| > 0 && NonEmptyRows(done)
    requires LastLowest(done + [cur]) && RowsApart(done + [cur])
    requires cur[|cur| - 1].1 <= p.1
    ensures var nb := done + [cur + [p]];
            LastLowest(nb) && RowsApart(nb)
  {
    var b: seq<seq<Point>>, nb: seq<seq<Point>> := done + [cur], done + [cur + [p]];
    assert forall k :: 0 <= k < |done| ==> nb[k] == b[k];
    assert forall j :: 0 <= j < |cur| ==> nb[|done|][j] == b[|done|][j];
    assert nb[|done|][|cur|] == p;
    forall k, l, i, j | 0 <= k < l < |nb| && 0 <= i < |nb[k]| && 0 <= j < |nb[l]|
      ensures nb[k][i].1 + RowTolerance <= nb[l][j].1
    {
      if j == |cur| {
        assert b[k][i].1 + RowTolerance <= b[l][0].1;
      }
    }
  }

  /** `p` closes the current row and starts the next. */
  lemma BreakApart(done: seq<seq<Point>>, cur: seq<Point>, p: Point)
    requires |cur| > 0 && NonEmptyRows(done)
    requires LastLowest(done + [cur]) && RowsApart(done + [cur])
    requires cur[|cur| - 1].1 + RowTolerance <= p.1
    ensures var nb := done + [cur] + [[p]];
            LastLowest(nb) && RowsApart(nb)
  {
    var b: seq<seq<Point>> := done + [cur];
    var nb: seq<seq<Point>> := b + [[p]];
    var last := cur[|cur| - 1];
    assert b[|b| - 1] == cur;
    forall k, j | 0 <= k < |nb| && 0 <= j < |nb[k]| ensures nb[k][j].1 + RowTolerance <= p.1 || k == |b| {
      if k < |b| {
        assert nb[k][j] == b[k][j];
        assert b[k][j].1 <= last.1;
      }
    }
    forall k, l, i, j | 0 <= k < l < |nb| && 0 <= i < |nb[k]| && 0 <= j < |nb[l]|
      ensures nb[k][i].1 + RowTolerance <= nb[l][j].1
    {
      if l < |b| {
        assert nb[k] == b[k] && nb[l] == b[l];
      } else {
        assert nb[l][j] == p;
      }
    }
  }

  lemma StepKeptSorted(s: seq<Point>, i: nat, st: Building)
    requires KeptSorted(s, i, st) && i < |s| && Sorted(false, s)
    ensures KeptSorted(s, i + 1, Step(st, s[i]))
  {
    StepKept(s, i, st);
    assert KeyLeq(false, s[i - 1], s[i]);
    StepApart(st.done, st.current, s[i]);
  }

  lemma {:induction false} BuildKeptSorted(s: seq<Point>, i: nat, st: Building)
    requires KeptSorted(s, i, st) && Sorted(false, s)
    ensures KeptSorted(s, |s|, Build(s, i, st))
    decreases |s| - i
  {
    if i < |s| {
      StepKeptSorted(s, i, st);
      BuildKeptSorted(s, i + 1, Step(st, s[i]));
    }
  }

  /** Over `(y, x)`-sorted points, every row lies at least 20 pixels below the rows before it. */
  lemma BucketsApart(s: seq<Point>)
    requires |s| > 0 && Sorted(false, s)
    ensures RowsApart(Buckets(s))
  {
    var st0 := Building([], [s[0]]);
    assert Flatten([] + [[s[0]]]) == [s[0]] + [] && [s[0]] == s[..1];
    assert [] + [[s[0]]] == [[s[0]]];
    BuildKeptSorted(s, 1, st0);
  }

  lemma {:induction false} SortRowsSnoc(b: seq<seq<Point>>, r: seq<Point>)
    ensures SortRows(b + [r]) == SortRows(b) + [Sort(true, r)]
    decreases |b|
  {
    if |b| > 0 {
      SortRowsSnoc(b[1..], r);
      assert (b + [r])[1..] == b[1..] + [r];
    } else {
      assert [r][1..] == [];
    }
  }

  /** Sorting each row by `x` keeps each row's points and orders them. */
  lemma {:induction false} SortRowsEach(b: seq<seq<Point>>)
    ensures forall k :: 0 <= k < |b| ==>
              multiset(SortRows(b)[k]) == multiset(b[k]) && Sorted(true, SortRows(b)[k])
    ensures multiset(Flatten(SortRows(b))) == multiset(Flatten(b))
    decreases |b|
  {
    if |b| > 0 {
      SortRowsEach(b[1..]);
      SortSorted(true, b[0]);
      var sb := SortRows(b);
      assert sb == [Sort(true, b[0])] + SortRows(b[1..]);
      assert forall k :: 0 < k < |b| ==> sb[k] == SortRows(b[1..])[k - 1] && b[k] == b[1..][k - 1];
    }
  }

  /** Rows that are apart stay apart when each is reordered. */
  lemma ApartAfterSort(b: seq<seq<Point>>)
    requires RowsApart(b)
    ensures RowsApart(SortRows(b))
  {
    var sb: seq<seq<Point>> := SortRows(b);
    SortRowsEach(b);
    forall k: int, l: int, i: int, j: int | 0 <= k < l < |sb| && 0 <= i < |sb[k]| && 0 <= j < |sb[l]|
      ensures sb[k][i].1 + RowTolerance <= sb[l][j].1
    {
      assert sb[k][i] in multiset(b[k]) && sb[l][j] in multiset(b[l]);
      var i', j' :| 0 <= i' < |b[k]| && b[k][i'] == sb[k][i] && 0 <= j' < |b[l]| && b[l][j'] == sb[l][j];
    }
  }

  /**
   * `sort_into_grid`: the rows hold exactly the points given; no row is
   * empty; each row runs left to right; and each row lies at least 20
   * pixels below every row above it.
   */
  lemma RowsShape(points: seq<Point>)
    ensures multiset(Flatten(Rows(points))) == multiset(points)
    ensures NonEmptyRows(Rows(points))
    ensures forall k :: 0 <= k < |Rows(points)| ==> Sorted(true, Rows(points)[k])
    ensures RowsApart(Rows(points))
  {
    if |points| > 0 {
      var s := Sort(false, points);
      SortSorted(false, points);
      assert |s| == |points| by {
        assert |multiset(s)| == |multiset(points)|;
      }
      var b := Buckets(s);
      BucketsShape(s);
      BucketsApart(s);
      SortRowsEach(b);
      ApartAfterSort(b);
      forall k | 0 <= k < |b| ensures |SortRows(b)[k]| > 0 {
        assert |multiset(SortRows(b)[k])| == |multiset(b[k])|;
      }
    }
  }

  /** `sort_into_grid(intersections)`. */
  method SortIntoGrid(intersections: seq<Point>) returns (gridRows: seq<seq<Point>>)
    ensures gridRows == Rows(intersections)
  {
    if |intersections| == 0 {
      return [];
    }
    var sortedPts := Sort(false, intersections);
    SortSorted(false, intersections);
    assert |multiset(sortedPts)| == |multiset(intersections)|;
    gridRows := [];
    var currentRow := [sortedPts[0]];
    ghost var done: seq<seq<Point>> := [];
    for i := 1 to |sortedPts|
      invariant |currentRow| > 0 && gridRows == SortRows(done)
      invariant Build(sortedPts, i, Building(done, currentRow)) == Build(sortedPts, 1, Building([], [sortedPts[0]]))
    {
      if AbsInt(sortedPts[i].1 - currentRow[|currentRow| - 1].1) < RowTolerance {
        currentRow := currentRow + [sortedPts[i]];
      } else {
        SortRowsSnoc(done, currentRow);
        gridRows := gridRows + [Sort(true, currentRow)];
        done := done + [currentRow];
        currentRow := [sortedPts[i]];
      }
    }
    SortRowsSnoc(done, currentRow);
    gridRows := gridRows + [Sort(true, currentRow)];
  }
}
