/**
 * `match_intersections_to_grid` of `GridDetection3.py`: the board's
 * `(GRID_ROWS + 1) x (GRID_COLS + 1)` line crossings are expected at
 * evenly spaced positions across the frame, and every detected
 * intersection marks the expected position nearest to it. The table
 * holds expected positions, never detected ones. Distances are
 * `np.linalg.norm`; comparing two of them is comparing the squared
 * distances.
 */
module SlotMatching {
  import opened Common
  import opened Lattice
  import opened LatticeCluster
  import LatticeNumbering

  /** Rows and columns of crossings, one more than of cells. */
  const SlotRows := LatticeNumbering.GridRows + 1
  const SlotCols := LatticeNumbering.GridCols + 1

  type Table = seq<seq<Option<Point>>>

  /** Where crossing `(i, j)` is expected: `(width // (GRID_COLS + 1) * (j + 1), height // (GRID_ROWS + 1) * (i + 1))`. */
  function Expected(width: int, height: int, i: int, j: int): Point
  {
    (FloorDiv(width, SlotCols) * (j + 1), FloorDiv(height, SlotRows) * (i + 1))
  }

  /** The closest slot found so far and its squared distance. */
  datatype Closest = Closest(i: int, j: int, dist: int)

  /** The scan over the first `n` slots of row `i`: a strictly closer slot replaces the one found so far. */
  function ScanRow(p: Point, width: int, height: int, i: int, n: nat, found: Option<Closest>): Option<Closest>
    requires n <= SlotCols
  {
    if n == 0 then found else ScanSlot(p, width, height, i, n - 1, ScanRow(p, width, height, i, n - 1, found))
  }

  /** One slot of the scan: slot `(i, j)` replaces `prev` when it is strictly closer. */
  function ScanSlot(p: Point, width: int, height: int, i: int, j: int, prev: Option<Closest>): Option<Closest>
  {
    var d := SqDist(p, Expected(width, height, i, j));
    if prev.None? || d < prev.value.dist then Some(Closest(i, j, d)) else prev
  }

  /** The scan over the first `m` rows, from `closest_dist = inf`. */
  function ScanUpTo(p: Point, width: int, height: int, m: nat): Option<Closest>
    requires m <= SlotRows
  {
    if m == 0 then None else ScanRow(p, width, height, m - 1, SlotCols, ScanUpTo(p, width, height, m - 1))
  }

  /** The slot a detection marks. */
  function NearestSlot(p: Point, width: int, height: int): (int, int)
  {
    var c := ScanUpTo(p, width, height, SlotRows);
    if c.Some? then (c.value.i, c.value.j) else (-1, -1)
  }

  /** Slot `(i, j)` has been scanned once rows `0 .. i-1` and the first `n` slots of row `m` have. */
  predicate Scanned(i: int, j: int, m: nat, n: nat)
  {
    (0 <= i < m && 0 <= j < SlotCols) || (i == m && 0 <= j < n)
  }

  /** Row-major order: `(i, j)` comes before `(k, l)`. */
  predicate Before(i: int, j: int, k: int, l: int)
  {
    i < k || (i == k && j < l)
  }

  /** `c` is the first among the scanned slots nearest to `p`. */
  ghost predicate FirstNearest(p: Point, width: int, height: int, c: Closest, m: nat, n: nat)
  {
    Scanned(c.i, c.j, m, n) && c.dist == SqDist(p, Expected(width, height, c.i, c.j)) &&
    (forall i, j :: Scanned(i, j, m, n) ==> c.dist <= SqDist(p, Expected(width, height, i, j))) &&
    (forall i, j :: Scanned(i, j, m, n) && Before(i, j, c.i, c.j) ==> c.dist < SqDist(p, Expected(width, height, i, j)))
  }

  lemma {:induction false} ScanRowFirst(p: Point, width: int, height: int, i: nat, n: nat, found: Option<Closest>)
    requires n <= SlotCols
    requires (i == 0 && found.None?) || (found.Some? && FirstNearest(p, width, height, found.value, i, 0))
    requires i > 0 || found.None?
    ensures n > 0 ==> ScanRow(p, width, height, i, n, found).Some? &&
                      FirstNearest(p, width, height, ScanRow(p, width, height, i, n, found).value, i, n)
    ensures n == 0 ==> ScanRow(p, width, height, i, n, found) == found
    decreases n
  {
    if n > 0 {
      ScanRowFirst(p, width, height, i, n - 1, found);
      ScanSlotFirst(p, width, height, i, n - 1, ScanRow(p, width, height, i, n - 1, found));
    }
  }

  /** Scanning slot `(i, j)` after the first `j` slots of row `i` keeps the first nearest slot. */
  lemma ScanSlotFirst(p: Point, width: int, height: int, i: nat, j: nat, prev: Option<Closest>)
    requires j < SlotCols
    requires (i == 0 && j == 0 && prev.None?) || (prev.Some? && FirstNearest(p, width, height, prev.value, i, j))
    ensures ScanSlot(p, width, height, i, j, prev).Some?
    ensures FirstNearest(p, width, height, ScanSlot(p, width, height, i, j, prev).value, i, j + 1)
  {
    var d := SqDist(p, Expected(width, height, i, j));
    var c := ScanSlot(p, width, height, i, j, prev).value;
    if prev.None? || d < prev.value.dist {
      assert c == Closest(i, j, d);
      forall k, l | Scanned(k, l, i, j + 1) ensures c.dist <= SqDist(p, Expected(width, height, k, l)) {
        if k != i || l != j {
          assert Scanned(k, l, i, j);
        }
      }
      forall k, l | Scanned(k, l, i, j + 1) && Before(k, l, c.i, c.j) ensures c.dist < SqDist(p, Expected(width, height, k, l)) {
        assert Scanned(k, l, i, j);
      }
    } else {
      assert c == prev.value;
      forall k, l | Scanned(k, l, i, j + 1) && Before(k, l, c.i, c.j) ensures c.dist < SqDist(p, Expected(width, height, k, l)) {
        assert Scanned(k, l, i, j);
      }
    }
  }

  lemma {:induction false} ScanUpToFirst(p: Point, width: int, height: int, m: nat)
    requires 0 < m <= SlotRows
    ensures ScanUpTo(p, width, height, m).Some?
    ensures FirstNearest(p, width, height, ScanUpTo(p, width, height, m).value, m, 0)
    decreases m
  {
    var before := ScanUpTo(p, width, height, m - 1);
    if m > 1 {
      ScanUpToFirst(p, width, height, m - 1);
    }
    ScanRowFirst(p, width, height, m - 1, SlotCols, before);
    var c := ScanUpTo(p, width, height, m).value;
    assert FirstNearest(p, width, height, c, m - 1, SlotCols);
    forall i, j | Scanned(i, j, m, 0) ensures Scanned(i, j, m - 1, SlotCols) {
    }
  }

  /**
   * A detection marks a slot of the table, the nearest expected position
   * to it, and the first such slot in row-major order when several are
   * equally near.
   */
  lemma NearestSlotFirst(p: Point, width: int, height: int)
    ensures var (i, j) := NearestSlot(p, width, height);
            0 <= i < SlotRows && 0 <= j < SlotCols &&
            (forall k, l :: 0 <= k < SlotRows && 0 <= l < SlotCols ==>
               SqDist(p, Expected(width, height, i, j)) <= SqDist(p, Expected(width, height, k, l))) &&
            (forall k, l :: 0 <= k < SlotRows && 0 <= l < SlotCols && Before(k, l, i, j) ==>
               SqDist(p, Expected(width, height, i, j)) < SqDist(p, Expected(width, height, k, l)))
  {
    ScanUpToFirst(p, width, height, SlotRows);
    var c := ScanUpTo(p, width, height, SlotRows).value;
    forall k, l | 0 <= k < SlotRows && 0 <= l < SlotCols ensures Scanned(k, l, SlotRows, 0) {
    }
  }

  /** Every detection marks a slot of the table. */
  lemma NearestSlotInRange(p: Point, width: int, height: int)
    ensures 0 <= NearestSlot(p, width, height).0 < SlotRows && 0 <= NearestSlot(p, width, height).1 < SlotCols
  {
    NearestSlotFirst(p, width, height);
  }

  /** `[[None] * (GRID_COLS + 1) for _ in range(GRID_ROWS + 1)]`. */
  function EmptyTable(): (t: Table)
    ensures |t| == SlotRows && forall i :: 0 <= i < SlotRows ==> |t[i]| == SlotCols
  {
    seq(SlotRows, _ => seq(SlotCols, _ => None))
  }

  /** Whether a table has the board's shape. */
  predicate Shaped(t: Table)
  {
    |t| == SlotRows && forall i :: 0 <= i < SlotRows ==> |t[i]| == SlotCols
  }

  /** The table after marking slot `(i, j)` with its expected position. */
  function Mark(t: Table, i: int, j: int, width: int, height: int): (r: Table)
    requires Shaped(t)
    ensures Shaped(r)
  {
    if 0 <= i < SlotRows && 0 <= j < SlotCols then t[i := t[i][j := Some(Expected(width, height, i, j))]] else t
  }

  /** The table after the detections `pts`, marked in order. */
  function Snapped(pts: seq<Point>, width: int, height: int): (t: Table)
    ensures Shaped(t)
  {
    if |pts| == 0 then EmptyTable()
    else
      var (i, j) := NearestSlot(pts[|pts| - 1], width, height);
      Mark(Snapped(pts[..|pts| - 1], width, height), i, j, width, height)
  }

  /**
   * The table has `GRID_ROWS + 1` rows of `GRID_COLS + 1` slots; a slot
   * is filled exactly when some detection's nearest slot is that slot,
   * and then holds its own expected position.
   */
  lemma {:induction false} SnappedSlots(pts: seq<Point>, width: int, height: int)
    ensures forall i, j :: 0 <= i < SlotRows && 0 <= j < SlotCols ==>
              Snapped(pts, width, height)[i][j] ==
                if Marked(pts, width, height, i, j) then Some(Expected(width, height, i, j)) else None
    decreases |pts|
  {
    if |pts| > 0 {
      var init := pts[..|pts| - 1];
      SnappedSlots(init, width, height);
      NearestSlotInRange(pts[|pts| - 1], width, height);
      var last := NearestSlot(pts[|pts| - 1], width, height);
      forall i, j | 0 <= i < SlotRows && 0 <= j < SlotCols
        ensures Snapped(pts, width, height)[i][j] ==
                if Marked(pts, width, height, i, j) then Some(Expected(width, height, i, j)) else None
      {
        MarkedSnoc(pts, width, height, i, j);
        assert Snapped(pts, width, height)[i][j] ==
               if (i, j) == last then Some(Expected(width, height, i, j)) else Snapped(init, width, height)[i][j];
      }
    }
  }

  /** Some detection of `pts` has `(i, j)` as its nearest slot. */
  ghost predicate Marked(pts: seq<Point>, width: int, height: int, i: int, j: int)
  {
    exists k :: 0 <= k < |pts| && NearestSlot(pts[k], width, height) == (i, j)
  }

  lemma MarkedSnoc(pts: seq<Point>, width: int, height: int, i: int, j: int)
    requires |pts| > 0
    ensures Marked(pts, width, height, i, j) <==>
              Marked(pts[..|pts| - 1], width, height, i, j) || NearestSlot(pts[|pts| - 1], width, height) == (i, j)
  {
    var init := pts[..|pts| - 1];
    if Marked(init, width, height, i, j) {
      var k :| 0 <= k < |init| && NearestSlot(init[k], width, height) == (i, j);
      assert pts[k] == init[k];
    }
    if Marked(pts, width, height, i, j) {
      var k :| 0 <= k < |pts| && NearestSlot(pts[k], width, height) == (i, j);
      if k < |init| {
        assert init[k] == pts[k];
      }
    }
  }

  /** The expected positions, row by row, as the two nested loops build them. */
  method ExpectedGrid(width: int, height: int) returns (expected: seq<seq<Point>>)
    ensures |expected| == SlotRows
    ensures forall i :: 0 <= i < SlotRows ==>
              |expected[i]| == SlotCols && forall j :: 0 <= j < SlotCols ==> expected[i][j] == Expected(width, height, i, j)
  {
    var xSpacing := FloorDiv(width, SlotCols);
    var ySpacing := FloorDiv(height, SlotRows);
    expected := [];
    var i := 0;
    while i < SlotRows
      invariant i <= SlotRows && |expected| == i
      invariant forall i' :: 0 <= i' < i ==>
                  |expected[i']| == SlotCols && forall j :: 0 <= j < SlotCols ==> expected[i'][j] == Expected(width, height, i', j)
    {
      var row := [];
      var j := 0;
      while j < SlotCols
        invariant j <= SlotCols && |row| == j
        invariant forall j' :: 0 <= j' < j ==> row[j'] == Expected(width, height, i, j')
      {
        row := row + [(xSpacing * (j + 1), ySpacing * (i + 1))];
        j := j + 1;
      }
      expected := expected + [row];
      i := i + 1;
    }
  }

  /** The scan of one detection over the expected positions. */
  method FindClosest(p: Point, expected: seq<seq<Point>>, ghost width: int, ghost height: int) returns (closest: Option<Closest>)
    requires |expected| == SlotRows
    requires forall i :: 0 <= i < SlotRows ==>
               |expected[i]| == SlotCols && forall j :: 0 <= j < SlotCols ==> expected[i][j] == Expected(width, height, i, j)
    ensures closest == ScanUpTo(p, width, height, SlotRows)
  {
    closest := None;
    var i := 0;
    while i < SlotRows
      invariant i <= SlotRows
      invariant closest == ScanUpTo(p, width, height, i)
    {
      ghost var rowStart := closest;
      var j := 0;
      while j < SlotCols
        invariant j <= SlotCols
        invariant closest == ScanRow(p, width, height, i, j, rowStart)
      {
        var distance := SqDist(p, expected[i][j]);
        if closest.None? || distance < closest.value.dist {
          closest := Some(Closest(i, j, distance));
        }
        j := j + 1;
      }
      i := i + 1;
    }
  }

  /** `match_intersections_to_grid`. */
  method MatchIntersectionsToGrid(intersections: seq<Point>, width: int, height: int) returns (matched: Table)
    ensures matched == Snapped(intersections, width, height)
  {
    var expected := ExpectedGrid(width, height);
    matched := EmptyTable();
    var k := 0;
    while k < |intersections|
      invariant k <= |intersections|
      invariant matched == Snapped(intersections[..k], width, height)
    {
      var closest := FindClosest(intersections[k], expected, width, height);
      if closest.Some? {
        var ci, cj := closest.value.i, closest.value.j;
        if 0 <= ci < SlotRows && 0 <= cj < SlotCols {
          matched := matched[ci := matched[ci][cj := Some(expected[ci][cj])]];
        }
      }
      assert intersections[..k + 1][..k] == intersections[..k];
      k := k + 1;
    }
    assert intersections[..k] == intersections;
  }
}
