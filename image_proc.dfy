/**
 * `ImageProcessor` of `test/image_proc.py`: the same lattice refresh as
 * the grid detectors, the detections as `(id, centre, heading, corners)`
 * tuples, and the robot's cell read off the top-down picture the
 * homography gives, one `cell_size` square per cell.
 */
module ImageProc {
  import opened Common
  import opened Lattice
  import opened LatticeCells
  import opened LatticeTrack
  import opened Markers
  import ArucoDetector

  /** One tuple of `detect_aruco`: `(marker_id, (cx, cy), angle_deg, corner_pts)`. */
  datatype Sighting = Sighting(id: int, center: Point, angle: real, corners: seq<Point>)

  /** The tuple a detection gives. */
  function SightingOf(d: Detection, angleOf: Point -> real): Sighting
  {
    Sighting(d.id, Centroid(d), angleOf(Front(d)), [d.c0, d.c1, d.c2, d.c3])
  }

  /**
   * The cell `(row, col)` of a top-down point, each cell `cellSize` wide:
   * `None` outside the `n` by `m` board, `Raised` when the width truncates
   * to zero, which Python's `//` refuses.
   */
  function CellOfPoint(p: Point, cellSize: int, n: int, m: int): Run<Option<(int, int)>>
  {
    if cellSize == 0 then Raised
    else
      var col := FloorDiv(p.0, cellSize);
      var row := FloorDiv(p.1, cellSize);
      if 0 <= row < n && 0 <= col < m then Done(Some((row, col))) else Done(None)
  }

  /**
   * A cell found lies on the board and holds the point: its square spans
   * `[col * c, (col + 1) * c)` across and `[row * c, (row + 1) * c)` down.
   */
  lemma CellHoldsPoint(p: Point, c: int, n: int, m: int)
    requires c > 0
    ensures CellOfPoint(p, c, n, m).Done?
    ensures CellOfPoint(p, c, n, m).value.Some? ==>
              var (row, col) := CellOfPoint(p, c, n, m).value.value;
              0 <= row < n && 0 <= col < m &&
              row * c <= p.1 < (row + 1) * c && col * c <= p.0 < (col + 1) * c
  {
    FloorBounds(p.0, c);
    FloorBounds(p.1, c);
  }

  /** `a // c` for a positive `c` is the `q` with `q * c <= a < (q + 1) * c`. */
  lemma FloorBounds(a: int, c: int)
    requires c > 0
    ensures FloorDiv(a, c) * c <= a < (FloorDiv(a, c) + 1) * c
  {
    var q := FloorDiv(a, c);
    assert a == c * q + a % c;
    assert (q + 1) * c == q * c + c;
  }

  /** Every point of the `m * c` by `n * c` picture lies in some cell. */
  lemma PointOnBoardFound(p: Point, c: int, n: int, m: int)
    requires c > 0 && 0 <= p.0 < m * c && 0 <= p.1 < n * c
    ensures CellOfPoint(p, c, n, m).Done? && CellOfPoint(p, c, n, m).value.Some?
  {
    FloorBounds(p.0, c);
    FloorBounds(p.1, c);
    BelowBound(FloorDiv(p.0, c), m, c);
    BelowBound(FloorDiv(p.1, c), n, c);
  }

  /** With a positive width, `q * c < k * c` means `q < k`, and `q * c` above `-c` means `q >= 0`. */
  lemma BelowBound(q: int, k: int, c: int)
    requires c > 0 && q * c < k * c && (q + 1) * c > 0
    ensures 0 <= q < k
  {
    if q >= k {
      assert (q - k) * c == q * c - k * c;
      MulNonNeg(q - k, c);
    }
    if q < 0 {
      assert -(q + 1) * c == -((q + 1) * c);
      MulNonNeg(-(q + 1), c);
    }
  }

  class ImageProcessor {
    var robotId: int
    var n: int
    var m: int
    var cellSize: int
    var lastValidGrid: Option<Grid>
    var lastValidHomography: Option<seq<Point>>

    /** `__init__`: the board's size and cell width, no lattice and no homography yet. */
    constructor (robotId: int, n: int, m: int, cellSize: int)
      ensures this.robotId == robotId && this.n == n && this.m == m && this.cellSize == cellSize
      ensures lastValidGrid == None && lastValidHomography == None
    {
      this.robotId, this.n, this.m, this.cellSize := robotId, n, m, cellSize;
      lastValidGrid, lastValidHomography := None, None;
    }

    /**
     * `detect_grid`: the lattice of the frame's segments, with the radius
     * clamped to at least 1, replaces the kept one as `update_grid` does,
     * and the homography follows the kept lattice's corners.
     */
    method DetectGrid(lines: Option<seq<Line>>, clusterDist: int, updateThresh: int, norm: Vector -> real)
      modifies this`lastValidGrid, this`lastValidHomography
      ensures lastValidGrid == Accept(old(lastValidGrid), NewLattice(lines, clusterDist), updateThresh, norm)
      ensures lastValidHomography ==
              NextHomography(old(lastValidHomography), old(lastValidGrid), NewLattice(lines, clusterDist), updateThresh, norm)
    {
      var newGrid := ArucoDetector.DetectLattice(lines, clusterDist);
      var grid, homography := lastValidGrid, lastValidHomography;
      if |newGrid| > 0 {
        if grid.None? {
          grid := Some(newGrid);
        } else {
          var dist := ComputeAverageGridDistance(grid.value, newGrid, norm);
          if dist > updateThresh as real {
            grid := Some(newGrid);
          }
        }
        var corners4 := GridCorners(grid.value);
        if corners4.Some? {
          homography := corners4;
        }
      }
      lastValidGrid, lastValidHomography := grid, homography;
    }

    /** `detect_aruco`: one tuple per detection, in detection order. */
    static method DetectAruco(detections: seq<Detection>, angleOf: Point -> real) returns (sightings: seq<Sighting>)
      ensures |sightings| == |detections|
      ensures forall k :: 0 <= k < |detections| ==> sightings[k] == SightingOf(detections[k], angleOf)
    {
      sightings := [];
      var i := 0;
      while i < |detections|
        invariant 0 <= i <= |detections| && |sightings| == i
        invariant forall k :: 0 <= k < i ==> sightings[k] == SightingOf(detections[k], angleOf)
      {
        var d := detections[i];
        var cx := Mean4(d.c0.0, d.c1.0, d.c2.0, d.c3.0);
        var cy := Mean4(d.c0.1, d.c1.1, d.c2.1, d.c3.1);
        var dx := d.c1.0 - d.c0.0;
        var dy := d.c1.1 - d.c0.1;
        sightings := sightings + [Sighting(d.id, (cx, cy), angleOf((dx, dy)), [d.c0, d.c1, d.c2, d.c3])];
        i := i + 1;
      }
    }

    /**
     * `find_robot_cell`: `None` without a homography; otherwise the cell
     * of the robot's centre carried through it by `warpOf`, which lies on
     * the board and, for a positive width, holds the carried point. The
     * call fails only when the width truncates to zero.
     */
    function FindRobotCell(robotCenter: Point, warpOf: seq<Point> -> Point -> Point): (r: Run<Option<(int, int)>>)
      reads this`lastValidHomography, this`cellSize, this`n, this`m
      ensures lastValidHomography.None? ==> r == Done(None)
      ensures r == Raised <==> lastValidHomography.Some? && cellSize == 0
      ensures r.Done? && r.value.Some? ==>
                var (row, col) := r.value.value;
                var (x, y) := warpOf(lastValidHomography.value)(robotCenter);
                0 <= row < n && 0 <= col < m &&
                (cellSize > 0 ==> row * cellSize <= y < (row + 1) * cellSize && col * cellSize <= x < (col + 1) * cellSize)
    {
      if lastValidHomography.None? then Done(None)
      else
        var p := warpOf(lastValidHomography.value)(robotCenter);
        if cellSize > 0 then CellHoldsPoint(p, cellSize, n, m); CellOfPoint(p, cellSize, n, m)
        else CellOfPoint(p, cellSize, n, m)
    }
  }
}
