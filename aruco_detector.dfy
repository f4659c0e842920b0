/**
 * The `ArucoGridDetector` of `GridDetectionFinal2.py`: per frame it may
 * refresh its lattice, finds the markers, and gives the robot and every
 * other marker the number of the first cell whose polygon holds all three
 * corners of the marker's triangle. The camera, the drawing and the
 * OpenCV calls are outside the model: a frame is the segments the line
 * detector found in it and the markers the marker detector found; the
 * homography is kept as the four image corners it is computed from, and
 * `warpOf`, the heading, the triangle and the inside test are parameters.
 */
module ArucoDetector {
  import opened Common
  import opened Lattice
  import opened LatticeRows
  import opened LatticeCluster
  import opened LatticeCells
  import opened LatticeTrack
  import opened Markers

  /** The triangle drawn round a marker: its front corner first. */
  datatype Triangle = Triangle(front: Spot, second: Spot, third: Spot)

  /** `tri_corners`, as the list the inside test runs over. */
  function Corners(t: Triangle): (cs: seq<Spot>)
    ensures |cs| == 3
  {
    [t.front, t.second, t.third]
  }

  /** An entry of `other_markers_cell_labels`: `(mid, cell_label, angle_deg)`. */
  datatype MarkerCell = MarkerCell(id: int, cell: Option<int>, angle: real)

  /** The warp applied to cell corners: through the homography only when it is in use and there is one. */
  function CornerWarp(usedHomography: bool, homography: Option<seq<Point>>, warpOf: seq<Point> -> Point -> Point): Option<Point -> Point>
  {
    if usedHomography && homography.Some? then Some(warpOf(homography.value)) else None
  }

  /** The cell of each other marker, in marker order, keeping its id and heading. */
  function MarkerCells(ms: seq<Marker>, polys: seq<CellPoly>, side: int,
                       triangleOf: (Point, real, int) -> Triangle, inside: (Spot, Quad) -> bool): seq<MarkerCell>
  {
    if |ms| == 0 then []
    else
      var m := ms[|ms| - 1];
      MarkerCells(ms[..|ms| - 1], polys, side, triangleOf, inside) +
        [MarkerCell(m.id, CellOf(Corners(triangleOf(m.center, m.angle, side)), polys, inside), m.angle)]
  }

  /** One entry per marker, in order, with the marker's own id and heading. */
  lemma {:induction false} MarkerCellsAligned(ms: seq<Marker>, polys: seq<CellPoly>, side: int,
                                               triangleOf: (Point, real, int) -> Triangle, inside: (Spot, Quad) -> bool)
    ensures var cs := MarkerCells(ms, polys, side, triangleOf, inside);
            |cs| == |ms| &&
            forall k :: 0 <= k < |ms| ==>
              cs[k] == MarkerCell(ms[k].id, CellOf(Corners(triangleOf(ms[k].center, ms[k].angle, side)), polys, inside), ms[k].angle)
    decreases |ms|
  {
    if |ms| > 0 {
      var init := ms[..|ms| - 1];
      MarkerCellsAligned(init, polys, side, triangleOf, inside);
      assert forall k :: 0 <= k < |init| ==> init[k] == ms[k];
    }
  }

  lemma MarkerCellsSnoc(ms: seq<Marker>, m: Marker, polys: seq<CellPoly>, side: int,
                        triangleOf: (Point, real, int) -> Triangle, inside: (Spot, Quad) -> bool)
    ensures MarkerCells(ms + [m], polys, side, triangleOf, inside) ==
            MarkerCells(ms, polys, side, triangleOf, inside) +
              [MarkerCell(m.id, CellOf(Corners(triangleOf(m.center, m.angle, side)), polys, inside), m.angle)]
  {
    assert (ms + [m])[..|ms|] == ms;
  }

  /** A lattice as `sort_into_grid` leaves it: non-empty rows, each sorted by x, each 20 px below the last. */
  predicate LatticeShaped(g: Grid)
  {
    NonEmptyRows(g) && RowsApart(g) && forall r :: 0 <= r < |g| ==> Sorted(true, g[r])
  }

  /** The lattice a frame's segments give: `find_intersections`, `cluster_points` with the radius clamped to 1, `sort_into_grid`. */
  method DetectLattice(lines: Option<seq<Line>>, clusterDist: int) returns (newGrid: Grid)
    ensures newGrid == NewLattice(lines, clusterDist)
    ensures LatticeShaped(newGrid)
  {
    var rawIntx := FindIntersections(lines);
    var cdist := if clusterDist < 1 then 1 else clusterDist;
    var clustered := ClusterPoints(rawIntx, cdist);
    newGrid := SortIntoGrid(clustered);
    NewLatticeShape(lines, clusterDist);
  }

  class ArucoGridDetector {
    var robotId: int
    var rows: int
    var cols: int
    var cellSize: int
    var detectGrid: int
    var clusterDist: int
    var updateThresh: int
    var showIntersections: int
    var showLines: int
    var useWrap: int
    var triangleSide: int
    var lastValidGrid: Option<Grid>
    /** The image corners the last homography was computed from. */
    var lastValidHomography: Option<seq<Point>>
    var robotPosition: Option<(Point, real)>
    var otherMarkers: seq<Marker>
    var robotCellLabel: Option<int>
    var otherMarkersCellLabels: seq<MarkerCell>

    /**
     * A stored lattice is one `sort_into_grid` could have produced, and a
     * homography exists only beside a lattice, from its four corners.
     */
    predicate Valid()
      reads this`lastValidGrid, this`lastValidHomography
    {
      (lastValidGrid.Some? ==> LatticeShaped(lastValidGrid.value)) &&
      (lastValidHomography.Some? ==> lastValidGrid.Some? && |lastValidHomography.value| == 4)
    }

    /** `__init__`: grid detection on, radius 50, threshold 15, no warp, triangle side 100, nothing seen yet. */
    constructor (robotId: int, rows: int, cols: int, cellSize: int)
      ensures this.robotId == robotId && this.rows == rows && this.cols == cols && this.cellSize == cellSize
      ensures detectGrid == 1 && clusterDist == 50 && updateThresh == 15
      ensures showIntersections == 0 && showLines == 0 && useWrap == 0 && triangleSide == 100
      ensures lastValidGrid == None && lastValidHomography == None
      ensures robotPosition == None && otherMarkers == [] && robotCellLabel == None && otherMarkersCellLabels == []
      ensures Valid()
    {
      this.robotId, this.rows, this.cols, this.cellSize := robotId, rows, cols, cellSize;
      detectGrid, clusterDist, updateThresh := 1, 50, 15;
      showIntersections, showLines, useWrap, triangleSide := 0, 0, 0, 100;
      lastValidGrid, lastValidHomography := None, None;
      robotPosition, otherMarkers, robotCellLabel, otherMarkersCellLabels := None, [], None, [];
    }

    method SetDetectGridState(val: int)
      modifies this`detectGrid
      ensures detectGrid == val
    {
      detectGrid := val;
    }

    method SetClusterDist(val: int)
      modifies this`clusterDist
      ensures clusterDist == val
    {
      clusterDist := val;
    }

    method SetUpdateThresh(val: int)
      modifies this`updateThresh
      ensures updateThresh == val
    {
      updateThresh := val;
    }

    method SetShowIntersections(val: int)
      modifies this`showIntersections
      ensures showIntersections == val
    {
      showIntersections := val;
    }

    method SetShowLines(val: int)
      modifies this`showLines
      ensures showLines == val
    {
      showLines := val;
    }

    method SetUseWrap(val: int)
      modifies this`useWrap
      ensures useWrap == val
    {
      useWrap := val;
    }

    method SetTriangleSide(val: int)
      modifies this`triangleSide
      ensures triangleSide == val
    {
      triangleSide := val;
    }

    /**
     * `update_grid` on a frame whose segments are `lines`: intersect,
     * cluster with the radius clamped to at least 1, bucket into rows,
     * then keep or replace the lattice and refresh the homography.
     */
    method UpdateGrid(lines: Option<seq<Line>>, norm: Vector -> real)
      requires Valid()
      modifies this`lastValidGrid, this`lastValidHomography
      ensures lastValidGrid == Accept(old(lastValidGrid), NewLattice(lines, old(clusterDist)), old(updateThresh), norm)
      ensures lastValidHomography ==
              NextHomography(old(lastValidHomography), old(lastValidGrid), NewLattice(lines, old(clusterDist)), old(updateThresh), norm)
      ensures Valid()
    {
      var newGrid := DetectLattice(lines, clusterDist);
      KeepOrReplace(newGrid, norm);
    }

    /** The `if new_grid:` block of `update_grid`: keep or replace the lattice, then take the kept one's corners. */
    method KeepOrReplace(newGrid: Grid, norm: Vector -> real)
      requires Valid() && LatticeShaped(newGrid)
      modifies this`lastValidGrid, this`lastValidHomography
      ensures lastValidGrid == Accept(old(lastValidGrid), newGrid, updateThresh, norm)
      ensures lastValidHomography == NextHomography(old(lastValidHomography), old(lastValidGrid), newGrid, updateThresh, norm)
      ensures Valid()
    {
      var grid, homography := lastValidGrid, lastValidHomography;
      if |newGrid| > 0 {
        if grid.None? {
          grid := Some(newGrid);
        } else {
          var dist := ComputeAverageGridDistance(grid.value, newGrid, norm);
          if dist > updateThresh as real {
            grid := Some(newGrid);
          }
        }
        var corners4 := GridCorners(grid.value);
        CornersExist(grid.value);
        if corners4.Some? {
          homography := corners4;
        }
      }
      lastValidGrid, lastValidHomography := grid, homography;
    }

    /** `detect_aruco`: the robot is the last detection carrying its id; every other detection is kept in order. */
    method DetectAruco(detections: seq<Detection>, angleOf: Point -> real)
      modifies this`robotPosition, this`otherMarkers
      ensures robotPosition == RobotOf(detections, robotId, angleOf)
      ensures otherMarkers == OthersOf(detections, robotId, angleOf)
    {
      robotPosition := None;
      otherMarkers := [];
      var i := 0;
      while i < |detections|
        invariant 0 <= i <= |detections|
        invariant robotPosition == RobotOf(detections[..i], robotId, angleOf)
        invariant otherMarkers == OthersOf(detections[..i], robotId, angleOf)
      {
        var d := detections[i];
        assert detections[..i + 1][..i] == detections[..i];
        var cx, cy := Mean4(d.c0.0, d.c1.0, d.c2.0, d.c3.0), Mean4(d.c0.1, d.c1.1, d.c2.1, d.c3.1);
        var angleDeg := angleOf((d.c1.0 - d.c0.0, d.c1.1 - d.c0.1));
        if d.id == robotId {
          robotPosition := Some(((cx, cy), angleDeg));
        } else {
          otherMarkers := otherMarkers + [Marker(d.id, (cx, cy), angleDeg)];
        }
        i := i + 1;
      }
      assert detections[..i] == detections;
    }

    /**
     * `_assign_markers_to_cells`: the robot's cell, when the robot was
     * seen, and one entry per other marker, all from the stored lattice's
     * polygons.
     */
    method AssignMarkersToCells(usedHomography: bool, warpOf: seq<Point> -> Point -> Point,
                                triangleOf: (Point, real, int) -> Triangle, inside: (Spot, Quad) -> bool)
      requires lastValidGrid.Some?
      modifies this`robotCellLabel, this`otherMarkersCellLabels
      ensures var polys := Numbered(Outlines(lastValidGrid.value, CornerWarp(usedHomography, lastValidHomography, warpOf)));
              robotCellLabel ==
                (if robotPosition.Some?
                 then CellOf(Corners(triangleOf(robotPosition.value.0, robotPosition.value.1, triangleSide)), polys, inside)
                 else old(robotCellLabel)) &&
              otherMarkersCellLabels == MarkerCells(otherMarkers, polys, triangleSide, triangleOf, inside)
    {
      var cellPolys := GetCellPolygons(lastValidGrid.value, CornerWarp(usedHomography, lastValidHomography, warpOf));
      if robotPosition.Some? {
        var tri := triangleOf(robotPosition.value.0, robotPosition.value.1, triangleSide);
        robotCellLabel := FindCellForTriangle(Corners(tri), cellPolys, inside);
      }
      otherMarkersCellLabels := [];
      ghost var robotLabel := robotCellLabel;
      var i := 0;
      while i < |otherMarkers|
        invariant 0 <= i <= |otherMarkers| && robotCellLabel == robotLabel
        invariant otherMarkersCellLabels == MarkerCells(otherMarkers[..i], cellPolys, triangleSide, triangleOf, inside)
      {
        var m := otherMarkers[i];
        var tri := triangleOf(m.center, m.angle, triangleSide);
        var cellLabel := FindCellForTriangle(Corners(tri), cellPolys, inside);
        MarkerCellsSnoc(otherMarkers[..i], m, cellPolys, triangleSide, triangleOf, inside);
        assert otherMarkers[..i + 1] == otherMarkers[..i] + [m];
        otherMarkersCellLabels := otherMarkersCellLabels + [MarkerCell(m.id, cellLabel, m.angle)];
        i := i + 1;
      }
      assert otherMarkers[..i] == otherMarkers;
    }

    /**
     * `update_frame`: nothing when no frame could be read; otherwise the
     * lattice (when detection is on), then the markers and their cells.
     */
    method UpdateFrame(frameRead: bool, lines: Option<seq<Line>>, detections: seq<Detection>,
                       norm: Vector -> real, angleOf: Point -> real, warpOf: seq<Point> -> Point -> Point,
                       triangleOf: (Point, real, int) -> Triangle, inside: (Spot, Quad) -> bool)
      returns (ok: bool)
      requires Valid()
      modifies this`lastValidGrid, this`lastValidHomography, this`robotPosition, this`otherMarkers,
               this`robotCellLabel, this`otherMarkersCellLabels
      ensures ok == frameRead && Valid()
      ensures !frameRead ==> unchanged(this)
      ensures frameRead ==>
                lastValidGrid ==
                  (if detectGrid == 1 then Accept(old(lastValidGrid), NewLattice(lines, old(clusterDist)), old(updateThresh), norm)
                   else old(lastValidGrid))
      ensures frameRead ==> MarkersLocated(detections, angleOf, warpOf, triangleOf, inside)
    {
      if !frameRead {
        return false;
      }
      if detectGrid == 1 {
        UpdateGrid(lines, norm);
      }
      LocateMarkers(detections, angleOf, warpOf, triangleOf, inside);
      return true;
    }

    /**
     * What `update_frame` leaves once the lattice is settled: the markers
     * of the frame, and their cells from the stored lattice's polygons;
     * no lattice, no robot, or no cell holding the triangle, no label.
     */
    ghost predicate MarkersLocated(detections: seq<Detection>, angleOf: Point -> real, warpOf: seq<Point> -> Point -> Point,
                                   triangleOf: (Point, real, int) -> Triangle, inside: (Spot, Quad) -> bool)
      reads this
    {
      robotPosition == RobotOf(detections, robotId, angleOf) &&
      otherMarkers == OthersOf(detections, robotId, angleOf) &&
      if lastValidGrid.None? then robotCellLabel == None && otherMarkersCellLabels == []
      else
        var polys := Numbered(Outlines(lastValidGrid.value, CornerWarp(useWrap == 1, lastValidHomography, warpOf)));
        robotCellLabel ==
          (if robotPosition.Some?
           then CellOf(Corners(triangleOf(robotPosition.value.0, robotPosition.value.1, triangleSide)), polys, inside)
           else None) &&
        otherMarkersCellLabels == MarkerCells(otherMarkers, polys, triangleSide, triangleOf, inside)
    }

    /** The marker half of `update_frame`: detect, reset both labels, and assign when there is a lattice. */
    method LocateMarkers(detections: seq<Detection>, angleOf: Point -> real, warpOf: seq<Point> -> Point -> Point,
                         triangleOf: (Point, real, int) -> Triangle, inside: (Spot, Quad) -> bool)
      modifies this`robotPosition, this`otherMarkers, this`robotCellLabel, this`otherMarkersCellLabels
      ensures MarkersLocated(detections, angleOf, warpOf, triangleOf, inside)
      ensures lastValidGrid == old(lastValidGrid) && lastValidHomography == old(lastValidHomography)
    {
      var usedHomography := useWrap == 1 && lastValidHomography.Some?;
      DetectAruco(detections, angleOf);
      robotCellLabel := None;
      otherMarkersCellLabels := [];
      if lastValidGrid.Some? {
        assert CornerWarp(usedHomography, lastValidHomography, warpOf) == CornerWarp(useWrap == 1, lastValidHomography, warpOf);
        AssignMarkersToCells(usedHomography, warpOf, triangleOf, inside);
      }
    }
  }
}
