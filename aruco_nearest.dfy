/**
 * The `ArucoGridDetector` of `GridDetectionFinal.py`: the same lattice
 * refresh as the later detector, but a marker's cell is the label of the
 * cell centre nearest to the marker's centre. Distances are
 * `np.hypot`; comparing one with another, or with the 999999 start
 * value, is comparing the squared distances, with 999999² as the start.
 */
module ArucoNearest {
  import opened Common
  import opened Lattice
  import opened LatticeCluster
  import opened LatticeCells
  import opened LatticeTrack
  import opened Markers
  import ArucoDetector

  /** The squared start value of `best_dist`. */
  const FarSq: int := 999999 * 999999

  /** The best label and squared distance among the first `n` centres: a strictly closer centre replaces the best so far. */
  function NearestUpTo(p: Point, centers: seq<Point>, labels: seq<int>, n: nat): (best: (Option<int>, int))
    requires n <= |centers| && n <= |labels|
  {
    if n == 0 then (None, FarSq)
    else
      var prev := NearestUpTo(p, centers, labels, n - 1);
      var d := SqDist(p, centers[n - 1]);
      if d < prev.1 then (Some(labels[n - 1]), d) else prev
  }

  /** The label of the centre nearest to `p`, over the pairs `zip(centers, labels)` makes. */
  function NearestLabel(p: Point, centers: seq<Point>, labels: seq<int>): Option<int>
  {
    NearestUpTo(p, centers, labels, if |centers| < |labels| then |centers| else |labels|).0
  }

  /**
   * Scanning `n` centres: nothing is found exactly when none lies closer
   * than 999999; otherwise the best is the label of centre `k`, closer
   * than 999999, no further than any centre scanned, and strictly closer
   * than every earlier one, so the earliest of equally near centres wins.
   */
  lemma {:induction false} NearestUpToSpec(p: Point, centers: seq<Point>, labels: seq<int>, n: nat)
    requires n <= |centers| && n <= |labels|
    ensures var best := NearestUpTo(p, centers, labels, n);
            (best.0.None? <==> forall j :: 0 <= j < n ==> SqDist(p, centers[j]) >= FarSq) &&
            (best.0.None? ==> best.1 == FarSq) &&
            (best.0.Some? ==>
              exists k :: 0 <= k < n && best.0.value == labels[k] && best.1 == SqDist(p, centers[k]) &&
                best.1 < FarSq &&
                (forall j :: 0 <= j < n ==> best.1 <= SqDist(p, centers[j])) &&
                (forall j :: 0 <= j < k ==> best.1 < SqDist(p, centers[j])))
    decreases n
  {
    if n > 0 {
      NearestUpToSpec(p, centers, labels, n - 1);
    }
  }

  /** No centres, no label. */
  lemma NoCentersNoLabel(p: Point, labels: seq<int>)
    ensures NearestLabel(p, [], labels) == None
  {
  }

  /** The `best_dist` loop of `assign_marker_cells`. */
  method FindNearest(p: Point, centers: seq<Point>, labels: seq<int>) returns (bestLabel: Option<int>)
    ensures bestLabel == NearestLabel(p, centers, labels)
  {
    var n := if |centers| < |labels| then |centers| else |labels|;
    bestLabel := None;
    var bestDist := FarSq;
    var i := 0;
    while i < n
      invariant 0 <= i <= n
      invariant (bestLabel, bestDist) == NearestUpTo(p, centers, labels, i)
    {
      var dist := SqDist(p, centers[i]);
      if dist < bestDist {
        bestDist := dist;
        bestLabel := Some(labels[i]);
      }
      i := i + 1;
    }
  }

  /** The centres as drawn: each through the homography when it is in use. */
  function Placed(centers: seq<Point>, warp: Option<Point -> Point>): (ws: seq<Point>)
    ensures |ws| == |centers|
  {
    if |centers| == 0 then [] else Placed(centers[..|centers| - 1], warp) + [Through(warp, centers[|centers| - 1])]
  }

  /** The nearest centre's label for each other marker, in marker order, keeping id and heading. */
  function NearestCells(ms: seq<Marker>, centers: seq<Point>, labels: seq<int>): (cs: seq<ArucoDetector.MarkerCell>)
    ensures |cs| == |ms|
  {
    if |ms| == 0 then []
    else
      var m := ms[|ms| - 1];
      NearestCells(ms[..|ms| - 1], centers, labels) + [ArucoDetector.MarkerCell(m.id, NearestLabel(m.center, centers, labels), m.angle)]
  }

  /** Entry `k` belongs to marker `k`: its id, its nearest label, its heading. */
  lemma {:induction false} NearestCellsAligned(ms: seq<Marker>, centers: seq<Point>, labels: seq<int>)
    ensures forall k :: 0 <= k < |ms| ==>
              NearestCells(ms, centers, labels)[k] ==
                ArucoDetector.MarkerCell(ms[k].id, NearestLabel(ms[k].center, centers, labels), ms[k].angle)
    decreases |ms|
  {
    if |ms| > 0 {
      NearestCellsAligned(ms[..|ms| - 1], centers, labels);
    }
  }

  class ArucoGridDetector {
    var clusterDist: int
    var updateThresh: int
    var useWrap: int
    var lastValidGrid: Option<Grid>
    var lastValidHomography: Option<seq<Point>>
    var robotPosition: Option<Point>
    var otherMarkers: seq<Marker>
    var robotCellLabel: Option<int>
    var otherMarkersCellLabels: seq<ArucoDetector.MarkerCell>

    /** `__init__`: radius 90, threshold 15, no warp, nothing seen yet. */
    constructor ()
      ensures clusterDist == 90 && updateThresh == 15 && useWrap == 0
      ensures lastValidGrid == None && lastValidHomography == None
      ensures robotPosition == None && otherMarkers == [] && robotCellLabel == None && otherMarkersCellLabels == []
    {
      clusterDist, updateThresh, useWrap := 90, 15, 0;
      lastValidGrid, lastValidHomography := None, None;
      robotPosition, otherMarkers, robotCellLabel, otherMarkersCellLabels := None, [], None, [];
    }

    /** `update_grid`: the same refresh as the later detector, from the lattice the segments give. */
    method UpdateGrid(lines: Option<seq<Line>>, norm: Vector -> real)
      modifies this`lastValidGrid, this`lastValidHomography
      ensures lastValidGrid == Accept(old(lastValidGrid), NewLattice(lines, old(clusterDist)), old(updateThresh), norm)
      ensures lastValidHomography ==
              NextHomography(old(lastValidHomography), old(lastValidGrid), NewLattice(lines, old(clusterDist)), old(updateThresh), norm)
    {
      var newGrid := ArucoDetector.DetectLattice(lines, clusterDist);
      var grid, homography := lastValidGrid, lastValidHomography;
      if |newGrid| > 0 {
        if grid.None? {
          grid := Some(newGrid);
        } else {
          var dist := ComputeAverageGridDistance(grid.value, newGrid, norm);
          if dist > updateThresh as real {
            grid := Some(newGrid);
          }
        }
        var corners4 := GridCorners(grid.value);
        if corners4.Some? {
          homography := corners4;
        }
      }
      lastValidGrid, lastValidHomography := grid, homography;
    }

    /**
     * `assign_marker_cells`: both labels cleared; with a lattice, the
     * robot and every other marker get the label of their nearest cell
     * centre, the centres warped when the homography is in use.
     */
    method AssignMarkerCells(usedHomography: bool, warpOf: seq<Point> -> Point -> Point)
      modifies this`robotCellLabel, this`otherMarkersCellLabels
      ensures lastValidGrid.None? ==> robotCellLabel == None && otherMarkersCellLabels == []
      ensures lastValidGrid.Some? ==>
                var centers := Placed(CellCenters(lastValidGrid.value),
                                      ArucoDetector.CornerWarp(usedHomography, lastValidHomography, warpOf));
                var labels := Labels(|CellCenters(lastValidGrid.value)|);
                robotCellLabel == (if robotPosition.Some? then NearestLabel(robotPosition.value, centers, labels) else None) &&
                otherMarkersCellLabels == NearestCells(otherMarkers, centers, labels)
    {
      robotCellLabel := None;
      otherMarkersCellLabels := [];
      if lastValidGrid.None? {
        return;
      }
      var cellCenters, labels := FindCellCenters(lastValidGrid.value);
      var warp := ArucoDetector.CornerWarp(usedHomography, lastValidHomography, warpOf);
      var warpedCenters := WarpCenters(cellCenters, warp);
      if robotPosition.Some? {
        robotCellLabel := FindNearest(robotPosition.value, warpedCenters, labels);
      }
      otherMarkersCellLabels := MarkersNearest(otherMarkers, warpedCenters, labels);
    }
  }

  /** The cell centres through the warp, one by one. */
  method WarpCenters(cellCenters: seq<Point>, warp: Option<Point -> Point>) returns (warpedCenters: seq<Point>)
    ensures warpedCenters == Placed(cellCenters, warp)
  {
    warpedCenters := [];
    var k := 0;
    while k < |cellCenters|
      invariant 0 <= k <= |cellCenters|
      invariant warpedCenters == Placed(cellCenters[..k], warp)
    {
      assert cellCenters[..k + 1][..k] == cellCenters[..k];
      warpedCenters := warpedCenters + [Through(warp, cellCenters[k])];
      k := k + 1;
    }
    assert cellCenters[..k] == cellCenters;
  }

  /** The loop over the other markers: each with the label of its nearest centre. */
  method MarkersNearest(otherMarkers: seq<Marker>, warpedCenters: seq<Point>, labels: seq<int>) returns (cells: seq<ArucoDetector.MarkerCell>)
    ensures cells == NearestCells(otherMarkers, warpedCenters, labels)
  {
    cells := [];
    var i := 0;
    while i < |otherMarkers|
      invariant 0 <= i <= |otherMarkers|
      invariant cells == NearestCells(otherMarkers[..i], warpedCenters, labels)
    {
      var m := otherMarkers[i];
      var bestLabel := FindNearest(m.center, warpedCenters, labels);
      assert otherMarkers[..i + 1][..i] == otherMarkers[..i];
      cells := cells + [ArucoDetector.MarkerCell(m.id, bestLabel, m.angle)];
      i := i + 1;
    }
    assert otherMarkers[..i] == otherMarkers;
  }
}
