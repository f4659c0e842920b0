/**
 * The frame loops of `GridDetection20.py`, `GridDetection21.py` and
 * `GridDetection22.py`, whose "Grid Detection" trackbar switches the
 * lattice refresh on and off. When it is on, a frame's lattice is
 * decided on as `update_grid` does; when it is off, nothing the loop
 * keeps changes.
 */
module ToggledLoop {
  import opened Common
  import opened Lattice
  import opened LatticeCells
  import opened LatticeTrack
  import ArucoDetector

  /** The lattice the loops of `GridDetection20.py` and `GridDetection21.py` keep. */
  class GridLoop {
    var lastValidGrid: Option<Grid>

    constructor ()
      ensures lastValidGrid == None
    {
      lastValidGrid := None;
    }

    /** One frame: with detection on, the frame's lattice is taken when there is none or it lies further than the threshold. */
    method Frame(detectGrid: int, lines: Option<seq<Line>>, clusterDist: int, updateThresh: int, norm: Vector -> real)
      modifies this`lastValidGrid
      ensures detectGrid != 1 ==> lastValidGrid == old(lastValidGrid)
      ensures detectGrid == 1 ==> lastValidGrid == Accept(old(lastValidGrid), NewLattice(lines, clusterDist), updateThresh, norm)
    {
      if detectGrid == 1 {
        var newGrid := ArucoDetector.DetectLattice(lines, clusterDist);
        if |newGrid| > 0 {
          if lastValidGrid.None? {
            lastValidGrid := Some(newGrid);
          } else {
            var dist := ComputeAverageGridDistance(lastValidGrid.value, newGrid, norm);
            if dist > updateThresh as real {
              lastValidGrid := Some(newGrid);
            }
          }
        }
      }
    }
  }

  /** The lattice and homography corners the loop of `GridDetection22.py` keeps. */
  class CornerLoop {
    var lastValidGrid: Option<Grid>
    var lastValidHomography: Option<seq<Point>>

    constructor ()
      ensures lastValidGrid == None && lastValidHomography == None
    {
      lastValidGrid, lastValidHomography := None, None;
    }

    /** One frame: with detection on, the decision of `update_grid` and the corners of the kept lattice; off, no change. */
    method Frame(detectGrid: int, lines: Option<seq<Line>>, clusterDist: int, updateThresh: int, norm: Vector -> real)
      modifies this`lastValidGrid, this`lastValidHomography
      ensures detectGrid != 1 ==> lastValidGrid == old(lastValidGrid) && lastValidHomography == old(lastValidHomography)
      ensures detectGrid == 1 ==>
                lastValidGrid == Accept(old(lastValidGrid), NewLattice(lines, clusterDist), updateThresh, norm) &&
                lastValidHomography ==
                  NextHomography(old(lastValidHomography), old(lastValidGrid), NewLattice(lines, clusterDist), updateThresh, norm)
    {
      if detectGrid == 1 {
        var newGrid := ArucoDetector.DetectLattice(lines, clusterDist);
        var grid, homography := lastValidGrid, lastValidHomography;
        if |newGrid| > 0 {
          if grid.None? {
            grid := Some(newGrid);
          } else {
            var dist := ComputeAverageGridDistance(grid.value, newGrid, norm);
            if dist > updateThresh as real {
              grid := Some(newGrid);
            }
          }
          var corners4 := GridCorners(grid.value);
          if corners4.Some? {
            homography := corners4;
          }
        }
        lastValidGrid, lastValidHomography := grid, homography;
      }
    }
  }
}
