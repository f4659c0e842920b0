# A verified model of a grid robot's planners, motion link and lattice detectors

This project models the logic at the centre of a classroom robotics
repository. A camera looks down on a board of square cells. The ArUco
grid detectors rebuild the board's lattice from the Hough segments in
each frame and find the cell each marker stands on. The grid planners
plan a path over the cells. The host-side `MovementClass` clients turn
that path into `TURN`/`FORWARD` commands and send them to a Raspberry
Pi Pico over TCP, and the Pico's MicroPython dispatchers answer them.
Two small MicroPython labs are modelled as well: a binary display on a
NeoPixel strip with a debounced button, and a quadrature encoder.

The model follows the source's own form. Pure helpers are functions
with lemmas. Loops are methods whose `while` loops carry invariants, and
each such method is proved against a specification function. An object
whose methods update its fields is a class. Points are integer pixel
pairs, and where the source compares a Euclidean norm with a threshold
the model compares squared distances. Replies from the socket and
readings from the detector are scripts fixed in advance.

The modules, by group:

- Planners: `Grid`, `PriorityQueue`, `Chain`, `CellSearch`, `PlainSearch`,
  `Pathfinding`, `PathfindingApp`, `HeadingSearch`, `SnakeGrid`,
  `SnakeDiscovery`, `CostState`/`SnakeCost`, `GreedyState`/`SnakeGreedy`,
  `SnakeFoods`/`FoodPoints`, `PointsState`/`PointsSearch`.
- Motion link: `Text`, `Link`, `Motion`, `Movement1`, `Movement2`,
  `Movement3`, `Movement5`, `NorosMovement`, `MotionFirmware`,
  `MoveFirmware`.
- Lattice reconstruction: `Lattice`, `LatticeCluster`, `LatticeRows`,
  `LatticeCells`, `LatticeTrack`, `LatticeBorder`, `LatticeNumbering`,
  `LatticeMemory`, `ToggledLoop`, `SlotMatching`, `ReferenceSnap`,
  `Smoothing`, `Markers`, `ArucoDetector`, `ArucoNearest`, `ImageProc`.
- MicroPython labs: `Ticks`, `NeoPixelByte`, `QuadratureEncoder`.
- `Common` holds the shared result wrappers and arithmetic lemmas.

## Model

| member | source | states |
|---|---|---|
| Lattice.OnLineEquation | Final_Project/ImgProc/GridDetectionFinal2.py:5-8 | a pixel lies on a segment's line exactly when it satisfies the line equation built from the same products `compute_intersection` uses |
| Lattice.Cramer | Final_Project/ImgProc/GridDetectionFinal2.py:8-14 | a point on both lines has its coordinates times the determinant `denom` equal to the two numerators |
| Lattice.IntersectionOfCommonPoint | Final_Project/ImgProc/GridDetectionFinal2.py:5-15 | when the lines are not parallel and share a pixel, `compute_intersection` returns that pixel: the truncating division loses nothing; the same code recurs at Final/ImgProc/TestCode4.py lines 20-38 (the same `compute_intersection` in the early test script); Final_Project/ImgProc/GridDetectionFinal2_fptstest.py lines 10-20 (the same `compute_intersection` in the test script); Final_Project/ImgProc/GridDetection22.py lines 9-21 (the same `compute_intersection`); Final_Project/ImgProc/GridDetection21.py lines 8-20 (the same `compute_intersection`); Final_Project/ImgProc/GridDetection20.py lines 8-20 (the same `compute_intersection`); Final_Project/ImgProc/GridDetection17.py lines 26-35 (the same `compute_intersection`); Final_Project/ImgProc/GridDetection16.py lines 28-40 (the same `compute_intersection`) |
| Lattice.IntersectionFitsInt32 | Final_Project/ImgProc/GridDetectionFinal2.py:5-15 | for segments with coordinates in 0 .. 1000 every difference, cross term, product, the determinant and both numerators are int32 values, so the numpy arithmetic does not wrap and `Intersection` is what the code computes |
| Lattice.IntersectionOverflowsAt1080 | Final_Project/ImgProc/GridDetectionFinal2.py:11-12 | on a 1920 x 1080 frame the product of a diagonal's cross term and a full-width difference leaves the int32 range |
| Lattice.ExactIntersectionOnLines | Final_Project/ImgProc/GridDetectionFinal2.py:5-15 | conversely, when `denom` divides both numerators the point returned lies on both lines |
| Lattice.SwapDenominator | Final_Project/ImgProc/GridDetectionFinal2.py:8-14 | with the lines swapped, the same point still solves the scaled equations |
| Lattice.SwapSigns | Final_Project/ImgProc/GridDetectionFinal2.py:8-14 | swapping the two lines negates `denom` and both numerators |
| Lattice.VerticalCrossesHorizontal | Final_Project/ImgProc/GridDetectionFinal2.py:23-30 | a near-vertical and a near-horizontal segment are never parallel unless the horizontal one is a single point |
| Lattice.FamiliesSplit | Final_Project/ImgProc/GridDetectionFinal2.py:20-26 | every segment goes to exactly one of the two families, as often as it occurs |
| Lattice.FamiliesKinds | Final_Project/ImgProc/GridDetectionFinal2.py:23-26 | the vertical family holds only segments with `abs(x1 - x2) < abs(y1 - y2)`, the horizontal family none; the same code recurs at Final_Project/ImgProc/GridDetection22.py lines 23-42 (the same vertical test, ties classed horizontal); Final_Project/ImgProc/GridDetection20.py lines 22-44 (the same vertical test, ties classed horizontal) |
| Lattice.RowCrossingsAtMost | Final_Project/ImgProc/GridDetectionFinal2.py:29-32 | one vertical segment gives at most one point per horizontal segment |
| Lattice.RowCrossingsFull | Final_Project/ImgProc/GridDetectionFinal2.py:29-32 | exactly one when no horizontal segment is parallel to it |
| Lattice.RowCrossingsFrom | Final_Project/ImgProc/GridDetectionFinal2.py:29-32 | every point of a row is where the vertical segment crosses one of the horizontals |
| Lattice.CrossingsAtMost | Final_Project/ImgProc/GridDetectionFinal2.py:27-33 | at most one point per vertical/horizontal pair |
| Lattice.CrossingsFull | Final_Project/ImgProc/GridDetectionFinal2.py:27-33 | exactly one per pair when no pair is parallel |
| Lattice.CrossingsFrom | Final_Project/ImgProc/GridDetectionFinal2.py:27-33 | every point found is where some vertical segment crosses some horizontal one |
| Lattice.EveryPairCrosses | Final_Project/ImgProc/GridDetectionFinal2.py:17-33 | with no single-point horizontal segment, `find_intersections` returns one point per vertical/horizontal pair |
| Lattice.FindIntersections | Final_Project/ImgProc/GridDetectionFinal2.py:17-33 | the nested loops return `Intersections(lines)`, and `[]` for `None`; the same code recurs at Final_Project/ImgProc/GridDetection.py lines 38-60 (the same function with `if intersection:`, which rejects only `None` since a pair is always true); Final/ImgProc/TestCode4.py lines 40-68 (the same function in the early test script) |
| LatticeCluster.NearFarSplit | Final_Project/ImgProc/GridDetectionFinal2.py:42-47 | the mask `dists < cluster_dist` and its negation split the points, each going to exactly one side as often as it occurs |
| LatticeCluster.NearClose | Final_Project/ImgProc/GridDetectionFinal2.py:43-44 | the near side holds only points within the radius of the reference |
| LatticeCluster.FarNotClose | Final_Project/ImgProc/GridDetectionFinal2.py:47 | the far side holds none |
| LatticeCluster.SelfClose | Final_Project/ImgProc/GridDetectionFinal2.py:41-43 | with a radius of at least one the reference point is close to itself, so every round removes a point |
| LatticeCluster.NoRadiusKeepsAll | Final_Project/ImgProc/GridDetectionFinal2.py:40-47 | with a radius of zero or less nothing is close and a round removes no point, so `while len(pts) > 0` never ends |
| LatticeCluster.Groups | Final_Project/ImgProc/GridDetectionFinal2.py:40-47 | every group the rounds form is non-empty |
| LatticeCluster.ClustersCons | Final_Project/ImgProc/GridDetectionFinal2.py:40-47 | one round: the first cluster is the mean of the points near the first one, and fewer points remain |
| LatticeCluster.GroupsPartition | Final_Project/ImgProc/GridDetectionFinal2.py:35-48 | the groups partition the points: every point is in exactly one group, as often as it occurs, and there are no more groups than points |
| LatticeCluster.ClustersCount | Final_Project/ImgProc/GridDetectionFinal2.py:35-48 | one cluster per group, never more clusters than points; the same code recurs at Final_Project/ImgProc/GridDetection22.py lines 44-59 (the same clustering, for the radius the loop clamps to at least 1); Final_Project/ImgProc/GridDetection21.py lines 43-58 (the same clamped clustering); Final_Project/ImgProc/GridDetection20.py lines 46-63 (the same clamped clustering) |
| LatticeCluster.GroupsAroundFirst | Final_Project/ImgProc/GridDetectionFinal2.py:41-44 | each group is its first point and the following points within the radius of it |
| LatticeCluster.GroupsSeparated | Final_Project/ImgProc/GridDetectionFinal2.py:40-47 | a point of a later group is never within the radius of an earlier group's first point |
| LatticeCluster.MeansAt | Final_Project/ImgProc/GridDetectionFinal2.py:45-46 | cluster `k` is the truncated mean of group `k` |
| LatticeCluster.MeanInBox | Final_Project/ImgProc/GridDetectionFinal2.py:45 | a cluster centre lies within the bounding box of its group, truncation toward zero included |
| LatticeCluster.ClusterPoints | Final_Project/ImgProc/GridDetectionFinal2.py:35-48 | the loop returns `Clusters(points, cluster_dist)` for a radius of at least one |
| LatticeRows.InsertSorted | Final_Project/ImgProc/GridDetectionFinal2.py:53 | inserting into a sorted row keeps it sorted and adds exactly the one point |
| LatticeRows.SortSorted | Final_Project/ImgProc/GridDetectionFinal2.py:53 | the sort orders the points by its key and keeps every point as often as it occurs |
| LatticeRows.Build | Final_Project/ImgProc/GridDetectionFinal2.py:57-62 | the row being built is never empty |
| LatticeRows.SortRows | Final_Project/ImgProc/GridDetectionFinal2.py:61-63 | one sorted row per row built |
| LatticeRows.BucketsShape | Final_Project/ImgProc/GridDetectionFinal2.py:54-63 | the rows, laid end to end, are the points in the order met; no row is empty; within a row consecutive points are less than 20 pixels apart in `y` |
| LatticeRows.BucketsApart | Final_Project/ImgProc/GridDetectionFinal2.py:53-63 | over `(y, x)`-sorted points every row lies at least 20 pixels below the rows before it |
| LatticeRows.SortRowsEach | Final_Project/ImgProc/GridDetectionFinal2.py:61-63 | sorting each row by `x` keeps each row's points and orders them |
| LatticeRows.ApartAfterSort | Final_Project/ImgProc/GridDetectionFinal2.py:61-63 | rows that are 20 pixels apart stay apart when each is reordered |
| LatticeRows.RowsShape | Final_Project/ImgProc/GridDetectionFinal2.py:50-64 | `sort_into_grid`: the rows hold exactly the points given, none is empty, each runs left to right, each lies at least 20 pixels below every row above it; the same code recurs at Final_Project/ImgProc/GridDetection8.py lines 68-89 (the same row building in the earlier script); Final_Project/ImgProc/GridDetection4.py lines 49-73 (the same row building in the earlier script); Final_Project/ImgProc/GridDetectionFinal2_fptstest.py lines 55-69 (the same row building in the test script); Final_Project/ImgProc/GridDetection22.py lines 61-80 (the same row building); Final_Project/ImgProc/GridDetection21.py lines 60-79 (the same row building); Final_Project/ImgProc/GridDetection17.py lines 81-101 (the same row building in `sort_intersections`) |
| LatticeRows.SortIntoGrid | Final_Project/ImgProc/GridDetectionFinal2.py:50-64 | the loop computes `Rows(intersections)`, `[]` for no points |
| LatticeCells.RowCenters | Final_Project/ImgProc/GridDetectionFinal2.py:74-81 | one centre per cell of the row pair |
| LatticeCells.Labels | Final_Project/ImgProc/GridDetectionFinal2.py:68-81 | the labels are `1, 2, ..., n`; the same code recurs at Final_Project/ImgProc/GridDetection21.py lines 81-98 (the same consecutive labels) |
| LatticeCells.CenterAt | Final_Project/ImgProc/GridDetectionFinal2.py:66-82 | cell `c` of row pair `r` is entry `Offset(r) + c`, its centre the floor midpoint of the top row's point `c` and the bottom row's point `c + 1` |
| LatticeCells.CellCount | Final_Project/ImgProc/GridDetectionFinal2.py:70-74 | `min(len(row), len(next)) - 1` cells per neighbouring pair of rows |
| LatticeCells.RegularOffset | Final_Project/ImgProc/GridDetectionFinal2.py:70-74 | when every row has `n` points, row pair `r` starts at centre `r * (n - 1)` |
| LatticeCells.MidBetween | Final_Project/ImgProc/GridDetectionFinal2.py:77-78 | the centre of a cell whose top-left corner lies above and left of its bottom-right one lies between the two |
| LatticeCells.FindCellCenters | Final_Project/ImgProc/GridDetectionFinal2.py:66-82 | the loops return `CellCenters(grid)` and the labels `1 .. len(centers)`; the same code recurs at Final_Project/ImgProc/GridDetectionFinal2_fptstest.py lines 71-87 (the same consecutive labels in the test script) |
| LatticeCells.CornersExist | Final_Project/ImgProc/GridDetectionFinal2.py:99-110 | corners exist exactly for two rows or more whose first and last rows have two points or more, and are then four; the same code recurs at Final_Project/ImgProc/GridDetectionFinal2_fptstest.py lines 104-115 (the same corner condition in the test script); Final_Project/ImgProc/GridDetection22.py lines 120-146 (the same corner condition of `get_grid_corners`) |
| LatticeCells.Numbered | Final_Project/ImgProc/GridDetectionFinal2.py:341-361 | one numbered polygon per outline |
| LatticeCells.NumberedAt | Final_Project/ImgProc/GridDetectionFinal2.py:358-360 | polygon `k` is outline `k` under label `k + 1` |
| LatticeCells.PolygonsMatchCenters | Final_Project/ImgProc/GridDetectionFinal2.py:341-361 | without the homography polygon `k` and centre `k` are the same cell under the same label: the centre is the floor midpoint of the polygon's top-left and bottom-right corners |
| LatticeCells.GetCellPolygons | Final_Project/ImgProc/GridDetectionFinal2.py:341-361 | the loops return every cell's outline, warped when a homography is used, numbered from 1; the same code recurs at Final_Project/ImgProc/GridDetectionFinal2_fptstest.py lines 159-183 (the test script's polygons, labels 1 onwards, warped only when `use_wrap` is set and there is a homography (the `warp` argument)) |
| LatticeCells.RowPolygons | Final_Project/ImgProc/GridDetectionFinal2.py:348-360 | the inner loop appends row pair `r`'s outlines, numbered on from those before |
| LatticeCells.CellOfFirst | Final_Project/ImgProc/GridDetectionFinal2.py:379-389 | the label found is that of a polygon holding all three corners with no earlier polygon doing so, and nothing is found exactly when no polygon holds them; the same code recurs at Final_Project/ImgProc/GridDetectionFinal2_fptstest.py lines 185-193 (the first polygon in list order holding every triangle corner) |
| LatticeCells.FoundLabelInRange | Final_Project/ImgProc/GridDetectionFinal2.py:341-389 | a label found among numbered polygons lies in `1 .. n` and its polygon holds the whole triangle |
| LatticeCells.FindCellForTriangle | Final_Project/ImgProc/GridDetectionFinal2.py:379-389 | counting corners inside until the first outside and accepting a count of three returns `CellOf`; the same code recurs at Final_Project/ImgProc/GridDetectionFinal2_fptstest.py lines 185-193 (the loop, with `all()` stopping at the first corner outside) |
| LatticeTrack.ComputeAverageGridDistance | Final_Project/ImgProc/GridDetectionFinal2.py:84-97 | the loop returns `AverageGridDistance`, leaving with 999999 at the first row pair of different lengths |
| LatticeTrack.SentinelCases | Final_Project/ImgProc/GridDetectionFinal2.py:84-97 | lattices with different row counts or row lengths, or with no point, are at the sentinel distance 999999; the same code recurs at Final_Project/ImgProc/GridDetectionFinal2_fptstest.py lines 89-102 (the same 999999 sentinel in the test script); Final_Project/ImgProc/GridDetection20.py lines 112-129 (the same 999999 sentinel) |
| LatticeTrack.DistanceSelf | Final_Project/ImgProc/GridDetectionFinal2.py:84-97 | a lattice with a point is at distance 0 from itself |
| LatticeTrack.DistanceNonNeg | Final_Project/ImgProc/GridDetectionFinal2.py:84-97 | with a non-negative norm the distance is never negative |
| LatticeTrack.DistanceSymmetric | Final_Project/ImgProc/GridDetectionFinal2.py:84-97 | with a norm that ignores direction, the distance does not depend on the order of the lattices |
| LatticeTrack.AcceptBasics | Final_Project/ImgProc/GridDetectionFinal2.py:246-252 | an empty new lattice changes neither the lattice nor the homography; a first non-empty one is taken; otherwise the kept lattice is the old one or the new one; the same code recurs at Final_Project/ImgProc/GridDetectionFinal2_fptstest.py lines 306-312 (the test script's main loop takes the first non-empty lattice the same way) |
| LatticeTrack.SameLatticeNotReplaced | Final_Project/ImgProc/GridDetectionFinal2.py:250-252 | with a threshold of zero or more, the same lattice again is not over the threshold and does not replace the kept one; the same code recurs at Final_Project/ImgProc/GridDetectionFinal2_fptstest.py lines 309-312 (and replaces it only beyond the threshold) |
| LatticeTrack.NewShapeReplaces | Final_Project/ImgProc/GridDetectionFinal2.py:250-252 | a lattice of another shape always replaces the kept one while the threshold is below the sentinel |
| LatticeTrack.HomographyNeedsCorners | Final_Project/ImgProc/GridDetectionFinal2.py:254-258 | the homography changes only to the corners of the kept lattice, which needs two rows or more whose first and last rows have two points or more |
| LatticeTrack.NoLinesNoLattice | Final_Project/ImgProc/GridDetectionFinal2.py:239-244 | no segments give no intersections and an empty lattice |
| LatticeTrack.NewLatticeShape | Final_Project/ImgProc/GridDetectionFinal2.py:239-244 | a lattice built from segments has non-empty rows, each sorted by `x` and at least 20 pixels below the one before |
| LatticeBorder.RowPartCount | Final_Project/ImgProc/GridDetection8.py:101-106 | a row's rim and inside points number, together, the points of the row |
| LatticeBorder.PartCount | Final_Project/ImgProc/GridDetection8.py:100-106 | the rim and inside points of the first rows number, together, the points of those rows |
| LatticeBorder.EveryPointOnce | Final_Project/ImgProc/GridDetection8.py:91-117 | every lattice point goes to exactly one list: the outermost list holds the points at rim positions and the inner list the others, and their lengths add up to the number of points |
| LatticeBorder.RowPartFrom | Final_Project/ImgProc/GridDetection8.py:101-106 | a point of a row's part is one of that row's points on the matching side |
| LatticeBorder.PartFrom | Final_Project/ImgProc/GridDetection8.py:100-106 | the outermost list holds exactly the points at rim positions, the inner list exactly the others |
| LatticeBorder.NoInnerInTwoRows | Final_Project/ImgProc/GridDetection8.py:103 | with two rows or fewer every point is on the rim |
| LatticeBorder.EmptyLatticeEmptyLists | Final_Project/ImgProc/GridDetection8.py:93-94 | no lattice gives three empty lists |
| LatticeBorder.CornersOfRows | Final_Project/ImgProc/GridDetection8.py:109-117 | corners come only from two rows or more with two points or more in the first, are the first and last points of the first and last rows, and a lattice `sort_intersections` builds never makes the indexing fail |
| LatticeBorder.SplitRow | Final_Project/ImgProc/GridDetection8.py:101-106 | the inner loop sends each point of the row to its list |
| LatticeBorder.IdentifyOutermostAndCorners | Final_Project/ImgProc/GridDetection8.py:91-117 | the loops compute `BorderOf(grid)`, raising where `grid[-1][0]` fails |
| LatticeNumbering.Overlay | Final_Project/ImgProc/GridDetection4.py:115-118 | the labels are drawn exactly when the lattice has `GRID_ROWS + 1` rows of `GRID_COLS + 1` points; then cell `k` is numbered `k + 1` at the midpoint of its diagonal |
| LatticeNumbering.FullRowLabels | Final_Project/ImgProc/GridDetection4.py:77-94 | in a full row every cell is drawn, in order, numbered after the `i * GRID_COLS` cells above |
| LatticeNumbering.FullLabelsUpTo | Final_Project/ImgProc/GridDetection4.py:77-94 | the first `m` rows of a lattice of the board's shape give `m * GRID_COLS` labels numbered from 1 |
| LatticeNumbering.ExactShapeLabels | Final_Project/ImgProc/GridDetection4.py:75-94 | a lattice of the board's shape never makes `draw_grid` fail, and cell `k` in drawing order is numbered `k + 1` at the midpoint of cell `(k div GRID_COLS, k mod GRID_COLS)`'s diagonal |
| LatticeNumbering.RowLabelsNumbered | Final_Project/ImgProc/GridDetection4.py:79-93 | every label drawn in a row is the number `i * GRID_COLS + j + 1` of a drawable cell of that row |
| LatticeNumbering.LabelsNumbered | Final_Project/ImgProc/GridDetection4.py:77-93 | every label drawn is the number of a drawable cell of the board |
| LatticeNumbering.DrawRow | Final_Project/ImgProc/GridDetection4.py:78-94 | one board row fails exactly when some cell's lower-right index is out of range; otherwise it appends that row's labels |
| LatticeNumbering.DrawGrid | Final_Project/ImgProc/GridDetection4.py:75-94 | the loops compute `Drawn(grid)`: the labels in drawing order, or a raise where a lower corner is missing |
| Markers.Mean4Between | Final_Project/ImgProc/GridDetectionFinal2.py:269-270 | the truncated mean of the four corners lies between the least and the greatest |
| Markers.CentroidInBox | Final_Project/ImgProc/GridDetectionFinal2.py:268-270 | a marker's centre lies in the bounding box of its corners |
| Markers.CentroidOfSquare | Final_Project/ImgProc/GridDetectionFinal2.py:268-270 | a square marker has its centre where it should be, at either sign |
| Markers.RobotIsLast | Final_Project/ImgProc/GridDetectionFinal2.py:262-279 | the robot is found exactly when some detection carries its id, and it is the last such detection |
| Markers.OthersExact | Final_Project/ImgProc/GridDetectionFinal2.py:262-279 | the other markers are no more than the detections and none carries the robot's id; when no detection carries it, they are every detection's marker, in order |
| Markers.OthersIndexed | Final_Project/ImgProc/GridDetectionFinal2.py:262-279 | every detection without the robot's id yields exactly one other marker, in detection order: entry `k` is the marker of detection `OtherIndices[k]`, those positions increase strictly, and they are exactly the positions whose id differs from the robot's |
| Markers.OthersAligned | Final_Project/ImgProc/GridDetectionFinal2.py:262-279 | one other marker per listed position, entry `k` being the marker of the detection at position `k` of the list, whose id is not the robot's |
| Markers.IndicesIncrease | Final_Project/ImgProc/GridDetectionFinal2.py:262-279 | the listed positions lie in the detections and increase strictly, so the other markers keep detection order and repeat none |
| Markers.IndicesComplete | Final_Project/ImgProc/GridDetectionFinal2.py:262-279 | every detection whose id is not the robot's has its position listed |
| ArucoDetector.Corners | Final_Project/ImgProc/GridDetectionFinal2.py:363-377 | the inside test runs over the triangle's three corners |
| ArucoDetector.MarkerCellsAligned | Final_Project/ImgProc/GridDetectionFinal2.py:326-339 | one entry per other marker, in marker order, carrying its id, the cell holding its triangle and its heading |
| ArucoDetector.DetectLattice | Final_Project/ImgProc/GridDetectionFinal2.py:239-244 | the lattice of a frame's segments, with the clustering radius clamped to at least 1, is the specified new lattice and is row-shaped |
| ArucoDetector.ArucoGridDetector.constructor | Final_Project/ImgProc/GridDetectionFinal2.py:138-170 | detection on, radius 50, threshold 15, overlays and warp off, triangle side 100, no lattice, homography or markers yet |
| ArucoDetector.ArucoGridDetector.SetDetectGridState | Final_Project/ImgProc/GridDetectionFinal2.py:173-174 | sets the toggle and nothing else |
| ArucoDetector.ArucoGridDetector.SetClusterDist | Final_Project/ImgProc/GridDetectionFinal2.py:176-177 | sets the radius and nothing else |
| ArucoDetector.ArucoGridDetector.SetUpdateThresh | Final_Project/ImgProc/GridDetectionFinal2.py:179-180 | sets the threshold and nothing else |
| ArucoDetector.ArucoGridDetector.SetShowIntersections | Final_Project/ImgProc/GridDetectionFinal2.py:182-183 | sets the toggle and nothing else |
| ArucoDetector.ArucoGridDetector.SetShowLines | Final_Project/ImgProc/GridDetectionFinal2.py:185-186 | sets the toggle and nothing else |
| ArucoDetector.ArucoGridDetector.SetUseWrap | Final_Project/ImgProc/GridDetectionFinal2.py:188-189 | sets the toggle and nothing else |
| ArucoDetector.ArucoGridDetector.SetTriangleSide | Final_Project/ImgProc/GridDetectionFinal2.py:191-192 | sets the side and nothing else |
| ArucoDetector.ArucoGridDetector.UpdateGrid | Final_Project/ImgProc/GridDetectionFinal2.py:232-258 | the kept lattice becomes the specified accept-or-replace of the old one and the frame's lattice, and the homography follows the kept lattice's corners |
| ArucoDetector.ArucoGridDetector.KeepOrReplace | Final_Project/ImgProc/GridDetectionFinal2.py:246-258 | the keep-or-replace step and the homography refresh, from a lattice already built |
| ArucoDetector.ArucoGridDetector.DetectAruco | Final_Project/ImgProc/GridDetectionFinal2.py:260-279 | the robot is the last detection with its id, and every other detection is kept in order |
| ArucoDetector.ArucoGridDetector.AssignMarkersToCells | Final_Project/ImgProc/GridDetectionFinal2.py:304-339 | the robot's label is the cell holding its triangle when it was seen, and there is one entry per other marker, all from the stored lattice's numbered polygons, warped when the homography is in use |
| ArucoDetector.ArucoGridDetector.UpdateFrame | Final_Project/ImgProc/GridDetectionFinal2.py:195-230 | returns whether a frame was read; with none, nothing changes; otherwise the lattice is refreshed when detection is on and the markers are located |
| ArucoDetector.ArucoGridDetector.LocateMarkers | Final_Project/ImgProc/GridDetectionFinal2.py:214-228 | detects, resets both labels, assigns cells when there is a lattice, and leaves the lattice and homography alone |
| ArucoNearest.NearestUpToSpec | Final_Project/ImgProc/GridDetectionFinal.py:373-382 | the `best_dist` scan finds nothing exactly when no centre is nearer than 999999; otherwise it returns the label of a centre that is nearer than that, no further than any other, and strictly nearer than every earlier one |
| ArucoNearest.NoCentersNoLabel | Final_Project/ImgProc/GridDetectionFinal.py:373-382 | no centres give no label |
| ArucoNearest.FindNearest | Final_Project/ImgProc/GridDetectionFinal.py:373-382 | the loop computes the specified nearest label |
| ArucoNearest.Placed | Final_Project/ImgProc/GridDetectionFinal.py:363-370 | one placed centre per cell centre |
| ArucoNearest.NearestCells | Final_Project/ImgProc/GridDetectionFinal.py:384-394 | one entry per other marker |
| ArucoNearest.NearestCellsAligned | Final_Project/ImgProc/GridDetectionFinal.py:384-394 | entry `k` carries marker `k`'s id, its nearest label and its heading |
| ArucoNearest.ArucoGridDetector.constructor | Final_Project/ImgProc/GridDetectionFinal.py:137-170 | radius 90, threshold 15, no warp, no lattice, homography or markers yet |
| ArucoNearest.ArucoGridDetector.UpdateGrid | Final_Project/ImgProc/GridDetectionFinal.py:235-262 | the same accept-or-replace refresh of lattice and homography as the later detector |
| ArucoNearest.ArucoGridDetector.AssignMarkerCells | Final_Project/ImgProc/GridDetectionFinal.py:358-395 | both labels are cleared without a lattice; with one, the robot and every other marker get the label of the nearest cell centre, the centres warped when the homography is in use |
| ArucoNearest.WarpCenters | Final_Project/ImgProc/GridDetectionFinal.py:363-370 | the loop warps every centre, in order |
| ArucoNearest.MarkersNearest | Final_Project/ImgProc/GridDetectionFinal.py:384-394 | the loop gives each other marker its nearest label |
| ImageProc.CellHoldsPoint | Final_Project/test/image_proc.py:210-216 | for a positive width, a cell found lies on the board and its square holds the point |
| ImageProc.FloorBounds | Final_Project/test/image_proc.py:212-213 | floor division by a positive width brackets the point between the cell's edges |
| ImageProc.PointOnBoardFound | Final_Project/test/image_proc.py:210-216 | every point of the board's picture lies in some cell |
| ImageProc.ImageProcessor.constructor | Final_Project/test/image_proc.py:121-137 | the board's size and cell width, with no lattice and no homography yet |
| ImageProc.ImageProcessor.DetectGrid | Final_Project/test/image_proc.py:151-182 | the kept lattice becomes the specified accept-or-replace of the old one and the frame's lattice, radius clamped to at least 1, and the homography follows the kept lattice's corners |
| ImageProc.ImageProcessor.DetectAruco | Final_Project/test/image_proc.py:184-200 | one tuple per detection, in order: id, rounded-down centroid, heading of the first edge, corner list |
| ImageProc.ImageProcessor.FindRobotCell | Final_Project/test/image_proc.py:202-216 | nothing without a homography; it fails exactly when the width truncates to zero; a cell found lies on the board and, for a positive width, holds the warped centre |
| LatticeMemory.NoProgress | Final_Project/ImgProc/GridDetection14.py:82-90 | with a radius of zero or less a round takes no point and leaves all of them, so `while len(intersections) > 0` never ends |
| LatticeMemory.ClusterIntersections | Final_Project/ImgProc/GridDetection16.py:65-83 | the unclamped clustering never returns exactly when there are points and the radius is below 1; otherwise it returns the clusters, `[]` for no points |
| LatticeMemory.DetectFrame | Final_Project/ImgProc/GridDetection16.py:146-148 | a frame's lattice of the ungated scripts loops for ever exactly when there are intersections and the radius is below 1, and otherwise is the clamped pipeline's lattice |
| LatticeMemory.FindCellCentersByUpperRow | Final_Project/ImgProc/GridDetection16.py:108-125 | the column count comes from the upper row: the loop fails exactly when some lower row is shorter, and otherwise returns the cell centres numbered from 1 |
| LatticeMemory.UpperRowCenters | Final_Project/ImgProc/GridDetection16.py:115-123 | one row pair fails exactly when its upper row has two or more points and more than the lower one; otherwise it appends that pair's centres |
| LatticeMemory.GridDistanceAgrees | Final_Project/ImgProc/GridDetection18.py:122-140 | the loop's distance equals the average distance for equal shapes with points, is 0 for equal shapes without points, and is the sentinel 999999 for different shapes |
| LatticeMemory.ComputeGridDistance | Final_Project/ImgProc/GridDetection18.py:122-140 | the nested `zip` loops, leaving at the first row pair of different lengths, compute `GridDistance` |
| LatticeMemory.GridSumNoPoints | Final_Project/ImgProc/GridDetection18.py:130-140 | rows without points add nothing to the total distance |
| LatticeMemory.TakeAnyShowsNew | Final_Project/ImgProc/GridDetection16.py:150-157 | a non-empty lattice is always remembered with the count reset, and it is the one shown; the same code recurs at Final_Project/ImgProc/GridDetection17.py lines 147-155 (there too a non-empty lattice is always remembered) |
| LatticeMemory.EmptiesCount | Final_Project/ImgProc/GridDetection16.py:150-157 | after `k` empty frames the count has grown by `k` and the lattice is unchanged; it is shown exactly while the count is below 30 |
| LatticeMemory.EmptyFrameSame | Final_Project/ImgProc/GridDetection18.py:186-188 | both decisions count an empty frame the same way |
| LatticeMemory.ShapeKept | Final_Project/ImgProc/GridDetection18.py:172-185 | once a lattice is held, a lattice of another shape lies at 999999, beyond every trackbar threshold, so the held lattice keeps its shape |
| LatticeMemory.ShapeKeptForever | Final_Project/ImgProc/GridDetection18.py:145-192 | over any number of frames the lattice held keeps the shape of the first one taken |
| LatticeMemory.SameShapeTrans | Final_Project/ImgProc/GridDetection18.py:127-134 | equal row and column counts are transitive |
| LatticeMemory.FindGridIntersections | Final_Project/ImgProc/GridDetection14.py:37-72 | the loops of `find_grid_intersections` against the last lattice compute `Gate`: its rows without segments, and otherwise fresh point `i` or last row `i` |
| LatticeMemory.GateSpec | Final_Project/ImgProc/GridDetection14.py:40-70 | without segments the last lattice's rows are returned; entry `i` is last row `i` exactly when `i` is below the row count and that row is within the threshold of fresh point `i`, and fresh point `i` otherwise; the norm fails exactly when an empty row is compared |
| LatticeMemory.SpreadRowMoves | Final_Project/ImgProc/GridDetection14.py:63-65 | a row whose first two points lie more than √2 thresholds apart is never within the threshold of a fresh point, so it is never kept |
| LatticeMemory.TwoDistances | Final_Project/ImgProc/GridDetection14.py:64 | twice the sum of the squared distances p-q and r-q is at least the squared distance p-r, the bound behind the previous row |
| LatticeMemory.GateAllFresh | Final_Project/ImgProc/GridDetection14.py:58-72 | with segments, a last lattice of spread rows lets every fresh intersection through unchanged |
| LatticeMemory.FreshPointsOf | Final_Project/ImgProc/GridDetection14.py:56 | a list of fresh points reads back as those points |
| LatticeMemory.RowsOfKept | Final_Project/ImgProc/GridDetection14.py:40-41 | a list of kept rows reads back as those rows |
| LatticeMemory.PairPickFirst | Final_Project/ImgProc/GridDetection14.py:83-87 | for rows of two points, the first row is always within a positive radius of itself, so the first mean is over at least two points |
| LatticeMemory.GatedFrameAsUngated | Final_Project/ImgProc/GridDetection14.py:156-158 | when the gate lets every fresh point through, the frame loops for ever exactly as the ungated scripts do and otherwise builds their lattice |
| LatticeMemory.NoSegmentsRaises | Final_Project/ImgProc/GridDetection14.py:40-41 | without segments, a last lattice of non-empty rows not all of two points fails in the clustering |
| LatticeMemory.MixedRaises | Final_Project/ImgProc/GridDetection14.py:79 | a gate list mixing kept rows and fresh points fails at `np.array` |
| LatticeMemory.DetectFrame14 | Final_Project/ImgProc/GridDetection14.py:156-158 | the gate, the clustering and the row sort computed in order give `GatedFrame` |
| LatticeMemory.FindSteadyCenters | Final_Project/ImgProc/GridDetection14.py:117-136 | fails exactly when some lower row is shorter, and otherwise returns the centres with the last centre of cell `(i, j)` looked up at `i * len(grid) + j` |
| LatticeMemory.SteadyRow | Final_Project/ImgProc/GridDetection14.py:122-134 | one row pair fails exactly as the upper-row loop does, and otherwise appends the centres steadied at the script's index |
| LatticeMemory.WrittenAt | Final_Project/ImgProc/GridDetection14.py:129-134 | cell `c` of row pair `r`, at flat position `Offset(r) + c`, is its fresh centre, or the last centre at `r * len(grid) + c` when that is within the threshold |
| LatticeMemory.WrittenAgrees | Final_Project/ImgProc/GridDetection14.py:129-130 | when every row pair before the last holds `len(grid)` cells, the script's index is the flat one and the centres are the steadied ones |
| LatticeMemory.RegularAgrees | Final_Project/ImgProc/GridDetection14.py:129-130 | a lattice of equal rows agrees when each row holds one point more than there are rows, or there are at most two rows |
| LatticeMemory.WrittenRowAgrees | Final_Project/ImgProc/GridDetection14.py:129-130 | appending a row pair whose centres start at `r * len(grid)` steadies it as the script does |
| LatticeMemory.OffsetFull | Final_Project/ImgProc/GridDetection14.py:121-122 | row pairs of `len(grid)` cells each put row pair `r` at flat position `r * len(grid)` |
| LatticeMemory.WrittenIndexMisplaces | Final_Project/ImgProc/GridDetection14.py:129-132 | for a 3 x 3-point lattice seen twice with threshold 5, the third cell is drawn at the fourth cell's centre though nothing moved, where the intended look-up keeps every centre |
| LatticeMemory.SteadiedAt | Final_Project/ImgProc/GridDetection14.py:128-132 | as intended, centre `k` is fresh centre `k`, or last centre `k` when that is within the threshold |
| LatticeMemory.SteadiedFixed | Final_Project/ImgProc/GridDetection14.py:128-132 | as intended, a lattice that has not moved keeps its centres, and without memory the fresh ones are shown |
| LatticeMemory.FrameMemory.constructor | Final_Project/ImgProc/GridDetection14.py:18-21 | no lattice, no missing frame and no centres at the start |
| LatticeMemory.FrameMemory.TakeAnyFrame | Final_Project/ImgProc/GridDetection14.py:160-167 | the state moves as `TakeAny` says and the frame shows the remembered lattice while the count is below 30; the same code recurs at Final_Project/ImgProc/GridDetection17.py lines 147-155 (the same take-every-lattice decision with the 30-frame fallback) |
| LatticeMemory.FrameMemory.TakeCloseFrame | Final_Project/ImgProc/GridDetection18.py:172-192 | the state moves as `TakeClose` says; a lattice too far from the last is replaced by the last for this frame |
| LatticeMemory.FrameMemory.RefreshCenters | Final_Project/ImgProc/GridDetection14.py:172-173 | the centres of the shown lattice as the script steadies them become the last ones, and a failure leaves them as they were |
| LatticeMemory.FrameMemory.Frame14 | Final_Project/ImgProc/GridDetection14.py:150-181 | one frame's `try` block: it loops for ever exactly when the gated lattice does; a failure of the gate or clustering leaves the state as it was; otherwise the state is updated as `TakeAny` says and the centres are the written ones |
| SlotMatching.EmptyTable | Final_Project/ImgProc/GridDetection3.py:72 | the empty table has `GRID_ROWS + 1` rows of `GRID_COLS + 1` slots |
| SlotMatching.Mark | Final_Project/ImgProc/GridDetection3.py:88-89 | marking a slot keeps the table's shape |
| SlotMatching.Snapped | Final_Project/ImgProc/GridDetection3.py:72-89 | marking the detections in order keeps the table's shape |
| SlotMatching.ScanSlotFirst | Final_Project/ImgProc/GridDetection3.py:81-86 | comparing one more slot with a strict `<` keeps the first nearest slot seen so far |
| SlotMatching.ScanRowFirst | Final_Project/ImgProc/GridDetection3.py:80-86 | after the slots of a row the scan holds the first nearest slot |
| SlotMatching.ScanUpToFirst | Final_Project/ImgProc/GridDetection3.py:79-86 | after the first `m` rows the scan holds the first nearest slot of those rows |
| SlotMatching.NearestSlotFirst | Final_Project/ImgProc/GridDetection3.py:75-89 | a detection marks a slot of the table no farther than any other, and nearer than every slot before it in row-major order |
| SlotMatching.NearestSlotInRange | Final_Project/ImgProc/GridDetection3.py:88 | the slot a detection marks is always in the table, so the `-1` guard never fails |
| SlotMatching.SnappedSlots | Final_Project/ImgProc/GridDetection3.py:72-91 | a slot is filled exactly when some detection's nearest slot is that slot, and then holds its own expected position |
| SlotMatching.MarkedSnoc | Final_Project/ImgProc/GridDetection3.py:74-89 | a slot is marked after one more detection exactly when it was marked before or is that detection's nearest slot |
| SlotMatching.ExpectedGrid | Final_Project/ImgProc/GridDetection3.py:55-69 | the nested loops build `GRID_ROWS + 1` rows of `GRID_COLS + 1` expected positions, `(x_spacing * (j + 1), y_spacing * (i + 1))` |
| SlotMatching.FindClosest | Final_Project/ImgProc/GridDetection3.py:75-86 | the scan of one detection over the expected positions is `ScanUpTo` over every row |
| SlotMatching.MatchIntersectionsToGrid | Final_Project/ImgProc/GridDetection3.py:50-91 | the table returned is the one `Snapped` describes |
| ToggledLoop.GridLoop.constructor | Final_Project/ImgProc/GridDetection20.py:160 | no lattice at the start |
| ToggledLoop.GridLoop.Frame | Final_Project/ImgProc/GridDetection20.py:172-213 | with the toggle off the lattice stays; with it on the frame's lattice replaces it when there is none or it lies further than the threshold; the same code recurs at Final_Project/ImgProc/GridDetection21.py lines 222-262 (the same loop in the later script) |
| ToggledLoop.CornerLoop.constructor | Final_Project/ImgProc/GridDetection22.py:203-204 | no lattice and no homography at the start |
| ToggledLoop.CornerLoop.Frame | Final_Project/ImgProc/GridDetection22.py:213-252 | with the toggle off neither lattice nor homography changes; with it on the lattice is decided as in `update_grid` and the homography is recomputed from the kept lattice's corners |
| Grid.Board | Final_Project/noros/search_class.py:97 | a cell is in the set of cells `g_score` is built over exactly when it lies on the board |
| Grid.BoardCard | Final_Project/noros/search_class.py:97 | the board has `rows * cols` cells, and none when either dimension is not positive |
| Grid.Manhattan | Final_Project/noros/search_class.py:132-143 | the heuristic is zero exactly on equal cells |
| Grid.ManhattanMetric | Final_Project/noros/search_class.py:132-143 | the heuristic is symmetric and obeys the triangle inequality |
| Grid.ManhattanAdmissible | Final_Project/noros/search_class.py:132-143 | the heuristic never exceeds the number of moves of a 4-connected walk between the two cells |
| PriorityQueue.PopIndex | Final_Project/noros/search_class.py:106 | `open_set.get()` takes an entry with a least key, the first such in queue order |
| PriorityQueue.RemoveAt | Final_Project/noros/search_class.py:106 | the queue after a pop holds every other entry once and in order |
| PriorityQueue.Removed | Final_Project/noros/search_class.py:106 | a pop keeps every entry other than the popped one and adds none |
| PriorityQueue.KeyLeTotal | Final_Project/noros/test/search_class.py:195-220 | Python's tuple order on keys is total, so some entry is always least |
| PriorityQueue.KeyLeTrans | Final_Project/noros/test/search_class.py:195-220 | the tuple order is transitive |
| PriorityQueue.KeyLeAntisym | Final_Project/noros/test/search_class.py:195-220 | two keys each no greater than the other are equal |
| Chain.ReconstructToRoot | Final_Project/noros/search_class.py:175-191 | the walk back through `came_from` returns a path linked by the map that ends at `current` and starts at a cell with no predecessor; it runs forever exactly when the walk is endless |
| Chain.LongWalkIsEndless | Final_Project/noros/search_class.py:187-189 | a walk that stays in the map for more steps than the map has keys never ends |
| Chain.RankedNotEndless | Final_Project/noros/search_class.py:118-189 | when every predecessor has a lower score than its cell the walk back ends |
| Chain.LinkedRankedDistinct | Final_Project/noros/search_class.py:118-191 | a reconstructed path from a ranked map repeats no cell |
| CellSearch.OffsetsAreNeighbours | Final_Project/test/pathfinding.py:25-27 | the four offsets reach exactly the four neighbours of a cell |
| CellSearch.Search | Final_Project/noros/search_class.py:92-130 | when the goal is popped the predecessor map is a forest of allowed moves rooted at the start, ranked by the g-scores; when the queue runs dry no path of free cells reaches the goal; start equal to goal ends on the first pop; more than `BoardSize^2` pops always finish the search; the same code recurs at Final_Project/test/pathfinding.py lines 12-35 (the same loop without `open_set_hash`); Final_Project/noros_pathfinding.py lines 92-117 (the same loop as `a_star`) |
| CellSearch.Expand | Final_Project/noros/search_class.py:112-126 | after the popped cell's neighbours have been tried every free neighbour has a g-score at most one above it, and the queue grows by no more than the new (cell, score) pairs written |
| CellSearch.TryOffset | Final_Project/test/pathfinding.py:25-34 | one offset relaxes its neighbour when that is on the board and not an obstacle, and otherwise changes nothing |
| CellSearch.Relax | Final_Project/noros/search_class.py:113-126 | a neighbour keeps or lowers its g-score to at most the popped cell's plus one, keeps the predecessor forest valid and the queued cells scored |
| CellSearch.Improve | Final_Project/noros/search_class.py:118-126 | a lower tentative score records the popped cell as predecessor and queues the neighbour unless `open_set_hash` holds it |
| CellSearch.RecordParent | Final_Project/noros/search_class.py:119-121 | recording a predecessor at a lower score keeps the map a forest of allowed moves |
| CellSearch.RecordDepth | Final_Project/noros/search_class.py:116-121 | a score of the popped cell's plus one keeps the scores within the distance bounds and never changes the start |
| CellSearch.ImproveMaps | Final_Project/noros/search_class.py:119-121 | the three updates of an improvement keep the forest, the depth bounds and the budget, writing one new (cell, score) pair |
| CellSearch.PushKeeps | Final_Project/noros/search_class.py:124-126 | a queued cell is scored and is in `open_set_hash` once pushed |
| CellSearch.FrontierGrows | Final_Project/noros/search_class.py:118-126 | a lowered neighbour is pending in the queue, so no scored cell is left with an unpropagated score |
| CellSearch.PopKeeps | Final_Project/noros/search_class.py:106-107 | the popped cell is scored and every other queued cell stays scored and queued |
| CellSearch.FinishExpand | Final_Project/noros/search_class.py:112-126 | after all four offsets the popped cell is closed |
| CellSearch.NeighboursStayNear | Final_Project/noros/search_class.py:100-126 | after the start is expanded its free neighbours have a g-score of at most 1 |
| CellSearch.ParentsRanked | Final_Project/noros/search_class.py:118-121 | a cell's predecessor always has a lower g-score |
| CellSearch.WalkIsPath | Final_Project/noros/search_class.py:175-191 | walking the predecessor map back from a scored cell ends at the start along allowed moves |
| CellSearch.StepIsPath | Final_Project/noros/search_class.py:112-114 | a free neighbour of the start is one allowed move away |
| CellSearch.PathCellsFree | Final_Project/noros/search_class.py:112-114 | every cell of an allowed path is on the board and not an obstacle |
| CellSearch.UnreachableGoal | Final_Project/noros/search_class.py:84-90 | no allowed path from the start ends on a blocked or off-board goal other than the start |
| CellSearch.ClosedSetTraps | Final_Project/noros/search_class.py:128-130 | a set of cells closed under allowed moves traps every path that starts in it |
| CellSearch.QueueDrained | Final_Project/noros/search_class.py:128-130 | an empty queue means no allowed path from the start reaches the goal |
| CellSearch.FreshPair | Final_Project/noros/search_class.py:116-121 | every g-score written is a whole number between 1 and the board size and makes a (cell, score) pair not seen before |
| CellSearch.BudgetStep | Final_Project/noros/search_class.py:116-121 | writing a lower whole score keeps the pairs written unique and within the board |
| CellSearch.PairsCard | Final_Project/noros/search_class.py:116-121 | the pairs of a cell and a score in 1..n number at most n for each cell |
| CellSearch.UsedBounded | Final_Project/noros/search_class.py:105-126 | the pushes of one search number at most `BoardSize^2` |
| CellSearch.ScoredCard | Final_Project/noros/search_class.py:97-100 | only board cells besides the start get scores |
| PlainSearch.SearchClass.constructor | Final_Project/noros/search_class.py:20-26 | a 0 x 0 board with no obstacles |
| PlainSearch.SearchClass.SetGridDimensions | Final_Project/noros/search_class.py:28-37 | the dimensions are set and the obstacles kept |
| PlainSearch.SearchClass.AddObstacle | Final_Project/noros/search_class.py:39-50 | an in-bounds cell is added to the obstacles, an out-of-bounds one is ignored |
| PlainSearch.SearchClass.RemoveObstacle | Final_Project/noros/search_class.py:52-60 | the cell is no longer an obstacle, and removing a cell that is none changes nothing |
| PlainSearch.SearchClass.ClearObstacles | Final_Project/noros/search_class.py:62-66 | no obstacles remain, dimensions unchanged |
| PlainSearch.SearchClass.Neighbors | Final_Project/noros/search_class.py:145-160 | the neighbours yielded are exactly the on-board 4-neighbours, at most four |
| PlainSearch.SearchClass.NeighborsAreSteps | Final_Project/noros/search_class.py:112-160 | the neighbours not skipped as obstacles are exactly the allowed moves |
| PlainSearch.SearchClass.FindPath | Final_Project/noros/search_class.py:68-130 | an off-board or blocked start or goal gives `[]`; a found path runs from start to goal over free 4-neighbours, `[start]` when they coincide; `[]` after the search means no path exists; more than `BoardSize^2` pops always finish |
| Pathfinding.ObstacleSet | Final_Project/test/pathfinding.py:9-10 | `None` stands for no obstacles |
| Pathfinding.ReconstructPath | Final_Project/test/pathfinding.py:37-43 | the result is the predecessor walk without its root, empty exactly when the cell has no predecessor; it runs forever exactly when the walk is endless |
| Pathfinding.AStar | Final_Project/test/pathfinding.py:7-35 | a path lists free 4-neighbouring cells after the start ending at the goal, empty exactly when start equals goal; `None` means no path exists; more than `BoardSize^2` pops always finish |
| Pathfinding.AfterStart | Final_Project/test/pathfinding.py:37-43 | dropping the start from an allowed path leaves cells that begin next to the start and end at the goal |
| PathfindingApp.Unmarked | Final_Project/noros_pathfinding.py:124-125 | only cells that are neither start nor goal are kept, in order |
| PathfindingApp.UnmarkedInterior | Final_Project/noros_pathfinding.py:119-126 | on a repeat-free walk from start to goal the path loses exactly its two ends |
| PathfindingApp.ReconstructPath | Final_Project/noros_pathfinding.py:119-126 | the result is the predecessor walk without the cell it began from and without the start and the goal; it runs forever exactly when the walk is endless |
| PathfindingApp.InteriorOfWalk | Final_Project/noros_pathfinding.py:103-126 | the reconstruction of a reached goal is the interior of an allowed path from start to goal, empty when the goal is next to the start |
| PathfindingApp.InteriorOfDistinctWalk | Final_Project/noros_pathfinding.py:119-126 | the unmarked cells of a repeat-free path from start to goal are its interior |
| PathfindingApp.App.constructor | Final_Project/noros_pathfinding.py:11-31 | a 3 x 4 board of 100-pixel cells with no start, goal or obstacles and the status "Select start and goal" |
| PathfindingApp.App.FindPath | Final_Project/noros_pathfinding.py:90-117 | a returned path is the interior of an allowed path from start to goal, empty when they coincide or are one move apart; `None` means the goal is unreachable; more than `BoardSize^2` pops always finish |
| PathfindingApp.App.AutoUpdatePath | Final_Project/noros_pathfinding.py:79-88 | with start and goal set the path is stored and the status is "Following path..." or "No path found"; otherwise nothing changes |
| PathfindingApp.App.OnClick | Final_Project/noros_pathfinding.py:60-77 | a click on the start or goal clears it, otherwise it fills the first empty slot, and setting the goal runs the search |
| HeadingSearch.ShiftAdjacent | Final_Project/noros/test/search_class.py:257-265 | the step of every heading in `direction_map` reaches a 4-neighbour |
| HeadingSearch.NormalizeDir | Final_Project/noros/test/search_class.py:301-310 | the result is one of 0, 90, 180, 270 nearest to `d % 360`, the first such on ties as `min` picks it |
| HeadingSearch.NormalizeDirExamples | Final_Project/noros/test/search_class.py:301-310 | exact headings are kept, 315 gives 270, -90 gives 270, 44 gives 0 and 46 gives 90 |
| HeadingSearch.RotationCostCardinal | Final_Project/noros/test/search_class.py:284-299 | between two of the four headings a turn costs nothing, one rotation time, or two for a half turn, the same either way round |
| HeadingSearch.RotationCostNonNegative | Final_Project/noros/test/search_class.py:284-299 | a turn never costs less than nothing when the rotation speed is not negative |
| HeadingSearch.SearchClass.constructor | Final_Project/noros/test/search_class.py:29-46 | a 0 x 0 board, unit speeds and weights, no obstacles and no rewards |
| HeadingSearch.SearchClass.SetGridDimensions | Final_Project/noros/test/search_class.py:52-61 | only the dimensions change |
| HeadingSearch.SearchClass.AddObstacle | Final_Project/noros/test/search_class.py:63-74 | an in-bounds cell is added to the obstacles, an out-of-bounds one ignored; nothing else changes |
| HeadingSearch.SearchClass.RemoveObstacle | Final_Project/noros/test/search_class.py:76-84 | the cell is no longer an obstacle; nothing else changes |
| HeadingSearch.SearchClass.ClearObstacles | Final_Project/noros/test/search_class.py:86-90 | no obstacles remain; nothing else changes |
| HeadingSearch.SearchClass.SetSpeeds | Final_Project/noros/test/search_class.py:96-105 | only the two speeds change |
| HeadingSearch.SearchClass.SetWeights | Final_Project/noros/test/search_class.py:107-116 | only the two weights change |
| HeadingSearch.SearchClass.SetCellReward | Final_Project/noros/test/search_class.py:118-130 | an in-bounds cell gets the reward, an out-of-bounds one is ignored; nothing else changes |
| HeadingSearch.SearchClass.ClearRewards | Final_Project/noros/test/search_class.py:132-136 | no rewards remain; nothing else changes |
| HeadingSearch.SearchClass.Moves | Final_Project/noros/test/search_class.py:264-267 | at most four states are generated, one per heading whose step stays on the board |
| HeadingSearch.SearchClass.MoveAt | Final_Project/noros/test/search_class.py:264-280 | every generated state is a move: the robot turns to the heading and drives one cell on the board |
| HeadingSearch.SearchClass.MovesExact | Final_Project/noros/test/search_class.py:243-282 | the generated states are exactly the moves out of a state |
| HeadingSearch.SearchClass.NeighborsAndCosts | Final_Project/noros/test/search_class.py:243-282 | each generated state comes with its weighted turning-and-driving time minus the weighted reward of the cell entered |
| HeadingSearch.SearchClass.StepCostPositive | Final_Project/noros/test/search_class.py:269-278 | with positive speeds and time weight and no positive weighted rewards every move costs more than nothing |
| HeadingSearch.SearchClass.Relax | Final_Project/noros/test/search_class.py:204-221 | one move keeps the search invariant: scored queued states, a valid predecessor map rooted at the start state, no pending state left unqueued |
| HeadingSearch.SearchClass.RecordParent | Final_Project/noros/test/search_class.py:213-215 | recording a predecessor at a lower score keeps the map valid and rooted, and ranked when costs are positive |
| HeadingSearch.SearchClass.PushKeeps | Final_Project/noros/test/search_class.py:219-221 | a queued state is scored and in `open_set_hash` once pushed |
| HeadingSearch.SearchClass.FrontierGrows | Final_Project/noros/test/search_class.py:213-221 | a newly scored state is pending in the queue |
| HeadingSearch.SearchClass.Expand | Final_Project/noros/test/search_class.py:204-221 | after all moves out of the popped state are tried it is closed and the invariant holds |
| HeadingSearch.SearchClass.FinishExpand | Final_Project/noros/test/search_class.py:204-221 | every allowed move out of the popped state is scored once the inner loop ends |
| HeadingSearch.SearchClass.PopKeeps | Final_Project/noros/test/search_class.py:195-196 | the popped state is scored and the rest of the queue stays scored and queued |
| HeadingSearch.SearchClass.Exhausted | Final_Project/noros/test/search_class.py:223-224 | an empty queue means no path of moves from the start state reaches the goal cell |
| HeadingSearch.SearchClass.ClosedSetTraps | Final_Project/noros/test/search_class.py:223-224 | a set of states closed under moves traps every path that starts in it |
| HeadingSearch.SearchClass.UnreachableGoal | Final_Project/noros/test/search_class.py:163-169 | no path of moves ends on a goal cell that is off the board or blocked, other than the start cell |
| HeadingSearch.SearchClass.WalkIsPath | Final_Project/noros/test/search_class.py:325-341 | the predecessor walk from a scored state is a path of moves from the start state |
| HeadingSearch.SearchClass.Reconstruct | Final_Project/noros/test/search_class.py:325-341 | the reconstruction is a path of moves from the start state to a state on the goal cell, and the walk can only be endless when some move costs nothing or less |
| HeadingSearch.SearchClass.FindPath | Final_Project/noros/test/search_class.py:142-224 | the early exits return `[]`; a found path leads by moves from the normalised start state to the goal cell; `[]` after the search means no such path; a zero linear speed raises; the reconstruction can loop only when some move cost is not positive |
| SnakeGrid.DirectionOf | SnakeSearch/SnakeSearch.py:68 | names the offset that leads from one cell to another, and none exactly when they are not 4-neighbours |
| SnakeGrid.OpenTowardMembers | SnakeSearch/SnakeSearch.py:65-74 | the cells listed for the first offsets are exactly the open cells those offsets reach |
| SnakeGrid.OpenTowardOrdered | SnakeSearch/SnakeSearch.py:68-73 | the cells come in the order right, down, left, up |
| SnakeGrid.Neighbors | SnakeSearch/SnakeSearch.py:65-74 | the open on-board 4-neighbours of a cell, and only those, listed right, down, left, up |
| SnakeGrid.Heuristic | SnakeSearch/SnakeSearch.py:253-254 | the Manhattan distance is zero exactly at the target and never more than the moves of any walk there |
| SnakeGrid.Trapped | SnakeSearch/SnakeSearch.py:150-159 | a set closed under moves that holds a route's first cell holds its last |
| SnakeGrid.TrappedUnreachable | SnakeSearch/SnakeSearch.py:150-161 | no route leaves a move-closed set holding the start but not the target |
| SnakeGrid.ReconstructPath | SnakeSearch/SnakeSearch.py:257-266 | from the target the parent chain is followed to the start and reversed; a break elsewhere gives `[]`; the loop runs forever exactly when the chain is endless; start equal to target gives `[start]` |
| SnakeGrid.ReachedStart | SnakeSearch/SnakeSearch.py:260-266 | once the start is reached the reversed path is the chain read back |
| SnakeGrid.ForestEnds | SnakeSearch/SnakeSearch.py:257-266 | the parent map a search builds never sends the read-back round a cycle |
| SnakeGrid.ForestWalk | SnakeSearch/SnakeSearch.py:257-266 | reading back from a known target gives a route over open cells from start to target |
| SnakeGrid.WalkDepths | SnakeSearch/SnakeSearch.py:257-266 | the chain climbs one layer per move from the start |
| SnakeGrid.FollowParents | SnakeSearch/SnakeSearch.py:160 | a search's path is a route along its parent links when the target is known, `[]` otherwise |
| SnakeGrid.ReadRoute | SnakeSearch/SnakeSearch.py:160 | with layered links the route has one cell per layer |
| SnakeGrid.Lineage | SnakeSearch/SnakeSearch.py:257-266 | the chain of parents above a known cell is a route as long as the cell is deep |
| SnakeCost.PushOrder | SnakeSearch/SnakeSearch.py:191 | an entry popped before another has no larger key |
| SnakeCost.EstimateAlong | SnakeSearch/SnakeSearch.py:248-254 | the Manhattan estimate drops by at most one per move |
| SnakeCost.Frontier | SnakeSearch/SnakeSearch.py:190-203 | every route from the start to an unpopped cell passes a first unpopped cell costed no higher than its position |
| SnakeCost.FirstPop | SnakeSearch/SnakeSearch.py:191-194 | the first pop of a cell carries its current cost, which is its distance from the start |
| SnakeCost.WithinReach | SnakeSearch/SnakeSearch.py:235-248 | before the target is popped the least key is at most the length of any route to the target |
| SnakeCost.Stale | SnakeSearch/SnakeSearch.py:192-193 | an entry for a cell popped before is dropped and nothing else changes |
| SnakeCost.Fresh | SnakeSearch/SnakeSearch.py:191-194 | a newly popped cell joins `visited` with its distance settled |
| SnakeCost.FreshCosts | SnakeSearch/SnakeSearch.py:194 | settling a cell keeps the parent forest and shrinks what is left to pop |
| SnakeCost.Unpopped | SnakeSearch/SnakeSearch.py:200 | a cell whose cost a popped cell's move would lower has not been popped |
| SnakeCost.Lower | SnakeSearch/SnakeSearch.py:200-203 | a neighbour reached more cheaply gets the new cost, the popped cell as parent and a heap entry, keeping the invariant |
| SnakeCost.Keep | SnakeSearch/SnakeSearch.py:200 | a neighbour already as cheap is left alone |
| SnakeCost.LowerForest | SnakeSearch/SnakeSearch.py:201-202 | lowering a cost and re-parenting keeps the forest of moves |
| SnakeCost.Relax | SnakeSearch/SnakeSearch.py:198-203 | after the neighbour loop every move out of the popped cell is relaxed |
| SnakeCost.Begin | SnakeSearch/SnakeSearch.py:185-188 | the start alone, at cost 0, in the heap satisfies the invariant |
| SnakeCost.Drained | SnakeSearch/SnakeSearch.py:190-205 | an empty heap means the target cannot be reached |
| SnakeCost.Explored | SnakeSearch/SnakeSearch.py:190-194 | each popped cell is reached by a route no longer than the target's distance |
| SnakeCost.CostSearch | SnakeSearch/SnakeSearch.py:184-250 | success exactly when a route of open cells leads to the target; the path is then a shortest one, otherwise `[]` |
| SnakeCost.Ucs | SnakeSearch/SnakeSearch.py:184-205 | success exactly when the target is reachable, the path is a shortest route, and every popped cell is no farther than the target |
| SnakeCost.AStar | SnakeSearch/SnakeSearch.py:229-250 | success exactly when the target is reachable, the path is a shortest route, and every popped cell's distance plus estimate is at most the target's distance; the same code recurs at SnakeSearch/SnakeSearchPoints.py lines 193-215 (the same search in the points game) |
| SnakeDiscovery.Take | SnakeSearch/SnakeSearch.py:155-159 | a neighbour seen for the first time is marked visited, parented to the current cell one layer deeper, and appended |
| SnakeDiscovery.Pass | SnakeSearch/SnakeSearch.py:156 | a neighbour seen before is passed over and keeps its parent |
| SnakeDiscovery.KeepsForest | SnakeSearch/SnakeSearch.py:157-158 | hanging a new cell below the current one keeps the forest of moves and its layers |
| SnakeDiscovery.Expand | SnakeSearch/SnakeSearch.py:155-159 | after the neighbour loop every move out of the current cell leads to a visited cell and the bookkeeping holds |
| SnakeDiscovery.Visit | SnakeSearch/SnakeSearch.py:155-159 | every neighbour is visited once the loop body has run over them |
| SnakeDiscovery.PopFront | SnakeSearch/SnakeSearch.py:151 | the front cell of a layered queue is one of the shallowest |
| SnakeDiscovery.ExpandLayered | SnakeSearch/SnakeSearch.py:155-159 | appending the next layer behind the current one keeps the queue layered |
| SnakeDiscovery.ShortRoutesStayInside | SnakeSearch/SnakeSearch.py:150-154 | while the target waits at the front no route reaches it in fewer moves than its depth |
| SnakeDiscovery.TargetFirst | SnakeSearch/SnakeSearch.py:152-154 | the target taken from the front of the queue is at its distance from the start |
| SnakeDiscovery.Popped | SnakeSearch/SnakeSearch.py:151-171 | taking a cell from the front or from the back leaves it visited and pending |
| SnakeDiscovery.Drained | SnakeSearch/SnakeSearch.py:150-161 | an empty container means the target cannot be reached |
| SnakeDiscovery.Shrinks | SnakeSearch/SnakeSearch.py:157 | each discovery brings the search closer to its end |
| SnakeDiscovery.BfsPop | SnakeSearch/SnakeSearch.py:150-154 | one round of `bfs` up to the expansion keeps the invariant and the layering |
| SnakeDiscovery.BfsPush | SnakeSearch/SnakeSearch.py:155-159 | one round of `bfs` after the expansion restores the invariant and the layering |
| SnakeDiscovery.Bfs | SnakeSearch/SnakeSearch.py:144-161 | success exactly when the target is reachable; the path is then a shortest route, otherwise `[]` |
| SnakeDiscovery.Dfs | SnakeSearch/SnakeSearch.py:164-181 | success exactly when the target is reachable; the path is then a route, otherwise `[]` |
| GreedyState.Relinked | SnakeSearch/SnakeSearch.py:222-223 | pointing an unpopped cell at the popped one keeps the ranked forest |
| GreedyState.Reranked | SnakeSearch/SnakeSearch.py:223 | re-ranking a cell no link points at keeps the forest |
| GreedyState.Visit | SnakeSearch/SnakeSearch.py:214-217 | the cell popped next is ranked after every cell popped before |
| GreedyState.FreshLinks | SnakeSearch/SnakeSearch.py:217 | popping a cell ranks it last; it is a board cell or the start |
| SnakeGreedy.Begin | SnakeSearch/SnakeSearch.py:209-212 | the start alone in the heap satisfies the invariant |
| SnakeGreedy.Stale | SnakeSearch/SnakeSearch.py:215-216 | an entry for a cell popped before is dropped and nothing else changes |
| SnakeGreedy.Fresh | SnakeSearch/SnakeSearch.py:214-217 | a newly popped cell joins `visited`, and fewer cells are left to pop |
| SnakeGreedy.Skip | SnakeSearch/SnakeSearch.py:222 | a neighbour popped before is skipped |
| SnakeGreedy.Adopt | SnakeSearch/SnakeSearch.py:222-224 | a neighbour not popped yet gets the popped cell as its parent, overwriting an earlier one, and a heap entry |
| SnakeGreedy.LinkForest | SnakeSearch/SnakeSearch.py:223 | the overwriting link keeps the parent map free of cycles |
| SnakeGreedy.Link | SnakeSearch/SnakeSearch.py:221-224 | after the neighbour loop every neighbour is met and the invariant holds |
| SnakeGreedy.Drained | SnakeSearch/SnakeSearch.py:213-226 | an empty heap means the target cannot be reached |
| SnakeGreedy.Greedy | SnakeSearch/SnakeSearch.py:208-226 | success exactly when the target is reachable; the path is then a route, otherwise `[]` |
| SnakeFoods.Place | SnakeSearch/SnakeSearchPoints.py:57-91 | a subclass constructor fixes the food's point value and keeps its position |
| SnakeFoods.KindsCombinations | SnakeSearch/SnakeSearchPoints.py:57-91 | the nine kinds are the nine shape and colour combinations, each once, none worth nothing |
| FoodPoints.NewFood | SnakeSearch/Search.py:31-36 | a food keeps its shape, colour and position |
| FoodPoints.PointsListed | SnakeSearch/Search.py:18-36 | a food scores exactly when its shape and colour are listed, the listed values are pairwise different, and a capitalised `"Circle"` scores nothing |
| PointsSearch.MostCollected | SnakeSearch/Search.py:59-63 | the popped entry has collected at least as many points as any other entry |
| PointsSearch.DistinctWithin | SnakeSearch/Search.py:71-75 | a trail without repeated cells is no longer than the set its cells lie in |
| PointsSearch.TrailShort | SnakeSearch/Search.py:71-79 | a trail is no longer than the board is large |
| PointsSearch.NeverDropped | SnakeSearch/Search.py:65-66 | with a budget of at least the board's size no entry is dropped for its step count |
| PointsSearch.CellsRemoved | SnakeSearch/Search.py:63 | a pop keeps every other waiting cell |
| PointsSearch.Begin | SnakeSearch/Search.py:59-60 | the start entry with no steps, points or path satisfies the invariant |
| PointsSearch.Dropped | SnakeSearch/Search.py:65-66 | an entry over the budget is dropped and nothing else changes |
| PointsSearch.Stale | SnakeSearch/Search.py:71-72 | an entry for a visited cell is skipped |
| PointsSearch.Fresh | SnakeSearch/Search.py:74-75 | a popped cell that is neither visited nor the target joins `visited`, and fewer cells remain |
| PointsSearch.TrailExtended | SnakeSearch/Search.py:75-79 | a trail extended by a move to an unvisited cell is a trail |
| PointsSearch.CollectedExtended | SnakeSearch/Search.py:80-86 | extending a trail adds that cell's points |
| PointsSearch.Extended | SnakeSearch/Search.py:80-89 | the pushed entry extends the popped one by the neighbour, one step and the neighbour's points |
| PointsSearch.Expand | SnakeSearch/Search.py:77-89 | after the neighbour loop every move out of the popped cell leads to a visited or waiting cell |
| PointsSearch.Spread | SnakeSearch/Search.py:77-79 | a set closed under moves that holds one board cell holds them all |
| PointsSearch.Exhausted | SnakeSearch/Search.py:91 | an exhausted heap means the budget was short or the start or target is off the board |
| PointsSearch.BestPoints | SnakeSearch/Search.py:58-91 | on success the path is a repeat-free trail from start to target, one cell longer than the step count, within the budget, and the points are those of its food after the start; otherwise `[]` and `None`; start equal to target gives `[start]`, 0 steps and 0 points; with a budget of at least the board size and the target on the board it always succeeds |
| Link.Exchange | Final_Project/noros/test/movement_class5.py:120-145 | a failed send receives nothing, and every exchange consumes one reply of the script |
| Link.AfterExchange | Final_Project/noros/test/movement_class5.py:120-145 | exchanges compose: one followed by `n` more leaves what `n + 1` leave |
| Link.ExchangeAfter | Final_Project/noros/test/movement_class5.py:120-145 | one more exchange after `n` leaves what `n + 1` leave |
| Link.ExchangeSendRecv | Final_Project/noros/test/movement_class5.py:120-145 | an exchange is a send that fails only on a gone connection followed by a receive of the next answer, `None` on silence |
| Link.Socket.constructor | Final_Project/noros/test/movement_class5.py:27-33 | a fresh connection has written nothing and is open |
| Link.Socket.SendAll | Final_Project/noros/test/movement_class5.py:122 | the message is written; the send fails, consuming the reply, exactly when the far end is gone |
| Link.Socket.Recv | Final_Project/noros/test/movement_class5.py:130 | the next reply's text, or `None` on a timeout; one reply is consumed |
| Link.Socket.Close | Final_Project/noros/test/movement_class5.py:43-47 | the socket is closed and nothing else changes |
| Link.Detector.constructor | Final_Project/ImgProc/GridDetectionFinal2.py:138-141 | the detector holds the board width, the cell centres and its scripts of readings |
| Link.Detector.GetRobotPosition | Final_Project/ImgProc/GridDetectionFinal2.py:449-451 | the next pose reading, `None` when the robot is not seen or the script is over; nothing else changes |
| Link.Detector.GetRobotCellLabel | Final_Project/ImgProc/GridDetectionFinal2.py:453-455 | the next cell label reading, `None` when no cell holds the robot; nothing else changes |
| Link.Detector.GetExpectedAngle | Final_Project/noros/test/movement_class2.py:105 | the angle last stored |
| Link.Detector.SetExpectedAngle | Final_Project/noros/test/movement_class2.py:50 | stores the angle and changes nothing else |
| Motion.VerbUpper | Final_Project/noros/test/movement_class5.py:69-82 | a segment's verb is already upper case, and it is `"TURN"` exactly for a turn |
| Motion.Messages | Final_Project/noros/test/movement_class5.py:122 | the messages written are those of the attempts, in order |
| Motion.TurnDelta | Final_Project/noros/test/movement_class5.py:304-306 | the turn computed between two headings lies in (-180, 180] |
| Motion.TurnDeltaCongruent | Final_Project/noros/test/movement_class5.py:304-306 | the turn is the change of heading up to whole turns |
| Motion.QuarterTurns | Final_Project/noros/test/movement_class5.py:304-306 | between two of the planner's headings the turn is 0, 90, -90 or 180, and 0 exactly when they agree |
| Motion.AngleDifference | Final_Project/noros/test/movement_class5.py:338-344 | the error lies in [-180, 180) |
| Motion.AngleDifferenceCongruent | Final_Project/noros/test/movement_class5.py:338-344 | the error is the true difference up to whole turns |
| Motion.AngleDifferenceSmallest | Final_Project/noros/test/movement_class5.py:338-344 | no angle congruent to the error is closer to zero |
| Motion.LandsOn | Final_Project/noros/test/movement_class5.py:71 | adding a turn congruent to the change of heading to the expected angle lands on the new heading |
| Motion.FloorSqrtBounds | Final_Project/noros/test/movement_class5.py:319-320 | the whole part of `math.hypot` of whole offsets is the floor of the exact root |
| Motion.RootUnique | Final_Project/noros/test/movement_class5.py:319-320 | that floor is unique |
| Motion.FloorSqrtSquare | Final_Project/noros/test/movement_class5.py:319 | the root of a square is its side, so a straight move of `n` cells has distance `n` |
| Motion.HypotAtMost | Final_Project/noros/test/movement_class5.py:319 | the distance never exceeds the Manhattan length |
| Motion.ForwardCountBounds | Final_Project/noros/test/movement_class5.py:318-321 | a move is at least one FORWARD and at most its Manhattan length; a straight move counts its cells; a diagonal unit move is one step by the distance rule and two by the Manhattan rule |
| Motion.CompressPath | Final_Project/noros/test/movement_class5.py:290-336 | the commands are the compression of the path, `[]` for a path shorter than two states; the same code recurs at Final_Project/noros/test/movement_class.py lines 154-184 (the same compression with FORWARD counts that are Manhattan lengths) |
| Motion.AppendTurn | Final_Project/noros/test/movement_class5.py:304-310 | a TURN is added exactly when the heading changes by more than a degree |
| Motion.AppendMove | Final_Project/noros/test/movement_class5.py:312-322 | a FORWARD is added exactly when the cell changes |
| Motion.CompressedStep | Final_Project/noros/test/movement_class5.py:298-334 | each further state adds that pair's segments |
| Motion.PairCounts | Final_Project/noros/test/movement_class5.py:298-334 | one pair contributes one FORWARD if the cell changes and one TURN if the heading changes by more than a degree, all well formed |
| Motion.CompressedCounts | Final_Project/noros/test/movement_class5.py:290-336 | one FORWARD per pair that changes cell, one TURN per pair that turns by more than a degree, nothing else |
| Motion.DrivenPair | Final_Project/noros/test/movement_class5.py:298-334 | a planner step becomes a quarter or half turn when the heading changes, then one FORWARD of one cell |
| Motion.DrivenCompressed | Final_Project/noros/test/movement_class5.py:290-336 | a planner path compresses into quarter or half turns and single-cell FORWARDs only |
| Motion.DrivenForwards | Final_Project/noros/test/movement_class5.py:290-336 | a planner path gives one FORWARD per step |
| Motion.SteadyCompressed | Final_Project/noros/test/movement_class5.py:290-336 | a planner path that keeps its heading becomes separate single-cell FORWARDs, never one long one |
| Motion.UnitStep | Final_Project/noros/test/search_class.py:264-265 | a planner step moves exactly one cell along a row or a column |
| Motion.ReplayPair | Final_Project/noros/test/movement_class5.py:304-310 | replaying one pair's TURN from its first heading lands on its second, for headings in [0, 360) not one degree apart |
| Motion.ReplayCompressed | Final_Project/noros/test/movement_class5.py:49-82 | replaying the TURNs of a compressed path from its first heading lands on its last heading, so `expected_angle` tracks the path |
| Motion.Converter | Final_Project/noros/test/movement_class5.py:284-288 | fails exactly when the board has no columns |
| Motion.ConverterOfLabel | Final_Project/noros/test/movement_class5.py:284-288 | for a positive label the cell is `((label - 1) // cols, (label - 1) % cols)`, a board cell whose label it is |
| Motion.ConverterLabel | Final_Project/noros/test/movement_class5.py:284-288 | converting the label of a board cell gives the cell back |
| Motion.MessageShape | Final_Project/noros/test/movement_class5.py:118 | a request line is the upper-cased command, a comma, the parameter and one newline |
| Motion.RequestAcked | Final_Project/noros/test/movement_class5.py:118-137 | a request succeeds exactly when the next reply is an answer whose stripped text is `DONE,` + command + `,` + param |
| Motion.AckLineAccepted | Final_Project/noros/test/movement_class5.py:130-134 | the acknowledgement line the firmware writes is accepted for its own request, and is the only reply consumed |
| Movement1.CheckRaises | Final_Project/noros/test/movement_class.py:124-149 | the position check raises exactly when the detector reads a cell label and then either has no columns (ZeroDivisionError) or reads a pose followed by None, which `_, _, angle_deg` cannot unpack (TypeError); it never touches the replies |
| Movement1.CheckPaired | Final_Project/noros/test/movement_class.py:134-139 | on a pose script where every pose read first is followed by a pose, a check raises only for a board without columns and leaves the script so |
| Movement1.LostPoseRaises | Final_Project/noros/test/movement_class.py:138-139 | a pose followed by None, or by the end of the readings, makes the check raise even on a board with columns |
| Movement1.FollowPrefix | Final_Project/noros/test/movement_class.py:66-75 | whatever the replies, the lines sent are the segments' own lines in order, cut short only by a raising check, which needs a detector without columns or a pose script that loses the robot between two reads |
| Movement1.SendsAll | Final_Project/noros/test/movement_class.py:69-75 | with no detector, or one that has columns and never loses the robot between a check's two pose reads, every segment's line is sent, nothing raises, and one reply per segment is used up |
| Movement1.ExecuteSendsAll | Final_Project/noros/test/movement_class.py:48-75 | `execute_path` on any path sends one line per compressed segment and never aborts, when there is no detector or it has columns and paired pose readings |
| Movement1.MovementClass.constructor | Final_Project/noros/test/movement_class.py:15-28 | not connected, with the given detector |
| Movement1.MovementClass.Connect | Final_Project/noros/test/movement_class.py:30-40 | the connection is the socket obtained, none when connecting fails; no greeting is read |
| Movement1.MovementClass.Disconnect | Final_Project/noros/test/movement_class.py:42-45 | the socket, if any, is closed and forgotten |
| Movement1.MovementClass.RecvLine | Final_Project/noros/test/movement_class.py:110-119 | one `recv`, stripped, or `None` on a timeout |
| Movement1.MovementClass.SendCommandWaitAck | Final_Project/noros/test/movement_class.py:82-108 | an invalid verb sends nothing; otherwise the request goes out and one reply is read and ignored |
| Movement1.MovementClass.CheckAndCorrectPosition | Final_Project/noros/test/movement_class.py:124-140 | the position check only reads the detector, and raises as `Check` says: on a board without columns, or when the second pose reading is None |
| Movement1.MovementClass.ExecutePath | Final_Project/noros/test/movement_class.py:48-75 | nothing without a connection or for an empty path; otherwise the compressed path is followed as `Follow` says |
| Movement1.MovementClass.FollowSegments | Final_Project/noros/test/movement_class.py:69-75 | the segment loop, as `Follow` says |
| Movement1.MovementClass.FollowOne | Final_Project/noros/test/movement_class.py:70-75 | one segment is sent, then the position is checked, the run stopping when the check raises |
| Movement2.AngleError | Final_Project/noros/test/movement_class2.py:107 | the heading error of this version lies in [-270, 90) |
| Movement2.AngleErrorOffset | Final_Project/noros/test/movement_class2.py:107 | the error is the fifth version's difference moved down by a quarter turn |
| Movement2.AlignedStillCorrected | Final_Project/noros/test/movement_class2.py:107-113 | a robot exactly on its expected heading reads an error of -90 and is turned by -5 degrees |
| Movement2.QuietWindow | Final_Project/noros/test/movement_class2.py:107-109 | the position check is quiet exactly for readings within 15 degrees of a quarter turn past the expected heading |
| Movement2.HeadingCheckCorrects | Final_Project/noros/test/movement_class2.py:102-115 | a TURN of between 1 and 5 degrees is sent exactly when the error is over the threshold; the expected angle moves exactly when it is acknowledged; nothing raises |
| Movement2.CheckAtMostOne | Final_Project/noros/test/movement_class2.py:92-115 | a check sends at most one message, raises only for a detector without columns, and leaves the expected angle alone when it sends nothing |
| Movement2.CheckBlind | Final_Project/noros/test/movement_class2.py:96-98 | a detector that reads no cell label leaves everything as it was |
| Movement2.StepStops | Final_Project/noros/test/movement_class2.py:48-55 | a step sends its own line first and at most one correction after it, and sends nothing only when a TURN finds no detector |
| Movement2.FollowStep | Final_Project/noros/test/movement_class2.py:48-55 | the run is the first segment's step followed by the rest, unless that step stops it |
| Movement2.RefusedStops | Final_Project/noros/test/movement_class2.py:51-53 | the first unacknowledged command ends the run without raising |
| Movement2.TurnWithoutDetector | Final_Project/noros/test/movement_class2.py:49-50 | without a detector the first TURN raises before it is sent |
| Movement2.CorrectionGoesOn | Final_Project/noros/test/movement_class2.py:51-55 | an acknowledged segment always lets the next one go out |
| Movement2.StepAcked | Final_Project/noros/test/movement_class2.py:48-55 | an acknowledged segment with nothing for the detector to read sends its own line and goes on |
| Movement2.RunAcked | Final_Project/noros/test/movement_class2.py:48-55 | with every command acknowledged and nothing to correct every segment's line is sent in order and the expected angle is replayed over every TURN |
| Movement2.ExecuteAcked | Final_Project/noros/test/movement_class2.py:39-55 | on a planner path with every command acknowledged the detector's expected angle ends on the last state's heading |
| Movement2.MovementClass.constructor | Final_Project/noros/test/movement_class2.py:7-15 | not connected, with the given detector |
| Movement2.MovementClass.RecvLine | Final_Project/noros/test/movement_class2.py:85-90 | one `recv`, stripped, or `None` on a timeout |
| Movement2.MovementClass.Connect | Final_Project/noros/test/movement_class2.py:17-31 | the connection is the socket obtained, and its greeting is read and discarded |
| Movement2.MovementClass.Disconnect | Final_Project/noros/test/movement_class2.py:33-37 | the socket, if any, is closed and forgotten |
| Movement2.MovementClass.SendCommandWaitAck | Final_Project/noros/test/movement_class2.py:57-83 | an invalid verb is refused without sending; otherwise one request goes out and only the exact acknowledgement counts |
| Movement2.MovementClass.SendSegment | Final_Project/noros/test/movement_class2.py:51 | a segment is sent as its request line |
| Movement2.MovementClass.CheckAndCorrectPosition | Final_Project/noros/test/movement_class2.py:92-115 | the position check, as `Check` says |
| Movement2.MovementClass.CorrectHeading | Final_Project/noros/test/movement_class2.py:102-115 | the heading part of the position check, as `HeadingCheck` says |
| Movement2.MovementClass.ExecutePath | Final_Project/noros/test/movement_class2.py:39-55 | nothing without a connection or for an empty path; otherwise the path is followed from the detector's own expected angle as `Follow` says |
| Movement2.MovementClass.FollowSegments | Final_Project/noros/test/movement_class2.py:48-55 | the segment loop, as `Follow` says |
| Movement2.MovementClass.FollowNext | Final_Project/noros/test/movement_class2.py:48-55 | one segment, and what it leaves of the loop |
| Movement2.MovementClass.AdvanceExpected | Final_Project/noros/test/movement_class2.py:49-50 | a TURN moves the detector's expected angle by its degrees modulo 360 |
| Movement2.MovementClass.FollowOne | Final_Project/noros/test/movement_class2.py:49-55 | one segment sent and the position checked, as `SendStep` says |
| Movement3.SegmentVerbsValid | Final_Project/noros/test/movement_class3.py:71 | the verbs of a compressed path are accepted and are their own upper case |
| Movement3.CorrectionRefused | Final_Project/noros/test/movement_class3.py:71 | a CORRECTION verb is refused by this version |
| Movement3.Correction | Final_Project/noros/test/movement_class3.py:132-133 | the correction has the sign of the error, at most 5 degrees and never more than the error, and is non-zero for a non-zero error |
| Movement3.FollowStep | Final_Project/noros/test/movement_class3.py:57-68 | the run is the first segment's step followed by the rest, unless that step stops it |
| Movement3.CheckAtMostOne | Final_Project/noros/test/movement_class3.py:111-146 | a check sends at most one message, one that sends always raises, and one that does not raise leaves the expected angle alone |
| Movement3.CheckCorrectsOnce | Final_Project/noros/test/movement_class3.py:128-143 | with the heading off by more than the threshold exactly one TURN of the correction is sent, the expected angle moves by it exactly when it is acknowledged, and the position check raises either way (the undefined `angle_dif`) |
| Movement3.CheckQuiet | Final_Project/noros/test/movement_class3.py:111-131 | within the threshold, or with nothing to read, the position check sends nothing and does not raise |
| Movement3.CheckBlind | Final_Project/noros/test/movement_class3.py:116-119 | a detector that reads nothing leaves everything as it was |
| Movement3.StepStops | Final_Project/noros/test/movement_class3.py:57-68 | a step sends its own line first and at most one correction after it; a correction means it raised, and raising ends the loop |
| Movement3.RefusedStops | Final_Project/noros/test/movement_class3.py:63-66 | the first unacknowledged command ends the run without raising |
| Movement3.CorrectionEndsRun | Final_Project/noros/test/movement_class3.py:136-143 | a segment followed by a correction raises, so no later segment is sent |
| Movement3.SegmentMessages | Final_Project/noros/test/movement_class3.py:72 | one request line per segment |
| Movement3.AcksAccepted | Final_Project/noros/test/movement_class3.py:86-90 | the firmware's own acknowledgement lines are accepted, each for its own request |
| Movement3.StepAcked | Final_Project/noros/test/movement_class3.py:57-68 | an acknowledged segment with nothing to read sends its own line and goes on, a TURN moving the expected angle |
| Movement3.FirstOfPath | Final_Project/noros/test/movement_class3.py:57-60 | the messages and the replayed angle of a path split at its first segment |
| Movement3.RunAcked | Final_Project/noros/test/movement_class3.py:57-68 | with every command acknowledged and nothing to correct every line is sent in order and the expected angle is replayed over every TURN |
| Movement3.ExecuteAcked | Final_Project/noros/test/movement_class3.py:41-68 | on a planner path with every command acknowledged the expected angle ends on the last state's heading |
| Movement3.MovementClass.constructor | Final_Project/noros/test/movement_class3.py:6-17 | not connected, no expected angle yet |
| Movement3.MovementClass.RecvLine | Final_Project/noros/test/movement_class3.py:103-109 | one `recv`, stripped, or `None` on a timeout |
| Movement3.MovementClass.Connect | Final_Project/noros/test/movement_class3.py:19-33 | the connection is the socket obtained, and its greeting is read and discarded |
| Movement3.MovementClass.Disconnect | Final_Project/noros/test/movement_class3.py:35-39 | the socket, if any, is closed and forgotten |
| Movement3.MovementClass.SendCommandWaitAck | Final_Project/noros/test/movement_class3.py:70-101 | an invalid verb is refused without sending; otherwise one request goes out and only the exact acknowledgement counts |
| Movement3.MovementClass.SendSegment | Final_Project/noros/test/movement_class3.py:63 | a segment is sent as its request line |
| Movement3.MovementClass.CheckAndCorrectPosition | Final_Project/noros/test/movement_class3.py:111-146 | the position check, as `Check` says, raising on a board without columns or after a correction |
| Movement3.MovementClass.CorrectHeading | Final_Project/noros/test/movement_class3.py:124-146 | the heading part of the position check, as `HeadingCheck` says |
| Movement3.MovementClass.ExecutePath | Final_Project/noros/test/movement_class3.py:41-68 | nothing without a connection or for an empty path; otherwise the path is followed from the first state's heading as `Follow` says |
| Movement3.MovementClass.FollowSegments | Final_Project/noros/test/movement_class3.py:57-68 | the segment loop, as `Follow` says |
| Movement3.MovementClass.FollowNext | Final_Project/noros/test/movement_class3.py:57-68 | one segment, and what it leaves of the loop |
| Movement3.MovementClass.FollowOne | Final_Project/noros/test/movement_class3.py:58-68 | one segment sent and the position checked, as `SendStep` says |
| Movement5.AngleStep | Final_Project/noros/test/movement_class5.py:179-180 | the heading correction opposes the error, is at most 5 degrees and never more than the error |
| Movement5.AngleStepCloses | Final_Project/noros/test/movement_class5.py:174-180 | outside the threshold every correction is a full 5 degrees and turning by it cuts the error by exactly 5 |
| Movement5.RoundedStepsNearest | Final_Project/noros/test/movement_class5.py:209-272 | the rounded step count is the integer nearest to the distance times 51/135, with no tie possible |
| Movement5.CorrectionSteps | Final_Project/noros/test/movement_class5.py:272 | at least 5 steps, and otherwise the rounded conversion of the distance |
| Movement5.DirectionAsWritten | Final_Project/noros/test/movement_class5.py:218-269 | a direction is chosen exactly when the distance along the heading exceeds the position threshold |
| Movement5.Direction | Final_Project/noros/test/movement_class5.py:218-269 | the corrected rule chooses a direction under the same condition |
| Movement5.AxisDiffAdvance | Final_Project/noros/test/movement_class5.py:218-269 | the measured distance is what is left to go along a cardinal heading: moving forward by s takes s off it |
| Movement5.DirectionCloses | Final_Project/noros/test/movement_class5.py:218-269 | with the corrected rule, a correction shorter than twice the error brings the robot strictly closer to the cell centre at every heading |
| Movement5.DirectionAsWrittenDrivesAway | Final_Project/noros/test/movement_class5.py:218-269 | as written, at headings 0 and 270 every correction outside the threshold drives the robot further from the cell centre |
| Movement5.DirectionAsWrittenExample | Final_Project/noros/test/movement_class5.py:219-225 | facing 0 at (80, 50) with the centre at (100, 50) the code says BACK where FORWARD is meant |
| Movement5.ClientVerbsValid | Final_Project/noros/test/movement_class5.py:112-118 | the verbs the client sends, CORRECTION included, are accepted in upper case |
| Movement5.AngleLoopFiveDegrees | Final_Project/noros/test/movement_class5.py:160-194 | every heading correction is a TURN of exactly plus or minus 5 degrees, at most one per pose reading |
| Movement5.PositionLoopBounded | Final_Project/noros/test/movement_class5.py:210-282 | at most one position correction per pose reading, and none off a cardinal heading |
| Movement5.FollowRaised | Final_Project/noros/test/movement_class5.py:68-109 | only a missing detector raises, from the cell-centre lookup; every other exit stops or goes on quietly |
| Movement5.DriveRaised | Final_Project/noros/test/movement_class5.py:82-109 | the same for the cells of a FORWARD segment |
| Movement5.Repeat | Final_Project/noros/test/movement_class5.py:83 | n copies, none for a non-positive n |
| Movement5.DriveAcked | Final_Project/noros/test/movement_class5.py:82-109 | a FORWARD segment of n cells with every FORWARD,1 acknowledged and nothing seen sends n messages and advances n steps |
| Movement5.TurnAcked | Final_Project/noros/test/movement_class5.py:69-80 | an acknowledged TURN with nothing seen sends its line and moves the expected angle by it, modulo 360 |
| Movement5.TurningAcked | Final_Project/noros/test/movement_class5.py:69-80 | a TURN whose acknowledgement is the next reply sends exactly its line, then follows the rest of the path |
| Movement5.BlindAfterTurn | Final_Project/noros/test/movement_class5.py:69-80 | with no detector pose pending, the angle correction after a turn sends nothing and the path goes on unchanged |
| Movement5.FollowTurnHead | Final_Project/noros/test/movement_class5.py:69-80 | a path headed by a TURN is followed by turning by that many degrees, the expected angle moved modulo 360 |
| Movement5.FollowAcked | Final_Project/noros/test/movement_class5.py:68-109 | every path runs plainly when every command is acknowledged and the detector sees nothing |
| Movement5.ExecuteAcked | Final_Project/noros/test/movement_class5.py:49-109 | on a planner path with every command acknowledged the compressed path's lines are sent, nothing raises, the steps count every cell and the expected angle ends on the last state's heading |
| Movement5.TurnRefusedEnds | Final_Project/noros/test/movement_class5.py:69-77 | an unacknowledged TURN ends the run without raising, the expected angle already moved |
| Movement5.ForwardRefusedGoesOn | Final_Project/noros/test/movement_class5.py:100-104 | an unacknowledged FORWARD abandons only its own segment; the run goes on with the next one |
| Movement5.MovementClass.constructor | Final_Project/noros/test/movement_class5.py:8-25 | not connected, no expected angle, step index 0 |
| Movement5.MovementClass.RecvLine | Final_Project/noros/test/movement_class5.py:147-153 | one `recv`, stripped, or `None` on a timeout or without a socket |
| Movement5.MovementClass.Connect | Final_Project/noros/test/movement_class5.py:27-41 | the connection is the socket obtained, and its greeting is read and discarded |
| Movement5.MovementClass.Disconnect | Final_Project/noros/test/movement_class5.py:43-47 | the socket, if any, is closed and forgotten |
| Movement5.MovementClass.SendCommandWaitAck | Final_Project/noros/test/movement_class5.py:112-145 | an invalid verb or a missing socket is refused without sending; otherwise one request goes out and only the exact acknowledgement counts |
| Movement5.MovementClass.SendStatusMessage | Final_Project/noros/test/movement_class5.py:346-380 | `STATUS,message` is sent and succeeds only on the reply `Taken` |
| Movement5.MovementClass.AngleCorrectionRound | Final_Project/noros/test/movement_class5.py:160-194 | one round of the heading loop, as `AngleLoop` says, consuming a pose reading when it goes on |
| Movement5.MovementClass.ContinuousAngleCorrection | Final_Project/noros/test/movement_class5.py:155-194 | the heading loop, as `AngleCorrections` says |
| Movement5.MovementClass.PositionCorrectionRound | Final_Project/noros/test/movement_class5.py:210-282 | one round of the position loop, as `PositionLoop` says |
| Movement5.MovementClass.ContinuousPositionCorrection | Final_Project/noros/test/movement_class5.py:196-282 | the position loop, as `PositionCorrections` says |
| Movement5.MovementClass.TurnSegment | Final_Project/noros/test/movement_class5.py:69-80 | a TURN segment: send it, and on success run the heading corrections |
| Movement5.MovementClass.SendTurn | Final_Project/noros/test/movement_class5.py:74 | `TURN,d` and its acknowledgement |
| Movement5.MovementClass.SendForward | Final_Project/noros/test/movement_class5.py:100 | `FORWARD,1` and its acknowledgement |
| Movement5.MovementClass.CorrectAfterTurn | Final_Project/noros/test/movement_class5.py:80 | the heading corrections after an acknowledged TURN |
| Movement5.MovementClass.ForwardCell | Final_Project/noros/test/movement_class5.py:83-109 | one cell of a FORWARD segment: advance the step, look up the target centre, move one cell |
| Movement5.MovementClass.MoveCell | Final_Project/noros/test/movement_class5.py:99-109 | FORWARD,1 towards the target and, when acknowledged, both corrections |
| Movement5.MovementClass.CorrectAfterForward | Final_Project/noros/test/movement_class5.py:105-109 | the heading corrections, then the position corrections when there is a target |
| Movement5.MovementClass.ForwardSegment | Final_Project/noros/test/movement_class5.py:82-109 | a FORWARD segment, ending early on the AttributeError or an unacknowledged FORWARD |
| Movement5.MovementClass.ExecutePath | Final_Project/noros/test/movement_class5.py:49-109 | nothing without a connection or for an empty path; otherwise the hypotenuse-compressed path is followed from the first state's heading as `Follow` says |
| Movement5.MovementClass.FollowSegments | Final_Project/noros/test/movement_class5.py:68-109 | the segment loop, as `Follow` says |
| Movement5.MovementClass.FollowOne | Final_Project/noros/test/movement_class5.py:68-109 | one segment, stopping on an unacknowledged TURN or the AttributeError |
| NorosMovement.StepToCommandExact | Final_Project/noros/movement_class.py:54-73 | a pair of cells gets a command exactly when they are 4-neighbours, and the command's move takes the first to the second |
| NorosMovement.PathCommandsWords | Final_Project/noros/movement_class.py:45-50 | every command sent is FRONT, BACK, LEFT or RIGHT |
| NorosMovement.PathCommandsAtMostOne | Final_Project/noros/movement_class.py:45-50 | at most one command per pair of consecutive cells |
| NorosMovement.PathCommandsWalk | Final_Project/noros/movement_class.py:45-73 | along a 4-connected walk every pair gets its command and the commands lead from the first cell to the last |
| NorosMovement.PathCommandsStep | Final_Project/noros/movement_class.py:45-50 | one more cell adds that pair's command, if any |
| NorosMovement.Lines | Final_Project/noros/movement_class.py:80 | each command becomes its own newline-terminated line |
| NorosMovement.MovementClass.constructor | Final_Project/noros/movement_class.py:12-15 | not connected |
| NorosMovement.MovementClass.Connect | Final_Project/noros/movement_class.py:17-27 | the connection is the socket obtained, or none when connecting fails |
| NorosMovement.MovementClass.Disconnect | Final_Project/noros/movement_class.py:29-33 | the socket, if any, is closed and forgotten |
| NorosMovement.MovementClass.SendCommand | Final_Project/noros/movement_class.py:75-89 | the command's line goes out and one reply is consumed, errors swallowed |
| NorosMovement.MovementClass.ExecutePath | Final_Project/noros/movement_class.py:35-52 | nothing without a connection; otherwise one line per mapped pair, in path order, each using one reply |
| MotionFirmware.DispatchMove | Final_Project/noros/test/main.py:76-92 | a moving verb with an integer parameter runs its routine and replies `DONE,VERB,n` with n written back canonically |
| MotionFirmware.UnknownIgnored | Final_Project/noros/test/main.py:104-107 | a verb outside the five, after upper-casing, gets no action and no reply |
| MotionFirmware.KnownNotIgnored | Final_Project/noros/test/main.py:73-102 | a known verb always gets its action and reply, or raises; it is never ignored |
| MotionFirmware.OtherVerbIgnored | Final_Project/noros/test/main.py:73-107 | an upper-case verb other than the five is ignored whatever its parameter |
| MotionFirmware.CorrectionIgnored | Final_Project/noros/test/main.py:73-107 | the fifth client's CORRECTION lines are ignored by this firmware |
| MotionFirmware.StatusIgnored | Final_Project/noros/test/main.py:73-107 | so are its STATUS lines |
| MotionFirmware.StopDanceZero | Final_Project/noros/test/main.py:94-102 | STOP and DANCE reply with parameter 0 whatever came with them |
| MotionFirmware.NonIntegerFails | Final_Project/noros/test/main.py:77-89 | a moving verb whose parameter is not an integer raises |
| MotionFirmware.SegmentLine | Final_Project/noros/test/main.py:68 | a client's segment line, stripped as `recv` is, is `VERB,n` |
| MotionFirmware.SegmentDispatched | Final_Project/noros/test/main.py:68-92 | a compressed segment's line runs that segment's routine and is answered `DONE,VERB,n` |
| MotionFirmware.SegmentAcknowledged | Final_Project/noros/test/main.py:68-92 | the firmware's reply to a segment line is exactly the acknowledgement the client waits for, and the client accepts it |
| MotionFirmware.StopAckNeedsZero | Final_Project/noros/test/main.py:94-97 | a STOP with a parameter other than `0` is never acknowledged as the client expects |
| MotionFirmware.SessionOfSegments | Final_Project/noros/test/main.py:62-113 | a session fed a client's segment lines runs every routine in order, never fails, and answers with the acknowledgements the client is scripted to receive |
| MotionFirmware.Serve | Final_Project/noros/test/main.py:67-113 | the receive loop of one connection, as `Session` says: stopping on an empty chunk or an exception |
| MoveFirmware.SplitThree | Final_Project/noros/main.py:37 | `a,b,c` splits into its three fields when none holds a comma |
| MoveFirmware.MoveRoundTrip | Final_Project/noros/main.py:37-43 | every MOVE, in bounds or not, goes to exactly the cell it names |
| MoveFirmware.ArrivedStripped | Final_Project/noros/main.py:43 | the ARRIVED line without its newline |
| MoveFirmware.ArrivedFields | Final_Project/noros/main.py:43 | stripped and split, the ARRIVED line is its verb, row and column |
| MoveFirmware.ArrivedReadsBack | Final_Project/noros/main.py:37-43 | the ARRIVED line's fields read back as the cell moved to |
| MoveFirmware.OtherVerbStays | Final_Project/noros/main.py:40-43 | the verb is case sensitive: any other verb leaves the position alone and is not answered |
| MoveFirmware.FailExactly | Final_Project/noros/main.py:37-38 | a line raises exactly when it is not three fields with integer row and column |
| MoveFirmware.NoBoundsCheck | Final_Project/noros/main.py:8-43 | no bounds check: a MOVE outside the declared 3-by-4 grid is carried out |
| MoveFirmware.LastReplyNamesPosition | Final_Project/noros/main.py:27-49 | the position a session leaves is the one its last ARRIVED reply names, or the one it found |
| MoveFirmware.MoveLines | Final_Project/noros/main.py:37 | one MOVE line per cell |
| MoveFirmware.MoveFirst | Final_Project/noros/main.py:32-43 | a first MOVE line goes to its cell, answers, and the session carries on from there |
| MoveFirmware.Arrivals | Final_Project/noros/main.py:43 | one ARRIVED line per cell |
| MoveFirmware.ArrivalsAt | Final_Project/noros/main.py:43 | the i-th ARRIVED line names the i-th cell |
| MoveFirmware.MovesVisited | Final_Project/noros/main.py:32-43 | fed MOVE lines, a session visits every cell in turn and answers each with its ARRIVED line |
| MoveFirmware.NorosLinesFail | Final_Project/noros/main.py:37 | the cell-by-cell client's one-word lines raise at once: no reply and the position unchanged |
| MoveFirmware.DirectionWordFails | Final_Project/noros/main.py:37 | a direction word is one field, so unpacking it raises |
| MoveFirmware.Firmware.constructor | Final_Project/noros/main.py:9 | the position starts at (0, 0) |
| MoveFirmware.Firmware.Serve | Final_Project/noros/main.py:32-49 | the receive loop of one connection, as `Session` says; the position survives the connection |
| Text.Strip | Final_Project/noros/test/main.py:68 | `str.strip()`: no longer than its input, and neither starting nor ending with whitespace |
| Text.StripSlice | Final_Project/noros/test/main.py:68 | only whitespace lies outside the stripped text |
| Text.StripNoSpace | Final_Project/noros/test/main.py:68 | text without surrounding whitespace strips to itself |
| Text.StripNewline | Final_Project/noros/test/main.py:68 | a line with its newline strips back to the line |
| Text.Upper | Final_Project/noros/test/main.py:74 | ASCII upper-casing, character by character |
| Text.UpperIdempotent | Final_Project/noros/test/main.py:74 | upper-casing is idempotent and leaves text without lower-case letters alone |
| Text.Split | Final_Project/noros/test/main.py:73 | `str.split`: never empty, no field holds the separator, and joining the fields gives the input back |
| Text.SplitNoSep | Final_Project/noros/test/main.py:73 | text without a separator is one field |
| Text.SplitCons | Final_Project/noros/test/main.py:73 | splitting at the first separator |
| Text.NatToString | Final_Project/noros/test/main.py:79 | `str(n)`: the shortest decimal form, reading back as n |
| Text.IntToString | Final_Project/noros/test/main.py:79 | `str(i)`: non-empty, without surrounding whitespace or commas |
| Text.ParseInt | Final_Project/noros/test/main.py:77 | `int(s)`: only text that is non-empty once stripped parses |
| Text.ParseIntToString | Final_Project/noros/test/main.py:77-79 | `int(str(i)) == i` |
| Text.ParsedCharsAllowed | Final_Project/noros/test/main.py:77 | every character of accepted text is a digit, a sign or whitespace |
| Text.ParseIntRejectsDot | Final_Project/noros/test/main.py:89 | text holding a dot never parses, so a fractional correction such as `TURN,3.2` raises |
| Smoothing.SmoothPoint | Final_Project/ImgProc/GridDetection.py:67-77 | one point of the loop keeps every stored count non-negative, so `count + 1` never divides by zero |
| Smoothing.Smooth | Final_Project/ImgProc/GridDetection.py:62-79 | the loop shows one point per input point and keeps the counts non-negative |
| Smoothing.AverageBetween | Final_Project/ImgProc/GridDetection.py:71-72 | `(prev * count + v) // (count + 1)` lies between `prev` and `v` |
| Smoothing.SmoothPointSpec | Final_Project/ImgProc/GridDetection.py:67-77 | a point in a new bucket is stored with count 1 and shown as it is; in a known bucket the shown point lies between the bucket's average and the point, is what is stored, and the count grows by one up to the stability factor; no other bucket changes and none is removed |
| Smoothing.SmoothKeys | Final_Project/ImgProc/GridDetection.py:62-79 | after a frame the history holds exactly its old buckets and those of the frame's points |
| Smoothing.IntersectionHistory.constructor | Final_Project/ImgProc/GridDetection.py:22 | the history starts empty |
| Smoothing.IntersectionHistory.StabilizeIntersections | Final_Project/ImgProc/GridDetection.py:62-79 | the in-place loop leaves the history and returns the points that `Smooth` gives |
| ReferenceSnap.ClosestIndex | Final_Project/ImgProc/GridDetection2.py:93 | the index `min` picks lies inside the reference |
| ReferenceSnap.ClosestIndexFirst | Final_Project/ImgProc/GridDetection2.py:93 | that index is a nearest reference point, and the first of equally near ones |
| ReferenceSnap.Snap | Final_Project/ImgProc/GridDetection2.py:91-94 | one output point per input point |
| ReferenceSnap.SnapsToReference | Final_Project/ImgProc/GridDetection2.py:84-96 | with a reference the call raises exactly when the reference is empty and there are points; otherwise output point `k` is a reference point nearest to input point `k`, the first of equally near ones |
| ReferenceSnap.SnapInReference | Final_Project/ImgProc/GridDetection2.py:91-96 | every snapped point is a reference point |
| ReferenceSnap.ReferenceNeverGains | Final_Project/ImgProc/GridDetection2.py:136-140 | the first frame's points become the reference as they are, and no later frame brings in a point that was not in the reference |
| ReferenceSnap.StabilizeIntersections | Final_Project/ImgProc/GridDetection2.py:84-96 | the loop computes `Stabilize` |
| ReferenceSnap.ReferenceLoop.constructor | Final_Project/ImgProc/GridDetection2.py:22 | there is no reference before the first frame |
| ReferenceSnap.ReferenceLoop.Frame | Final_Project/ImgProc/GridDetection2.py:136-140 | a frame loops for ever exactly when it has crossings and a radius of zero or less; otherwise the shown points are the stabilized clusters, they become the reference, and they are all points of the previous reference |
| NeoPixelByte.BinFacts | PicoHWs/LAB1/LAB1NEOPIX.py:179 | `bin(n)[2:]` gives binary digits standing for `n`, no more of them than a width `n` fits in |
| NeoPixelByte.PadValue | PicoHWs/LAB1/LAB1NEOPIX.py:183 | the leading zeros `'0' * (8 - len(temp))` do not change the value |
| NeoPixelByte.DigitsAreBits | PicoHWs/LAB1/LAB1NEOPIX.py:179-183 | the digit `k` places from the right is bit `k` of the value |
| NeoPixelByte.DecimalToBinary | PicoHWs/LAB1/LAB1NEOPIX.py:164-188 | a string exactly when `0 <= n < 256`; then eight binary digits, most significant first, whose value is `n` and whose digit `j` is bit `7 - j` |
| NeoPixelByte.BinaryRoundTrip | PicoHWs/LAB1/LAB1NEOPIX.py:164-188 | every eight-digit binary string is what `decimal_to_Binary` gives for its value (the conversion is onto and inverts `Value`) |
| NeoPixelByte.PaintAt | PicoHWs/LAB1/LAB1NEOPIX.py:73-74 | after `n` iterations of the write loop: it has raised exactly when it reached the eighth with digit 0 set; pixel `k` in `1 .. 7` is red when its digit was visited and is 1; pixel 0 is red when a visited digit is 0 |
| NeoPixelByte.ByteDisplayPixels | PicoHWs/LAB1/LAB1NEOPIX.py:62-76 | out of range: nothing changes; in range: the call raises exactly when bit 7 is set, pixel `k` in `1 .. 7` shows bit `k - 1`, pixel 0 is red when some bit is clear, the rest keep their colour |
| NeoPixelByte.ByteDisplayRaisesOnHighBit | PicoHWs/LAB1/LAB1NEOPIX.py:74 | showing 128 writes `np[8]` on the eight-pixel strip and raises |
| NeoPixelByte.ByteDisplay | PicoHWs/LAB1/LAB1NEOPIX.py:62-76 | the loop over the array leaves the strip `Display` describes and reports the out-of-range write |
| NeoPixelByte.Shown | PicoHWs/LAB1/LAB1NEOPIX.py:62-67 | the intended display has one pixel per bit |
| NeoPixelByte.ShownReadsBack | PicoHWs/LAB1/LAB1NEOPIX.py:62-67 | in the intended display pixel `k` is red exactly when bit `k` is set, and reading the strip back gives the value |
| NeoPixelByte.ByteDisplayFixed | PicoHWs/LAB1/LAB1NEOPIX.py:62-76 | the corrected loop leaves the intended display in range and the strip untouched out of range |
| NeoPixelByte.DebounceEdges | PicoHWs/LAB1/LAB1NEOPIX.py:21-38 | a call changes the button state exactly when the reading differs from the remembered one and more than the threshold has passed; a counted press sets `isup`, a counted release adds one press and sets `isdown`, each remembering the reading and time |
| NeoPixelByte.PollsCount | PicoHWs/LAB1/LAB1NEOPIX.py:21-38 | over any readings the press count never falls, grows by at most one per reading, and `isup` and `isdown` are never both set |
| NeoPixelByte.Button.constructor | PicoHWs/LAB1/LAB1NEOPIX.py:11-19 | a new button is released, with no presses and the last press at the creation time |
| NeoPixelByte.Button.EliminateDebounce | PicoHWs/LAB1/LAB1NEOPIX.py:21-38 | the fields after the call are `Debounce` of the fields before |
| Ticks.TicksDiff | PicoHWs/LAB3.py:29 | `ticks_diff` lies in `[-2^29, 2^29)` and is congruent to `a - b` modulo the tick period `2^30` |
| Ticks.TicksDiffPlain | PicoHWs/LAB3.py:29 | readings less than half a period apart differ by plain subtraction |
| QuadratureEncoder.ReadQrd | PicoHWs/LAB3.py:47-50 | the level is 0 or 1, and 1 exactly for a reading under 10000 |
| QuadratureEncoder.Delta | PicoHWs/LAB3.py:61-81 | one pass changes the count by at most one, by nothing in an unknown mode; in X1 on A's rising edge, in X2 on any change of A, in X4 also on a change of B while A held, +1 for the forward phase order and -1 for the backward |
| QuadratureEncoder.FullTurn | PicoHWs/LAB3.py:61-85 | a full forward turn of the disc counts +1, +2 and +4 in X1, X2 and X4, a backward turn the negation |
| QuadratureEncoder.StepBackUndoes | PicoHWs/LAB3.py:67-81 | in X2 and X4 a one-sensor step followed by the step back leaves the count unchanged |
| QuadratureEncoder.Encoder.constructor | PicoHWs/LAB3.py:12-21 | the globals start at count 0, both levels 0, mode X1 and no presses |
| QuadratureEncoder.Encoder.ButtonLHandler | PicoHWs/LAB3.py:25-32 | past the 200 ms debounce the mode moves to the next of X1, X2, X4 cyclically and the press time is stored; otherwise nothing changes |
| QuadratureEncoder.Encoder.ButtonRHandler | PicoHWs/LAB3.py:34-41 | past the 200 ms debounce the count is cleared and the press time stored; otherwise nothing changes |
| QuadratureEncoder.Encoder.Cycle | PicoHWs/LAB3.py:52-85 | one pass of the main loop adds `Delta` of the new levels to the count and stores the levels |

## Left out

- HeadingSearch.SearchClass.NeighborsAndCosts: the turning-and-driving costs are exact reals, where the source adds Python floats; rounding there can create or break a tie between equal-cost entries in the heap, and so change which of several equally cheap paths `HeadingSearch.SearchClass.FindPath` returns. The proved properties (a returned path is a path of moves to the goal, an empty queue means no path) do not depend on such ties.
- NeoPixelByte.ByteDisplay: only `byte_display` on its own is modelled. The script as written never reaches it: LAB1NEOPIX.py:44 uses `machine.Pin(2)` but imports only `Pin` and `ADC` from `machine`, so it stops with NameError. It also never calls `np.write()`, so the strip the model describes is the NeoPixel buffer, not what the LEDs show.
- Lattice.Intersection: the coordinates HoughLinesP returns are numpy `int32`, and `compute_intersection` (GridDetectionFinal2.py:5-15 and its copies in the other detector scripts) multiplies them in that type, so its terms wrap modulo 2^32; the model computes with unbounded integers. `IntersectionFitsInt32` proves that no term wraps while every coordinate lies in 0 .. 1000 pixels, so on a 640 x 480 frame the model is exact. On 1280 x 720 frames a difference of two products can pass 2^31, and on 1920 x 1080 frames a single product can (`IntersectionOverflowsAt1080`); there the script's points differ from the model's.
- CellSearch.Search: the loop takes an iteration budget (`fuel`) that the source does not have, and answers `OutOfFuel` when it runs out. Fuel above `FuelBound(rows, cols)`, the square of the board size, is proved enough, so `OutOfFuel` never happens then. The same holds for PlainSearch.SearchClass.FindPath, Pathfinding.AStar, PathfindingApp.App.FindPath, PathfindingApp.App.AutoUpdatePath and PathfindingApp.App.OnClick, which pass the budget on.
- HeadingSearch.SearchClass.FindPath: it takes the same kind of budget, but its step costs are real-valued parameters (the weights, the speeds and the cell rewards). No bound on its pops is proved, so there `OutOfFuel` remains a model artefact; the source runs until its open set is empty.
- Norms, headings, warps, triangles and the inside test are parameters: `norm` (`np.linalg.norm` and `np.hypot` where the source averages or compares two of them), `angleOf` (the `atan2` heading of a marker), `warpOf` (`warp_point`, the homography division), `triangleOf` (`get_triangle_corners`, trigonometry) and `inside` (`point_in_polygon`, `cv2.pointPolygonTest`). The lemmas hold for every such function. A homography is kept as the four lattice corners it is computed from.
- OpenCV's camera, colour conversion, thresholding, Canny, `HoughLinesP` and `aruco.detectMarkers` are not modelled: a frame is the segments and the marker detections found in it.
- Floating point: points are integer pixels, and a norm compared with a threshold is a comparison of squared integers. Where the source compares two floating-point square roots, the model compares the exact squares, so ties that rounding would break either way are decided exactly.
- LatticeCluster.ClusterPoints: the mean of a cluster is `np.mean(...).astype(int)`, truncation toward zero of the exact mean. This assumes numpy 1.24 or later, where the cast truncates, and it ignores the rounding of the float mean and of `sqrt` in the distance mask.
- Movement5.CorrectionSteps: `int(round(abs(diff) * 51 / 135))` is modelled exactly for integer distances, with round-half-even never needed, as RoundedStepsNearest shows; the float product itself is not modelled.
- Link.Detector: the detector is a finite script of integer readings (`Link.Pose` is `(x, y, degrees)` with integer degrees). `get_robot_position()` in GridDetectionFinal2.py:449-451 returns the float heading computed at line 273, so a heading error such as 5.4 degrees, which the angle correction of movement_class5.py:174-181 acts on, cannot be represented. The finite script is also what ends the correction loops: once its readings run out the detector answers `None`, where the source's `while True` loops go on reading the camera.
- Link.Detector: `get_expected_angle` and `set_expected_angle`, which movement_class2.py:50 and :105 call, are defined in no detector in the repository; the model keeps the expected angle as a stored field of the detector with a getter and a setter.
- Link.Socket: a socket is a script of replies fixed in advance, and one `recv` returns exactly one reply line. The source's `recv(1024)` can return part of a line or several lines, and the firmware's replies can be split or merged in transit; that is not modelled.
- Timeouts (`settimeout`, the 5 s acknowledgement timeout), `time.sleep`, the `socket_lock`, prints and the logging of each client are left out; a timeout is a script entry that answers nothing.
- Text.ParseInt: accepts ASCII digits with an optional sign only; Python's int() also takes digit underscores ("1_0") and non-ASCII decimal digits, so the firmware's reply to such a value differs
- Text.Upper: upper-cases ASCII letters only; Python's `str.upper()` also maps other letters, which no verb of the link contains.
- Exceptions are results: a raised exception (a `ValueError` from `int()`, an `IndexError`, a `ZeroDivisionError`, the `NameError` of movement_class3.py:143, the `AttributeError` of a missing detector) is a `raised`/`Fail`/`Raised` outcome, and a `try`/`except` that catches it is the branch that reads that outcome.
- GUIs and games: the tkinter front-ends, the pygame drawing of the snake searches, the mediapipe games and the camera display scripts are not part of this model; PathfindingApp keeps only the selection logic of `on_click` and the planner, with clicks as pixel coordinates.
- Drawing: every `cv2.line`, `cv2.polylines`, `cv2.putText` and `imshow` is left out; LatticeNumbering models `draw_grid` by the labels it would draw and where it would fail.
- Trackbars: the "Cluster Distance", "Update Threshold", "Grid Detection" and "Stability Factor" trackbars are read as parameters of each frame.
- Concurrency: the status threads and the GUI threads that share a `MovementClass` are not modelled.
- Randomness and eval: `generate_grid`, `generate_food` and the `eval`-built food objects are not modelled; FoodPoints takes the food list as given.
- GridDetection22.py and GridDetection8.py do not parse as Python (an `if __name__` with no body at GridDetection22.py:393-394, a misaligned `except` at GridDetection8.py:162); their helpers are modelled as written, and so is the frame loop of GridDetection22.py, while the script of GridDetection8.py is not.
- LatticeMemory.GateSpec: `find_grid_intersections` of GridDetection14.py compares fresh point `i` with last row `i` through a broadcast norm of a point against a whole row; the model takes that norm as the `norm` parameter applied to the row's differences and keeps the kept row as a list entry of its own (a `GateItem`), which is how the script splices rows into its point list.
- ImageProc.ImageProcessor.FindRobotCell: `cell_size` is taken after `int()`; the float size itself is not modelled.
- NeoPixelByte.EliminateDebounce and the QuadratureEncoder handlers: the GPIO pins, the `Pin.irq` interrupt registration, PWM and ADC are not modelled; the interrupt handlers are methods called with the current time, and the sensor readings are arguments of each cycle.
- Ticks.TicksDiff: `ticks_ms()` wraps at 2^30 as on the RP2040 port; other ports' periods are not modelled.
- The label converter of the GUI files duplicates `_converter`, which Motion models; the GUI copies are not modelled.
- LAB2.py, FirstPicoChallange.py, the DC, Servo and Step_Lab firmware, the PicoControl servers and the websockets client are not part of this model.

## Findings

| source | as written | input that shows it | evidently intended | confidence | as-written member | corrected member |
|---|---|---|---|---|---|---|
| Final_Project/noros/test/movement_class5.py:218-262 | at headings 0 and 270 a robot short of the cell centre is sent BACK, and one past it FORWARD | heading 0 at (80, 50) with the cell centre at (100, 50): the error is 20, above the threshold of 10, and the code sends BACK | forward when short of the centre, back when past it, as the comment on the heading-0 branch says and as headings 90 and 180 do | not executed | Movement5.DirectionAsWrittenDrivesAway | Movement5.DirectionCloses |
| Final_Project/ImgProc/GridDetection14.py:129-130 | the old centre of cell (i, j) is looked up at `i * len(grid_intersections) + j`, the number of rows times i, not the cells per row | a 3 x 3-point lattice (3 rows, 2 cells per row) seen twice with threshold 5: cell 3 (row pair 1, column 0) is looked up at index 1 * 3 + 0, the old centre of cell 4, and is drawn there although nothing moved | the flat index of the cell, the count of cells in the rows before it plus j | not executed | LatticeMemory.WrittenIndexMisplaces | LatticeMemory.SteadiedFixed |
| PicoHWs/LAB1/LAB1NEOPIX.py:73-74 | bit `i - 1` lights pixel `int(binary[8 - i]) * i`, that is pixel `i` when set and pixel 0 when clear, so a set bit 7 writes `np[8]` on an eight-pixel strip and raises IndexError. This is about `byte_display` on its own: the script as written stops earlier, at line 44, and it never calls `np.write()` (see `NeoPixelByte.ByteDisplay` under Left out) | `ByteDisplay(128)` | pixel `k` lit exactly when bit `k` is set, for k in 0..7, so that the strip reads back as the number | not executed | NeoPixelByte.ByteDisplayRaisesOnHighBit | NeoPixelByte.ShownReadsBack |
