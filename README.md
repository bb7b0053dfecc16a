# Contour line generator: a verified model of the extraction core

ContourLineGenerator draws the contour lines of a greyscale height image.
`ContourDrawer` samples the image on a square grid every `stepSize`
pixels. For every iso level 250, 250 − `contourInterval`, … while the level
is positive, it runs marching squares over the cells. `GetCaseId` gives the
sixteen-way case and `GetLineCase` gives the segments. Segments whose two ends
coincide are dropped, and levels that collected nothing are skipped.

`MergeContinuousLines` then stitches one level's segments into polylines
with a greedy loop:
- It extends the polyline at its tail, otherwise at its head, with the first
  segment that has an end within `stepSize / 2` of it, and removes that segment.
- If no segment continues the polyline, it submits the polyline and reseeds.
- A polyline is submitted only if it has more than three points and its
  `GetArea` exceeds `smallestAllowedRadius`.

A submitted `ContourLine` is smoothed by `CubicBezier` and then
`QuadraticBezier`, two in-place De Casteljau passes at t = 0.5.

The model has seven modules, one file each:
- `Geometry`: points, interpolation, squared distance.
- `Segments`: the `Line` record.
- `MarchingSquares`: the height image, `LineShapes`, `GetCaseId`, `GetLineCase`.
- `Polylines`: the `ContourLine` class and the value functions its loops are proved against.
- `Stitching`: one iteration and the whole loop of `MergeContinuousLines`, stated on values.
- `Sweep`: the iso levels and the nested grid loops, stated on values.
- `Drawer`: the `ContourDrawer` class.

The methods of `ContourLine` and `ContourDrawer` keep the source's loops. Each
one is proved to compute its value function, and the source's promises are
proved as lemmas about those functions.

Some behaviour of the code that the model keeps as written:
- `searchRadius = stepSize / 2` is an integer division, so the default step
  of 3 searches within 1 pixel, not 1.5.
- A new polyline is seeded with the start of the first remaining segment only.
- The polyline still being built when the segment list runs out is never
  submitted (`Stitching.FinalLineDropped`).
- The cubic pass runs before the quadratic pass.
- Because the list shifts after the first removal, the cubic pass removes
  the old points i+1 and i+3, not i+1 and i+2.
- `Class/Line.cs` declares a two-argument constructor and no height. Its
  callers build segments with a third argument, the iso value, and read it
  back with `GetHeight`, so the `Line` record here carries that height.

## Model

| member | source | states |
|---|---|---|
| Geometry.Lerp | Class/ContourLine.cs:42-44 | interpolating with fraction 0 gives the first point and with fraction 1 the second |
| Geometry.LerpBetween | Class/ContourDrawer.cs:236-237 | with a fraction in [0, 1] the interpolated point stays in the box spanned by the two points, and a coordinate the two share is kept |
| Geometry.DistSq | Class/ContourLine.cs:27 | a squared distance is never negative |
| Geometry.WithinRadius | Class/ContourDrawer.cs:147 | a point is within every positive radius of itself; nothing is within radius 0 |
| Segments.AccessorsReturnArguments | Class/Line.cs:12-28 | GetStart, GetEnd and GetHeight return exactly what the constructor was given |
| Segments.DegenerateRepresentable | Class/Line.cs:12-16 | the constructor accepts equal ends, giving a degenerate segment the caller must drop |
| MarchingSquares.ShapeId | Class/ContourDrawer.cs:394-412 | every LineShapes member has a value in 0 .. 15 |
| MarchingSquares.ToShape | Class/ContourDrawer.cs:390 | casting a value in 0 .. 15 gives the member with that value |
| MarchingSquares.ShapeIdRoundTrip | Class/ContourDrawer.cs:390-412 | casting a member's value back gives the member |
| MarchingSquares.GetCaseId | Class/ContourDrawer.cs:368-391 | bit 8, 4, 2 or 1 is set exactly when corner a, b, c or d is at or above the iso value; the case is Empty exactly when all four are below it and All exactly when all are at or above it |
| MarchingSquares.IfChainAgrees | Class/ContourDrawer.cs:232-362 | the ten independent `if` statements add exactly the segments of the one branch for the case: every case passes one condition only |
| MarchingSquares.CaseEdgesCount | Class/ContourDrawer.cs:232-362 | cases 0 and 15 give no segment, the saddles 5 and 10 give two, every other case gives one |
| MarchingSquares.SaddlePairing | Class/ContourDrawer.cs:287-356 | case 5 with a positive resolver pairs the edges as case 10 does with a non-positive one, and the other way round; the two pairings differ |
| MarchingSquares.CaseEdgesCross | Class/ContourDrawer.cs:228-356 | every edge a case interpolates along is a side of the cell whose two corners lie on opposite sides of the iso value |
| MarchingSquares.CrossOnEdge | Class/ContourDrawer.cs:232-286 | on such an edge the denominator is non-zero, the fraction lies in [0, 1], and the end point lies on the side between the two corners: the coordinate they share is kept and the other lies between theirs, so it is on the boundary of the cell |
| MarchingSquares.CrossReversible | Class/ContourDrawer.cs:236-237 | interpolating from either end of an edge gives the same point |
| MarchingSquares.NeighboursAgree | Class/ContourDrawer.cs:232-356 | a cell and its right or lower neighbour compute the same point on the side they share, in each of the two directions either cell interpolates along it, so their segments meet |
| MarchingSquares.Cross | Class/ContourDrawer.cs:234-237 | an end point: the interpolation along one edge at the iso value; `CrossOnEdge`, `CrossReversible` and `NeighboursAgree` state its properties |
| MarchingSquares.CaseEdges | Class/ContourDrawer.cs:232-362 | the edge pairs each case interpolates along, with the saddle resolver; `CaseEdgesCount`, `CaseEdgesCross` and `SaddlePairing` state its properties |
| MarchingSquares.LineCase | Class/ContourDrawer.cs:228-363 | the segments of one cell at the iso value; `LineCaseSpec` and `IfChainAgrees` state its properties |
| MarchingSquares.GetLineCase | Class/ContourDrawer.cs:208-364 | the segments of the cell read from the image at (x, y); `LineCaseSpec` states its properties and `NeighboursAgree` how neighbours meet |
| MarchingSquares.LineCaseSpec | Class/ContourDrawer.cs:208-364 | GetLineCase gives 0, 1 or 2 segments by case; each carries the iso value and has both ends on the boundary of the cell |
| MarchingSquares.DegenerateSegmentsOccur | Class/ContourDrawer.cs:232-240 | a corner exactly at the iso value can collapse a segment to a point, here for a case-1 cell |
| Polylines.Spread | Class/ContourLine.cs:23-31 | the value GetArea yields on a fresh line: the mean squared distance to the first point; `SpreadProperties` states its properties |
| Polylines.SpreadProperties | Class/ContourLine.cs:23-31 | the mean squared distance to the first point is never negative, and the first point contributes nothing to it |
| Polylines.QuadPointWeights | Class/ContourLine.cs:38-44 | the three interpolations give (p0 + 2 p1 + p2) / 4 |
| Polylines.QuadraticPass | Class/ContourLine.cs:34-49 | the point list after the quadratic loop; `QuadraticPassSpec` states its properties |
| Polylines.QuadraticPassSpec | Class/ContourLine.cs:34-49 | the quadratic pass keeps the point count, point 0 and the last two points; each point k in 1 .. n-3 becomes the De Casteljau point of its already smoothed predecessor and its two old neighbours; a line of at most three points is unchanged |
| Polylines.CubicPointWeights | Class/ContourLine.cs:56-66 | the six interpolations give (p0 + 3 p1 + 3 p2 + p3) / 8 |
| Polylines.CubicStep | Class/ContourLine.cs:57-70 | one iteration of the cubic loop shortens the list by exactly one point |
| Polylines.CubicEditIsStep | Class/ContourLine.cs:68-70 | RemovePoint(i+1), RemovePoint(i+2), AddPoint(s, i+1) remove the old points i+1 and i+3 and put s in front of the old point i+2 |
| Polylines.CubicPass | Class/ContourLine.cs:52-72 | the point list after the cubic loop; `CubicStep`, `CubicEditIsStep` and `CubicPassSpec` state its properties |
| Polylines.CubicPassSpec | Class/ContourLine.cs:52-72 | a line of at most four points is unchanged; otherwise the pass runs ceil((n-4)/2) iterations, leaves n - (n-3)/2 points, and keeps the first and the last point |
| Polylines.SmoothingKeepsEnds | Class/ContourDrawer.cs:193-194 | the cubic then quadratic pass leaves at least four points of a line that had more than three and keeps both end points |
| Polylines.ContourLine.constructor | Class/ContourLine.cs:7-8 | a new line has no points and a zero height and area |
| Polylines.ContourLine.SetHeight | Class/ContourLine.cs:11-20 | GetHeight afterwards returns the height set, and the points and area are unchanged |
| Polylines.ContourLine.AddPoint | Class/ContourDrawer.cs:149 | appends the point and changes nothing else |
| Polylines.ContourLine.AddPointAt | Class/ContourDrawer.cs:168 | inserts the point in front of the given index, or appends for an index outside the list, and changes nothing else |
| Polylines.ContourLine.RemovePoint | Class/ContourLine.cs:46 | removes the point at the index, or nothing for an index outside the list, and changes nothing else |
| Polylines.ContourLine.GetArea | Class/ContourLine.cs:23-31 | the area field becomes the old field plus the sum of squared distances to the first point, divided by the count; that is the result; the points and height are unchanged |
| Polylines.ContourLine.QuadraticBezier | Class/ContourLine.cs:34-49 | the point list becomes the quadratic pass of the old list; height and area are unchanged |
| Polylines.ContourLine.CubicBezier | Class/ContourLine.cs:52-72 | the point list becomes the cubic pass of the old list, the loop bound being re-read as the list shrinks; height and area are unchanged |
| Polylines.ContourLine.RemoveKnots | Class/ContourLine.cs:75-79 | the points, height and area are all unchanged |
| Stitching.SearchRadius | Class/ContourDrawer.cs:134 | `stepSize / 2` is integer division: the radius is positive exactly when stepSize >= 2, and is stepSize halved, rounded down |
| Stitching.FindForward | Class/ContourDrawer.cs:143-159 | the forward search finds nothing exactly when no segment has an end near the tail; otherwise it returns the lowest such index, whose end opposite the first end found near the tail (start tested first) is added |
| Stitching.FindBackward | Class/ContourDrawer.cs:162-179 | the same for the head, testing the end before the start |
| Stitching.RemoveAt | Class/ContourDrawer.cs:184 | removing index k keeps the segments before k and shifts those after it down by one |
| Stitching.RemoveAtBag | Class/ContourDrawer.cs:184 | removal takes exactly that one segment out of the multiset |
| Stitching.Accepts | Class/ContourDrawer.cs:189 | the acceptance test on a fresh line: more than three points and an area above smallestAllowedRadius; `Drawer.ContourDrawer.Submit` is proved to apply it |
| Stitching.Finish | Class/ContourDrawer.cs:191-195 | an accepted line after RemoveKnots, CubicBezier, QuadraticBezier and SetHeight; `SmoothingKeepsEnds` states its shape |
| Stitching.Step | Class/ContourDrawer.cs:138-203 | one iteration of the while loop; `StepSpec` and `StepDecreases` state its properties |
| Stitching.StepSpec | Class/ContourDrawer.cs:138-203 | in one iteration, when some segment has an end near the tail, the first such segment is removed and its far end (start tested first) is appended; otherwise, when one is near the head, the first such segment is removed and its far end (end tested first) is inserted at index 0; otherwise no segment is removed, the line is submitted exactly when it passes the acceptance test, and a new line starts at the first segment's start |
| Stitching.StepDecreases | Class/ContourDrawer.cs:136-203 | with a positive radius every iteration lowers the measure: a match removes a segment, and after a reseed the next search hits the first segment at distance zero |
| Stitching.Run | Class/ContourDrawer.cs:136-204 | the while loop from a given state; `RunSpec` states its properties |
| Stitching.MergeLines | Class/ContourDrawer.cs:129-205 | the polylines one call submits; `MergeLinesSpec` states their properties and `FinalLineDropped` the last line's fate |
| Stitching.RunSpec | Class/ContourDrawer.cs:136-204 | the loop ends with no segment left; it only appends to the submitted list, and everything it appends has the level's height, an area above the minimum and at least four points |
| Stitching.MergeLinesSpec | Class/ContourDrawer.cs:129-204 | every polyline one call submits has the first segment's height, an area strictly above smallestAllowedRadius and at least four points |
| Stitching.FinalLineDropped | Class/ContourDrawer.cs:136-185 | when the last segment is consumed by a match the loop stops, and the line in progress, one point longer, is not submitted |
| Stitching.ZeroRadiusNeverRemoves | Class/ContourDrawer.cs:134-185 | with radius 0 (stepSize 0 or 1) no number of iterations removes a segment, so the loop never ends |
| Sweep.LevelsFrom | Class/ContourDrawer.cs:84 | every level the loop visits lies in 1 .. the start value, and there is one exactly when the start is positive |
| Sweep.LevelAt | Class/ContourDrawer.cs:84 | level k is the start value less k intervals |
| Sweep.LevelsExhausted | Class/ContourDrawer.cs:84 | one more interval after the last level is not positive |
| Sweep.LevelsDecrease | Class/ContourDrawer.cs:84 | the levels strictly decrease |
| Sweep.LevelsCount | Class/ContourDrawer.cs:84 | one interval fewer than the number of levels stays below the start value |
| Sweep.IsoLevels | Class/ContourDrawer.cs:84 | the iso values the loop visits; `IsoLevelsSpec` states its properties |
| Sweep.IsoLevelsSpec | Class/ContourDrawer.cs:84 | the levels start at 250, all lie in 1 .. 250, strictly decrease, and there are ceil(250 / interval) of them |
| Sweep.Coords | Class/ContourDrawer.cs:89-91 | every coordinate a grid loop visits lies between its start and its bound, so all four pixel reads of a cell are inside the image |
| Sweep.KeepProper | Class/ContourDrawer.cs:97-103 | the foreach keeps exactly the segments whose ends differ |
| Sweep.RowMember | Class/ContourDrawer.cs:91-105 | a segment is in a row exactly when one of the row's cells contributes it |
| Sweep.GridMemberSound | Class/ContourDrawer.cs:89-106 | every segment of the grid comes from a visited cell |
| Sweep.GridMemberComplete | Class/ContourDrawer.cs:89-106 | every segment a visited cell contributes is in the grid |
| Sweep.LevelSegments | Class/ContourDrawer.cs:86-106 | the segment list one level collects; `LevelSegmentSound`, `LevelSegmentComplete` and `LevelSegmentsHeight` state its properties |
| Sweep.LevelSegmentSound | Class/ContourDrawer.cs:86-106 | every segment collected at a level is not degenerate, carries the level's value, and has both ends on the boundary of a visited cell |
| Sweep.LevelSegmentComplete | Class/ContourDrawer.cs:86-106 | every non-degenerate segment of a visited cell is collected |
| Sweep.LevelSegmentsHeight | Class/ContourDrawer.cs:86-106 | every segment collected at a level carries the level's value |
| Sweep.ByHeight | Class/ContourDrawer.cs:108-112 | every kept list is non-empty, and there are no more lists than levels |
| Sweep.ByHeightSpec | Class/ContourDrawer.cs:84-113 | every kept list is the whole segment list of one swept level, all at that level's value, and every level that collected a segment is kept |
| Sweep.MergeAll | Class/ContourDrawer.cs:116-119 | the polylines the foreach submits for the kept lists; `MergeAllSpec` states their properties |
| Sweep.MergeAllSpec | Class/ContourDrawer.cs:116-119 | every polyline added for the kept lists has an area above the minimum, at least four points and the height of one list's first segment |
| Sweep.Drawing | Class/ContourDrawer.cs:78-126 | the contour list DrawContours produces for an image; `DrawingSpec` states its properties |
| Sweep.DrawingSpec | Class/ContourDrawer.cs:78-126 | every contour drawn lies at one of the swept iso levels, has at least four points and an area strictly above smallestAllowedRadius |
| Drawer.ContourDrawer.constructor | Class/ContourDrawer.cs:14-27 | the drawer holds the given image and settings and no contour lines |
| Drawer.ContourDrawer.Ready | Class/ContourDrawer.cs:29-45 | after loading, the contour list is exactly the drawing of the image |
| Drawer.ContourDrawer.SweepLevel | Class/ContourDrawer.cs:86-106 | the two grid loops and the foreach collect exactly the level's segment list |
| Drawer.ContourDrawer.SweepLevels | Class/ContourDrawer.cs:81-113 | the iso loop builds exactly the kept segment lists, in level order |
| Drawer.ContourDrawer.MergeContinuousLines | Class/ContourDrawer.cs:129-205 | the while loop appends to the contour list exactly the polylines the value model of the loop submits |
| Drawer.ContourDrawer.MergeStep | Class/ContourDrawer.cs:138-203 | the loop body moves the segment list, the line in progress and the contour list exactly as one iteration of the value model does |
| Drawer.ContourDrawer.SearchForward | Class/ContourDrawer.cs:143-159 | the forward loop returns -1 and leaves the line alone when the forward search finds nothing, and otherwise returns the hit index and appends the hit point |
| Drawer.ContourDrawer.SearchBackward | Class/ContourDrawer.cs:164-178 | the backward loop returns -1 and leaves the line alone when the backward search finds nothing, and otherwise returns the hit index and inserts the hit point in front |
| Drawer.ContourDrawer.Submit | Class/ContourDrawer.cs:189-198 | the line is added, smoothed and at the level's height, exactly when it has more than three points and its area exceeds smallestAllowedRadius |
| Drawer.ContourDrawer.MergeLevels | Class/ContourDrawer.cs:116-119 | stitching each kept list in turn appends exactly their polylines, in order |
| Drawer.ContourDrawer.DrawContours | Class/ContourDrawer.cs:78-126 | the contour list gains exactly the drawing of the image |

## Left out

- Engine glue is not modelled: texture loading and the null check in `_Ready`, `AddChild`, `SetTheme`, `AddHeightLabels` and the width and colour assignment in `_Process`. `SetTheme` and `AddHeightLabels` are treated as leaving the point list alone. The `_Process` rule that thickens every fifth level is presentation only.
- The `GetWidth` and `GetHeight` accessors of the drawer are not modelled. The width and height are fields of the height image here.
- Class/PlayerCamera.cs and Class/MapGrid.cs are not part of this model. They hold camera input handling and grid drawing.
- Floating point is not modelled. Coordinates, heights and areas are exact reals. `DistanceTo(p) < r` is compared on squares, which agrees for a non-negative radius. The float iso loop variable is an integer level, which is exact because every level is a whole number.
- `Image.GetPixel(..).R8` is a sequence of rows of bytes. Line2D's point list is a `seq` field with its `AddPoint`, `AddPoint(p, index)` and `RemovePoint`. An out-of-range index follows Line2D: `AddPoint(p, index)` appends and `RemovePoint` leaves the list alone. Every index the core uses is in range.
- Drawer.ContourDrawer.SweepLevel: requires stepSize > 0. With a step of 0 the source's grid loops do not advance. With a negative step `y += stepSize` drives y below 0, and the loops go on reading pixels at negative coordinates, outside the image, which the height image here cannot represent.
- Drawer.ContourDrawer.MergeContinuousLines: requires stepSize >= 2. With a step of 0 or 1 the search radius is 0 and the source's loop never ends. `Stitching.ZeroRadiusNeverRemoves` states that behaviour on the value model.
- Drawer.ContourDrawer.DrawContours: requires stepSize >= 2 and contourInterval > 0. With contourInterval <= 0 the source's iso loop never ends. With stepSize 0 or 1 its stitching loop never ends as soon as one level collects a segment. The requires also excludes the case where no level collects a non-degenerate segment: there the source never calls `MergeContinuousLines` and ends with no contours. `Drawer.ContourDrawer.Ready` has the same requirements.
- Drawer.ContourDrawer.Ready: requires a well-formed image. The source's missing-texture branch only prints an error.
- Polylines.ContourLine.GetArea: requires at least one point. On an empty line the source divides zero by zero, giving NaN, which a real cannot represent. The drawer only calls it on lines of more than three points.
- The drawer's contour list holds each accepted line's points, height and area as a value, not a reference to the node. This is safe because, once a node is accepted, the source never changes its points, height or area again, and it starts a fresh node. `AddChild` and `_Process` still use the node, but only as engine glue.
- Drawer.ContourDrawer.MergeContinuousLines: takes the level's segment list as a value. The source empties the caller's list in place, and the caller never reads that list again, so this is not observable.
