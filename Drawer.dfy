/** The ContourDrawer node of Class/ContourDrawer.cs, without the engine:
    the height image is a value given at construction, and the list of
    contour lines holds the lines' observable state. DrawContours sweeps
    the iso levels with nested loops, and MergeContinuousLines stitches a
    level's segments with a while loop that removes segments from a list
    and grows a ContourLine object; both are proved to compute the value
    specifications of modules Sweep and Stitching. */
module Drawer {
  import opened Geometry
  import opened Segments
  import opened Polylines
  import opened MarchingSquares
  import opened Stitching
  import opened Sweep

  class ContourDrawer {
    /** `heightMapData`, whose width and height are the drawer's. */
    const heightMapData: HeightMap
    const contourInterval: int
    const stepSize: int
    const smallestAllowedRadius: real
    /** The contour lines produced so far. */
    var contourLines: seq<Polyline>

    constructor (hm: HeightMap, interval: int, step: int, minRadius: real)
      ensures heightMapData == hm && contourInterval == interval && stepSize == step
      ensures smallestAllowedRadius == minRadius && contourLines == []
    {
      heightMapData := hm;
      contourInterval := interval;
      stepSize := step;
      smallestAllowedRadius := minRadius;
      contourLines := [];
    }

    /** `_Ready` once the image is loaded: start from an empty list and
        draw. */
    method Ready()
      requires heightMapData.Valid() && stepSize >= 2 && contourInterval > 0
      modifies this
      ensures contourLines == Drawing(heightMapData, stepSize, contourInterval, smallestAllowedRadius)
    {
      contourLines := [];
      DrawContours();
    }

    /** The two for-loops of DrawContours at one iso value: every cell of
        the grid, row by row, keeping the segments whose ends differ. */
    method SweepLevel(isoValue: real) returns (linesAtHeight: seq<Line>)
      requires heightMapData.Valid() && stepSize > 0
      ensures linesAtHeight == LevelSegments(heightMapData, stepSize, isoValue)
    {
      var hm, step := heightMapData, stepSize;
      CellFnAgrees(hm, step, isoValue);
      ghost var f: (int, int) -> seq<Line> :| Agrees(f, hm, step, isoValue);
      ghost var goal := GridFrom(f, hm.width, hm.height, step, 0);
      linesAtHeight := [];
      var y := 0;
      while y < hm.height - step
        invariant 0 <= y
        invariant linesAtHeight + GridFrom(f, hm.width, hm.height, step, y) == goal
        decreases hm.height - y
      {
        ghost var rowStart := linesAtHeight;
        var x := 0;
        while x < hm.width - step
          invariant 0 <= x
          invariant linesAtHeight + RowFrom(f, hm.width, step, y, x) == rowStart + RowFrom(f, hm.width, step, y, 0)
          decreases hm.width - x
        {
          var lines := GetLineCase(hm, step, x, y, isoValue);
          ghost var cellStart := linesAtHeight;
          var j := 0;
          while j < |lines|
            invariant 0 <= j <= |lines|
            invariant linesAtHeight == cellStart + KeepProper(lines[..j])
          {
            KeepStep(linesAtHeight, cellStart, lines, j);
            if lines[j].GetStart() != lines[j].GetEnd() {
              linesAtHeight := linesAtHeight + [lines[j]];
            }
            j := j + 1;
          }
          KeepDone(linesAtHeight, cellStart, lines, j);
          assert Agrees(f, hm, step, isoValue);
          assert f(x, y) == KeepProper(lines);
          RowStep(f, hm.width, step, y, x, cellStart, rowStart, KeepProper(lines));
          x := x + step;
        }
        RowDone(f, hm.width, hm.height, step, y, x, linesAtHeight, rowStart, goal);
        y := y + step;
      }
      GridDone(f, hm.width, hm.height, step, y, linesAtHeight, goal);
      AgreesLevel(f, hm, step, isoValue);
    }

    /** Stitches one level's segments into contour lines and adds the
        accepted ones to the list. The segment list is the caller's, which
        the source empties in place; the caller never reads it again, so it
        is a local copy here. */
    method MergeContinuousLines(lines: seq<Line>)
      requires |lines| > 0 && stepSize >= 2
      modifies this
      ensures contourLines == old(contourLines) + MergeLines(lines, SearchRadius(stepSize), smallestAllowedRadius)
    {
      var remaining := lines;
      var height := lines[0].GetHeight();
      var contourLine := new ContourLine();
      contourLine.AddPointAt(remaining[0].GetStart(), 0);
      var searchRadius := SearchRadius(stepSize);
      ghost var accepted: seq<Polyline> := [];
      ghost var goal := Run(Init(lines), searchRadius, smallestAllowedRadius, height);

      while |remaining| > 0
        invariant fresh(contourLine) && contourLine.area == 0.0 && |contourLine.points| > 0
        invariant contourLines == old(contourLines) + accepted
        invariant Run(MergeState(remaining, contourLine.points, accepted),
                      searchRadius, smallestAllowedRadius, height) == goal
        decreases Measure(MergeState(remaining, contourLine.points, accepted))
      {
        ghost var st := MergeState(remaining, contourLine.points, accepted);
        StepDecreases(st, searchRadius, smallestAllowedRadius, height);
        RunUnfold(st, searchRadius, smallestAllowedRadius, height);
        contourLine, remaining, accepted :=
          MergeStep(contourLine, remaining, height, searchRadius, old(contourLines), accepted);
      }
    }

    /** One iteration of the while loop of MergeContinuousLines: search
        forward, then backward; remove the segment found, or else submit
        the contour line and start a new one at the first segment left. */
    method MergeStep(contourLine: ContourLine, remaining: seq<Line>, height: real, searchRadius: nat,
                     ghost base: seq<Polyline>, ghost accepted: seq<Polyline>)
      returns (next: ContourLine, rest: seq<Line>, ghost acceptedNext: seq<Polyline>)
      requires |remaining| > 0 && |contourLine.points| > 0 && contourLine.area == 0.0
      requires contourLines == base + accepted
      modifies this, contourLine
      ensures next == contourLine || fresh(next)
      ensures next.area == 0.0 && |next.points| > 0
      ensures contourLines == base + acceptedNext
      ensures MergeState(rest, next.points, acceptedNext) ==
                Step(MergeState(remaining, old(contourLine.points), accepted), searchRadius, smallestAllowedRadius, height)
    {
      ghost var st := MergeState(remaining, contourLine.points, accepted);
      next, rest, acceptedNext := contourLine, remaining, accepted;
      var endPoint := contourLine.GetPointPosition(contourLine.GetPointCount() - 1);
      var startPoint := contourLine.GetPointPosition(0);
      var indexToRemove := SearchForward(contourLine, remaining, endPoint, searchRadius);
      ghost var fwd := FindForward(remaining, endPoint, searchRadius, 0);
      if indexToRemove == -1 {
        indexToRemove := SearchBackward(contourLine, remaining, startPoint, searchRadius);
      }

      if indexToRemove != -1 {
        if fwd.Some? {
          StepForward(st, searchRadius, smallestAllowedRadius, height, fwd.value);
        } else {
          StepBackward(st, searchRadius, smallestAllowedRadius, height,
                       FindBackward(remaining, startPoint, searchRadius, 0).value);
        }
        rest := RemoveAt(remaining, indexToRemove);
      } else {
        StepRestart(st, searchRadius, smallestAllowedRadius, height);
        Submit(contourLine, height);
        acceptedNext := accepted + (if Accepts(st.current, smallestAllowedRadius)
                                    then [Finish(st.current, height)] else []);
        next := new ContourLine();
        next.AddPointAt(remaining[0].GetStart(), 0);
      }
    }

    /** The forward for-loop: the first segment with an end near the end
        of the contour line gives the line its other end. */
    static method SearchForward(contourLine: ContourLine, lines: seq<Line>, endPoint: Point, searchRadius: nat)
      returns (indexToRemove: int)
      modifies contourLine
      ensures match FindForward(lines, endPoint, searchRadius, 0)
        case None => indexToRemove == -1 && contourLine.points == old(contourLine.points)
        case Some(hit) => indexToRemove == hit.index && contourLine.points == old(contourLine.points) + [hit.point]
      ensures contourLine.height == old(contourLine.height) && contourLine.area == old(contourLine.area)
    {
      indexToRemove := -1;
      var i := 0;
      while i < |lines|
        invariant 0 <= i <= |lines|
        invariant FindForward(lines, endPoint, searchRadius, 0) == FindForward(lines, endPoint, searchRadius, i)
        invariant contourLine.points == old(contourLine.points)
        invariant contourLine.height == old(contourLine.height) && contourLine.area == old(contourLine.area)
      {
        if Within(lines[i].GetStart(), endPoint, searchRadius) {
          contourLine.AddPoint(lines[i].GetEnd());
          indexToRemove := i;
          return;
        } else if Within(lines[i].GetEnd(), endPoint, searchRadius) {
          contourLine.AddPoint(lines[i].GetStart());
          indexToRemove := i;
          return;
        }
        i := i + 1;
      }
    }

    /** The backward for-loop: the first segment with an end near the
        start of the contour line gives the line a new first point. */
    static method SearchBackward(contourLine: ContourLine, lines: seq<Line>, startPoint: Point, searchRadius: nat)
      returns (indexToRemove: int)
      modifies contourLine
      ensures match FindBackward(lines, startPoint, searchRadius, 0)
        case None => indexToRemove == -1 && contourLine.points == old(contourLine.points)
        case Some(hit) => indexToRemove == hit.index && contourLine.points == [hit.point] + old(contourLine.points)
      ensures contourLine.height == old(contourLine.height) && contourLine.area == old(contourLine.area)
    {
      indexToRemove := -1;
      var i := 0;
      while i < |lines|
        invariant 0 <= i <= |lines|
        invariant FindBackward(lines, startPoint, searchRadius, 0) == FindBackward(lines, startPoint, searchRadius, i)
        invariant contourLine.points == old(contourLine.points)
        invariant contourLine.height == old(contourLine.height) && contourLine.area == old(contourLine.area)
      {
        if Within(lines[i].GetEnd(), startPoint, searchRadius) {
          contourLine.AddPointAt(lines[i].GetStart(), 0);
          indexToRemove := i;
          return;
        } else if Within(lines[i].GetStart(), startPoint, searchRadius) {
          contourLine.AddPointAt(lines[i].GetEnd(), 0);
          indexToRemove := i;
          return;
        }
        i := i + 1;
      }
    }

    /** No segment continues the contour line: it is added to the list,
        smoothed and at the level's height, exactly when it has more than
        three points and its area exceeds the smallest allowed radius. */
    method Submit(contourLine: ContourLine, height: real)
      requires |contourLine.points| > 0 && contourLine.area == 0.0
      modifies this, contourLine
      ensures contourLines == old(contourLines) +
                (if Accepts(old(contourLine.points), smallestAllowedRadius)
                 then [Finish(old(contourLine.points), height)] else [])
    {
      ghost var pts := contourLine.points;
      var accept := false;
      if contourLine.GetPointCount() > 3 {
        var area := contourLine.GetArea();
        accept := area > smallestAllowedRadius;
      }
      if accept {
        contourLine.RemoveKnots();
        contourLine.CubicBezier();
        contourLine.QuadraticBezier();
        contourLine.SetHeight(height);
        contourLines := contourLines + [contourLine.Value()];
      }
    }

    /** The iso loop of DrawContours: sweeps the levels from 250 down in
        steps of the contour interval and keeps, in order, the segment
        lists of the levels that collected a segment. */
    method SweepLevels() returns (linesByHeight: seq<seq<Line>>)
      requires heightMapData.Valid() && stepSize >= 2 && contourInterval > 0
      ensures linesByHeight == ByHeight(LevelFn(heightMapData, stepSize), IsoLevels(contourInterval))
    {
      var hm, step := heightMapData, stepSize;
      LevelFnAgrees(hm, step);
      ghost var seg: real -> seq<Line> :| LevelsAgree(seg, hm, step);
      ghost var goal := ByHeight(seg, IsoLevels(contourInterval));
      linesByHeight := [];
      var isoValue := TopLevel;
      while isoValue > 0
        invariant LevelsAgree(seg, hm, step)
        invariant linesByHeight + ByHeight(seg, LevelsFrom(isoValue, contourInterval)) == goal
        decreases isoValue
      {
        var linesAtHeight := SweepLevel(isoValue as real);
        ByHeightStep(seg, isoValue, contourInterval, linesByHeight, linesAtHeight, goal);
        if |linesAtHeight| != 0 {
          linesByHeight := linesByHeight + [linesAtHeight];
        }
        isoValue := isoValue - contourInterval;
      }
      ByHeightDone(seg, isoValue, contourInterval, linesByHeight, goal);
      ByHeightSame(seg, hm, step, IsoLevels(contourInterval));
    }

    /** The foreach of DrawContours: stitches each kept level in turn. */
    method MergeLevels(linesByHeight: seq<seq<Line>>)
      requires stepSize >= 2
      requires forall k :: 0 <= k < |linesByHeight| ==> |linesByHeight[k]| > 0
      modifies this
      ensures contourLines == old(contourLines) + MergeAll(linesByHeight, SearchRadius(stepSize), smallestAllowedRadius)
    {
      var radius := SearchRadius(stepSize);
      var k := 0;
      assert linesByHeight[..0] == [];
      while k < |linesByHeight|
        invariant 0 <= k <= |linesByHeight|
        invariant contourLines == old(contourLines) + MergeAll(linesByHeight[..k], radius, smallestAllowedRadius)
      {
        MergeContinuousLines(linesByHeight[k]);
        MergeAllStep(linesByHeight, k, radius, smallestAllowedRadius);
        k := k + 1;
      }
      assert linesByHeight[..k] == linesByHeight;
    }

    /** Sweeps every iso level, then stitches each level that collected a
        segment, adding the accepted contour lines to the list. */
    method DrawContours()
      requires heightMapData.Valid() && stepSize >= 2 && contourInterval > 0
      modifies this
      ensures contourLines == old(contourLines) + Drawing(heightMapData, stepSize, contourInterval, smallestAllowedRadius)
    {
      var linesByHeight := SweepLevels();
      MergeLevels(linesByHeight);
    }
  }
}
