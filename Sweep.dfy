/** The specification of DrawContours in Class/ContourDrawer.cs, stated
    on values: which iso levels are swept, which segments one level
    collects, which levels are kept, and what stitching every kept level
    adds to the drawer's list. The imperative class in module Drawer is
    proved to compute exactly these. */
module Sweep {
  import opened Geometry
  import opened Segments
  import opened Polylines
  import opened MarchingSquares
  import opened Stitching

  // ---------------------------------------------------------------------
  // Iso levels
  // ---------------------------------------------------------------------

  /** The first iso value of the sweep. */
  const TopLevel: int := 250

  /** `for (isoValue = v; isoValue > 0; isoValue -= interval)`: the loop
      runs from v while positive, so every level lies in 1 .. v. */
  function LevelsFrom(v: int, interval: int): (r: seq<int>)
    requires interval > 0
    ensures forall k :: 0 <= k < |r| ==> 0 < r[k] <= v
    ensures v > 0 <==> |r| > 0
    decreases v
  {
    if v > 0 then [v] + LevelsFrom(v - interval, interval) else []
  }

  /** Level k is v less k intervals. */
  lemma {:induction false} LevelAt(v: int, interval: int, k: nat)
    requires interval > 0 && k < |LevelsFrom(v, interval)|
    ensures LevelsFrom(v, interval)[k] == v - k * interval
    decreases k
  {
    if k > 0 {
      var rest := LevelsFrom(v - interval, interval);
      assert LevelsFrom(v, interval) == [v] + rest;
      LevelAt(v - interval, interval, k - 1);
      assert (k - 1) * interval + interval == k * interval;
    }
  }

  /** One more interval after the last level would have reached zero. */
  lemma {:induction false} LevelsExhausted(v: int, interval: int)
    requires interval > 0
    ensures v - |LevelsFrom(v, interval)| * interval <= 0
    decreases v
  {
    if v > 0 {
      var rest := LevelsFrom(v - interval, interval);
      assert LevelsFrom(v, interval) == [v] + rest;
      LevelsExhausted(v - interval, interval);
      assert (|rest| + 1) * interval == |rest| * interval + interval;
    }
  }

  /** The levels DrawContours sweeps: 250, 250 - interval, ... while
      positive. The level arithmetic is exact: every value is a whole
      number, so the source's float loop variable takes exactly these
      values. */
  function IsoLevels(interval: int): seq<int>
    requires interval > 0
  {
    LevelsFrom(TopLevel, interval)
  }

  /** The levels from v on are strictly decreasing. */
  lemma {:induction false} LevelsDecrease(v: int, interval: int)
    requires interval > 0
    ensures forall j, k :: 0 <= j < k < |LevelsFrom(v, interval)| ==>
              LevelsFrom(v, interval)[j] > LevelsFrom(v, interval)[k]
    decreases v
  {
    if v > 0 {
      LevelsDecrease(v - interval, interval);
    }
  }

  /** From a positive v, the last level swept is still positive, so one
      interval fewer would not have reached zero. */
  lemma {:induction false} LevelsCount(v: int, interval: int)
    requires interval > 0 && v > 0
    ensures (|LevelsFrom(v, interval)| - 1) * interval < v
    decreases v
  {
    var n := |LevelsFrom(v, interval)|;
    var rest := LevelsFrom(v - interval, interval);
    if v - interval > 0 {
      LevelsCount(v - interval, interval);
      assert (|rest| - 1) * interval < v - interval;
      assert (n - 1) * interval == (|rest| - 1) * interval + interval;
    } else {
      assert n == 1;
    }
  }

  /** The levels are strictly decreasing, all in 1 .. 250, and there are
      ceil(250 / interval) of them. */
  lemma IsoLevelsSpec(interval: int)
    requires interval > 0
    ensures var r := IsoLevels(interval);
      |r| > 0 && r[0] == TopLevel &&
      (forall k :: 0 <= k < |r| ==> 0 < r[k] <= TopLevel) &&
      (forall j, k :: 0 <= j < k < |r| ==> r[j] > r[k]) &&
      (|r| - 1) * interval < TopLevel <= |r| * interval
  {
    LevelsDecrease(TopLevel, interval);
    LevelsCount(TopLevel, interval);
    LevelsExhausted(TopLevel, interval);
  }

  // ---------------------------------------------------------------------
  // The segments of one level
  // ---------------------------------------------------------------------

  /** `x = x0; x < limit; x += step`: the grid coordinates a for-loop of
      the sweep visits. */
  function Coords(limit: int, step: int, x: int): (r: seq<int>)
    requires step > 0
    ensures forall v :: v in r ==> x <= v < limit
    decreases limit - x
  {
    if x < limit then [x] + Coords(limit, step, x + step) else []
  }

  /** The foreach over a cell's segments that keeps those whose two ends
      differ, in their order. */
  function KeepProper(ls: seq<Line>): (r: seq<Line>)
    ensures forall l :: l in r <==> l in ls && !l.IsDegenerate()
    ensures |r| <= |ls|
  {
    if ls == [] then []
    else
      var last := ls[|ls| - 1];
      assert ls == ls[..|ls| - 1] + [last];
      KeepProper(ls[..|ls| - 1]) + (if last.IsDegenerate() then [] else [last])
  }

  /** The proper segments of the cell with top-left corner (x, y) of the
      image, or none for a corner outside the sweep's range. */
  function CellLines(hm: HeightMap, step: int, iso: real, x: int, y: int): seq<Line>
  {
    if hm.Valid() && step > 0 && 0 <= x < hm.width - step && 0 <= y < hm.height - step
    then KeepProper(GetLineCase(hm, step, x, y, iso))
    else []
  }

  /** The cells of one level as a function of their corner. */
  function CellFn(hm: HeightMap, step: int, iso: real): (int, int) -> seq<Line>
  {
    (x, y) => CellLines(hm, step, iso, x, y)
  }

  /** The inner for-loop from column x of row y on, where f gives the
      segments each cell contributes. */
  function RowFrom(f: (int, int) -> seq<Line>, width: int, step: int, y: int, x: int): seq<Line>
    requires step > 0
    decreases width - x
  {
    if x < width - step then f(x, y) + RowFrom(f, width, step, y, x + step) else []
  }

  /** The outer for-loop from row y on. */
  function GridFrom(f: (int, int) -> seq<Line>, width: int, height: int, step: int, y: int): seq<Line>
    requires step > 0
    decreases height - y
  {
    if y < height - step then RowFrom(f, width, step, y, 0) + GridFrom(f, width, height, step, y + step)
    else []
  }

  /** `linesAtHeight` once the two for-loops at one iso value are done. */
  function LevelSegments(hm: HeightMap, step: int, iso: real): seq<Line>
    requires hm.Valid() && step > 0
  {
    GridFrom(CellFn(hm, step, iso), hm.width, hm.height, step, 0)
  }

  /** f gives the proper segments of every cell the sweep visits. */
  predicate Agrees(f: (int, int) -> seq<Line>, hm: HeightMap, step: int, iso: real)
    requires hm.Valid() && step > 0
  {
    forall x, y {:trigger GetLineCase(hm, step, x, y, iso)} ::
      0 <= x < hm.width - step && 0 <= y < hm.height - step ==>
        f(x, y) == KeepProper(GetLineCase(hm, step, x, y, iso))
  }

  lemma CellFnAgrees(hm: HeightMap, step: int, iso: real)
    requires hm.Valid() && step > 0
    ensures Agrees(CellFn(hm, step, iso), hm, step, iso)
  {
  }

  /** Two functions that agree on the swept cells give the same row. */
  lemma {:induction false} RowSame(f: (int, int) -> seq<Line>, g: (int, int) -> seq<Line>,
                                   hm: HeightMap, step: int, iso: real, y: int, x: int)
    requires hm.Valid() && step > 0 && Agrees(f, hm, step, iso) && Agrees(g, hm, step, iso)
    requires 0 <= y < hm.height - step && 0 <= x
    ensures RowFrom(f, hm.width, step, y, x) == RowFrom(g, hm.width, step, y, x)
    decreases hm.width - x
  {
    if x < hm.width - step {
      RowSame(f, g, hm, step, iso, y, x + step);
      assert f(x, y) == KeepProper(GetLineCase(hm, step, x, y, iso)) == g(x, y);
    }
  }

  /** Two functions that agree on the swept cells give the same grid. */
  lemma {:induction false} GridSame(f: (int, int) -> seq<Line>, g: (int, int) -> seq<Line>,
                                    hm: HeightMap, step: int, iso: real, y: int)
    requires hm.Valid() && step > 0 && Agrees(f, hm, step, iso) && Agrees(g, hm, step, iso)
    requires 0 <= y
    ensures GridFrom(f, hm.width, hm.height, step, y) == GridFrom(g, hm.width, hm.height, step, y)
    decreases hm.height - y
  {
    if y < hm.height - step {
      RowSame(f, g, hm, step, iso, y, 0);
      GridSame(f, g, hm, step, iso, y + step);
    }
  }

  /** Any function giving the swept cells' segments gives the level. */
  lemma AgreesLevel(f: (int, int) -> seq<Line>, hm: HeightMap, step: int, iso: real)
    requires hm.Valid() && step > 0 && Agrees(f, hm, step, iso)
    ensures GridFrom(f, hm.width, hm.height, step, 0) == LevelSegments(hm, step, iso)
  {
    CellFnAgrees(hm, step, iso);
    GridSame(f, CellFn(hm, step, iso), hm, step, iso, 0);
  }

  /** One more cell's segments, in the foreach's order. */
  lemma KeepProperSnoc(ls: seq<Line>, j: nat)
    requires j < |ls|
    ensures KeepProper(ls[..j + 1]) == KeepProper(ls[..j]) + (if ls[j].IsDegenerate() then [] else [ls[j]])
  {
    assert ls[..j + 1][..j] == ls[..j];
  }

  /** The loops' bookkeeping, one iteration at a time: the foreach keeps
      segment j of a cell when its ends differ. */
  lemma KeepStep(acc: seq<Line>, cellStart: seq<Line>, lines: seq<Line>, j: nat)
    requires j < |lines| && acc == cellStart + KeepProper(lines[..j])
    ensures (if lines[j].start != lines[j].end then acc + [lines[j]] else acc)
         == cellStart + KeepProper(lines[..j + 1])
  {
    KeepProperSnoc(lines, j);
  }

  /** After the foreach, every segment of the cell has been considered. */
  lemma KeepDone(acc: seq<Line>, cellStart: seq<Line>, lines: seq<Line>, j: nat)
    requires j == |lines| && acc == cellStart + KeepProper(lines[..j])
    ensures acc == cellStart + KeepProper(lines)
  {
    assert lines[..j] == lines;
  }

  /** After the cell at column x, the rest of the row is still to come. */
  lemma RowStep(f: (int, int) -> seq<Line>, width: int, step: int, y: int, x: int,
                acc: seq<Line>, rowStart: seq<Line>, cell: seq<Line>)
    requires step > 0 && x < width - step
    requires acc + RowFrom(f, width, step, y, x) == rowStart + RowFrom(f, width, step, y, 0)
    requires cell == f(x, y)
    ensures (acc + cell) + RowFrom(f, width, step, y, x + step) == rowStart + RowFrom(f, width, step, y, 0)
  {
  }

  /** After the last cell of row y, the rows below are still to come. */
  lemma RowDone(f: (int, int) -> seq<Line>, width: int, height: int, step: int, y: int, x: int,
                acc: seq<Line>, rowStart: seq<Line>, goal: seq<Line>)
    requires step > 0 && y < height - step && x >= width - step
    requires acc + RowFrom(f, width, step, y, x) == rowStart + RowFrom(f, width, step, y, 0)
    requires rowStart + GridFrom(f, width, height, step, y) == goal
    ensures acc + GridFrom(f, width, height, step, y + step) == goal
  {
    var row, rest := RowFrom(f, width, step, y, 0), GridFrom(f, width, height, step, y + step);
    assert RowFrom(f, width, step, y, x) == [];
    assert acc == rowStart + row;
    assert GridFrom(f, width, height, step, y) == row + rest;
    assert (rowStart + row) + rest == rowStart + (row + rest);
  }

  /** After the last row, the level is complete. */
  lemma GridDone(f: (int, int) -> seq<Line>, width: int, height: int, step: int, y: int,
                 acc: seq<Line>, goal: seq<Line>)
    requires step > 0 && y >= height - step
    requires acc + GridFrom(f, width, height, step, y) == goal
    ensures acc == goal
  {
  }

  /** A segment is in row y from column x on exactly when one of the
      row's cells from column x on contributes it. */
  lemma {:induction false} RowMember(f: (int, int) -> seq<Line>, width: int, step: int, y: int, x: int, l: Line)
    requires step > 0
    ensures l in RowFrom(f, width, step, y, x) <==>
              exists cx :: cx in Coords(width - step, step, x) && l in f(cx, y)
    decreases width - x
  {
    if x < width - step {
      RowMember(f, width, step, y, x + step, l);
      var cs := Coords(width - step, step, x);
      assert cs == [x] + Coords(width - step, step, x + step);
      if l in f(x, y) {
        assert x in cs;
      }
    }
  }

  /** A segment of the grid from row y on comes from a cell of a row from
      y on. */
  lemma {:induction false} GridMemberSound(f: (int, int) -> seq<Line>, width: int, height: int,
                                           step: int, y: int, l: Line)
    requires step > 0
    requires l in GridFrom(f, width, height, step, y)
    ensures exists cx, cy :: cy in Coords(height - step, step, y) &&
                             cx in Coords(width - step, step, 0) && l in f(cx, cy)
    decreases height - y
  {
    var rs := Coords(height - step, step, y);
    assert rs == [y] + Coords(height - step, step, y + step);
    if l in RowFrom(f, width, step, y, 0) {
      RowMember(f, width, step, y, 0, l);
      var cx :| cx in Coords(width - step, step, 0) && l in f(cx, y);
      assert y in rs;
    } else {
      GridMemberSound(f, width, height, step, y + step, l);
      var cx, cy :| cy in Coords(height - step, step, y + step) &&
                    cx in Coords(width - step, step, 0) && l in f(cx, cy);
      assert cy in rs;
    }
  }

  /** A segment contributed by a cell of a row from y on is in the grid
      from row y on. */
  lemma {:induction false} GridMemberComplete(f: (int, int) -> seq<Line>, width: int, height: int,
                                              step: int, y: int, cx: int, cy: int, l: Line)
    requires step > 0
    requires cy in Coords(height - step, step, y) && cx in Coords(width - step, step, 0)
    requires l in f(cx, cy)
    ensures l in GridFrom(f, width, height, step, y)
    decreases height - y
  {
    var rs := Coords(height - step, step, y);
    assert rs == [y] + Coords(height - step, step, y + step);
    if cy == y {
      RowMember(f, width, step, y, 0, l);
    } else {
      GridMemberComplete(f, width, height, step, y + step, cx, cy, l);
    }
  }

  /** The cell with top-left corner (x, y) is a cell of the sweep: both
      coordinates are visited by the loops, so all four pixel reads are
      inside the image. */
  predicate SweptCell(hm: HeightMap, step: int, x: int, y: int)
    requires step > 0
  {
    x in Coords(hm.width - step, step, 0) && y in Coords(hm.height - step, step, 0)
  }

  /** Every segment collected at one level is a proper segment of a
      swept cell: it is not degenerate, it carries the level's iso value,
      and both its ends lie on the boundary of the cell it came from. */
  lemma LevelSegmentSound(hm: HeightMap, step: int, iso: real, l: Line)
    requires hm.Valid() && step > 0
    requires l in LevelSegments(hm, step, iso)
    ensures !l.IsDegenerate() && l.height == iso
    ensures exists x, y :: SweptCell(hm, step, x, y) &&
                           OnBoundary(ReadCell(hm, step, x, y), l.start) &&
                           OnBoundary(ReadCell(hm, step, x, y), l.end)
  {
    GridMemberSound(CellFn(hm, step, iso), hm.width, hm.height, step, 0, l);
    var x, y :| y in Coords(hm.height - step, step, 0) &&
                x in Coords(hm.width - step, step, 0) && l in CellFn(hm, step, iso)(x, y);
    assert l in KeepProper(GetLineCase(hm, step, x, y, iso));
    LineCaseSpec(ReadCell(hm, step, x, y), iso);
    assert SweptCell(hm, step, x, y);
  }

  /** No proper segment of a swept cell is lost. */
  lemma LevelSegmentComplete(hm: HeightMap, step: int, iso: real, x: int, y: int, l: Line)
    requires hm.Valid() && step > 0 && SweptCell(hm, step, x, y)
    requires l in GetLineCase(hm, step, x, y, iso) && !l.IsDegenerate()
    ensures l in LevelSegments(hm, step, iso)
  {
    assert l in CellFn(hm, step, iso)(x, y);
    GridMemberComplete(CellFn(hm, step, iso), hm.width, hm.height, step, 0, x, y, l);
  }

  /** Every segment collected at one level carries the level's iso value. */
  lemma LevelSegmentsHeight(hm: HeightMap, step: int, iso: real)
    requires hm.Valid() && step > 0
    ensures forall l :: l in LevelSegments(hm, step, iso) ==> l.height == iso
  {
    forall l | l in LevelSegments(hm, step, iso) ensures l.height == iso {
      LevelSegmentSound(hm, step, iso, l);
    }
  }

  // ---------------------------------------------------------------------
  // Levels kept, and the whole drawing
  // ---------------------------------------------------------------------

  /** The segments of one level, for any image and step. */
  function LevelLines(hm: HeightMap, step: int, iso: real): seq<Line>
  {
    if hm.Valid() && step > 0 then LevelSegments(hm, step, iso) else []
  }

  /** The levels of one image as a function of the iso value. */
  function LevelFn(hm: HeightMap, step: int): real -> seq<Line>
  {
    iso => LevelLines(hm, step, iso)
  }

  /** seg gives the segments of every level of the image. */
  ghost predicate LevelsAgree(seg: real -> seq<Line>, hm: HeightMap, step: int)
    requires hm.Valid() && step > 0
  {
    forall iso {:trigger LevelSegments(hm, step, iso)} :: seg(iso) == LevelSegments(hm, step, iso)
  }

  lemma LevelFnAgrees(hm: HeightMap, step: int)
    requires hm.Valid() && step > 0
    ensures LevelsAgree(LevelFn(hm, step), hm, step)
  {
  }

  /** `linesByHeight`: the segment lists of the given levels, in order,
      leaving out every level that collected nothing, where seg gives a
      level's segments. */
  function ByHeight(seg: real -> seq<Line>, levels: seq<int>): (r: seq<seq<Line>>)
    ensures forall k :: 0 <= k < |r| ==> |r[k]| > 0
    ensures |r| <= |levels|
  {
    if levels == [] then []
    else
      var here := seg(levels[0] as real);
      (if |here| != 0 then [here] else []) + ByHeight(seg, levels[1..])
  }

  /** Two level functions that agree on the image keep the same lists. */
  lemma {:induction false} ByHeightSame(seg: real -> seq<Line>, hm: HeightMap, step: int, levels: seq<int>)
    requires hm.Valid() && step > 0 && LevelsAgree(seg, hm, step)
    ensures ByHeight(seg, levels) == ByHeight(LevelFn(hm, step), levels)
  {
    if levels != [] {
      ByHeightSame(seg, hm, step, levels[1..]);
      assert seg(levels[0] as real) == LevelSegments(hm, step, levels[0] as real);
    }
  }

  /** One iteration of the iso loop: the level v, kept when it collected
      a segment, then the levels below it. */
  lemma ByHeightUnfold(seg: real -> seq<Line>, v: int, interval: int)
    requires interval > 0 && v > 0
    ensures ByHeight(seg, LevelsFrom(v, interval))
         == (if |seg(v as real)| != 0 then [seg(v as real)] else [])
            + ByHeight(seg, LevelsFrom(v - interval, interval))
  {
    var levels := LevelsFrom(v, interval);
    assert levels[0] == v && levels[1..] == LevelsFrom(v - interval, interval);
  }

  /** After level v, the levels below it are still to come. */
  lemma ByHeightStep(seg: real -> seq<Line>, v: int, interval: int,
                     acc: seq<seq<Line>>, segs: seq<Line>, goal: seq<seq<Line>>)
    requires interval > 0 && v > 0
    requires segs == seg(v as real)
    requires acc + ByHeight(seg, LevelsFrom(v, interval)) == goal
    ensures (if |segs| != 0 then acc + [segs] else acc)
            + ByHeight(seg, LevelsFrom(v - interval, interval)) == goal
  {
    ByHeightUnfold(seg, v, interval);
  }

  /** Once the iso value is no longer positive, every level is kept or
      dropped. */
  lemma ByHeightDone(seg: real -> seq<Line>, v: int, interval: int,
                     acc: seq<seq<Line>>, goal: seq<seq<Line>>)
    requires interval > 0 && v <= 0
    requires acc + ByHeight(seg, LevelsFrom(v, interval)) == goal
    ensures acc == goal
  {
    assert LevelsFrom(v, interval) == [];
    assert acc + [] == acc;
  }

  /** Every kept list is the whole level of one swept iso value, all of
      whose segments carry that value; and every level that collected a
      segment is kept. */
  lemma {:induction false} ByHeightSpec(hm: HeightMap, step: int, levels: seq<int>)
    requires hm.Valid() && step > 0
    ensures forall g :: g in ByHeight(LevelFn(hm, step), levels) ==>
              exists v :: v in levels && g == LevelSegments(hm, step, v as real) &&
                          forall l :: l in g ==> l.height == v as real
    ensures forall v :: v in levels && |LevelSegments(hm, step, v as real)| > 0 ==>
              LevelSegments(hm, step, v as real) in ByHeight(LevelFn(hm, step), levels)
  {
    if levels != [] {
      ByHeightSpec(hm, step, levels[1..]);
      LevelSegmentsHeight(hm, step, levels[0] as real);
      forall v | v in levels && |LevelSegments(hm, step, v as real)| > 0
        ensures LevelSegments(hm, step, v as real) in ByHeight(LevelFn(hm, step), levels)
      {
        if v != levels[0] {
          assert v in levels[1..];
        }
      }
      forall g | g in ByHeight(LevelFn(hm, step), levels)
        ensures exists v :: v in levels && g == LevelSegments(hm, step, v as real) &&
                            forall l :: l in g ==> l.height == v as real
      {
        if g !in ByHeight(LevelFn(hm, step), levels[1..]) {
          assert g == LevelSegments(hm, step, levels[0] as real);
          assert levels[0] in levels;
        } else {
          var v :| v in levels[1..] && g == LevelSegments(hm, step, v as real) &&
                   forall l :: l in g ==> l.height == v as real;
          assert v in levels;
        }
      }
    }
  }

  /** The foreach over `linesByHeight`: what MergeContinuousLines adds to
      the drawer for each list, in order. */
  function MergeAll(groups: seq<seq<Line>>, radius: nat, minArea: real): seq<Polyline>
    requires radius > 0
    requires forall k :: 0 <= k < |groups| ==> |groups[k]| > 0
  {
    if groups == [] then []
    else MergeAll(groups[..|groups| - 1], radius, minArea) + MergeLines(groups[|groups| - 1], radius, minArea)
  }

  /** Stitching one more group adds its polylines after the others. */
  lemma MergeAllStep(groups: seq<seq<Line>>, k: nat, radius: nat, minArea: real)
    requires radius > 0 && k < |groups|
    requires forall j :: 0 <= j < |groups| ==> |groups[j]| > 0
    ensures MergeAll(groups[..k + 1], radius, minArea)
         == MergeAll(groups[..k], radius, minArea) + MergeLines(groups[k], radius, minArea)
  {
    assert groups[..k + 1][..k] == groups[..k];
  }

  /** Every polyline added for a group of lists has the height of one of
      the lists' first segments, an area above the minimum and at least
      four points. */
  lemma {:induction false} MergeAllSpec(groups: seq<seq<Line>>, radius: nat, minArea: real)
    requires radius > 0
    requires forall k :: 0 <= k < |groups| ==> |groups[k]| > 0
    ensures forall p :: p in MergeAll(groups, radius, minArea) ==>
              p.area > minArea && |p.points| >= 4 &&
              exists k :: 0 <= k < |groups| && p.height == groups[k][0].height
  {
    if groups != [] {
      var init := groups[..|groups| - 1];
      var last := groups[|groups| - 1];
      MergeAllSpec(init, radius, minArea);
      MergeLinesSpec(last, radius, minArea);
      forall p | p in MergeAll(groups, radius, minArea)
        ensures p.area > minArea && |p.points| >= 4 &&
                exists k :: 0 <= k < |groups| && p.height == groups[k][0].height
      {
        if p in MergeAll(init, radius, minArea) {
          var k :| 0 <= k < |init| && p.height == init[k][0].height;
          assert groups[k] == init[k];
        } else {
          assert p.height == groups[|groups| - 1][0].height;
        }
      }
    }
  }

  /** What DrawContours adds to the drawer's list. */
  function Drawing(hm: HeightMap, step: int, interval: int, minArea: real): seq<Polyline>
    requires hm.Valid() && step >= 2 && interval > 0
  {
    MergeAll(ByHeight(LevelFn(hm, step), IsoLevels(interval)), SearchRadius(step), minArea)
  }

  /** Every contour DrawContours produces lies at one of the swept iso
      levels, has at least four points and an area strictly above the
      smallest allowed radius. */
  lemma DrawingSpec(hm: HeightMap, step: int, interval: int, minArea: real)
    requires hm.Valid() && step >= 2 && interval > 0
    ensures forall p :: p in Drawing(hm, step, interval, minArea) ==>
              p.area > minArea && |p.points| >= 4 &&
              exists v :: v in IsoLevels(interval) && p.height == v as real
  {
    var groups := ByHeight(LevelFn(hm, step), IsoLevels(interval));
    MergeAllSpec(groups, SearchRadius(step), minArea);
    ByHeightSpec(hm, step, IsoLevels(interval));
    forall p | p in Drawing(hm, step, interval, minArea)
      ensures exists v :: v in IsoLevels(interval) && p.height == v as real
    {
      var k :| 0 <= k < |groups| && p.height == groups[k][0].height;
      assert groups[k] in groups;
      var v :| v in IsoLevels(interval) && groups[k] == LevelSegments(hm, step, v as real) &&
               forall l: Line :: l in groups[k] ==> l.height == v as real;
      assert groups[k][0] in groups[k];
    }
  }
}
