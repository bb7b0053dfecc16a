/** The stitching of one level's segments into polylines
    (MergeContinuousLines in Class/ContourDrawer.cs), stated on values.
    One iteration of the source's while loop is Step; the whole loop is
    Run. The imperative method in module Drawer is proved to compute
    exactly this. */
module Stitching {
  import opened Geometry
  import opened Segments
  import opened Polylines

  datatype Option<T> = None | Some(value: T)

  /** A search hit: the index of the segment to remove and the point the
      polyline gains. */
  datatype Hit = Hit(index: nat, point: Point)

  /** `float searchRadius = stepSize / 2`: integer division, so a step
      size of 0 or 1 gives radius 0. For a negative step size C# yields a
      quotient at or below 0, which no distance is below, so it behaves
      as 0 does. */
  function SearchRadius(stepSize: int): (r: nat)
    ensures r > 0 <==> stepSize >= 2
    ensures stepSize >= 0 ==> 2 * r <= stepSize < 2 * r + 2
  {
    if stepSize >= 0 then stepSize / 2 else 0
  }

  /** Either end of the segment is within the radius of p. */
  predicate Touches(l: Line, p: Point, radius: nat) {
    Within(l.start, p, radius) || Within(l.end, p, radius)
  }

  /** The forward search tests the start first: a start near the tail
      contributes the end, otherwise the end is near and the start is
      contributed. */
  function ForwardPoint(l: Line, tail: Point, radius: nat): Point {
    if Within(l.start, tail, radius) then l.end else l.start
  }

  /** The backward search tests the end first. */
  function BackwardPoint(l: Line, head: Point, radius: nat): Point {
    if Within(l.end, head, radius) then l.start else l.end
  }

  /** The forward for-loop from index i on: the lowest index whose segment
      touches the tail wins. */
  function FindForward(lines: seq<Line>, tail: Point, radius: nat, i: nat): (h: Option<Hit>)
    requires i <= |lines|
    ensures h.None? <==> forall k :: i <= k < |lines| ==> !Touches(lines[k], tail, radius)
    ensures h.Some? ==>
              i <= h.value.index < |lines| && Touches(lines[h.value.index], tail, radius) &&
              (forall k :: i <= k < h.value.index ==> !Touches(lines[k], tail, radius)) &&
              h.value.point == ForwardPoint(lines[h.value.index], tail, radius)
    decreases |lines| - i
  {
    if i == |lines| then None
    else if Within(lines[i].start, tail, radius) then Some(Hit(i, lines[i].end))
    else if Within(lines[i].end, tail, radius) then Some(Hit(i, lines[i].start))
    else FindForward(lines, tail, radius, i + 1)
  }

  /** The backward for-loop from index i on, against the head. */
  function FindBackward(lines: seq<Line>, head: Point, radius: nat, i: nat): (h: Option<Hit>)
    requires i <= |lines|
    ensures h.None? <==> forall k :: i <= k < |lines| ==> !Touches(lines[k], head, radius)
    ensures h.Some? ==>
              i <= h.value.index < |lines| && Touches(lines[h.value.index], head, radius) &&
              (forall k :: i <= k < h.value.index ==> !Touches(lines[k], head, radius)) &&
              h.value.point == BackwardPoint(lines[h.value.index], head, radius)
    decreases |lines| - i
  {
    if i == |lines| then None
    else if Within(lines[i].end, head, radius) then Some(Hit(i, lines[i].start))
    else if Within(lines[i].start, head, radius) then Some(Hit(i, lines[i].end))
    else FindBackward(lines, head, radius, i + 1)
  }

  /** `lines.RemoveAt(k)`. */
  function RemoveAt(lines: seq<Line>, k: nat): (r: seq<Line>)
    requires k < |lines|
    ensures |r| == |lines| - 1
    ensures forall j :: 0 <= j < k ==> r[j] == lines[j]
    ensures forall j :: k <= j < |r| ==> r[j] == lines[j + 1]
  {
    lines[..k] + lines[k + 1..]
  }

  /** Removing one segment takes exactly that segment out of the bag. */
  lemma RemoveAtBag(lines: seq<Line>, k: nat)
    requires k < |lines|
    ensures multiset(RemoveAt(lines, k)) + multiset{lines[k]} == multiset(lines)
  {
    assert lines == lines[..k] + [lines[k]] + lines[k + 1..];
  }

  /** The acceptance test `GetPointCount() > 3 && GetArea() > smallestAllowedRadius`
      on a fresh line, whose area field starts at zero. */
  predicate Accepts(pts: seq<Point>, minArea: real) {
    |pts| > 3 && Spread(pts) > minArea
  }

  /** An accepted line after RemoveKnots, CubicBezier, QuadraticBezier and
      SetHeight, carrying the area GetArea left in its field. */
  function Finish(pts: seq<Point>, h: real): (p: Polyline)
    requires |pts| > 0
  {
    Polyline(QuadraticPass(CubicPass(pts)), h, Spread(pts))
  }

  /** The loop's state: the segments left, the polyline being grown and
      the polylines handed to the drawer so far. */
  datatype MergeState = MergeState(lines: seq<Line>, current: seq<Point>, accepted: seq<Polyline>)

  /** Before the loop: a polyline holding the start of the first segment. */
  function Init(lines: seq<Line>): (s: MergeState)
    requires |lines| > 0
    ensures |s.current| == 1 && s.accepted == []
  {
    MergeState(lines, [lines[0].start], [])
  }

  /** One iteration of the while loop. */
  function Step(s: MergeState, radius: nat, minArea: real, h: real): (t: MergeState)
    requires |s.lines| > 0 && |s.current| > 0
    ensures |t.current| > 0
  {
    match FindForward(s.lines, s.current[|s.current| - 1], radius, 0)
    case Some(hit) => MergeState(RemoveAt(s.lines, hit.index), s.current + [hit.point], s.accepted)
    case None =>
      match FindBackward(s.lines, s.current[0], radius, 0)
      case Some(hit) => MergeState(RemoveAt(s.lines, hit.index), [hit.point] + s.current, s.accepted)
      case None =>
        MergeState(s.lines, [s.lines[0].start],
                   if Accepts(s.current, minArea) then s.accepted + [Finish(s.current, h)] else s.accepted)
  }

  /** Some segment touches point p. */
  predicate AnyTouches(lines: seq<Line>, p: Point, radius: nat) {
    exists k :: 0 <= k < |lines| && Touches(lines[k], p, radius)
  }

  /** Segment k is the first one that touches point p. */
  predicate FirstTouch(lines: seq<Line>, p: Point, radius: nat, k: nat) {
    k < |lines| && Touches(lines[k], p, radius) &&
    forall j :: 0 <= j < k ==> !Touches(lines[j], p, radius)
  }

  /** What one iteration does. When a segment touches the tail, the first
      such segment is removed and the polyline gains its far end at its
      end; otherwise, when one touches the head, the first such segment is
      removed and the polyline gains its far end in front; otherwise no
      segment is removed, the polyline is submitted exactly when it passes
      the acceptance test, and a new polyline starts at the start of the
      first segment. */
  lemma StepSpec(s: MergeState, radius: nat, minArea: real, h: real)
    requires |s.lines| > 0 && |s.current| > 0
    ensures var t, tail := Step(s, radius, minArea, h), s.current[|s.current| - 1];
      AnyTouches(s.lines, tail, radius) ==>
        (exists k: nat :: FirstTouch(s.lines, tail, radius, k) &&
          t.lines == RemoveAt(s.lines, k) &&
          t.current == s.current + [ForwardPoint(s.lines[k], tail, radius)]) &&
        multiset(t.lines) < multiset(s.lines) && t.accepted == s.accepted
    ensures var t, tail, head := Step(s, radius, minArea, h), s.current[|s.current| - 1], s.current[0];
      !AnyTouches(s.lines, tail, radius) && AnyTouches(s.lines, head, radius) ==>
        (exists k: nat :: FirstTouch(s.lines, head, radius, k) &&
          t.lines == RemoveAt(s.lines, k) &&
          t.current == [BackwardPoint(s.lines[k], head, radius)] + s.current) &&
        multiset(t.lines) < multiset(s.lines) && t.accepted == s.accepted
    ensures var t, tail, head := Step(s, radius, minArea, h), s.current[|s.current| - 1], s.current[0];
      !AnyTouches(s.lines, tail, radius) && !AnyTouches(s.lines, head, radius) ==>
        t.lines == s.lines && t.current == [s.lines[0].start] &&
        (Accepts(s.current, minArea) ==> t.accepted == s.accepted + [Finish(s.current, h)]) &&
        (!Accepts(s.current, minArea) ==> t.accepted == s.accepted)
  {
    var t, tail, head := Step(s, radius, minArea, h), s.current[|s.current| - 1], s.current[0];
    var fwd := FindForward(s.lines, tail, radius, 0);
    if fwd.Some? {
      var k := fwd.value.index;
      StepForward(s, radius, minArea, h, fwd.value);
      RemoveAtBag(s.lines, k);
      assert FirstTouch(s.lines, tail, radius, k);
      assert AnyTouches(s.lines, tail, radius);
    } else {
      var bwd := FindBackward(s.lines, head, radius, 0);
      if bwd.Some? {
        var k := bwd.value.index;
        StepBackward(s, radius, minArea, h, bwd.value);
        RemoveAtBag(s.lines, k);
        assert FirstTouch(s.lines, head, radius, k);
        assert AnyTouches(s.lines, head, radius);
      } else {
        StepRestart(s, radius, minArea, h);
      }
    }
  }

  /** The termination measure: two per segment left, plus one unless the
      polyline is a fresh seed on the first segment's start. */
  function Measure(s: MergeState): nat {
    2 * |s.lines| + (if |s.lines| > 0 && s.current == [s.lines[0].start] then 0 else 1)
  }

  /** With a positive radius every iteration lowers the measure: a match
      removes a segment, and a reseed makes the next search hit the first
      segment at distance zero. */
  lemma StepDecreases(s: MergeState, radius: nat, minArea: real, h: real)
    requires |s.lines| > 0 && |s.current| > 0 && radius > 0
    ensures Measure(Step(s, radius, minArea, h)) < Measure(s)
  {
    var tail := s.current[|s.current| - 1];
    if s.current == [s.lines[0].start] {
      WithinRadius(s.lines[0].start, tail, radius);
      assert Touches(s.lines[0], tail, radius);
    }
  }

  /** The whole while loop. */
  function Run(s: MergeState, radius: nat, minArea: real, h: real): (t: MergeState)
    requires |s.current| > 0 && radius > 0
    decreases Measure(s)
  {
    if |s.lines| == 0 then s
    else
      StepDecreases(s, radius, minArea, h);
      Run(Step(s, radius, minArea, h), radius, minArea, h)
  }

  /** While segments are left, the loop is one iteration followed by the
      rest of the loop. */
  lemma RunUnfold(s: MergeState, radius: nat, minArea: real, h: real)
    requires |s.lines| > 0 && |s.current| > 0 && radius > 0
    ensures |Step(s, radius, minArea, h).current| > 0
    ensures Run(s, radius, minArea, h) == Run(Step(s, radius, minArea, h), radius, minArea, h)
  {
  }

  /** An iteration whose forward search hits. */
  lemma StepForward(s: MergeState, radius: nat, minArea: real, h: real, hit: Hit)
    requires |s.lines| > 0 && |s.current| > 0
    requires FindForward(s.lines, s.current[|s.current| - 1], radius, 0) == Some(hit)
    ensures hit.index < |s.lines|
    ensures Step(s, radius, minArea, h) == MergeState(RemoveAt(s.lines, hit.index), s.current + [hit.point], s.accepted)
  {
  }

  /** An iteration whose forward search misses and backward search hits. */
  lemma StepBackward(s: MergeState, radius: nat, minArea: real, h: real, hit: Hit)
    requires |s.lines| > 0 && |s.current| > 0
    requires FindForward(s.lines, s.current[|s.current| - 1], radius, 0) == None
    requires FindBackward(s.lines, s.current[0], radius, 0) == Some(hit)
    ensures hit.index < |s.lines|
    ensures Step(s, radius, minArea, h) == MergeState(RemoveAt(s.lines, hit.index), [hit.point] + s.current, s.accepted)
  {
  }

  /** An iteration where neither search hits. */
  lemma StepRestart(s: MergeState, radius: nat, minArea: real, h: real)
    requires |s.lines| > 0 && |s.current| > 0
    requires FindForward(s.lines, s.current[|s.current| - 1], radius, 0) == None
    requires FindBackward(s.lines, s.current[0], radius, 0) == None
    ensures Step(s, radius, minArea, h) ==
              MergeState(s.lines, [s.lines[0].start],
                         s.accepted + (if Accepts(s.current, minArea) then [Finish(s.current, h)] else []))
  {
  }

  /** MergeContinuousLines' result: the polylines it adds to the drawer,
      all at the height of the first segment. */
  function MergeLines(lines: seq<Line>, radius: nat, minArea: real): seq<Polyline>
    requires |lines| > 0 && radius > 0
  {
    Run(Init(lines), radius, minArea, lines[0].height).accepted
  }

  /** The loop only ends once every segment has been used, it only ever
      appends to the accepted list, and everything it appends passed the
      acceptance test and was smoothed: the area is strictly above the
      minimum, the height is the level's, and at least four points
      remain. */
  lemma {:induction false} RunSpec(s: MergeState, radius: nat, minArea: real, h: real)
    requires |s.current| > 0 && radius > 0
    ensures var t := Run(s, radius, minArea, h);
      t.lines == [] && |t.current| > 0 &&
      |s.accepted| <= |t.accepted| && t.accepted[..|s.accepted|] == s.accepted &&
      forall k :: |s.accepted| <= k < |t.accepted| ==>
        t.accepted[k].height == h && t.accepted[k].area > minArea && |t.accepted[k].points| >= 4
    decreases Measure(s)
  {
    if |s.lines| > 0 {
      var n := Step(s, radius, minArea, h);
      StepDecreases(s, radius, minArea, h);
      RunSpec(n, radius, minArea, h);
      StepSpec(s, radius, minArea, h);
      if |n.accepted| > |s.accepted| {
        SmoothingKeepsEnds(s.current);
      }
      var t := Run(n, radius, minArea, h);
      assert t == Run(s, radius, minArea, h);
      assert t.accepted[..|n.accepted|] == n.accepted;
      assert t.accepted[..|s.accepted|] == n.accepted[..|s.accepted|];
    }
  }

  /** Every polyline MergeContinuousLines submits has the first segment's
      height, an area above the minimum and at least four points. */
  lemma MergeLinesSpec(lines: seq<Line>, radius: nat, minArea: real)
    requires |lines| > 0 && radius > 0
    ensures forall p :: p in MergeLines(lines, radius, minArea) ==>
              p.height == lines[0].height && p.area > minArea && |p.points| >= 4
  {
    RunSpec(Init(lines), radius, minArea, lines[0].height);
  }

  /** The polyline in progress when the list runs out is never submitted:
      the list only empties through a match, which leaves the accepted list
      alone, and the loop then stops. */
  lemma FinalLineDropped(s: MergeState, radius: nat, minArea: real, h: real)
    requires |s.lines| > 0 && |s.current| > 0 && radius > 0
    requires Step(s, radius, minArea, h).lines == []
    ensures Run(s, radius, minArea, h) == Step(s, radius, minArea, h)
    ensures Run(s, radius, minArea, h).accepted == s.accepted
    ensures |Run(s, radius, minArea, h).current| == |s.current| + 1
  {
    StepSpec(s, radius, minArea, h);
    StepDecreases(s, radius, minArea, h);
  }

  /** Iterations of the loop body, stopping early if the list empties; it
      needs no radius, so it also describes the runs that never end. */
  function Iterate(s: MergeState, radius: nat, minArea: real, h: real, n: nat): (t: MergeState)
    requires |s.current| > 0
    ensures |t.current| > 0
    decreases n
  {
    if n == 0 || |s.lines| == 0 then s
    else Iterate(Step(s, radius, minArea, h), radius, minArea, h, n - 1)
  }

  /** With radius 0 (a step size of 0 or 1) no segment is ever removed,
      however many iterations run, so the list never empties and the
      source's loop never ends. */
  lemma {:induction false} ZeroRadiusNeverRemoves(s: MergeState, minArea: real, h: real, n: nat)
    requires |s.current| > 0
    ensures Iterate(s, 0, minArea, h, n).lines == s.lines
    decreases n
  {
    if n > 0 && |s.lines| > 0 {
      var tail, head := s.current[|s.current| - 1], s.current[0];
      forall k | 0 <= k < |s.lines|
        ensures !Touches(s.lines[k], tail, 0) && !Touches(s.lines[k], head, 0)
      {
        WithinRadius(s.lines[k].start, tail, 0);
        WithinRadius(s.lines[k].end, tail, 0);
        WithinRadius(s.lines[k].start, head, 0);
        WithinRadius(s.lines[k].end, head, 0);
      }
      ZeroRadiusNeverRemoves(Step(s, 0, minArea, h), minArea, h, n - 1);
    }
  }
}
