/** The contour polyline of Class/ContourLine.cs. The engine's Line2D part
    is reduced to its point list, a sequence the methods reassign; the
    class adds a height, an area field that GetArea accumulates into, and
    the two smoothing passes that rewrite the point list in place. */
module Polylines {
  import opened Geometry

  /** The observable state of a contour line: its points, height and area. */
  datatype Polyline = Polyline(points: seq<Point>, height: real, area: real)

  // ---------------------------------------------------------------------
  // GetArea: mean squared distance to the first point
  // ---------------------------------------------------------------------

  /** Sum of the squared distances from the first k points of pts to
      origin, added in index order as GetArea's loop does. */
  function SumSqTo(pts: seq<Point>, origin: Point, k: nat): real
    requires k <= |pts|
  {
    if k == 0 then 0.0 else SumSqTo(pts, origin, k - 1) + DistSq(pts[k - 1], origin)
  }

  /** The value GetArea yields on a line whose area field is still zero. */
  function Spread(pts: seq<Point>): real
    requires |pts| > 0
  {
    SumSqTo(pts, pts[0], |pts|) / |pts| as real
  }

  lemma {:induction false} SumSqNonNegative(pts: seq<Point>, origin: Point, k: nat)
    requires k <= |pts|
    ensures SumSqTo(pts, origin, k) >= 0.0
  {
    if k > 0 {
      SumSqNonNegative(pts, origin, k - 1);
    }
  }

  /** Splitting off the first point: the sum over pts is that point's
      term plus the sum over the rest. */
  lemma {:induction false} SumSqSplitFirst(pts: seq<Point>, origin: Point, k: nat)
    requires 0 < k <= |pts|
    ensures SumSqTo(pts, origin, k) == DistSq(pts[0], origin) + SumSqTo(pts[1..], origin, k - 1)
  {
    if k > 1 {
      SumSqSplitFirst(pts, origin, k - 1);
    }
  }

  /** The spread is never negative, and the first point adds nothing to
      it: it is the sum over the other points divided by the full count. */
  lemma SpreadProperties(pts: seq<Point>)
    requires |pts| > 0
    ensures Spread(pts) >= 0.0
    ensures Spread(pts) == SumSqTo(pts[1..], pts[0], |pts| - 1) / |pts| as real
  {
    SumSqNonNegative(pts, pts[0], |pts|);
    SumSqSplitFirst(pts, pts[0], |pts|);
  }

  // ---------------------------------------------------------------------
  // QuadraticBezier: in-place De Casteljau at t = 0.5 over triples
  // ---------------------------------------------------------------------

  /** The De Casteljau point at t = 0.5 of the quadratic curve p0, p1, p2,
      computed with the same three interpolations as the source. */
  function QuadPoint(p0: Point, p1: Point, p2: Point): Point
  {
    var t := 0.5;
    var q0 := Lerp(p0, p1, t);
    var q1 := Lerp(p1, p2, t);
    Lerp(q0, q1, t)
  }

  /** The interpolations amount to the Bernstein weights 1/4, 1/2, 1/4. */
  lemma QuadPointWeights(p0: Point, p1: Point, p2: Point)
    ensures QuadPoint(p0, p1, p2)
         == Point((p0.x + 2.0 * p1.x + p2.x) / 4.0, (p0.y + 2.0 * p1.y + p2.y) / 4.0)
  {
  }

  /** The point list after the iterations i, i + 1, ... of
      QuadraticBezier's loop: iteration i replaces point i + 1, reading
      point i, which the previous iteration may already have replaced. */
  function QuadraticFrom(pts: seq<Point>, i: nat): seq<Point>
    decreases |pts| - i
  {
    if i < |pts| - 3 then
      QuadraticFrom(pts[i + 1 := QuadPoint(pts[i], pts[i + 1], pts[i + 2])], i + 1)
    else
      pts
  }

  function QuadraticPass(pts: seq<Point>): seq<Point>
  {
    QuadraticFrom(pts, 0)
  }

  lemma {:induction false} QuadraticFromLength(pts: seq<Point>, i: nat)
    ensures |QuadraticFrom(pts, i)| == |pts|
    decreases |pts| - i
  {
    if i < |pts| - 3 {
      QuadraticFromLength(pts[i + 1 := QuadPoint(pts[i], pts[i + 1], pts[i + 2])], i + 1);
    }
  }

  /** Points at or before the starting index are left alone. */
  lemma {:induction false} QuadraticFromPrefix(pts: seq<Point>, i: nat)
    ensures |QuadraticFrom(pts, i)| == |pts|
    ensures forall k :: 0 <= k <= i && k < |pts| ==> QuadraticFrom(pts, i)[k] == pts[k]
    decreases |pts| - i
  {
    QuadraticFromLength(pts, i);
    if i < |pts| - 3 {
      QuadraticFromPrefix(pts[i + 1 := QuadPoint(pts[i], pts[i + 1], pts[i + 2])], i + 1);
    }
  }

  /** The last two points are left alone. */
  lemma {:induction false} QuadraticFromTail(pts: seq<Point>, i: nat)
    ensures |QuadraticFrom(pts, i)| == |pts|
    ensures forall k :: i < k && |pts| - 2 <= k < |pts| ==> QuadraticFrom(pts, i)[k] == pts[k]
    decreases |pts| - i
  {
    QuadraticFromLength(pts, i);
    if i < |pts| - 3 {
      QuadraticFromTail(pts[i + 1 := QuadPoint(pts[i], pts[i + 1], pts[i + 2])], i + 1);
    }
  }

  /** Every point after the starting index, up to n - 3, is the De Casteljau
      point of its already replaced predecessor and its two old neighbours. */
  lemma {:induction false} QuadraticFromRecurrence(pts: seq<Point>, i: nat)
    ensures |QuadraticFrom(pts, i)| == |pts|
    ensures forall k :: i < k <= |pts| - 3 ==>
              QuadraticFrom(pts, i)[k] == QuadPoint(QuadraticFrom(pts, i)[k - 1], pts[k], pts[k + 1])
    decreases |pts| - i
  {
    QuadraticFromLength(pts, i);
    if i < |pts| - 3 {
      var next := pts[i + 1 := QuadPoint(pts[i], pts[i + 1], pts[i + 2])];
      QuadraticFromRecurrence(next, i + 1);
      QuadraticFromPrefix(next, i + 1);
      assert QuadraticFrom(pts, i) == QuadraticFrom(next, i + 1);
    }
  }

  lemma QuadraticFromShape(pts: seq<Point>, i: nat)
    ensures |QuadraticFrom(pts, i)| == |pts|
    ensures forall k :: 0 <= k <= i && k < |pts| ==> QuadraticFrom(pts, i)[k] == pts[k]
    ensures forall k :: i < k && |pts| - 2 <= k < |pts| ==> QuadraticFrom(pts, i)[k] == pts[k]
    ensures forall k :: i < k <= |pts| - 3 ==>
              QuadraticFrom(pts, i)[k] == QuadPoint(QuadraticFrom(pts, i)[k - 1], pts[k], pts[k + 1])
  {
    QuadraticFromLength(pts, i);
    QuadraticFromPrefix(pts, i);
    QuadraticFromTail(pts, i);
    QuadraticFromRecurrence(pts, i);
  }

  /** The quadratic pass keeps the point count and the first and the last
      two points, and every point k in 1 .. n-3 becomes the De Casteljau
      point of its ALREADY SMOOTHED predecessor and its two old
      neighbours: the replacement is in place, so it feeds forward. */
  lemma QuadraticPassSpec(pts: seq<Point>)
    ensures |QuadraticPass(pts)| == |pts|
    ensures |pts| > 0 ==> QuadraticPass(pts)[0] == pts[0]
    ensures forall k :: 0 < k && |pts| - 2 <= k < |pts| ==> QuadraticPass(pts)[k] == pts[k]
    ensures forall k :: 1 <= k <= |pts| - 3 ==>
              QuadraticPass(pts)[k] == QuadPoint(QuadraticPass(pts)[k - 1], pts[k], pts[k + 1])
    ensures |pts| <= 3 ==> QuadraticPass(pts) == pts
  {
    QuadraticFromShape(pts, 0);
  }

  // ---------------------------------------------------------------------
  // CubicBezier: in-place De Casteljau at t = 0.5 over quadruples
  // ---------------------------------------------------------------------

  /** The De Casteljau point at t = 0.5 of the cubic curve p0 .. p3,
      computed with the same six interpolations as the source. */
  function CubicPoint(p0: Point, p1: Point, p2: Point, p3: Point): Point
  {
    var t := 0.5;
    var q0 := Lerp(p0, p1, t);
    var q1 := Lerp(p1, p2, t);
    var q2 := Lerp(p2, p3, t);
    var r0 := Lerp(q0, q1, t);
    var r1 := Lerp(q1, q2, t);
    Lerp(r0, r1, t)
  }

  /** The interpolations amount to the Bernstein weights 1/8, 3/8, 3/8, 1/8. */
  lemma CubicPointWeights(p0: Point, p1: Point, p2: Point, p3: Point)
    ensures CubicPoint(p0, p1, p2, p3)
         == Point((p0.x + 3.0 * p1.x + 3.0 * p2.x + p3.x) / 8.0,
                  (p0.y + 3.0 * p1.y + 3.0 * p2.y + p3.y) / 8.0)
  {
  }

  /** One iteration of CubicBezier's loop at index i. Removing point i + 1
      shifts the list, so the second removal at i + 2 takes the OLD point
      i + 3; the new point goes in at i + 1, in front of the old point
      i + 2, and the list is one point shorter. */
  function CubicStep(pts: seq<Point>, i: nat): (r: seq<Point>)
    requires i + 4 <= |pts|
    ensures |r| == |pts| - 1
  {
    pts[..i + 1] + [CubicPoint(pts[i], pts[i + 1], pts[i + 2], pts[i + 3])] + [pts[i + 2]] + pts[i + 4..]
  }

  /** The two removals and the insertion of CubicBezier's loop body, done
      one after the other on a list, give CubicStep. */
  lemma CubicEditIsStep(pts: seq<Point>, i: nat)
    requires i + 4 <= |pts|
    ensures var once := pts[..i + 1] + pts[i + 2..];
            var twice := once[..i + 2] + once[i + 3..];
            var s := CubicPoint(pts[i], pts[i + 1], pts[i + 2], pts[i + 3]);
            twice[..i + 1] + [s] + twice[i + 1..] == CubicStep(pts, i)
  {
    var once := pts[..i + 1] + pts[i + 2..];
    assert |once| == |pts| - 1;
    assert forall k :: 0 <= k <= i ==> once[k] == pts[k];
    assert forall k :: i + 1 <= k < |once| ==> once[k] == pts[k + 1];
    var twice := once[..i + 2] + once[i + 3..];
    assert twice == pts[..i + 1] + [pts[i + 2]] + pts[i + 4..];
  }

  /** The point list after the iterations i, i + 1, ... of CubicBezier's
      loop, whose bound is the current point count minus 4. */
  function CubicFrom(pts: seq<Point>, i: nat): seq<Point>
    decreases |pts| - i
  {
    if i < |pts| - 4 then CubicFrom(CubicStep(pts, i), i + 1) else pts
  }

  function CubicPass(pts: seq<Point>): seq<Point>
  {
    CubicFrom(pts, 0)
  }

  /** How many iterations CubicBezier's loop runs when k points remain
      from the current index on: the ceiling of (k - 4) / 2, or none. */
  function CubicRounds(k: int): nat
  {
    if k <= 4 then 0 else (k - 3) / 2
  }

  lemma {:induction false} CubicFromShape(pts: seq<Point>, i: nat)
    ensures |CubicFrom(pts, i)| == |pts| - CubicRounds(|pts| - i)
    ensures i < |pts| ==> CubicFrom(pts, i)[..i + 1] == pts[..i + 1]
    ensures |pts| > 0 ==> CubicFrom(pts, i)[|CubicFrom(pts, i)| - 1] == pts[|pts| - 1]
    decreases |pts| - i
  {
    if i < |pts| - 4 {
      var next := CubicStep(pts, i);
      CubicFromShape(next, i + 1);
      assert next[..i + 1] == pts[..i + 1];
      var r := CubicFrom(next, i + 1);
      assert r[..i + 1] == r[..i + 2][..i + 1];
      assert next[|next| - 1] == pts[|pts| - 1];
    }
  }

  /** The cubic pass leaves a list of at most four points alone; otherwise
      it runs ceil((n - 4) / 2) iterations, each removing one point, and it
      keeps the first and the last point. */
  lemma CubicPassSpec(pts: seq<Point>)
    ensures |pts| <= 4 ==> CubicPass(pts) == pts
    ensures |pts| > 4 ==> |CubicPass(pts)| == |pts| - (|pts| - 3) / 2
    ensures |pts| > 0 ==> CubicPass(pts)[0] == pts[0]
    ensures |pts| > 0 ==> CubicPass(pts)[|CubicPass(pts)| - 1] == pts[|pts| - 1]
  {
    CubicFromShape(pts, 0);
    if |pts| > 0 {
      assert CubicPass(pts)[0] == CubicPass(pts)[..1][0];
    }
  }

  /** What the drawer does to an accepted line (cubic pass, then
      quadratic pass) leaves at least four points of a line that had
      more than three, and keeps its two end points. */
  lemma SmoothingKeepsEnds(pts: seq<Point>)
    requires |pts| > 3
    ensures |QuadraticPass(CubicPass(pts))| >= 4
    ensures QuadraticPass(CubicPass(pts))[0] == pts[0]
    ensures QuadraticPass(CubicPass(pts))[|QuadraticPass(CubicPass(pts))| - 1] == pts[|pts| - 1]
  {
    CubicPassSpec(pts);
    QuadraticPassSpec(CubicPass(pts));
  }

  // ---------------------------------------------------------------------
  // The contour line object
  // ---------------------------------------------------------------------

  class ContourLine {
    var points: seq<Point>
    var height: real
    var area: real

    /** A new line has no points and a zero height and area. */
    constructor ()
      ensures points == [] && height == 0.0 && area == 0.0
    {
      points := [];
      height := 0.0;
      area := 0.0;
    }

    function Value(): Polyline
      reads this
    {
      Polyline(points, height, area)
    }

    function GetPointCount(): nat
      reads this
    {
      |points|
    }

    function GetPointPosition(i: int): Point
      reads this
      requires 0 <= i < |points|
    {
      points[i]
    }

    function GetHeight(): real
      reads this
    {
      height
    }

    method SetHeight(h: real)
      modifies this
      ensures GetHeight() == h
      ensures points == old(points) && area == old(area)
    {
      height := h;
    }

    /** Line2D's AddPoint(p): append. */
    method AddPoint(p: Point)
      modifies this
      ensures points == old(points) + [p]
      ensures height == old(height) && area == old(area)
    {
      points := points + [p];
    }

    /** Line2D's AddPoint(p, index): insert in front of point index; an
        index outside 0 .. count appends instead. */
    method AddPointAt(p: Point, index: int)
      modifies this
      ensures 0 <= index <= |old(points)| ==> points == old(points)[..index] + [p] + old(points)[index..]
      ensures !(0 <= index <= |old(points)|) ==> points == old(points) + [p]
      ensures height == old(height) && area == old(area)
    {
      if 0 <= index <= |points| {
        points := points[..index] + [p] + points[index..];
      } else {
        points := points + [p];
      }
    }

    /** Line2D's RemovePoint(index); an index out of range changes nothing. */
    method RemovePoint(index: int)
      modifies this
      ensures 0 <= index < |old(points)| ==> points == old(points)[..index] + old(points)[index + 1..]
      ensures !(0 <= index < |old(points)|) ==> points == old(points)
      ensures height == old(height) && area == old(area)
    {
      if 0 <= index < |points| {
        points := points[..index] + points[index + 1..];
      }
    }

    /** Adds every point's squared distance to the first point onto the
        area field, then divides the field by the point count. The field
        is not reset first, so a second call builds on the first. */
    method GetArea() returns (r: real)
      requires |points| > 0
      modifies this
      ensures points == old(points) && height == old(height)
      ensures r == area
      ensures area == (old(area) + SumSqTo(points, points[0], |points|)) / |points| as real
    {
      var i := 0;
      while i < GetPointCount()
        invariant 0 <= i <= |points|
        invariant points == old(points) && height == old(height)
        invariant area == old(area) + SumSqTo(points, points[0], i)
      {
        area := area + DistSq(GetPointPosition(i), GetPointPosition(0));
        i := i + 1;
      }
      area := area / GetPointCount() as real;
      r := area;
    }

    method QuadraticBezier()
      modifies this
      ensures points == QuadraticPass(old(points))
      ensures height == old(height) && area == old(area)
    {
      var i := 0;
      while i < GetPointCount() - 3
        invariant QuadraticFrom(points, i) == QuadraticPass(old(points))
        invariant height == old(height) && area == old(area)
        decreases |points| - i
      {
        var p0 := GetPointPosition(i);
        var p1 := GetPointPosition(i + 1);
        var p2 := GetPointPosition(i + 2);
        var r := QuadPoint(p0, p1, p2);
        ghost var before := points;
        RemovePoint(i + 1);
        AddPointAt(r, i + 1);
        assert points == before[i + 1 := r];
        i := i + 1;
      }
    }

    method CubicBezier()
      modifies this
      ensures points == CubicPass(old(points))
      ensures height == old(height) && area == old(area)
    {
      var i := 0;
      while i < GetPointCount() - 4
        invariant CubicFrom(points, i) == CubicPass(old(points))
        invariant height == old(height) && area == old(area)
        decreases |points| - i
      {
        var p0 := GetPointPosition(i);
        var p1 := GetPointPosition(i + 1);
        var p2 := GetPointPosition(i + 2);
        var p3 := GetPointPosition(i + 3);
        var s := CubicPoint(p0, p1, p2, p3);
        ghost var before := points;
        RemovePoint(i + 1);
        ghost var once := points;
        RemovePoint(i + 2);
        ghost var twice := points;
        AddPointAt(s, i + 1);
        CubicEditIsStep(before, i);
        assert once == before[..i + 1] + before[i + 2..];
        assert twice == once[..i + 2] + once[i + 3..];
        assert points == twice[..i + 1] + [s] + twice[i + 1..];
        i := i + 1;
      }
    }

    /** A placeholder in the source: it leaves the line as it is. */
    method RemoveKnots()
      ensures points == old(points) && height == old(height) && area == old(area)
    {
    }
  }
}
