/** Two-dimensional points and the few vector operations the contour code
    uses: linear interpolation and squared distance. Coordinates are exact
    reals, so no rounding is modelled. */
module Geometry {

  datatype Point = Point(x: real, y: real)

  /** `a.Lerp(b, t)`: the point a fraction t of the way from a to b. */
  function Lerp(a: Point, b: Point, t: real): (r: Point)
    ensures t == 0.0 ==> r == a
    ensures t == 1.0 ==> r == b
  {
    Point(a.x + (b.x - a.x) * t, a.y + (b.y - a.y) * t)
  }

  lemma MulNonNegative(u: real, v: real)
    requires u >= 0.0 && v >= 0.0
    ensures u * v >= 0.0
  {
  }

  /** One coordinate of an interpolation with a fraction in [0, 1] lies
      between the two end values. */
  lemma ScalarBetween(u: real, v: real, t: real, w: real)
    requires 0.0 <= t <= 1.0 && w == u + (v - u) * t
    ensures u <= v ==> u <= w <= v
    ensures v <= u ==> v <= w <= u
  {
    if u <= v {
      MulNonNegative(v - u, t);
      MulNonNegative(v - u, 1.0 - t);
      assert (v - u) * (1.0 - t) == (v - u) - (v - u) * t;
    }
    if v <= u {
      MulNonNegative(u - v, t);
      MulNonNegative(u - v, 1.0 - t);
      assert (u - v) * t == -((v - u) * t);
      assert (u - v) * (1.0 - t) == (u - v) - (u - v) * t;
    }
  }

  /** Interpolating with a fraction in [0, 1] stays inside the box spanned
      by the two points. */
  lemma LerpBetween(a: Point, b: Point, t: real)
    requires 0.0 <= t <= 1.0
    ensures var r := Lerp(a, b, t);
      (a.x <= b.x ==> a.x <= r.x <= b.x) && (b.x <= a.x ==> b.x <= r.x <= a.x) &&
      (a.y <= b.y ==> a.y <= r.y <= b.y) && (b.y <= a.y ==> b.y <= r.y <= a.y) &&
      (a.x == b.x ==> r.x == a.x) && (a.y == b.y ==> r.y == a.y)
  {
    var r := Lerp(a, b, t);
    ScalarBetween(a.x, b.x, t, r.x);
    ScalarBetween(a.y, b.y, t, r.y);
  }

  /** `p.DistanceSquaredTo(q)`. */
  function DistSq(p: Point, q: Point): (r: real)
    ensures r >= 0.0
  {
    (p.x - q.x) * (p.x - q.x) + (p.y - q.y) * (p.y - q.y)
  }

  /** `p.DistanceTo(q) < radius` for a whole-number radius, compared on
      squares so that no square root is needed; for a non-negative radius
      the two agree. */
  predicate Within(p: Point, q: Point, radius: nat)
  {
    DistSq(p, q) < (radius * radius) as real
  }

  /** A point is within every positive radius of itself, and nothing is
      within a zero radius of anything. */
  lemma WithinRadius(p: Point, q: Point, radius: nat)
    ensures p == q && radius > 0 ==> Within(p, q, radius)
    ensures radius == 0 ==> !Within(p, q, radius)
  {
  }
}
