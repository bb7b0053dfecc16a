/** The segment record of Class/Line.cs: an immutable pair of end points.
    Callers construct it with a third argument and read it back with
    GetHeight, so the record here also carries the iso height it was
    extracted at. */
module Segments {
  import opened Geometry

  /** A segment is a value: once built, its fields cannot change, and the
      constructor neither validates nor reorders its arguments. */
  datatype Line = Line(start: Point, end: Point, height: real) {

    function GetStart(): Point { start }

    function GetEnd(): Point { end }

    function GetHeight(): real { height }

    /** A segment whose two ends coincide. */
    predicate IsDegenerate() { start == end }
  }

  /** The accessors return exactly what the constructor was given. */
  lemma AccessorsReturnArguments(s: Point, e: Point, h: real)
    ensures Line(s, e, h).GetStart() == s
    ensures Line(s, e, h).GetEnd() == e
    ensures Line(s, e, h).GetHeight() == h
  {
  }

  /** The constructor accepts equal end points: a degenerate segment is
      representable, and it is up to the caller to drop it. */
  lemma DegenerateRepresentable(p: Point, h: real)
    ensures Line(p, p, h).IsDegenerate()
    ensures Line(p, p, h).GetStart() == Line(p, p, h).GetEnd()
  {
  }
}
