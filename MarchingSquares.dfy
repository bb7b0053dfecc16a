/** The marching-squares cell logic of Class/ContourDrawer.cs: the
    height image, the sixteen cell cases (GetCaseId and the LineShapes
    enumeration) and the segments each case produces (GetLineCase). */
module MarchingSquares {
  import opened Geometry
  import opened Segments

  /** The red channel of a pixel. */
  type Byte = v: int | 0 <= v < 256

  /** The height image: pixels[y][x] is the red channel of pixel (x, y). */
  datatype HeightMap = HeightMap(width: int, height: int, pixels: seq<seq<Byte>>) {

    predicate Valid() {
      0 <= width && 0 <= height && |pixels| == height &&
      forall y :: 0 <= y < |pixels| ==> |pixels[y]| == width
    }

    /** `GetPixel(x, y).R8`, for a pixel inside the image. */
    function R8(x: int, y: int): Byte
      requires Valid() && 0 <= x < width && 0 <= y < height
    {
      pixels[y][x]
    }
  }

  // ---------------------------------------------------------------------
  // Cases
  // ---------------------------------------------------------------------

  /** The LineShapes enumeration, in the order of its numeric values 0 .. 15;
      each name says which corners are at or above the iso value. */
  datatype LineShape =
    | Empty | BottomLeft | BottomRight | Bottom
    | TopRight | TopRightBottomLeft | Right | AllButTopLeft
    | TopLeft | Left | TopLeftBottomRight | AllButTopRight
    | Top | AllButBottomRight | AllButBottomLeft | All

  /** The numeric value of an enumeration member. */
  function ShapeId(s: LineShape): (n: int)
    ensures 0 <= n < 16
  {
    match s
    case Empty => 0
    case BottomLeft => 1
    case BottomRight => 2
    case Bottom => 3
    case TopRight => 4
    case TopRightBottomLeft => 5
    case Right => 6
    case AllButTopLeft => 7
    case TopLeft => 8
    case Left => 9
    case TopLeftBottomRight => 10
    case AllButTopRight => 11
    case Top => 12
    case AllButBottomRight => 13
    case AllButBottomLeft => 14
    case All => 15
  }

  /** The cast `(LineShapes)caseId` of a value in 0 .. 15. */
  function ToShape(n: int): (s: LineShape)
    requires 0 <= n < 16
    ensures ShapeId(s) == n
  {
    if n == 0 then Empty else if n == 1 then BottomLeft
    else if n == 2 then BottomRight else if n == 3 then Bottom
    else if n == 4 then TopRight else if n == 5 then TopRightBottomLeft
    else if n == 6 then Right else if n == 7 then AllButTopLeft
    else if n == 8 then TopLeft else if n == 9 then Left
    else if n == 10 then TopLeftBottomRight else if n == 11 then AllButTopRight
    else if n == 12 then Top else if n == 13 then AllButBottomRight
    else if n == 14 then AllButBottomLeft else All
  }

  /** The cast and the numeric value are inverse to each other. */
  lemma ShapeIdRoundTrip(s: LineShape)
    ensures ToShape(ShapeId(s)) == s
  {
  }

  /** Whether the given bit (8, 4, 2 or 1) is set in a case. */
  predicate HasBit(s: LineShape, bit: nat)
    requires bit > 0
  {
    (ShapeId(s) / bit) % 2 == 1
  }

  /** The inclusive test every corner is put to. */
  predicate Above(h: int, iso: real) {
    h as real >= iso
  }

  /** GetCaseId: packs the four corner tests into a case, a giving bit 8,
      b bit 4, c bit 2 and d bit 1. */
  function GetCaseId(a: int, b: int, c: int, d: int, iso: real): (s: LineShape)
    ensures HasBit(s, 8) <==> Above(a, iso)
    ensures HasBit(s, 4) <==> Above(b, iso)
    ensures HasBit(s, 2) <==> Above(c, iso)
    ensures HasBit(s, 1) <==> Above(d, iso)
    ensures s == Empty <==> !Above(a, iso) && !Above(b, iso) && !Above(c, iso) && !Above(d, iso)
    ensures s == All <==> Above(a, iso) && Above(b, iso) && Above(c, iso) && Above(d, iso)
  {
    ToShape((if Above(a, iso) then 8 else 0) + (if Above(b, iso) then 4 else 0)
          + (if Above(c, iso) then 2 else 0) + (if Above(d, iso) then 1 else 0))
  }

  // ---------------------------------------------------------------------
  // Cells and edge crossings
  // ---------------------------------------------------------------------

  /** The corners of a cell: a top-left, b top-right, c bottom-right,
      d bottom-left. */
  datatype Corner = A | B | C | D

  /** A square cell with top-left corner (x, y) and side step, with the
      heights a, b, c, d sampled at its corners. */
  datatype Cell = Cell(x: int, y: int, step: int, a: int, b: int, c: int, d: int) {

    function Position(k: Corner): Point {
      match k
      case A => Point(x as real, y as real)
      case B => Point((x + step) as real, y as real)
      case C => Point((x + step) as real, (y + step) as real)
      case D => Point(x as real, (y + step) as real)
    }

    function Value(k: Corner): int {
      match k
      case A => a
      case B => b
      case C => c
      case D => d
    }

    /** The saddle discriminant `a*c - b*d`. */
    function Resolver(): int {
      a * c - b * d
    }
  }

  /** Two corners that share a side of the cell. */
  predicate Adjacent(f: Corner, t: Corner) {
    (f == A && t == B) || (f == B && t == A) || (f == B && t == C) || (f == C && t == B) ||
    (f == C && t == D) || (f == D && t == C) || (f == D && t == A) || (f == A && t == D)
  }

  /** The iso value separates the heights at the two corners. */
  predicate Crosses(cell: Cell, iso: real, f: Corner, t: Corner) {
    Above(cell.Value(f), iso) != Above(cell.Value(t), iso)
  }

  /** How far along the edge from f to t the crossing lies: the source's
      `(isoValue - f_f) / (t_f - f_f)`. */
  function Fraction(cell: Cell, iso: real, f: Corner, t: Corner): real
    requires cell.Value(f) != cell.Value(t)
  {
    (iso - cell.Value(f) as real) / (cell.Value(t) as real - cell.Value(f) as real)
  }

  /** The end point built on the edge from corner f to corner t. The
      source copies corner f and moves the one coordinate that varies
      along the edge; on an axis-parallel edge that is the interpolation
      written here, since the other coordinate moves by zero. */
  function Cross(cell: Cell, iso: real, f: Corner, t: Corner): Point
    requires cell.Value(f) != cell.Value(t)
  {
    Lerp(cell.Position(f), cell.Position(t), Fraction(cell, iso, f, t))
  }

  /** The closed square [x, x+step] x [y, y+step] minus its interior. */
  predicate OnBoundary(cell: Cell, p: Point) {
    var x0, x1 := cell.x as real, (cell.x + cell.step) as real;
    var y0, y1 := cell.y as real, (cell.y + cell.step) as real;
    x0 <= p.x <= x1 && y0 <= p.y <= y1 &&
    (p.x == x0 || p.x == x1 || p.y == y0 || p.y == y1)
  }

  /** A quotient whose numerator has the denominator's sign and no larger
      magnitude lies in [0, 1]. */
  lemma UnitFraction(num: real, den: real)
    requires den != 0.0
    requires (0.0 <= num <= den) || (den <= num <= 0.0)
    ensures 0.0 <= num / den <= 1.0
  {
  }

  /** w lies between u and v, whichever of the two is smaller. */
  predicate InRange(u: real, v: real, w: real) {
    (u <= v && u <= w <= v) || (v <= u && v <= w <= u)
  }

  /** On a crossed edge the denominator is not zero, the fraction lies in
      [0, 1], and the end point lies on the side of the cell between the
      two corners: the coordinate the corners share is kept, the other lies
      between theirs. */
  lemma CrossOnEdge(cell: Cell, iso: real, f: Corner, t: Corner)
    requires cell.step >= 0 && Adjacent(f, t) && Crosses(cell, iso, f, t)
    ensures cell.Value(f) != cell.Value(t)
    ensures 0.0 <= Fraction(cell, iso, f, t) <= 1.0
    ensures var p, pf, pt := Cross(cell, iso, f, t), cell.Position(f), cell.Position(t);
      InRange(pf.x, pt.x, p.x) && InRange(pf.y, pt.y, p.y) &&
      (pf.x == pt.x ==> p.x == pf.x) && (pf.y == pt.y ==> p.y == pf.y)
    ensures OnBoundary(cell, Cross(cell, iso, f, t))
  {
    var vf, vt := cell.Value(f) as real, cell.Value(t) as real;
    UnitFraction(iso - vf, vt - vf);
    LerpBetween(cell.Position(f), cell.Position(t), Fraction(cell, iso, f, t));
    LerpOnSide(cell, cell.Position(f), cell.Position(t), Fraction(cell, iso, f, t));
  }

  /** Interpolating between two corners of a cell that share a side stays
      on that side. */
  lemma LerpOnSide(cell: Cell, pf: Point, pt: Point, u: real)
    requires cell.step >= 0 && 0.0 <= u <= 1.0
    requires pf.x == pt.x || pf.y == pt.y
    requires OnBoundary(cell, pf) && OnBoundary(cell, pt)
    requires pf.x == cell.x as real || pf.x == (cell.x + cell.step) as real
    requires pf.y == cell.y as real || pf.y == (cell.y + cell.step) as real
    ensures OnBoundary(cell, Lerp(pf, pt, u))
  {
    LerpBetween(pf, pt, u);
  }

  /** Interpolating a coordinate from either end of an edge gives the
      same value. */
  lemma InterpReversible(pf: real, pt: real, vf: real, vt: real, iso: real)
    requires vf != vt
    ensures pf + (pt - pf) * ((iso - vf) / (vt - vf)) == pt + (pf - pt) * ((iso - vt) / (vf - vt))
  {
    var u := (iso - vf) / (vt - vf);
    var w := (iso - vt) / (vf - vt);
    assert w == (vt - iso) / (vt - vf);
    assert u + w == 1.0;
    assert pt + (pf - pt) * w == pt + (pf - pt) * (1.0 - u);
  }

  /** The end point does not depend on the direction the source happens
      to interpolate in along an edge. */
  lemma CrossReversible(cell: Cell, iso: real, f: Corner, t: Corner)
    requires cell.Value(f) != cell.Value(t)
    ensures Cross(cell, iso, f, t) == Cross(cell, iso, t, f)
  {
    var vf, vt := cell.Value(f) as real, cell.Value(t) as real;
    var pf, pt := cell.Position(f), cell.Position(t);
    InterpReversible(pf.x, pt.x, vf, vt, iso);
    InterpReversible(pf.y, pt.y, vf, vt, iso);
  }

  // ---------------------------------------------------------------------
  // GetLineCase
  // ---------------------------------------------------------------------

  /** A segment as the source builds it: q on the edge from qFrom towards
      qTo, p on the edge from pFrom towards pTo. */
  datatype EdgePair = EdgePair(qFrom: Corner, qTo: Corner, pFrom: Corner, pTo: Corner)

  /** The two saddle pairings: the left edge with the top and the right
      with the bottom, or the right edge with the top and the left with
      the bottom. */
  const LeftTopRightBottom: seq<EdgePair> := [EdgePair(A, D, B, A), EdgePair(C, B, D, C)]
  const RightTopLeftBottom: seq<EdgePair> := [EdgePair(B, C, A, B), EdgePair(D, A, C, D)]

  /** The edges GetLineCase interpolates along, case by case; the saddle
      cases choose by the sign of the resolver. */
  function CaseEdges(s: LineShape, resolver: int): seq<EdgePair>
  {
    match s
    case Empty | All => []
    case BottomLeft | AllButBottomLeft => [EdgePair(A, D, C, D)]
    case BottomRight | AllButBottomRight => [EdgePair(B, C, D, C)]
    case Bottom | Top => [EdgePair(A, D, B, C)]
    case TopRight | AllButTopRight => [EdgePair(C, B, A, B)]
    case Right | Left => [EdgePair(A, B, D, C)]
    case TopLeft | AllButTopLeft => [EdgePair(D, A, B, A)]
    case TopRightBottomLeft => if resolver > 0 then LeftTopRightBottom else RightTopLeftBottom
    case TopLeftBottomRight => if resolver > 0 then RightTopLeftBottom else LeftTopRightBottom
  }

  /** GetLineCase as written: ten independent `if` statements, each adding
      its segments to the list. */
  function IfChainEdges(s: LineShape, resolver: int): seq<EdgePair>
  {
    (if s == BottomLeft || s == AllButBottomLeft then [EdgePair(A, D, C, D)] else [])
    + (if s == BottomRight || s == AllButBottomRight then [EdgePair(B, C, D, C)] else [])
    + (if s == Bottom || s == Top then [EdgePair(A, D, B, C)] else [])
    + (if s == TopRight || s == AllButTopRight then [EdgePair(C, B, A, B)] else [])
    + (if s == Right || s == Left then [EdgePair(A, B, D, C)] else [])
    + (if s == TopLeft || s == AllButTopLeft then [EdgePair(D, A, B, A)] else [])
    + (if s == TopRightBottomLeft then
         (if resolver > 0 then LeftTopRightBottom else RightTopLeftBottom) else [])
    + (if s == TopLeftBottomRight then
         (if resolver > 0 then RightTopLeftBottom else LeftTopRightBottom) else [])
    + (if s == Empty then [] else [])
    + (if s == All then [] else [])
  }

  /** Every case passes exactly one of the ten conditions, so the chain of
      `if` statements adds exactly what that case's branch adds. */
  lemma IfChainAgrees(s: LineShape, resolver: int)
    ensures IfChainEdges(s, resolver) == CaseEdges(s, resolver)
  {
  }

  /** Case 0 and case 15 give no segment, the saddles 5 and 10 give two,
      every other case exactly one. */
  lemma CaseEdgesCount(s: LineShape, resolver: int)
    ensures |CaseEdges(s, resolver)| ==
      if s == Empty || s == All then 0
      else if s == TopRightBottomLeft || s == TopLeftBottomRight then 2
      else 1
  {
  }

  /** Case 5 with a positive resolver pairs the edges as case 10 does with
      a non-positive one, and the other way round. */
  lemma SaddlePairing(r1: int, r2: int)
    requires (r1 > 0) != (r2 > 0)
    ensures CaseEdges(TopRightBottomLeft, r1) == CaseEdges(TopLeftBottomRight, r2)
    ensures CaseEdges(TopLeftBottomRight, r1) == CaseEdges(TopRightBottomLeft, r2)
    ensures CaseEdges(TopRightBottomLeft, r1) != CaseEdges(TopRightBottomLeft, r2)
  {
    assert LeftTopRightBottom[0] != RightTopLeftBottom[0];
  }

  /** Every edge the case of a cell selects is a side of the cell that the
      iso value crosses. */
  lemma CaseEdgesCross(cell: Cell, iso: real)
    ensures forall e :: e in CaseEdges(GetCaseId(cell.a, cell.b, cell.c, cell.d, iso), cell.Resolver()) ==>
              Adjacent(e.qFrom, e.qTo) && Adjacent(e.pFrom, e.pTo) &&
              Crosses(cell, iso, e.qFrom, e.qTo) && Crosses(cell, iso, e.pFrom, e.pTo)
  {
  }

  /** The segment an edge pair stands for, tagged with the iso value. */
  function Segment(cell: Cell, iso: real, e: EdgePair): Line
    requires Crosses(cell, iso, e.qFrom, e.qTo) && Crosses(cell, iso, e.pFrom, e.pTo)
  {
    Line(Cross(cell, iso, e.qFrom, e.qTo), Cross(cell, iso, e.pFrom, e.pTo), iso)
  }

  /** The segments of a list of edge pairs, in order. */
  function CellSegments(cell: Cell, iso: real, edges: seq<EdgePair>): seq<Line>
    requires forall e :: e in edges ==>
               Crosses(cell, iso, e.qFrom, e.qTo) && Crosses(cell, iso, e.pFrom, e.pTo)
  {
    if edges == [] then [] else [Segment(cell, iso, edges[0])] + CellSegments(cell, iso, edges[1..])
  }

  lemma {:induction false} CellSegmentsAt(cell: Cell, iso: real, edges: seq<EdgePair>)
    requires forall e :: e in edges ==>
               Crosses(cell, iso, e.qFrom, e.qTo) && Crosses(cell, iso, e.pFrom, e.pTo)
    ensures |CellSegments(cell, iso, edges)| == |edges|
    ensures forall k :: 0 <= k < |edges| ==> CellSegments(cell, iso, edges)[k] == Segment(cell, iso, edges[k])
  {
    if edges != [] {
      CellSegmentsAt(cell, iso, edges[1..]);
    }
  }

  /** The segments of a cell at an iso value: GetLineCase once the four
      heights are read. */
  function LineCase(cell: Cell, iso: real): seq<Line>
  {
    CaseEdgesCross(cell, iso);
    CellSegments(cell, iso, CaseEdges(GetCaseId(cell.a, cell.b, cell.c, cell.d, iso), cell.Resolver()))
  }

  /** Zero segments for cases 0 and 15, two for the saddles, one
      otherwise; every segment carries the iso value and has both end
      points on the boundary of the cell. */
  lemma LineCaseSpec(cell: Cell, iso: real)
    requires cell.step >= 0
    ensures var s := GetCaseId(cell.a, cell.b, cell.c, cell.d, iso);
      |LineCase(cell, iso)| ==
        if s == Empty || s == All then 0
        else if s == TopRightBottomLeft || s == TopLeftBottomRight then 2
        else 1
    ensures forall l :: l in LineCase(cell, iso) ==>
              l.height == iso && OnBoundary(cell, l.start) && OnBoundary(cell, l.end)
  {
    var edges := CaseEdges(GetCaseId(cell.a, cell.b, cell.c, cell.d, iso), cell.Resolver());
    CaseEdgesCount(GetCaseId(cell.a, cell.b, cell.c, cell.d, iso), cell.Resolver());
    CaseEdgesCross(cell, iso);
    CellSegmentsAt(cell, iso, edges);
    forall l | l in LineCase(cell, iso)
      ensures l.height == iso && OnBoundary(cell, l.start) && OnBoundary(cell, l.end)
    {
      var i :| 0 <= i < |edges| && LineCase(cell, iso)[i] == l;
      assert edges[i] in edges;
      CrossOnEdge(cell, iso, edges[i].qFrom, edges[i].qTo);
      CrossOnEdge(cell, iso, edges[i].pFrom, edges[i].pTo);
    }
  }

  /** A crossing whose target corner sits exactly on the iso value is that
      corner. */
  lemma FractionAtTarget(cell: Cell, iso: real, f: Corner, t: Corner)
    requires cell.Value(f) != cell.Value(t) && cell.Value(t) as real == iso
    ensures Fraction(cell, iso, f, t) == 1.0
    ensures Cross(cell, iso, f, t) == cell.Position(t)
  {
    DivSelf(cell.Value(t) as real - cell.Value(f) as real);
  }

  lemma DivSelf(x: real)
    requires x != 0.0
    ensures x / x == 1.0
  {
  }

  /** The edges of the cell in DegenerateSegmentsOccur. */
  lemma DegenerateEdges(cell: Cell)
    requires cell == Cell(0, 0, 2, 0, 0, 0, 10)
    ensures CaseEdges(GetCaseId(cell.a, cell.b, cell.c, cell.d, 10.0), cell.Resolver())
            == [EdgePair(A, D, C, D)]
  {
    assert !Above(0, 10.0) && Above(10, 10.0);
    assert ShapeId(BottomLeft) == 1;
    assert GetCaseId(cell.a, cell.b, cell.c, cell.d, 10.0) == BottomLeft;
  }

  lemma DegenerateLineCase(cell: Cell)
    requires cell == Cell(0, 0, 2, 0, 0, 0, 10)
    ensures LineCase(cell, 10.0) == CellSegments(cell, 10.0, [EdgePair(A, D, C, D)])
  {
    DegenerateEdges(cell);
  }

  /** The one segment of the cell in DegenerateSegmentsOccur. */
  lemma DegenerateSegment(cell: Cell)
    requires cell == Cell(0, 0, 2, 0, 0, 0, 10)
    ensures CellSegments(cell, 10.0, [EdgePair(A, D, C, D)]) == [Line(cell.Position(D), cell.Position(D), 10.0)]
  {
    FractionAtTarget(cell, 10.0, A, D);
    FractionAtTarget(cell, 10.0, C, D);
    assert Segment(cell, 10.0, EdgePair(A, D, C, D)) == Line(cell.Position(D), cell.Position(D), 10.0);
  }

  /** A corner lying exactly on the iso value can collapse a segment to a
      point: here the d corner of a case-1 cell. */
  lemma DegenerateSegmentsOccur(cell: Cell)
    requires cell == Cell(0, 0, 2, 0, 0, 0, 10)
    ensures LineCase(cell, 10.0) == [Line(cell.Position(D), cell.Position(D), 10.0)]
  {
    DegenerateLineCase(cell);
    DegenerateSegment(cell);
  }

  /** The cell whose top-left corner is pixel (x, y). */
  function ReadCell(hm: HeightMap, step: int, x: int, y: int): Cell
    requires hm.Valid()
    requires 0 <= x < hm.width && 0 <= x + step < hm.width
    requires 0 <= y < hm.height && 0 <= y + step < hm.height
  {
    Cell(x, y, step, hm.R8(x, y), hm.R8(x + step, y), hm.R8(x + step, y + step), hm.R8(x, y + step))
  }

  /** GetLineCase(x, y, isoValue): the four pixel reads must be inside the
      image. */
  function GetLineCase(hm: HeightMap, step: int, x: int, y: int, iso: real): seq<Line>
    requires hm.Valid()
    requires 0 <= x < hm.width && 0 <= x + step < hm.width
    requires 0 <= y < hm.height && 0 <= y + step < hm.height
  {
    LineCase(ReadCell(hm, step, x, y), iso)
  }

  /** Neighbouring cells compute the same point on the side they share,
      whichever direction each interpolates in, so their segments meet. */
  lemma NeighboursAgree(hm: HeightMap, step: int, x: int, y: int, iso: real)
    requires hm.Valid() && step > 0
    requires 0 <= x && x + 2 * step < hm.width
    requires 0 <= y && y + 2 * step < hm.height
    ensures var here, right, below := ReadCell(hm, step, x, y),
                                      ReadCell(hm, step, x + step, y),
                                      ReadCell(hm, step, x, y + step);
      (Crosses(here, iso, B, C) ==>
        Cross(here, iso, B, C) == Cross(right, iso, A, D) &&
        Cross(here, iso, C, B) == Cross(right, iso, A, D) &&
        Cross(here, iso, B, C) == Cross(right, iso, D, A) &&
        Cross(here, iso, C, B) == Cross(right, iso, D, A)) &&
      (Crosses(here, iso, D, C) ==>
        Cross(here, iso, D, C) == Cross(below, iso, A, B) &&
        Cross(here, iso, C, D) == Cross(below, iso, A, B) &&
        Cross(here, iso, D, C) == Cross(below, iso, B, A) &&
        Cross(here, iso, C, D) == Cross(below, iso, B, A))
  {
    var here, right, below := ReadCell(hm, step, x, y),
                              ReadCell(hm, step, x + step, y),
                              ReadCell(hm, step, x, y + step);
    if Crosses(here, iso, B, C) {
      assert right.Position(A) == here.Position(B) && right.Position(D) == here.Position(C);
      CrossReversible(here, iso, B, C);
      CrossReversible(right, iso, A, D);
    }
    if Crosses(here, iso, D, C) {
      assert below.Position(A) == here.Position(D) && below.Position(B) == here.Position(C);
      CrossReversible(here, iso, D, C);
      CrossReversible(below, iso, A, B);
    }
  }
}
