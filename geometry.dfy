/**
 * Axis-aligned interval and rectangle geometry (src/js/geometry.ts; the
 * `Geometry` object of src/js/bee.js is the same code).
 *
 * Coordinates are canvas pixels; y grows downwards. A `Line` is a
 * horizontal or vertical segment given by its two end coordinates, a
 * `Rect` is given by its edges.
 */
module Geometry {
  import opened Wrappers

  datatype Direction = Left | Right | Top | Bottom

  datatype Coord = Coord(x: real, y: real)

  datatype Line = Line(c1: real, c2: real)

  /** A touching segment and the side of the first rectangle it lies on. */
  datatype LinearTouch = LinearTouch(c1: real, c2: real, dir: Direction)

  datatype Rect = Rect(x1: real, y1: real, x2: real, y2: real)

  function Abs(x: real): real { if x < 0.0 then -x else x }

  function Max(a: real, b: real): real { if a < b then b else a }

  function Min(a: real, b: real): real { if a < b then a else b }

  predicate WellFormedLine(l: Line) { l.c1 <= l.c2 }

  /** A line of positive length. */
  predicate ProperLine(l: Line) { l.c1 < l.c2 }

  predicate WellFormedRect(r: Rect) { r.x1 <= r.x2 && r.y1 <= r.y2 }

  predicate ProperRect(r: Rect) { r.x1 < r.x2 && r.y1 < r.y2 }

  function XSpan(r: Rect): Line { Line(r.x1, r.x2) }

  function YSpan(r: Rect): Line { Line(r.y1, r.y2) }

  /**
   * Intersection of two parallel segments, `None` when they are apart or
   * meet only at an end point (every comparison is strict). Whatever the
   * inputs, a result runs from the larger start to the smaller end, and
   * segments that overlap by a positive length always have a result.
   */
  function LineIntersection(line1: Line, line2: Line): (r: Option<Line>)
    ensures r.Some? ==> r.value == Line(Max(line1.c1, line2.c1), Min(line1.c2, line2.c2))
    ensures Max(line1.c1, line2.c1) < Min(line1.c2, line2.c2) ==> r.Some?
  {
    if line1.c1 < line2.c1 then
      if line1.c2 > line2.c1 then
        if line1.c2 > line2.c2 then Some(Line(line2.c1, line2.c2))
        else Some(Line(line2.c1, line1.c2))
      else None
    else
      if line1.c1 < line2.c2 then
        if line1.c2 < line2.c2 then Some(Line(line1.c1, line1.c2))
        else Some(Line(line1.c1, line2.c2))
      else None
  }

  /** For well-formed inputs a result is well-formed and lies inside both segments. */
  lemma LineIntersectionInside(line1: Line, line2: Line)
    requires WellFormedLine(line1) && WellFormedLine(line2)
    ensures LineIntersection(line1, line2).Some? ==>
      var r := LineIntersection(line1, line2).value;
      WellFormedLine(r) &&
      line1.c1 <= r.c1 && r.c2 <= line1.c2 &&
      line2.c1 <= r.c1 && r.c2 <= line2.c2
  {
  }

  /**
   * For segments of positive length the intersection exists exactly when
   * they overlap by a positive length.
   */
  lemma LineIntersectionProper(line1: Line, line2: Line)
    requires ProperLine(line1) && ProperLine(line2)
    ensures LineIntersection(line1, line2).Some? <==>
      Max(line1.c1, line2.c1) < Min(line1.c2, line2.c2)
  {
  }

  /** Segments of positive length that are apart or share only an end point have no intersection. */
  lemma LineIntersectionNoneWhenApart(line1: Line, line2: Line)
    requires ProperLine(line1) && ProperLine(line2)
    requires line1.c2 <= line2.c1 || line2.c2 <= line1.c1
    ensures LineIntersection(line1, line2) == None
  {
  }

  /**
   * On a segment of length zero the test is not symmetric: a point at the
   * start of another segment meets it, but not the other way round.
   */
  lemma LineIntersectionAsymmetricOnPoint()
    ensures LineIntersection(Line(0.0, 0.0), Line(0.0, 1.0)) == Some(Line(0.0, 0.0))
    ensures LineIntersection(Line(0.0, 1.0), Line(0.0, 0.0)) == None
  {
  }

  /** How far apart the facing edges are, for side `d` of `rect1`. */
  function EdgeGap(rect1: Rect, rect2: Rect, d: Direction): real
  {
    match d
    case Left => Abs(rect1.x1 - rect2.x2)
    case Right => Abs(rect1.x2 - rect2.x1)
    case Top => Abs(rect1.y1 - rect2.y2)
    case Bottom => Abs(rect1.y2 - rect2.y1)
  }

  /** The order in which the sides are examined: left, right, top, bottom. */
  function Priority(d: Direction): nat
  {
    match d
    case Left => 0
    case Right => 1
    case Top => 2
    case Bottom => 3
  }

  /** The overlap of the two rectangles along side `d`, which runs across it. */
  function SideOverlap(rect1: Rect, rect2: Rect, d: Direction): Option<Line>
  {
    if d == Left || d == Right then LineIntersection(YSpan(rect1), YSpan(rect2))
    else LineIntersection(XSpan(rect1), XSpan(rect2))
  }

  /** Side `d` is the first side, in priority order, whose edges are within `pixel`. */
  predicate FirstCloseSide(rect1: Rect, rect2: Rect, pixel: real, d: Direction)
  {
    EdgeGap(rect1, rect2, d) <= pixel &&
    forall e :: Priority(e) < Priority(d) ==> EdgeGap(rect1, rect2, e) > pixel
  }

  /**
   * The touching segment of two rectangles, if any. Only the first side
   * whose edges are within `pixel` is examined: a result names that side
   * and carries the overlap across it, and when that overlap is empty the
   * result is `None` even if a later side would have touched.
   */
  function RectTouching(rect1: Rect, rect2: Rect, pixel: real): (t: Option<LinearTouch>)
    ensures t.Some? ==>
      FirstCloseSide(rect1, rect2, pixel, t.value.dir) &&
      SideOverlap(rect1, rect2, t.value.dir) == Some(Line(t.value.c1, t.value.c2))
    ensures (forall d :: EdgeGap(rect1, rect2, d) > pixel) ==> t.None?
  {
    if Abs(rect1.x1 - rect2.x2) <= pixel then
      Tag(LineIntersection(Line(rect1.y1, rect1.y2), Line(rect2.y1, rect2.y2)), Left)
    else if Abs(rect1.x2 - rect2.x1) <= pixel then
      Tag(LineIntersection(Line(rect1.y1, rect1.y2), Line(rect2.y1, rect2.y2)), Right)
    else if Abs(rect1.y1 - rect2.y2) <= pixel then
      Tag(LineIntersection(Line(rect1.x1, rect1.x2), Line(rect2.x1, rect2.x2)), Top)
    else if Abs(rect1.y2 - rect2.y1) <= pixel then
      Tag(LineIntersection(Line(rect1.x1, rect1.x2), Line(rect2.x1, rect2.x2)), Bottom)
    else
      None
  }

  /**
   * The first close side alone decides the result: its overlap, tagged
   * with it, or `None` when that overlap is empty, whatever later sides do.
   */
  lemma RectTouchingFirstSideDecides(rect1: Rect, rect2: Rect, pixel: real, d: Direction)
    requires FirstCloseSide(rect1, rect2, pixel, d)
    ensures RectTouching(rect1, rect2, pixel) == Tag(SideOverlap(rect1, rect2, d), d)
  {
    match d
    case Left =>
    case Right => assert EdgeGap(rect1, rect2, Left) > pixel;
    case Top =>
      assert EdgeGap(rect1, rect2, Left) > pixel;
      assert EdgeGap(rect1, rect2, Right) > pixel;
    case Bottom =>
      assert EdgeGap(rect1, rect2, Left) > pixel;
      assert EdgeGap(rect1, rect2, Right) > pixel;
      assert EdgeGap(rect1, rect2, Top) > pixel;
  }

  /** Sets the side of a non-null touching segment. */
  function Tag(line: Option<Line>, d: Direction): (t: Option<LinearTouch>)
    ensures t.Some? <==> line.Some?
    ensures t.Some? ==> t.value == LinearTouch(line.value.c1, line.value.c2, d)
  {
    match line
    case None => None
    case Some(l) => Some(LinearTouch(l.c1, l.c2, d))
  }

  /** Inclusive overlap test: rectangles that share only an edge or a corner intersect. */
  function IsRectIntersection(rect1: Rect, rect2: Rect): bool
  {
    rect1.x1 <= rect2.x2 && rect1.x2 >= rect2.x1 && rect1.y1 <= rect2.y2 && rect1.y2 >= rect2.y1
  }

  lemma IsRectIntersectionSymmetric(rect1: Rect, rect2: Rect)
    ensures IsRectIntersection(rect1, rect2) == IsRectIntersection(rect2, rect1)
  {
  }

  /**
   * For well-formed rectangles the inclusive test is a closed overlap on
   * both axes, so rectangles that share only an edge or a corner intersect.
   */
  lemma IsRectIntersectionInclusive(rect1: Rect, rect2: Rect)
    requires WellFormedRect(rect1) && WellFormedRect(rect2)
    ensures IsRectIntersection(rect1, rect2) <==>
              Max(rect1.x1, rect2.x1) <= Min(rect1.x2, rect2.x2) &&
              Max(rect1.y1, rect2.y1) <= Min(rect1.y2, rect2.y2)
    ensures rect1.x2 == rect2.x1 && rect1.y1 <= rect2.y2 && rect1.y2 >= rect2.y1 ==> IsRectIntersection(rect1, rect2)
    ensures rect1.x1 == rect2.x2 && rect1.y1 <= rect2.y2 && rect1.y2 >= rect2.y1 ==> IsRectIntersection(rect1, rect2)
    ensures rect1.y2 == rect2.y1 && rect1.x1 <= rect2.x2 && rect1.x2 >= rect2.x1 ==> IsRectIntersection(rect1, rect2)
    ensures rect1.y1 == rect2.y2 && rect1.x1 <= rect2.x2 && rect1.x2 >= rect2.x1 ==> IsRectIntersection(rect1, rect2)
  {
  }

  /**
   * Intersection of two rectangles: `None` exactly when the x spans or the
   * y spans have no (strict) intersection, otherwise the x bounds come from
   * the x spans and the y bounds from the y spans.
   */
  function RectIntersection(rect1: Rect, rect2: Rect): (r: Option<Rect>)
    ensures r.None? <==>
      LineIntersection(XSpan(rect1), XSpan(rect2)).None? ||
      LineIntersection(YSpan(rect1), YSpan(rect2)).None?
    ensures r.Some? ==>
      XSpan(r.value) == LineIntersection(XSpan(rect1), XSpan(rect2)).value &&
      YSpan(r.value) == LineIntersection(YSpan(rect1), YSpan(rect2)).value
  {
    match LineIntersection(Line(rect1.x1, rect1.x2), Line(rect2.x1, rect2.x2))
    case None => None
    case Some(xs) =>
      match LineIntersection(Line(rect1.y1, rect1.y2), Line(rect2.y1, rect2.y2))
      case None => None
      case Some(ys) => Some(Rect(xs.c1, ys.c1, xs.c2, ys.c2))
  }

  /** For well-formed rectangles a strict intersection implies the inclusive test. */
  lemma RectIntersectionImpliesIsRectIntersection(rect1: Rect, rect2: Rect)
    requires WellFormedRect(rect1) && WellFormedRect(rect2)
    ensures RectIntersection(rect1, rect2).Some? ==> IsRectIntersection(rect1, rect2)
  {
  }

  /**
   * The two tests disagree exactly on rectangles that only share an edge:
   * for proper rectangles, `IsRectIntersection` holds while
   * `RectIntersection` is `None` iff they touch along x or along y.
   */
  lemma RectTestsDisagreeOnSharedEdge(rect1: Rect, rect2: Rect)
    requires ProperRect(rect1) && ProperRect(rect2)
    ensures (IsRectIntersection(rect1, rect2) && RectIntersection(rect1, rect2).None?) <==>
      (IsRectIntersection(rect1, rect2) &&
       (Max(rect1.x1, rect2.x1) == Min(rect1.x2, rect2.x2) ||
        Max(rect1.y1, rect2.y1) == Min(rect1.y2, rect2.y2)))
  {
    LineIntersectionProper(XSpan(rect1), XSpan(rect2));
    LineIntersectionProper(YSpan(rect1), YSpan(rect2));
  }
}
