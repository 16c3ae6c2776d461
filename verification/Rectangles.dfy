/** Polyline against a closed axis-parallel rectangle, and which displacements the edge tests cannot see. */
module Rectangles {
  import opened Segments
  import opened Proximity
  import opened Paths
  import opened ShortArm

  datatype Rectangle = Rectangle(x: real, y: real, width: real, height: real)

  // ---------------------------------------------------------------- the code

  predicate PointInRectangle(point: Point, rect: Rectangle) {
    point.x >= rect.x && point.x <= rect.x + rect.width && point.y >= rect.y && point.y <= rect.y + rect.height
  }

  /** The four edges as pairs of end points: top, right, bottom, left. */
  function RectangleEdges(rect: Rectangle): (edges: seq<(Point, Point)>)
    ensures |edges| == 4
  {
    var Rectangle(x, y, width, height) := rect;
    [(Point(x, y), Point(x + width, y)),
     (Point(x + width, y), Point(x + width, y + height)),
     (Point(x + width, y + height), Point(x, y + height)),
     (Point(x, y + height), Point(x, y))]
  }

  predicate EdgeHit(a: Point, b: Point, rect: Rectangle) {
    exists k :: 0 <= k < 4 && LineSegmentsIntersect(a, b, RectangleEdges(rect)[k].0, RectangleEdges(rect)[k].1)
  }

  predicate PieceHit(points: Path, rect: Rectangle, i: int)
    requires 0 <= i < |points| - 1
  {
    EdgeHit(points[i], points[i + 1], rect)
  }

  predicate VertexIn(points: Path, rect: Rectangle) {
    exists i :: 0 <= i < |points| && PointInRectangle(points[i], rect)
  }

  /** What the loops decide. */
  predicate RectangleDetected(points: Path, rect: Rectangle) {
    |points| >= 2 && (VertexIn(points, rect) || exists i :: 0 <= i < |points| - 1 && PieceHit(points, rect, i))
  }

  /** Some point of the polyline, not just a vertex, lies in the closed rectangle. */
  ghost predicate PolylineMeets(points: Path, rect: Rectangle) {
    exists p :: OnPath(points, p) && PointInRectangle(p, rect)
  }

  method PolylineIntersectsRectangle(points: Path, rect: Rectangle) returns (r: bool)
    ensures r <==> RectangleDetected(points, rect)
    ensures rect.width >= 0.0 && rect.height >= 0.0 && NoBlindPiece(points, rect) ==>
            (r <==> PolylineMeets(points, rect))
  {
    if rect.width >= 0.0 && rect.height >= 0.0 && NoBlindPiece(points, rect) {
      RectangleExact(points, rect);
    }
    if |points| < 2 {
      return false;
    }
    for i := 0 to |points|
      invariant forall i' :: 0 <= i' < i ==> !PointInRectangle(points[i'], rect)
    {
      if PointInRectangle(points[i], rect) {
        return true;
      }
    }
    var rectEdges := RectangleEdges(rect);
    for i := 0 to |points| - 1
      invariant forall i' :: 0 <= i' < i ==> !PieceHit(points, rect, i')
    {
      var lineStart, lineEnd := points[i], points[i + 1];
      for k := 0 to |rectEdges|
        invariant forall k' :: 0 <= k' < k ==>
                  !LineSegmentsIntersect(lineStart, lineEnd, rectEdges[k'].0, rectEdges[k'].1)
      {
        if LineSegmentsIntersect(lineStart, lineEnd, rectEdges[k].0, rectEdges[k].1) {
          assert PieceHit(points, rect, i);
          return true;
        }
      }
    }
    return false;
  }

  // ---------------------------------------------------------------- what the edge tests cannot see

  /** A displacement too small for all four edge tests, yet able to pass the rectangle with both ends outside:
      it can cut a corner, or it is longer than the rectangle is wide or high. */
  predicate Blind(dx: real, dy: real, rect: Rectangle) {
    && Abs(dx) * rect.height < EPSILON && Abs(dy) * rect.width < EPSILON
    && ((dx != 0.0 && dy != 0.0) || Abs(dx) > rect.width || Abs(dy) > rect.height)
  }

  predicate BlindPiece(points: Path, rect: Rectangle, i: int)
    requires 0 <= i < |points| - 1
  {
    Blind(points[i + 1].x - points[i].x, points[i + 1].y - points[i].y, rect)
  }

  predicate NoBlindPiece(points: Path, rect: Rectangle) {
    forall i :: 0 <= i < |points| - 1 ==> !BlindPiece(points, rect, i)
  }

  // ---------------------------------------------------------------- edges and sides

  lemma AbsProduct(x: real, k: real)
    requires k >= 0.0
    ensures Abs(x * k) == Abs(x) * k && Abs(-(x * k)) == Abs(x) * k
  {
    if x < 0.0 { MulNonNeg(-x, k); } else { MulNonNeg(x, k); }
  }

  lemma HorizontalDenominator(a: Point, b: Point, x: real, x': real, y: real)
    ensures Denominator(a, b, Point(x, y), Point(x', y)) == -((b.y - a.y) * (x' - x))
  {
  }

  lemma VerticalDenominator(a: Point, b: Point, x: real, y: real, y': real)
    ensures Denominator(a, b, Point(x, y), Point(x, y')) == (b.x - a.x) * (y' - y)
  {
  }

  lemma ScaledAbs(d: real, k: real, z: real)
    requires k >= 0.0 && (z == d * k || z == -(d * k) || z == d * -k || z == -(d * -k))
    ensures Abs(z) == Abs(d) * k
  {
    AbsProduct(d, k);
    assert d * -k == -(d * k);
  }

  lemma EdgeDenominators(a: Point, b: Point, rect: Rectangle)
    requires rect.width >= 0.0 && rect.height >= 0.0
    ensures var e := RectangleEdges(rect);
            && Abs(Denominator(a, b, e[0].0, e[0].1)) == Abs(b.y - a.y) * rect.width
            && Abs(Denominator(a, b, e[1].0, e[1].1)) == Abs(b.x - a.x) * rect.height
            && Abs(Denominator(a, b, e[2].0, e[2].1)) == Abs(b.y - a.y) * rect.width
            && Abs(Denominator(a, b, e[3].0, e[3].1)) == Abs(b.x - a.x) * rect.height
  {
    hide Denominator, Abs;
    var Rectangle(x, y, w, h) := rect;
    var x', y' := x + w, y + h;
    assert x' - x == w && x - x' == -w && y' - y == h && y - y' == -h;
    HorizontalDenominator(a, b, x, x', y);
    ScaledAbs(b.y - a.y, w, Denominator(a, b, Point(x, y), Point(x', y)));
    VerticalDenominator(a, b, x', y, y');
    ScaledAbs(b.x - a.x, h, Denominator(a, b, Point(x', y), Point(x', y')));
    HorizontalDenominator(a, b, x', x, y');
    ScaledAbs(b.y - a.y, w, Denominator(a, b, Point(x', y'), Point(x, y')));
    VerticalDenominator(a, b, x, y', y);
    ScaledAbs(b.x - a.x, h, Denominator(a, b, Point(x, y'), Point(x, y)));
  }

  /** The fraction of the way along a side of length k. */
  lemma SideFraction(o: real, k: real, p: real) returns (u: real)
    requires k > 0.0 && o <= p <= o + k
    ensures Unit(u) && p == o + u * k
  {
    u := (p - o) / k;
    FractionInUnit(p - o, k);
  }

  lemma OnVerticalSide(p: Point, rect: Rectangle)
    requires rect.height > 0.0 && PointInRectangle(p, rect)
    ensures p.x == rect.x + rect.width ==> OnSegment(p, RectangleEdges(rect)[1].0, RectangleEdges(rect)[1].1)
    ensures p.x == rect.x ==> OnSegment(p, RectangleEdges(rect)[3].0, RectangleEdges(rect)[3].1)
  {
    var u := SideFraction(rect.y, rect.height, p.y);
    var e := RectangleEdges(rect);
    if p.x == rect.x + rect.width {
      assert At(e[1].0, e[1].1, u) == p;
    }
    if p.x == rect.x {
      assert At(e[3].0, e[3].1, 1.0 - u) == p;
    }
  }

  lemma OnHorizontalSide(p: Point, rect: Rectangle)
    requires rect.width > 0.0 && PointInRectangle(p, rect)
    ensures p.y == rect.y ==> OnSegment(p, RectangleEdges(rect)[0].0, RectangleEdges(rect)[0].1)
    ensures p.y == rect.y + rect.height ==> OnSegment(p, RectangleEdges(rect)[2].0, RectangleEdges(rect)[2].1)
  {
    var u := SideFraction(rect.x, rect.width, p.x);
    var e := RectangleEdges(rect);
    if p.y == rect.y {
      assert At(e[0].0, e[0].1, u) == p;
    }
    if p.y == rect.y + rect.height {
      assert At(e[2].0, e[2].1, 1.0 - u) == p;
    }
  }

  lemma CommonPointFound(a: Point, b: Point, c: Point, d: Point, p: Point)
    requires OnSegment(p, a, b) && OnSegment(p, c, d) && Abs(Denominator(a, b, c, d)) >= EPSILON
    ensures LineSegmentsIntersect(a, b, c, d)
  {
    var t :| Unit(t) && p == At(a, b, t);
    var u :| Unit(u) && p == At(c, d, u);
    assert Meet(a, b, c, d);
    CrossingTestDecides(a, b, c, d);
  }

  /** A point of the segment on the left or right side is found when the vertical edge tests are awake. */
  lemma VerticalSideFound(a: Point, b: Point, rect: Rectangle, p: Point)
    requires rect.width >= 0.0 && rect.height >= 0.0
    requires OnSegment(p, a, b) && PointInRectangle(p, rect) && (p.x == rect.x || p.x == rect.x + rect.width)
    requires Abs(b.x - a.x) * rect.height >= EPSILON
    ensures EdgeHit(a, b, rect)
  {
    var e := RectangleEdges(rect);
    EdgeDenominators(a, b, rect);
    assert rect.height > 0.0;
    OnVerticalSide(p, rect);
    if p.x == rect.x + rect.width {
      CommonPointFound(a, b, e[1].0, e[1].1, p);
    } else {
      CommonPointFound(a, b, e[3].0, e[3].1, p);
    }
  }

  lemma HorizontalSideFound(a: Point, b: Point, rect: Rectangle, p: Point)
    requires rect.width >= 0.0 && rect.height >= 0.0
    requires OnSegment(p, a, b) && PointInRectangle(p, rect) && (p.y == rect.y || p.y == rect.y + rect.height)
    requires Abs(b.y - a.y) * rect.width >= EPSILON
    ensures EdgeHit(a, b, rect)
  {
    var e := RectangleEdges(rect);
    EdgeDenominators(a, b, rect);
    assert rect.width > 0.0;
    OnHorizontalSide(p, rect);
    if p.y == rect.y {
      CommonPointFound(a, b, e[0].0, e[0].1, p);
    } else {
      CommonPointFound(a, b, e[2].0, e[2].1, p);
    }
  }

  /** Points between two points of the closed rectangle stay inside. */
  lemma BetweenStaysIn(p: Point, q: Point, u: real, rect: Rectangle)
    requires Unit(u) && PointInRectangle(p, rect) && PointInRectangle(q, rect)
    ensures PointInRectangle(At(p, q, u), rect)
  {
    Between(p.x, q.x, u, rect.x, rect.x + rect.width);
    Between(p.y, q.y, u, rect.y, rect.y + rect.height);
  }

  lemma Between(x: real, y: real, u: real, low: real, high: real)
    requires Unit(u) && low <= x <= high && low <= y <= high
    ensures low <= x + u * (y - x) <= high
  {
    Weighted(x - low, y - low, u);
    Weighted(high - x, high - y, u);
    assert x + u * (y - x) - low == (1.0 - u) * (x - low) + u * (y - low);
    assert high - (x + u * (y - x)) == (1.0 - u) * (high - x) + u * (high - y);
  }

  lemma Weighted(r: real, s: real, u: real)
    requires Unit(u) && r >= 0.0 && s >= 0.0
    ensures (1.0 - u) * r + u * s >= 0.0
  {
    MulNonNeg(1.0 - u, r);
    MulNonNeg(u, s);
  }

  /** An edge hit is a point of the segment in the rectangle. */
  lemma EdgeHitIsInside(a: Point, b: Point, rect: Rectangle)
    requires rect.width >= 0.0 && rect.height >= 0.0 && EdgeHit(a, b, rect)
    ensures exists p :: OnSegment(p, a, b) && PointInRectangle(p, rect)
  {
    var e := RectangleEdges(rect);
    var k :| 0 <= k < 4 && LineSegmentsIntersect(a, b, e[k].0, e[k].1);
    CrossingTestDecides(a, b, e[k].0, e[k].1);
    var t, u :| Unit(t) && Unit(u) && At(a, b, t) == At(e[k].0, e[k].1, u);
    BetweenStaysIn(e[k].0, e[k].1, u, rect);
    assert OnSegment(At(a, b, t), a, b);
  }

  // ---------------------------------------------------------------- a piece with both ends outside

  predicate InColumns(p: Point, rect: Rectangle) { rect.x <= p.x <= rect.x + rect.width }

  predicate InRows(p: Point, rect: Rectangle) { rect.y <= p.y <= rect.y + rect.height }

  /** The segment has a point on the left or right side of the rectangle. */
  ghost predicate TouchesVertical(a: Point, b: Point, rect: Rectangle) {
    exists p :: OnSegment(p, a, b) && PointInRectangle(p, rect) && (p.x == rect.x || p.x == rect.x + rect.width)
  }

  ghost predicate TouchesHorizontal(a: Point, b: Point, rect: Rectangle) {
    exists p :: OnSegment(p, a, b) && PointInRectangle(p, rect) && (p.y == rect.y || p.y == rect.y + rect.height)
  }

  /** The parameter at which a straight motion from o with speed k reaches the value v. */
  lemma Reach(o: real, k: real, v: real, t: real) returns (s: real)
    requires 0.0 <= t && k != 0.0
    requires (o <= v <= o + t * k) || (o + t * k <= v <= o)
    ensures 0.0 <= s <= t && o + s * k == v
  {
    s := (v - o) / k;
    Quotient(v - o, k);
    assert s * k == v - o;
    if k > 0.0 {
      if s < 0.0 { MulPos(-s, k); }
      if s > t { MulPos(s - t, k); }
      if t > 0.0 { MulPos(t, k); }
    } else {
      if s < 0.0 { MulPos(-s, -k); }
      if s > t { MulPos(s - t, -k); }
      if t > 0.0 { MulPos(t, -k); }
    }
  }

  /** Going back from a point inside, the segment reaches a point in the rectangle's columns that
      is above or below the rectangle, or else a point of its left or right side. */
  lemma StepBack(a: Point, b: Point, rect: Rectangle, t: real) returns (s: real)
    requires !PointInRectangle(a, rect) && Unit(t) && PointInRectangle(At(a, b, t), rect)
    ensures 0.0 <= s <= t && InColumns(At(a, b, s), rect)
    ensures !InRows(At(a, b, s), rect) || TouchesVertical(a, b, rect)
  {
    if InColumns(a, rect) {
      s := 0.0;
      assert At(a, b, s) == a;
    } else {
      var side := if a.x < rect.x then rect.x else rect.x + rect.width;
      s := Reach(a.x, b.x - a.x, side, t);
      assert At(a, b, s).x == side;
      assert OnSegment(At(a, b, s), a, b);
    }
  }

  lemma TouchesVerticalReversed(a: Point, b: Point, rect: Rectangle)
    requires TouchesVertical(b, a, rect)
    ensures TouchesVertical(a, b, rect)
  {
    var p :| OnSegment(p, b, a) && PointInRectangle(p, rect) && (p.x == rect.x || p.x == rect.x + rect.width);
    OnSegmentReversed(p, b, a);
  }

  lemma OnSegmentReversed(p: Point, a: Point, b: Point)
    requires OnSegment(p, a, b)
    ensures OnSegment(p, b, a)
  {
    var t :| Unit(t) && p == At(a, b, t);
    Reversed(a, b, t);
  }

  lemma StepForth(a: Point, b: Point, rect: Rectangle, t: real) returns (s: real)
    requires !PointInRectangle(b, rect) && Unit(t) && PointInRectangle(At(a, b, t), rect)
    ensures t <= s <= 1.0 && InColumns(At(a, b, s), rect)
    ensures !InRows(At(a, b, s), rect) || TouchesVertical(a, b, rect)
  {
    Reversed(a, b, t);
    var r := StepBack(b, a, rect, 1.0 - t);
    s := 1.0 - r;
    Reversed(b, a, r);
    if TouchesVertical(b, a, rect) {
      TouchesVerticalReversed(a, b, rect);
    }
  }

  /** From outside through a range of length h to the outside again: the motion is longer than h. */
  lemma PassesRange(o: real, k: real, low: real, h: real, s: real, t: real, s': real)
    requires s <= t <= s' && h >= 0.0
    requires low <= o + t * k <= low + h
    requires !(low <= o + s * k <= low + h) && !(low <= o + s' * k <= low + h)
    ensures Abs(k) * (s' - s) > h
  {
    if k >= 0.0 {
      MulMono(k, s, t);
      MulMono(k, t, s');
    } else {
      MulMono(-k, s, t);
      MulMono(-k, t, s');
    }
  }

  lemma StaysInRange(o: real, k: real, low: real, w: real, s: real, s': real)
    requires s <= s' && low <= o + s * k <= low + w && low <= o + s' * k <= low + w
    ensures Abs(k) * (s' - s) <= w
  {
    assert k * (s' - s) == (o + s' * k) - (o + s * k);
  }

  /** A segment that passes only through the horizontal sides is steeper than the rectangle's diagonal. */
  lemma SteepOrTouches(a: Point, b: Point, rect: Rectangle, t: real)
    requires rect.width >= 0.0 && rect.height >= 0.0 && b.x != a.x
    requires !PointInRectangle(a, rect) && !PointInRectangle(b, rect)
    requires Unit(t) && PointInRectangle(At(a, b, t), rect)
    ensures TouchesVertical(a, b, rect) || Abs(b.y - a.y) * rect.width > Abs(b.x - a.x) * rect.height
  {
    var s := StepBack(a, b, rect, t);
    var s' := StepForth(a, b, rect, t);
    if !TouchesVertical(a, b, rect) {
      ThroughRows(a, b, rect, s, t, s');
    }
  }

  lemma ThroughRows(a: Point, b: Point, rect: Rectangle, s: real, t: real, s': real)
    requires rect.width >= 0.0 && rect.height >= 0.0 && b.x != a.x && s <= t <= s'
    requires InColumns(At(a, b, s), rect) && InColumns(At(a, b, s'), rect)
    requires !InRows(At(a, b, s), rect) && InRows(At(a, b, t), rect) && !InRows(At(a, b, s'), rect)
    ensures Abs(b.y - a.y) * rect.width > Abs(b.x - a.x) * rect.height
  {
    hide At;
    RowsSpan(a, b, rect, s, t, s');
    ColumnsSpan(a, b, rect, s, s');
    var dx, dy := Abs(b.x - a.x), Abs(b.y - a.y);
    assert dx > 0.0;
    SlopeBound(dx, dy, rect.width, rect.height, s' - s);
  }

  lemma RowsSpan(a: Point, b: Point, rect: Rectangle, s: real, t: real, s': real)
    requires rect.height >= 0.0 && s <= t <= s'
    requires !InRows(At(a, b, s), rect) && InRows(At(a, b, t), rect) && !InRows(At(a, b, s'), rect)
    ensures Abs(b.y - a.y) * (s' - s) > rect.height
  {
    hide Abs;
    PassesRange(a.y, b.y - a.y, rect.y, rect.height, s, t, s');
  }

  lemma ColumnsSpan(a: Point, b: Point, rect: Rectangle, s: real, s': real)
    requires s <= s' && InColumns(At(a, b, s), rect) && InColumns(At(a, b, s'), rect)
    ensures Abs(b.x - a.x) * (s' - s) <= rect.width
  {
    StaysInRange(a.x, b.x - a.x, rect.x, rect.width, s, s');
  }

  lemma SlopeBound(dx: real, dy: real, w: real, h: real, l: real)
    requires dx > 0.0 && dy >= 0.0 && dy * l > h && dx * l <= w
    ensures dy * w > dx * h
  {
    MulMono(dy, dx * l, w);
    MulPos(dx, dy * l - h);
    assert dx * (dy * l - h) == dy * (dx * l) - dx * h;
  }

  // ---------------------------------------------------------------- transposition

  function T(p: Point): Point { Point(p.y, p.x) }

  function TR(rect: Rectangle): Rectangle { Rectangle(rect.y, rect.x, rect.height, rect.width) }

  lemma Transposed(a: Point, b: Point, t: real, rect: Rectangle)
    ensures At(T(a), T(b), t) == T(At(a, b, t))
    ensures PointInRectangle(T(a), TR(rect)) <==> PointInRectangle(a, rect)
    ensures PointInRectangle(T(At(a, b, t)), TR(rect)) <==> PointInRectangle(At(a, b, t), rect)
  {
  }

  lemma FlatOrTouches(a: Point, b: Point, rect: Rectangle, t: real)
    requires rect.width >= 0.0 && rect.height >= 0.0 && b.y != a.y
    requires !PointInRectangle(a, rect) && !PointInRectangle(b, rect)
    requires Unit(t) && PointInRectangle(At(a, b, t), rect)
    ensures TouchesHorizontal(a, b, rect) || Abs(b.x - a.x) * rect.height > Abs(b.y - a.y) * rect.width
  {
    hide At, Abs;
    Transposed(a, b, t, rect);
    Transposed(b, a, t, rect);
    SteepOrTouches(T(a), T(b), TR(rect), t);
    if TouchesVertical(T(a), T(b), TR(rect)) {
      var q :| OnSegment(q, T(a), T(b)) && PointInRectangle(q, TR(rect)) &&
        (q.x == rect.y || q.x == rect.y + rect.height);
      var u :| Unit(u) && q == At(T(a), T(b), u);
      Transposed(a, b, u, rect);
      assert OnSegment(At(a, b, u), a, b);
      assert T(q) == At(a, b, u);
      assert PointInRectangle(T(q), rect);
    }
  }

  /** An axis-parallel or zero displacement no longer than the rectangle cannot pass it with both ends outside. */
  lemma ShortAxisParallelMisses(a: Point, b: Point, rect: Rectangle, t: real)
    requires b.x == a.x && Abs(b.y - a.y) <= rect.height && rect.height >= 0.0
    requires Unit(t) && PointInRectangle(At(a, b, t), rect)
    ensures PointInRectangle(a, rect) || PointInRectangle(b, rect)
  {
    var s := 0.0;
    assert At(a, b, t).x == a.x;
    if !PointInRectangle(a, rect) && !PointInRectangle(b, rect) {
      PassesRange(a.y, b.y - a.y, rect.y, rect.height, 0.0, t, 1.0);
    }
  }

  /** With both ends outside, a segment whose displacement is not blind is reported when it has a point inside. */
  lemma OutsidePieceDecided(a: Point, b: Point, rect: Rectangle, t: real)
    requires rect.width >= 0.0 && rect.height >= 0.0
    requires !PointInRectangle(a, rect) && !PointInRectangle(b, rect)
    requires Unit(t) && PointInRectangle(At(a, b, t), rect)
    requires !Blind(b.x - a.x, b.y - a.y, rect)
    ensures EdgeHit(a, b, rect)
  {
    hide At, EdgeHit;
    if Abs(b.x - a.x) * rect.height >= EPSILON || Abs(b.y - a.y) * rect.width >= EPSILON {
      LongPieceDecided(a, b, rect, t);
    } else if b.x == a.x {
      ShortAxisParallelMisses(a, b, rect, t);
    } else {
      Transposed(a, b, t, rect);
      Transposed(b, a, t, rect);
      ShortAxisParallelMisses(T(a), T(b), TR(rect), t);
    }
  }

  lemma LongPieceDecided(a: Point, b: Point, rect: Rectangle, t: real)
    requires rect.width >= 0.0 && rect.height >= 0.0
    requires !PointInRectangle(a, rect) && !PointInRectangle(b, rect)
    requires Unit(t) && PointInRectangle(At(a, b, t), rect)
    requires Abs(b.x - a.x) * rect.height >= EPSILON || Abs(b.y - a.y) * rect.width >= EPSILON
    ensures EdgeHit(a, b, rect)
  {
    hide At, EdgeHit;
    if Abs(b.x - a.x) * rect.height >= Abs(b.y - a.y) * rect.width {
      assert b.x != a.x;
      SteepOrTouches(a, b, rect, t);
      TouchesVerticalFound(a, b, rect);
    } else {
      assert b.y != a.y;
      FlatOrTouches(a, b, rect, t);
      TouchesHorizontalFound(a, b, rect);
    }
  }

  lemma TouchesVerticalFound(a: Point, b: Point, rect: Rectangle)
    requires rect.width >= 0.0 && rect.height >= 0.0 && TouchesVertical(a, b, rect)
    requires Abs(b.x - a.x) * rect.height >= EPSILON
    ensures EdgeHit(a, b, rect)
  {
    var p :| OnSegment(p, a, b) && PointInRectangle(p, rect) && (p.x == rect.x || p.x == rect.x + rect.width);
    VerticalSideFound(a, b, rect, p);
  }

  lemma TouchesHorizontalFound(a: Point, b: Point, rect: Rectangle)
    requires rect.width >= 0.0 && rect.height >= 0.0 && TouchesHorizontal(a, b, rect)
    requires Abs(b.y - a.y) * rect.width >= EPSILON
    ensures EdgeHit(a, b, rect)
  {
    var p :| OnSegment(p, a, b) && PointInRectangle(p, rect) && (p.y == rect.y || p.y == rect.y + rect.height);
    HorizontalSideFound(a, b, rect, p);
  }

  // ---------------------------------------------------------------- whole polylines

  /** A reported polyline has a point in the rectangle. */
  lemma RectangleSound(points: Path, rect: Rectangle)
    requires rect.width >= 0.0 && rect.height >= 0.0 && RectangleDetected(points, rect)
    ensures PolylineMeets(points, rect)
  {
    if VertexIn(points, rect) {
      var i :| 0 <= i < |points| && PointInRectangle(points[i], rect);
      VertexOnPath(points, i);
    } else {
      var i :| 0 <= i < |points| - 1 && PieceHit(points, rect, i);
      EdgeHitIsInside(points[i], points[i + 1], rect);
    }
  }

  lemma VertexOnPath(points: Path, i: int)
    requires |points| >= 2 && 0 <= i < |points|
    ensures OnPath(points, points[i])
  {
    if i < |points| - 1 {
      assert At(points[i], points[i + 1], 0.0) == points[i];
    } else {
      var j := i - 1;
      assert At(points[j], points[j + 1], 1.0) == points[j + 1];
      assert OnSegment(points[i], points[j], points[j + 1]);
    }
  }

  /** Without blind pieces the loops decide exactly whether the polyline has a point in the rectangle. */
  lemma RectangleExact(points: Path, rect: Rectangle)
    requires rect.width >= 0.0 && rect.height >= 0.0 && NoBlindPiece(points, rect)
    ensures RectangleDetected(points, rect) <==> PolylineMeets(points, rect)
  {
    if RectangleDetected(points, rect) {
      RectangleSound(points, rect);
    }
    if PolylineMeets(points, rect) && !VertexIn(points, rect) {
      var p :| OnPath(points, p) && PointInRectangle(p, rect);
      var i :| 0 <= i < |points| - 1 && OnSegment(p, points[i], points[i + 1]);
      var t :| Unit(t) && p == At(points[i], points[i + 1], t);
      assert !BlindPiece(points, rect, i);
      OutsidePieceDecided(points[i], points[i + 1], rect, t);
      assert PieceHit(points, rect, i);
    }
  }

  lemma BlindEdgeUnseen(a: Point, b: Point, rect: Rectangle)
    requires rect.width >= 0.0 && rect.height >= 0.0 && Blind(b.x - a.x, b.y - a.y, rect)
    ensures !EdgeHit(a, b, rect)
  {
    EdgeDenominators(a, b, rect);
  }

  /** Every blind displacement passes the rectangle unnoticed from a suitable starting point. */
  lemma BlindPieceMissed(dx: real, dy: real, rect: Rectangle) returns (a: Point)
    requires rect.width >= 0.0 && rect.height >= 0.0 && Blind(dx, dy, rect)
    ensures var path := [a, Point(a.x + dx, a.y + dy)]; !RectangleDetected(path, rect) && PolylineMeets(path, rect)
  {
    var m :=
      if Abs(dx) > rect.width then Point(rect.x + rect.width / 2.0, rect.y)
      else if Abs(dy) > rect.height then Point(rect.x, rect.y + rect.height / 2.0)
      else if (dx > 0.0) == (dy > 0.0) then Point(rect.x, rect.y + rect.height)
      else Point(rect.x, rect.y);
    a := Point(m.x - dx / 2.0, m.y - dy / 2.0);
    var b := Point(a.x + dx, a.y + dy);
    var path := [a, b];
    assert At(path[0], path[0 + 1], 0.5) == m;
    assert OnSegment(m, path[0], path[0 + 1]);
    assert OnPath(path, m) && PointInRectangle(m, rect);
    assert !PointInRectangle(a, rect) && !PointInRectangle(b, rect);
    BlindEdgeUnseen(a, b, rect);
    assert !PieceHit(path, rect, 0);
  }

  /** For a given displacement the answer is right wherever the piece is placed precisely when it is not blind. */
  lemma BlindDisplacements(dx: real, dy: real, rect: Rectangle)
    requires rect.width >= 0.0 && rect.height >= 0.0
    ensures (forall a: Point :: RectangleDetected([a, Point(a.x + dx, a.y + dy)], rect) <==>
                                PolylineMeets([a, Point(a.x + dx, a.y + dy)], rect)) <==>
            !Blind(dx, dy, rect)
  {
    if Blind(dx, dy, rect) {
      var a := BlindPieceMissed(dx, dy, rect);
    } else {
      forall a: Point ensures RectangleDetected([a, Point(a.x + dx, a.y + dy)], rect) <==>
                              PolylineMeets([a, Point(a.x + dx, a.y + dy)], rect) {
        var path := [a, Point(a.x + dx, a.y + dy)];
        assert path[1].x - path[0].x == dx && path[1].y - path[0].y == dy;
        RectangleExact(path, rect);
      }
    }
  }

  /** On whole-number coordinates, with positive width and height, the answer is always right. */
  lemma WholeRectangleExact(points: Path, rect: Rectangle)
    requires rect.width > 0.0 && rect.height > 0.0
    requires Whole(points) && Whole([Point(rect.x, rect.y), Point(rect.width, rect.height)])
    ensures RectangleDetected(points, rect) <==> PolylineMeets(points, rect)
  {
    assert [Point(rect.x, rect.y), Point(rect.width, rect.height)][1] == Point(rect.width, rect.height);
    forall i | 0 <= i < |points| - 1 ensures !BlindPiece(points, rect, i) {
      WholeNotBlind(points[i], points[i + 1], rect);
    }
    RectangleExact(points, rect);
  }

  lemma WholeNotBlind(a: Point, b: Point, rect: Rectangle)
    requires rect.width >= 1.0 && rect.height >= 1.0 && Whole([a, b])
    ensures !Blind(b.x - a.x, b.y - a.y, rect)
  {
    assert [a, b][0] == a && [a, b][1] == b;
    WholeDifference(a.x, b.x, rect.height);
    WholeDifference(a.y, b.y, rect.width);
  }

  lemma WholeDifference(x: real, y: real, k: real)
    requires x == x.Floor as real && y == y.Floor as real && k >= 1.0
    ensures x == y || Abs(y - x) * k >= 1.0
  {
    if x != y {
      assert y - x == (y.Floor - x.Floor) as real;
      assert Abs(y - x) >= 1.0;
      MulMono(Abs(y - x), 1.0, k);
    }
  }
}
