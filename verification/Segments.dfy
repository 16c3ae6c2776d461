/** Points, straight segments and the two segment tests of the geometry helpers:
    the crossing test and the nearest point of a segment. Coordinates are exact reals. */
module Segments {

  datatype Point = Point(x: real, y: real)

  /** Denominators below this bound are taken for parallel lines. */
  const EPSILON := 0.0000000001

  function Abs(r: real): real { if r < 0.0 then -r else r }

  function Sub(p: Point, q: Point): Point { Point(p.x - q.x, p.y - q.y) }

  function Dot(v: Point, w: Point): real { v.x * w.x + v.y * w.y }

  function Cross(v: Point, w: Point): real { v.x * w.y - v.y * w.x }

  function Norm2(v: Point): (n: real)
    ensures n >= 0.0
  {
    v.x * v.x + v.y * v.y
  }

  /** The square of the distance; distances are compared through their squares. */
  function Dist2(p: Point, q: Point): real { Norm2(Sub(q, p)) }

  predicate Unit(t: real) { 0.0 <= t <= 1.0 }

  /** The point reached after the fraction t of the way from a to b. */
  function At(a: Point, b: Point, t: real): Point {
    Point(a.x + t * (b.x - a.x), a.y + t * (b.y - a.y))
  }

  ghost predicate OnSegment(p: Point, a: Point, b: Point) {
    exists t :: Unit(t) && p == At(a, b, t)
  }

  ghost predicate Meet(a: Point, b: Point, c: Point, d: Point) {
    exists t, u :: Unit(t) && Unit(u) && At(a, b, t) == At(c, d, u)
  }

  ghost predicate PointWithin(p: Point, c: Point, d: Point, r2: real) {
    exists u :: Unit(u) && Dist2(p, At(c, d, u)) <= r2
  }

  /** Some end of one segment is within the distance of some point of the other. */
  ghost predicate EndWithin(a: Point, b: Point, c: Point, d: Point, r2: real) {
    PointWithin(a, c, d, r2) || PointWithin(b, c, d, r2) || PointWithin(c, a, b, r2) || PointWithin(d, a, b, r2)
  }

  // ---------------------------------------------------------------- the code

  function Denominator(p1: Point, p2: Point, p3: Point, p4: Point): real {
    (p1.x - p2.x) * (p3.y - p4.y) - (p1.y - p2.y) * (p3.x - p4.x)
  }

  function NumeratorT(p1: Point, p2: Point, p3: Point, p4: Point): real {
    (p1.x - p3.x) * (p3.y - p4.y) - (p1.y - p3.y) * (p3.x - p4.x)
  }

  function NumeratorU(p1: Point, p2: Point, p3: Point, p4: Point): real {
    -((p1.x - p2.x) * (p1.y - p3.y) - (p1.y - p2.y) * (p1.x - p3.x))
  }

  predicate LineSegmentsIntersect(p1: Point, p2: Point, p3: Point, p4: Point) {
    var denom := Denominator(p1, p2, p3, p4);
    if Abs(denom) < EPSILON then false  // lines are parallel
    else
      var t := NumeratorT(p1, p2, p3, p4) / denom;
      var u := NumeratorU(p1, p2, p3, p4) / denom;
      t >= 0.0 && t <= 1.0 && u >= 0.0 && u <= 1.0
  }

  function Min(a: real, b: real): real { if a <= b then a else b }

  function Max(a: real, b: real): real { if a >= b then a else b }

  /** The clamped projection parameter of the nearest-point computation. */
  function Projection(s: real, lengthSquared: real): (t: real)
    requires lengthSquared > 0.0
    ensures Unit(t)
  {
    Max(0.0, Min(1.0, s / lengthSquared))
  }

  function ClosestPointOnSegment(point: Point, segmentStart: Point, segmentEnd: Point): Point {
    var direction := Sub(segmentEnd, segmentStart);
    var lengthSquared := Norm2(direction);
    if lengthSquared == 0.0 then segmentStart  // the segment is a point
    else At(segmentStart, segmentEnd, Projection(Dot(Sub(point, segmentStart), direction), lengthSquared))
  }

  // ---------------------------------------------------------------- arithmetic

  lemma MulNonNeg(x: real, y: real)
    requires x >= 0.0 && y >= 0.0
    ensures x * y >= 0.0
  {
  }

  lemma MulPos(x: real, y: real)
    requires x > 0.0 && y > 0.0
    ensures x * y > 0.0
  {
  }

  /** The same for a product that has a name, squares in particular. */
  lemma ProductPos(x: real, y: real, p: real)
    requires x > 0.0 && y > 0.0 && p == x * y
    ensures p > 0.0
  {
    MulPos(x, y);
  }

  lemma MulMono(k: real, x: real, y: real)
    requires k >= 0.0 && x <= y
    ensures k * x <= k * y
  {
  }

  /** Comparing squares compares sizes. */
  lemma SquareOrder(x: real, y: real)
    requires y >= 0.0 && x * x <= y * y
    ensures -y <= x <= y
  {
    var z := Abs(x);
    assert z * z == x * x;
    if z > y {
      MulPos(z - y, z + y);
    }
  }

  lemma Quotient(n: real, k: real)
    requires k != 0.0
    ensures n / k * k == n
  {
  }

  lemma Divide(n: real, k: real) returns (q: real)
    requires k != 0.0
    ensures q * k == n
  {
    q := n / k;
    Quotient(n, k);
  }

  lemma Cancel(k: real, x: real, y: real)
    requires k != 0.0 && x * k == y * k
    ensures x == y
  {
    assert (x - y) * k == 0.0;
  }

  lemma ZeroLength(a: Point, b: Point)
    requires Norm2(Sub(b, a)) == 0.0
    ensures a == b
  {
    SumOfSquares(b.x - a.x, b.y - a.y);
  }

  lemma SumOfSquares(x: real, y: real)
    requires x * x + y * y == 0.0
    ensures x == 0.0 && y == 0.0
  {
    var xx, yy := x * x, y * y;
    SquareNonNeg(x);
    SquareNonNeg(y);
    assert xx == 0.0 && yy == 0.0;
    SquareOrder(x, 0.0);
    SquareOrder(y, 0.0);
  }

  lemma SquareNonNeg(x: real)
    ensures x * x >= 0.0
  {
    if x >= 0.0 { MulNonNeg(x, x); } else { MulNonNeg(-x, -x); }
  }

  lemma EndsOfSegment(a: Point, b: Point)
    ensures At(a, b, 0.0) == a && At(a, b, 1.0) == b
  {
  }

  lemma QuotientOrder(x: real, y: real, k: real)
    requires k > 0.0 && x * k >= y * k
    ensures x >= y
  {
    if x < y {
      MulPos(y - x, k);
    }
  }

  // ---------------------------------------------------------------- crossing test

  /** Off the parallel case the two lines share exactly one pair of parameters. */
  lemma CrossingParameters(a: Point, b: Point, c: Point, d: Point, t: real, u: real)
    requires Denominator(a, b, c, d) != 0.0
    ensures At(a, b, t) == At(c, d, u) <==>
            t * Denominator(a, b, c, d) == NumeratorT(a, b, c, d) &&
              u * Denominator(a, b, c, d) == NumeratorU(a, b, c, d)
  {
    hide At, Sub, Cross, Denominator, NumeratorT, NumeratorU;
    var v, w, k := Sub(b, a), Sub(d, c), Sub(c, a);
    CrossTerms(a, b, c, d);
    MeetGap(a, b, c, d, t, u);
    GapTerms(v, w, k, t, u);
    GapZero(t * v.x - u * w.x - k.x, t * v.y - u * w.y - k.y, v, w);
  }

  /** Two points coincide when the gap vector between them is zero. */
  lemma MeetGap(a: Point, b: Point, c: Point, d: Point, t: real, u: real)
    ensures var v, w, k := Sub(b, a), Sub(d, c), Sub(c, a);
            At(a, b, t) == At(c, d, u) <==>
            t * v.x - u * w.x - k.x == 0.0 && t * v.y - u * w.y - k.y == 0.0
  {
  }

  lemma CrossTerms(a: Point, b: Point, c: Point, d: Point)
    ensures Denominator(a, b, c, d) == Cross(Sub(b, a), Sub(d, c))
    ensures NumeratorT(a, b, c, d) == Cross(Sub(c, a), Sub(d, c))
    ensures NumeratorU(a, b, c, d) == Cross(Sub(c, a), Sub(b, a))
  {
  }

  lemma GapTerms(v: Point, w: Point, k: Point, t: real, u: real)
    ensures var gx, gy := t * v.x - u * w.x - k.x, t * v.y - u * w.y - k.y;
            && gx * w.y - gy * w.x == t * Cross(v, w) - Cross(k, w)
            && gx * v.y - gy * v.x == u * Cross(v, w) - Cross(k, v)
  {
  }

  /** A vector is zero when its products with two vectors of different directions are. */
  lemma GapZero(gx: real, gy: real, v: Point, w: Point)
    requires Cross(v, w) != 0.0
    ensures gx == 0.0 && gy == 0.0 <==> gx * w.y - gy * w.x == 0.0 && gx * v.y - gy * v.x == 0.0
  {
    if gx * w.y - gy * w.x == 0.0 && gx * v.y - gy * v.x == 0.0 {
      Cramer(gx, gy, v.x, v.y, w.x, w.y);
      Cancel(Cross(v, w), gx, 0.0);
      Cancel(Cross(v, w), gy, 0.0);
    }
  }

  lemma Cramer(gx: real, gy: real, vx: real, vy: real, wx: real, wy: real)
    ensures gx * (vx * wy - vy * wx) == (gx * wy - gy * wx) * vx - (gx * vy - gy * vx) * wx
    ensures gy * (vx * wy - vy * wx) == (gx * wy - gy * wx) * vy - (gx * vy - gy * vx) * wy
  {
  }

  /** The crossing test finds exactly the common points of segments that are not nearly parallel. */
  lemma CrossingTestDecides(a: Point, b: Point, c: Point, d: Point)
    ensures LineSegmentsIntersect(a, b, c, d) <==> Abs(Denominator(a, b, c, d)) >= EPSILON && Meet(a, b, c, d)
  {
    var den := Denominator(a, b, c, d);
    if Abs(den) >= EPSILON {
      var nt, nu := NumeratorT(a, b, c, d), NumeratorU(a, b, c, d);
      var t, u := nt / den, nu / den;
      assert LineSegmentsIntersect(a, b, c, d) <==> Unit(t) && Unit(u);
      assert At(a, b, t) == At(c, d, u) by {
        Quotient(nt, den);
        Quotient(nu, den);
        CrossingParameters(a, b, c, d, t, u);
      }
      if Meet(a, b, c, d) {
        var t', u' :| Unit(t') && Unit(u') && At(a, b, t') == At(c, d, u');
        assert t' == t && u' == u by {
          SameParameters(a, b, c, d, t, u, t', u');
        }
      }
    }
  }

  lemma SameParameters(a: Point, b: Point, c: Point, d: Point, t: real, u: real, t': real, u': real)
    requires Denominator(a, b, c, d) != 0.0
    requires At(a, b, t) == At(c, d, u) && At(a, b, t') == At(c, d, u')
    ensures t == t' && u == u'
  {
    hide At, Denominator, NumeratorT, NumeratorU;
    CrossingParameters(a, b, c, d, t, u);
    CrossingParameters(a, b, c, d, t', u');
    Cancel(Denominator(a, b, c, d), t, t');
    Cancel(Denominator(a, b, c, d), u, u');
  }

  // ---------------------------------------------------------------- nearest point

  /** Moving away from the clamped minimum never decreases the parabola. */
  lemma ProjectionSlope(s: real, l: real, t': real)
    requires l > 0.0 && Unit(t')
    ensures (t' - Projection(s, l)) * (Projection(s, l) * l - s) >= 0.0
  {
    var r := s / l;
    Quotient(s, l);
    assert r * l == s;
    if r < 0.0 {
      MulMono(l, r, 0.0);
      MulNonNeg(t', -s);
    } else if r > 1.0 {
      MulMono(l, 1.0, r);
      MulNonNeg(1.0 - t', s - l);
    }
  }

  function Parabola(l: real, s: real, c: real, t: real): real { t * t * l - 2.0 * t * s + c }

  lemma ParabolaMinimum(l: real, s: real, c: real, t: real, t': real)
    requires l >= 0.0 && (t' - t) * (t * l - s) >= 0.0
    ensures Parabola(l, s, c, t) <= Parabola(l, s, c, t')
  {
    var e := t' - t;
    MulNonNeg(e * e, l);
    assert Parabola(l, s, c, t') - Parabola(l, s, c, t) == e * e * l + 2.0 * (e * (t * l - s));
  }

  lemma SquaredDistanceAlong(p: Point, a: Point, b: Point, t: real)
    ensures Dist2(p, At(a, b, t)) == Parabola(Norm2(Sub(b, a)), Dot(Sub(p, a), Sub(b, a)), Norm2(Sub(p, a)), t)
  {
    SquareAlong(b.x - a.x, p.x - a.x, t);
    SquareAlong(b.y - a.y, p.y - a.y, t);
    assert a.x + t * (b.x - a.x) - p.x == t * (b.x - a.x) - (p.x - a.x);
    assert a.y + t * (b.y - a.y) - p.y == t * (b.y - a.y) - (p.y - a.y);
    ParabolaSum(b.x - a.x, b.y - a.y, p.x - a.x, p.y - a.y, t);
  }

  lemma SquareAlong(v: real, w: real, t: real)
    ensures (t * v - w) * (t * v - w) == t * t * (v * v) - 2.0 * t * (w * v) + w * w
  {
  }

  lemma ParabolaSum(vx: real, vy: real, wx: real, wy: real, t: real)
    ensures Parabola(vx * vx + vy * vy, wx * vx + wy * vy, wx * wx + wy * wy, t) ==
            (t * t * (vx * vx) - 2.0 * t * (wx * vx) + wx * wx) + (t * t * (vy * vy) - 2.0 * t * (wy * vy) + wy * wy)
  {
  }

  lemma NearerThan(p: Point, a: Point, b: Point, t': real)
    requires Norm2(Sub(b, a)) > 0.0 && Unit(t')
    ensures Dist2(p, ClosestPointOnSegment(p, a, b)) <= Dist2(p, At(a, b, t'))
  {
    var l, s, c := Norm2(Sub(b, a)), Dot(Sub(p, a), Sub(b, a)), Norm2(Sub(p, a));
    var t := Projection(s, l);
    ProjectionSlope(s, l, t');
    ParabolaMinimum(l, s, c, t, t');
    SquaredDistanceAlong(p, a, b, t);
    SquaredDistanceAlong(p, a, b, t');
  }

  /** The nearest point lies on the segment and no point of the segment is nearer. */
  lemma ClosestPointIsNearest(p: Point, a: Point, b: Point)
    ensures OnSegment(ClosestPointOnSegment(p, a, b), a, b)
    ensures forall q :: OnSegment(q, a, b) ==> Dist2(p, ClosestPointOnSegment(p, a, b)) <= Dist2(p, q)
  {
    hide Dist2, Norm2, Dot, Projection;
    var c := ClosestPointOnSegment(p, a, b);
    if Norm2(Sub(b, a)) == 0.0 {
      ZeroLength(a, b);
      assert c == At(a, b, 0.0);
    } else {
      forall q | OnSegment(q, a, b) ensures Dist2(p, c) <= Dist2(p, q) {
        var t' :| Unit(t') && q == At(a, b, t');
        NearerThan(p, a, b, t');
      }
    }
  }

  /** The distance to the nearest point decides whether any point of the segment is within reach. */
  lemma ClosestPointDecides(p: Point, a: Point, b: Point, r2: real)
    ensures Dist2(p, ClosestPointOnSegment(p, a, b)) <= r2 <==> PointWithin(p, a, b, r2)
  {
    var c := ClosestPointOnSegment(p, a, b);
    ClosestPointIsNearest(p, a, b);
    var t :| Unit(t) && c == At(a, b, t);
    if PointWithin(p, a, b, r2) {
      var u :| Unit(u) && Dist2(p, At(a, b, u)) <= r2;
      assert OnSegment(At(a, b, u), a, b);
    }
  }
}
