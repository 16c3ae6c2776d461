/** Segments that cross although the parallel test hides it are so short that an end of one
    of them lies close to the other. */
module ShortArm {
  import opened Segments
  import opened Proximity

  lemma Lagrange(v: Point, w: Point)
    ensures Norm2(v) * Norm2(w) == Dot(v, w) * Dot(v, w) + Cross(v, w) * Cross(v, w)
  {
  }

  /** A projection onto w is no longer than what is projected: |k p| <= u W. */
  lemma ProjectionFits(k: real, u: real, p: real, vv: real, ww: real)
    requires p * p <= vv * ww && ww > 0.0 && u >= 0.0 && vv >= 0.0
    requires k * k * vv <= u * u * ww
    ensures -(u * ww) <= k * p <= u * ww
  {
    MulMono(k * k, p * p, vv * ww);
    MulMono(ww, k * k * vv, u * u * ww);
    assert (k * p) * (k * p) <= (u * ww) * (u * ww) by {
      assert (k * p) * (k * p) == k * k * (p * p);
      assert k * k * (vv * ww) == ww * (k * k * vv);
      assert ww * (u * u * ww) == (u * ww) * (u * ww);
    }
    MulNonNeg(u, ww);
    SquareOrder(k * p, u * ww);
  }

  lemma ProductBound(a: real, b: real, h: real)
    requires 0.0 <= a <= h && 0.0 <= b <= h
    ensures a * b <= h * h
  {
    MulMono(a, b, h);
    MulMono(h, a, h);
  }

  lemma SquareAtMost(k2: real, det: real, vv: real, ww: real)
    requires det * det <= vv * ww
    ensures (k2 * det) * (k2 * det) <= (k2 * vv) * (k2 * ww)
  {
    MulMono(k2 * k2, det * det, vv * ww);
    assert (k2 * det) * (k2 * det) == k2 * k2 * (det * det);
    assert (k2 * vv) * (k2 * ww) == k2 * k2 * (vv * ww);
  }

  lemma QuarterSquare(k: real)
    requires -0.5 <= k <= 0.5
    ensures 0.0 <= k * k <= 0.25
  {
    var h := Abs(k);
    assert h * h == k * k;
    MulNonNeg(h, h);
    ProductBound(h, h, 0.5);
  }

  /** 4 k^2 |D| <= W for an arm of at most half of v and at most half of w. */
  lemma ArmBound(k: real, det: real, vv: real, ww: real)
    requires -0.5 <= k <= 0.5 && vv >= 0.0 && ww > 0.0 && det >= 0.0
    requires det * det <= vv * ww && 4.0 * (k * k * vv) <= ww
    ensures 4.0 * (k * k * det) <= ww
  {
    var k2, h := k * k, ww / 4.0;
    QuarterSquare(k);
    SquareAtMost(k2, det, vv, ww);
    assert 0.0 <= k2 * vv by { MulNonNeg(k2, vv); }
    assert 0.0 <= k2 * ww <= h by {
      MulNonNeg(k2, ww);
      MulMono(ww, k2, 0.25);
    }
    ProductBound(k2 * vv, k2 * ww, h);
    SquareOrder(k2 * det, h);
  }

  lemma HalfOfUnit(u: real, y: real, ww: real)
    requires Unit(u) && ww > 0.0 && y <= u * u * ww && y <= (1.0 - u) * (1.0 - u) * ww
    ensures 4.0 * y <= ww
  {
    if u <= 0.5 { HalfSquare(u, y, ww); } else { HalfSquare(1.0 - u, y, ww); }
  }

  lemma HalfSquare(h: real, y: real, ww: real)
    requires 0.0 <= h <= 0.5 && ww > 0.0 && y <= h * h * ww
    ensures 4.0 * y <= ww
  {
    var hh := h * h;
    assert hh <= 0.25 by { MulMono(h, h, 0.5); }
    assert y <= ww * hh;
    MulMono(ww, hh, 0.25);
  }

  /** The vector from the foot to the end of the arm. */
  function Gap(k: real, q: real, v: Point, w: Point): Point { Point(k * v.x - q * w.x, k * v.y - q * w.y) }

  /** The squared gap between the end of the arm and its foot on the other line. */
  lemma FootGap(k: real, q: real, v: Point, w: Point)
    requires Norm2(w) > 0.0 && q * Norm2(w) == k * Dot(v, w)
    ensures Norm2(Gap(k, q, v, w)) * Norm2(w) == Scaled(k, Squared(Cross(v, w)))
  {
    var gap := Gap(k, q, v, w);
    var vv, ww, p := Norm2(v), Norm2(w), Dot(v, w);
    assert Norm2(gap) == k * k * vv - 2.0 * (k * q) * p + q * q * ww;
    assert Norm2(gap) * ww == k * k * (vv * ww) - 2.0 * (k * p) * (q * ww) + (q * ww) * (q * ww);
    assert Norm2(gap) * ww == k * k * (vv * ww) - (k * p) * (k * p);
    Lagrange(v, w);
    assert k * k * (vv * ww) == k * k * (p * p) + k * k * (Cross(v, w) * Cross(v, w));
  }

  /** The foot parameter of the arm's end on the line of the other segment stays on that segment. */
  lemma FootOnSegment(k: real, u: real, q: real, p: real, vv: real, ww: real)
    requires Unit(u) && ww > 0.0 && vv >= 0.0 && p * p <= vv * ww && q * ww == k * p
    requires k * k * vv <= u * u * ww && k * k * vv <= (1.0 - u) * (1.0 - u) * ww
    ensures Unit(u + q)
  {
    ProjectionFits(k, u, p, vv, ww);
    ProjectionFits(k, 1.0 - u, p, vv, ww);
    assert (u + q) * ww >= 0.0;
    SignOf(u + q, ww);
    assert (1.0 - u - q) * ww >= 0.0;
    SignOf(1.0 - u - q, ww);
  }

  lemma SignOf(x: real, k: real)
    requires k > 0.0 && x * k >= 0.0
    ensures x >= 0.0
  {
    if x < 0.0 { MulPos(-x, k); }
  }

  lemma GapBound(n: real, k: real, det: real, ww: real)
    requires ww > 0.0 && n * ww == k * k * (det * det) && 4.0 * (k * k * Abs(det)) <= ww
    ensures n <= Abs(det) / 4.0
  {
    var e := Abs(det);
    assert det * det == e * e;
    MulMono(e, 4.0 * (k * k * e), ww);
    assert 4.0 * (n * ww) <= e * ww by {
      assert k * k * (e * e) == e * (k * k * e);
    }
    assert (e - 4.0 * n) * ww >= 0.0;
    SignOf(e - 4.0 * n, ww);
  }

  /** The squared length of the part s of a vector. */
  function Arm(s: real, v: Point): real { Scaled(s, Norm2(v)) }

  function Scaled(s: real, n: real): real { s * s * n }

  function Squared(x: real): real { x * x }

  lemma GapSizes(k: real, u: real, det: real, vv: real, ww: real, n: real)
    requires Unit(u) && -0.5 <= k <= 0.5 && vv >= 0.0 && ww > 0.0 && Squared(det) <= vv * ww
    requires Scaled(k, vv) <= Scaled(u, ww) && Scaled(k, vv) <= Scaled(1.0 - u, ww)
    requires n * ww == Scaled(k, Squared(det))
    ensures n <= Abs(det) / 4.0
  {
    var y, e := Scaled(k, vv), Abs(det);
    HalfOfUnit(u, y, ww);
    assert e * e == Squared(det);
    ArmBound(k, e, vv, ww);
    GapBound(n, k, det, ww);
  }

  lemma LagrangeBounds(v: Point, w: Point)
    ensures Dot(v, w) * Dot(v, w) <= Norm2(v) * Norm2(w)
    ensures Squared(Cross(v, w)) <= Norm2(v) * Norm2(w)
  {
    Lagrange(v, w);
    SquareNonNeg(Dot(v, w));
    SquareNonNeg(Cross(v, w));
  }

  lemma FootWithin(k: real, u: real, q: real, v: Point, w: Point)
    requires Unit(u) && Norm2(w) > 0.0 && q * Norm2(w) == k * Dot(v, w)
    requires Arm(k, v) <= Arm(u, w) && Arm(k, v) <= Arm(1.0 - u, w)
    ensures Unit(u + q)
  {
    hide Norm2, Dot, Cross;
    LagrangeBounds(v, w);
    FootOnSegment(k, u, q, Dot(v, w), Norm2(v), Norm2(w));
  }

  lemma FootNear(k: real, u: real, q: real, v: Point, w: Point)
    requires Unit(u) && -0.5 <= k <= 0.5 && Norm2(w) > 0.0 && q * Norm2(w) == k * Dot(v, w)
    requires Arm(k, v) <= Arm(u, w) && Arm(k, v) <= Arm(1.0 - u, w)
    ensures Norm2(Gap(k, q, v, w)) <= Abs(Cross(v, w)) / 4.0
  {
    hide Norm2, Dot, Cross, Abs, Gap, Scaled, Squared;
    LagrangeBounds(v, w);
    FootGap(k, q, v, w);
    GapSizes(k, u, Cross(v, w), Norm2(v), Norm2(w), Norm2(Gap(k, q, v, w)));
  }

  /** An arm k v from the crossing point to the end e, no longer than half of its own segment nor than
      either side of the other segment, ends within sqrt(|D|) / 2 of the other segment. */
  lemma ShortArmEnd(e: Point, c: Point, d: Point, u: real, v: Point, k: real)
    requires Unit(u) && -0.5 <= k <= 0.5 && Norm2(Sub(d, c)) > 0.0
    requires e == Point(At(c, d, u).x + k * v.x, At(c, d, u).y + k * v.y)
    requires Arm(k, v) <= Arm(u, Sub(d, c)) && Arm(k, v) <= Arm(1.0 - u, Sub(d, c))
    ensures PointWithin(e, c, d, Abs(Cross(v, Sub(d, c))) / 4.0)
  {
    hide Norm2, Dot, Cross, Arm, At, Abs, Dist2, Gap;
    var w := Sub(d, c);
    var q := FootOf(k, v, w);
    FootWithin(k, u, q, v, w);
    FootNear(k, u, q, v, w);
    ArmVector(e, c, d, u, v, k, q);
  }

  lemma FootOf(k: real, v: Point, w: Point) returns (q: real)
    requires Norm2(w) > 0.0
    ensures q * Norm2(w) == k * Dot(v, w)
  {
    hide Norm2, Dot;
    q := Divide(k * Dot(v, w), Norm2(w));
  }

  lemma ArmVector(e: Point, c: Point, d: Point, u: real, v: Point, k: real, q: real)
    requires e == Point(At(c, d, u).x + k * v.x, At(c, d, u).y + k * v.y)
    ensures Dist2(e, At(c, d, u + q)) == Norm2(Gap(k, q, v, Sub(d, c)))
  {
    var g := Point(k * v.x - q * (d.x - c.x), k * v.y - q * (d.y - c.y));
    assert Sub(At(c, d, u + q), e) == Point(-g.x, -g.y);
    assert (-g.x) * (-g.x) + (-g.y) * (-g.y) == g.x * g.x + g.y * g.y;
  }

  lemma Reversed(a: Point, b: Point, t: real)
    ensures At(b, a, 1.0 - t) == At(a, b, t) && Norm2(Sub(a, b)) == Norm2(Sub(b, a))
  {
    var x, y := b.x - a.x, b.y - a.y;
    assert (-x) * (-x) + (-y) * (-y) == x * x + y * y;
  }

  lemma DenominatorSigns(a: Point, b: Point, c: Point, d: Point)
    ensures Denominator(b, a, c, d) == -Denominator(a, b, c, d)
    ensures Denominator(c, d, a, b) == -Denominator(a, b, c, d)
    ensures Denominator(d, c, a, b) == Denominator(a, b, c, d)
  {
  }

  /** The shorter of two complementary arms covers at most half. */
  lemma HalfArm(t: real, v: Point)
    requires Unit(t) && Norm2(v) > 0.0 && Arm(t, v) <= Arm(1.0 - t, v)
    ensures t <= 0.5
  {
    HalfParameter(t, Norm2(v));
  }

  lemma HalfParameter(t: real, vv: real)
    requires vv > 0.0 && t * t * vv <= (1.0 - t) * (1.0 - t) * vv
    ensures t <= 0.5
  {
    assert ((1.0 - t) * (1.0 - t) - t * t) * vv >= 0.0;
    SignOf((1.0 - t) * (1.0 - t) - t * t, vv);
  }

  lemma CrossNeedsLength(v: Point, w: Point)
    requires Cross(v, w) != 0.0
    ensures Norm2(v) > 0.0 && Norm2(w) > 0.0
  {
    hide Cross;
    if Norm2(v) == 0.0 {
      SumOfSquares(v.x, v.y);
      assert v == Point(0.0, 0.0);
      CrossOfZero(w);
    }
    if Norm2(w) == 0.0 {
      SumOfSquares(w.x, w.y);
      assert w == Point(0.0, 0.0);
      CrossOfZero(v);
    }
  }

  lemma CrossOfZero(v: Point)
    ensures Cross(Point(0.0, 0.0), v) == 0.0 && Cross(v, Point(0.0, 0.0)) == 0.0
  {
  }

  lemma BothHaveLength(a: Point, b: Point, c: Point, d: Point)
    requires Denominator(a, b, c, d) != 0.0
    ensures Norm2(Sub(b, a)) > 0.0 && Norm2(Sub(d, c)) > 0.0
  {
    hide Norm2, Cross, Denominator;
    DenominatorIsCross(a, b, c, d);
    CrossNeedsLength(Sub(b, a), Sub(d, c));
  }

  ghost predicate CrossAt(a: Point, b: Point, c: Point, d: Point, t: real, u: real) {
    && Unit(t) && Unit(u) && At(a, b, t) == At(c, d, u)
    && Norm2(Sub(b, a)) > 0.0 && Norm2(Sub(d, c)) > 0.0
  }

  lemma FromStart(a: Point, b: Point, t: real)
    ensures a == Point(At(a, b, t).x + -t * Sub(b, a).x, At(a, b, t).y + -t * Sub(b, a).y)
    ensures b == Point(At(a, b, t).x + (1.0 - t) * Sub(b, a).x, At(a, b, t).y + (1.0 - t) * Sub(b, a).y)
  {
  }

  lemma ArmOfNegative(t: real, v: Point)
    ensures Arm(-t, v) == Arm(t, v)
  {
    assert -t * -t == t * t;
  }

  lemma StartArm(a: Point, b: Point, c: Point, d: Point, t: real, u: real)
    requires CrossAt(a, b, c, d, t, u)
    requires var v, w := Sub(b, a), Sub(d, c);
             Arm(t, v) <= Arm(1.0 - t, v) && Arm(t, v) <= Arm(u, w) && Arm(t, v) <= Arm(1.0 - u, w)
    ensures PointWithin(a, c, d, Abs(Denominator(a, b, c, d)) / 4.0)
  {
    hide Norm2, Cross, Denominator, Arm, At, Sub, PointWithin;
    HalfArm(t, Sub(b, a));
    FromStart(a, b, t);
    ArmOfNegative(t, Sub(b, a));
    ShortArmEnd(a, c, d, u, Sub(b, a), -t);
    DenominatorIsCross(a, b, c, d);
  }

  lemma EndArm(a: Point, b: Point, c: Point, d: Point, t: real, u: real)
    requires CrossAt(a, b, c, d, t, u)
    requires var v, w := Sub(b, a), Sub(d, c);
             Arm(1.0 - t, v) <= Arm(t, v) && Arm(1.0 - t, v) <= Arm(u, w) && Arm(1.0 - t, v) <= Arm(1.0 - u, w)
    ensures PointWithin(b, c, d, Abs(Denominator(a, b, c, d)) / 4.0)
  {
    hide Norm2, Cross, Denominator, Arm, At, Sub, PointWithin;
    assert 1.0 - (1.0 - t) == t;
    HalfArm(1.0 - t, Sub(b, a));
    FromStart(a, b, t);
    ShortArmEnd(b, c, d, u, Sub(b, a), 1.0 - t);
    DenominatorIsCross(a, b, c, d);
  }

  lemma SwapSegments(a: Point, b: Point, c: Point, d: Point, t: real, u: real)
    requires CrossAt(a, b, c, d, t, u)
    ensures CrossAt(c, d, a, b, u, t)
    ensures Abs(Denominator(c, d, a, b)) == Abs(Denominator(a, b, c, d))
  {
    DenominatorSigns(a, b, c, d);
  }

  /** One of the two arms of the first segment is the shortest of the four. */
  lemma FirstSegmentArm(a: Point, b: Point, c: Point, d: Point, t: real, u: real)
    requires CrossAt(a, b, c, d, t, u)
    requires var v, w := Sub(b, a), Sub(d, c);
             Min(Arm(t, v), Arm(1.0 - t, v)) <= Min(Arm(u, w), Arm(1.0 - u, w))
    ensures EndWithin(a, b, c, d, Abs(Denominator(a, b, c, d)) / 4.0)
  {
    hide Norm2, Arm, At, Denominator, PointWithin;
    if Arm(t, Sub(b, a)) <= Arm(1.0 - t, Sub(b, a)) {
      StartArm(a, b, c, d, t, u);
    } else {
      EndArm(a, b, c, d, t, u);
    }
  }

  /** Crossing segments always have an end within sqrt(|denominator|) / 2 of the other segment. */
  lemma CrossingHasNearEnd(a: Point, b: Point, c: Point, d: Point)
    requires Denominator(a, b, c, d) != 0.0 && Meet(a, b, c, d)
    ensures EndWithin(a, b, c, d, Abs(Denominator(a, b, c, d)) / 4.0)
  {
    hide At, Norm2, Arm, Denominator, Dist2;
    var t, u :| Unit(t) && Unit(u) && At(a, b, t) == At(c, d, u);
    BothHaveLength(a, b, c, d);
    assert CrossAt(a, b, c, d, t, u);
    var v, w := Sub(b, a), Sub(d, c);
    if Min(Arm(t, v), Arm(1.0 - t, v)) <= Min(Arm(u, w), Arm(1.0 - u, w)) {
      FirstSegmentArm(a, b, c, d, t, u);
    } else {
      SwapSegments(a, b, c, d, t, u);
      FirstSegmentArm(c, d, a, b, u, t);
    }
  }
}
