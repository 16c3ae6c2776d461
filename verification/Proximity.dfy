/** When do two segments come within a distance of each other? Unless they cross off the
    parallel case, an end of one of them already does. */
module Proximity {
  import opened Segments

  /** Some point of the first segment is within the distance of some point of the second. */
  ghost predicate Near(a: Point, b: Point, c: Point, d: Point, r2: real) {
    exists t, u :: Unit(t) && Unit(u) && Dist2(At(a, b, t), At(c, d, u)) <= r2
  }

  /** The parameter s of the way from t to t'. */
  function Move(t: real, t': real, s: real): real { t + s * (t' - t) }

  // ---------------------------------------------------------------- leaving the unit square

  lemma MoveStaysInside(t: real, t': real, s: real, s': real)
    requires Unit(t) && Unit(Move(t, t', s)) && 0.0 <= s' <= s
    ensures Unit(Move(t, t', s'))
  {
    ShorterMove(t, t' - t, s, s');
  }

  lemma ShorterMove(t: real, k: real, s: real, s': real)
    requires Unit(t) && Unit(t + s * k) && 0.0 <= s' <= s
    ensures Unit(t + s' * k)
  {
    if k >= 0.0 {
      MulNonNeg(k, s');
      MulMono(k, s', s);
    } else {
      MulNonNeg(-k, s');
      MulMono(-k, s', s);
    }
  }

  /** The fraction of k that n is. */
  lemma FractionOf(n: real, k: real) returns (s: real)
    requires 0.0 <= n <= k && k > 0.0
    ensures Unit(s) && s * k == n
  {
    FractionInUnit(n, k);
    s := n / k;
  }

  lemma ReversedFactor(s: real, x: real, y: real)
    ensures s * (y - x) == -(s * (x - y))
  {
  }

  lemma FractionInUnit(n: real, k: real)
    requires 0.0 <= n <= k && k > 0.0
    ensures Unit(n / k) && n / k * k == n
  {
    Quotient(n, k);
    var q := n / k;
    if q < 0.0 { MulPos(-q, k); }
    if q > 1.0 { MulPos(q - 1.0, k); }
  }

  /** One parameter, moved towards t', leaves the unit interval at a fraction s of the way or not at all. */
  lemma ExitFraction(t: real, t': real) returns (s: real)
    requires Unit(t)
    ensures Unit(s) && Unit(Move(t, t', s))
    ensures Unit(t') ==> s == 1.0
    ensures !Unit(t') ==> Move(t, t', s) == 0.0 || Move(t, t', s) == 1.0
  {
    hide Move;
    if t' > 1.0 {
      s := FractionOf(1.0 - t, t' - t);
      MoveBy(t, t', s, 1.0 - t);
    } else if t' < 0.0 {
      s := FractionOf(t, t - t');
      ReversedFactor(s, t, t');
      MoveBy(t, t', s, -t);
    } else {
      s := 1.0;
      MoveBy(t, t', s, t' - t);
    }
  }

  lemma MoveBy(t: real, t': real, s: real, n: real)
    requires s * (t' - t) == n
    ensures Move(t, t', s) == t + n
  {
  }

  /** A straight move of both parameters to a target outside the unit square crosses its border. */
  lemma ExitSquare(t: real, u: real, t': real, u': real) returns (s: real)
    requires Unit(t) && Unit(u) && !(Unit(t') && Unit(u'))
    ensures Unit(s) && Unit(Move(t, t', s)) && Unit(Move(u, u', s))
    ensures Move(t, t', s) == 0.0 || Move(t, t', s) == 1.0 || Move(u, u', s) == 0.0 || Move(u, u', s) == 1.0
  {
    var p := ExitFraction(t, t');
    var q := ExitFraction(u, u');
    if p <= q {
      s := p;
      MoveStaysInside(u, u', q, p);
      if Unit(t') {
        assert s == q;
      }
    } else {
      s := q;
      MoveStaysInside(t, t', p, q);
    }
  }

  // ---------------------------------------------------------------- the gap during a move

  lemma Dist2Symmetric(p: Point, q: Point)
    ensures Dist2(p, q) == Dist2(q, p)
  {
    var x, y := q.x - p.x, q.y - p.y;
    assert (-x) * (-x) + (-y) * (-y) == x * x + y * y;
  }

  lemma ScaledSquare(k: real, x: real, y: real)
    requires Unit(k) && y == k * x
    ensures y * y <= x * x
  {
    var k2, x2 := k * k, x * x;
    assert k2 <= 1.0 by { MulMono(k, k, 1.0); }
    assert y * y == x2 * k2;
    MulMono(x2, k2, 1.0);
  }

  lemma ScaledNorm(v: Point, w: Point, k: real)
    requires Unit(k) && w.x == k * v.x && w.y == k * v.y
    ensures Norm2(w) <= Norm2(v)
  {
    ScaledSquare(k, v.x, w.x);
    ScaledSquare(k, v.y, w.y);
  }

  lemma AtMove(a: Point, b: Point, t: real, t': real, s: real)
    ensures At(a, b, Move(t, t', s)) == At(At(a, b, t), At(a, b, t'), s)
  {
    var p, p' := At(a, b, t), At(a, b, t');
    AffineMove(a.x, b.x - a.x, t, t', s);
    AffineMove(a.y, b.y - a.y, t, t', s);
    assert At(p, p', s) == Point(p.x + s * (p'.x - p.x), p.y + s * (p'.y - p.y));
    assert p.x == a.x + t * (b.x - a.x) && p'.x == a.x + t' * (b.x - a.x);
    assert p.y == a.y + t * (b.y - a.y) && p'.y == a.y + t' * (b.y - a.y);
  }

  lemma AffineMove(o: real, k: real, t: real, t': real, s: real)
    ensures o + Move(t, t', s) * k == (o + t * k) + s * ((o + t' * k) - (o + t * k))
  {
  }

  /** Moving both points at the same rate towards a common point shrinks the gap. */
  lemma GapShrinks(p: Point, q: Point, m: Point, s: real)
    requires Unit(s)
    ensures Dist2(At(p, m, s), At(q, m, s)) <= Dist2(p, q)
  {
    ScaledNorm(Sub(q, p), Sub(At(q, m, s), At(p, m, s)), 1.0 - s);
  }

  /** Moving both points by the same vector keeps the gap. */
  lemma GapKept(p: Point, q: Point, p': Point, q': Point, s: real)
    requires Sub(p', p) == Sub(q', q)
    ensures Dist2(At(p, p', s), At(q, q', s)) == Dist2(p, q)
  {
    assert Sub(At(q, q', s), At(p, p', s)) == Sub(q, p);
  }

  /** On the border of the unit square one of the two points is the end of its segment. */
  lemma BorderIsEnd(a: Point, b: Point, c: Point, d: Point, t: real, u: real, r2: real)
    requires Unit(t) && Unit(u) && Dist2(At(a, b, t), At(c, d, u)) <= r2
    requires t == 0.0 || t == 1.0 || u == 0.0 || u == 1.0
    ensures EndWithin(a, b, c, d, r2)
  {
    Dist2Symmetric(At(a, b, t), At(c, d, u));
    if t == 0.0 {
      assert At(a, b, t) == a;
      assert PointWithin(a, c, d, r2);
    } else if t == 1.0 {
      assert At(a, b, t) == b;
      assert PointWithin(b, c, d, r2);
    } else if u == 0.0 {
      assert At(c, d, u) == c;
      assert PointWithin(c, a, b, r2);
    } else {
      assert At(c, d, u) == d;
      assert PointWithin(d, a, b, r2);
    }
  }

  // ---------------------------------------------------------------- two segments

  /** Lines that cross outside the segments: sliding towards the crossing reaches an end first. */
  lemma SlideToCrossing(a: Point, b: Point, c: Point, d: Point, t: real, u: real, t': real, u': real)
    requires Unit(t) && Unit(u) && !(Unit(t') && Unit(u')) && At(a, b, t') == At(c, d, u')
    ensures EndWithin(a, b, c, d, Dist2(At(a, b, t), At(c, d, u)))
  {
    hide At, Dist2, EndWithin, Move;
    var s := ExitSquare(t, u, t', u');
    AtMove(a, b, t, t', s);
    AtMove(c, d, u, u', s);
    GapShrinks(At(a, b, t), At(c, d, u), At(a, b, t'), s);
    BorderIsEnd(a, b, c, d, Move(t, t', s), Move(u, u', s), Dist2(At(a, b, t), At(c, d, u)));
  }

  /** Parallel lines: sliding both points by the same vector keeps the gap until an end is reached. */
  lemma SlideAlong(a: Point, b: Point, c: Point, d: Point, t: real, u: real, t': real, u': real)
    requires Unit(t) && Unit(u) && !(Unit(t') && Unit(u'))
    requires Sub(At(a, b, t'), At(a, b, t)) == Sub(At(c, d, u'), At(c, d, u))
    ensures EndWithin(a, b, c, d, Dist2(At(a, b, t), At(c, d, u)))
  {
    hide At, Dist2, EndWithin, Move, Sub;
    var s := ExitSquare(t, u, t', u');
    AtMove(a, b, t, t', s);
    AtMove(c, d, u, u', s);
    GapKept(At(a, b, t), At(c, d, u), At(a, b, t'), At(c, d, u'), s);
    BorderIsEnd(a, b, c, d, Move(t, t', s), Move(u, u', s), Dist2(At(a, b, t), At(c, d, u)));
  }

  /** The factor between two parallel vectors. */
  lemma ParallelFactor(v: Point, w: Point) returns (k: real)
    requires Norm2(v) != 0.0 && Cross(v, w) == 0.0
    ensures w.x == k * v.x && w.y == k * v.y
  {
    k := Dot(v, w) / Norm2(v);
    Quotient(Dot(v, w), Norm2(v));
    assert k * (v.x * v.x + v.y * v.y) == v.x * w.x + v.y * w.y;
    assert (k * v.x) * Norm2(v) == w.x * Norm2(v) by {
      assert v.x * (v.x * w.x + v.y * w.y) == w.x * (v.x * v.x + v.y * v.y) - v.y * Cross(v, w);
    }
    assert (k * v.y) * Norm2(v) == w.y * Norm2(v) by {
      assert v.y * (v.x * w.x + v.y * w.y) == w.y * (v.x * v.x + v.y * v.y) + v.x * Cross(v, w);
    }
    Cancel(Norm2(v), k * v.x, w.x);
    Cancel(Norm2(v), k * v.y, w.y);
  }

  lemma SameShift(a: Point, b: Point, c: Point, d: Point, t: real, u: real, k: real)
    requires Sub(d, c).x == k * Sub(b, a).x && Sub(d, c).y == k * Sub(b, a).y
    ensures Sub(At(a, b, t + 2.0 * k), At(a, b, t)) == Sub(At(c, d, u + 2.0), At(c, d, u))
  {
  }

  lemma ProportionalEnd(a: Point, b: Point, c: Point, d: Point, t: real, u: real, k: real)
    requires Unit(t) && Unit(u)
    requires Sub(d, c).x == k * Sub(b, a).x && Sub(d, c).y == k * Sub(b, a).y
    ensures EndWithin(a, b, c, d, Dist2(At(a, b, t), At(c, d, u)))
  {
    SameShift(a, b, c, d, t, u, k);
    var t', u' := t + 2.0 * k, u + 2.0;
    SlideAlong(a, b, c, d, t, u, t', u');
  }

  lemma PointSegmentEnd(a: Point, b: Point, c: Point, d: Point, t: real, u: real)
    requires Unit(t) && Unit(u) && a == b
    ensures EndWithin(a, b, c, d, Dist2(At(a, b, t), At(c, d, u)))
  {
    assert At(a, b, 0.0) == At(a, b, t);
    BorderIsEnd(a, b, c, d, 0.0, u, Dist2(At(a, b, t), At(c, d, u)));
  }

  lemma ParallelEnd(a: Point, b: Point, c: Point, d: Point, t: real, u: real)
    requires Unit(t) && Unit(u) && Cross(Sub(b, a), Sub(d, c)) == 0.0
    ensures EndWithin(a, b, c, d, Dist2(At(a, b, t), At(c, d, u)))
  {
    if Norm2(Sub(b, a)) == 0.0 {
      ZeroLength(a, b);
      PointSegmentEnd(a, b, c, d, t, u);
    } else {
      var k := ParallelFactor(Sub(b, a), Sub(d, c));
      ProportionalEnd(a, b, c, d, t, u, k);
    }
  }

  lemma DenominatorIsCross(a: Point, b: Point, c: Point, d: Point)
    ensures Denominator(a, b, c, d) == Cross(Sub(b, a), Sub(d, c))
  {
  }

  /** Two points of the segments are never nearer than some end is to the other segment,
      except that segments of different directions may cross. */
  lemma CrossOrEnd(a: Point, b: Point, c: Point, d: Point, t: real, u: real)
    requires Unit(t) && Unit(u)
    ensures (Denominator(a, b, c, d) != 0.0 && Meet(a, b, c, d)) ||
            EndWithin(a, b, c, d, Dist2(At(a, b, t), At(c, d, u)))
  {
    hide At, Dist2, EndWithin, Denominator, NumeratorT, NumeratorU;
    var den := Denominator(a, b, c, d);
    if den == 0.0 {
      DenominatorIsCross(a, b, c, d);
      ParallelEnd(a, b, c, d, t, u);
    } else {
      var t' := Divide(NumeratorT(a, b, c, d), den);
      var u' := Divide(NumeratorU(a, b, c, d), den);
      CrossingParameters(a, b, c, d, t', u');
      if !(Unit(t') && Unit(u')) {
        SlideToCrossing(a, b, c, d, t, u, t', u');
      }
    }
  }

  lemma EndIsNear(a: Point, b: Point, c: Point, d: Point, r2: real)
    requires EndWithin(a, b, c, d, r2)
    ensures Near(a, b, c, d, r2)
  {
    if PointWithin(a, c, d, r2) {
      var u :| Unit(u) && Dist2(a, At(c, d, u)) <= r2;
      assert At(a, b, 0.0) == a;
    } else if PointWithin(b, c, d, r2) {
      var u :| Unit(u) && Dist2(b, At(c, d, u)) <= r2;
      assert At(a, b, 1.0) == b;
    } else if PointWithin(c, a, b, r2) {
      var t :| Unit(t) && Dist2(c, At(a, b, t)) <= r2;
      Dist2Symmetric(c, At(a, b, t));
      assert At(c, d, 0.0) == c;
    } else {
      var t :| Unit(t) && Dist2(d, At(a, b, t)) <= r2;
      Dist2Symmetric(d, At(a, b, t));
      assert At(c, d, 1.0) == d;
    }
  }

  lemma EndWithinGrows(a: Point, b: Point, c: Point, d: Point, r2: real, r2': real)
    requires EndWithin(a, b, c, d, r2) && r2 <= r2'
    ensures EndWithin(a, b, c, d, r2')
  {
  }

  /** Crossing off the parallel case, or an end within reach: that is all of nearness. */
  lemma NearDecided(a: Point, b: Point, c: Point, d: Point, r2: real)
    requires r2 >= 0.0
    ensures Near(a, b, c, d, r2) <==>
            (Denominator(a, b, c, d) != 0.0 && Meet(a, b, c, d)) || EndWithin(a, b, c, d, r2)
  {
    if Near(a, b, c, d, r2) {
      var t, u :| Unit(t) && Unit(u) && Dist2(At(a, b, t), At(c, d, u)) <= r2;
      CrossOrEnd(a, b, c, d, t, u);
      if EndWithin(a, b, c, d, Dist2(At(a, b, t), At(c, d, u))) {
        EndWithinGrows(a, b, c, d, Dist2(At(a, b, t), At(c, d, u)), r2);
      }
    }
    if EndWithin(a, b, c, d, r2) {
      EndIsNear(a, b, c, d, r2);
    }
    if Meet(a, b, c, d) {
      var t, u :| Unit(t) && Unit(u) && At(a, b, t) == At(c, d, u);
      assert Dist2(At(a, b, t), At(c, d, u)) == 0.0;
    }
  }
}
