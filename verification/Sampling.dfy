/** Resampling a path so that consecutive points are close, without changing the traced curve. */
module Sampling {
  import opened Segments
  import opened Proximity
  import opened Paths

  // ---------------------------------------------------------------- the code

  /** n pieces of length m reach at least as far as the distance whose square is d2. */
  predicate Reaches(n: nat, d2: real, m: real) { d2 <= (n as real * m) * (n as real * m) }

  lemma ReachesEventually(d2: real, m: real, n: nat)
    requires m > 0.0 && n >= 1 && n as real * (m * m) >= d2
    ensures Reaches(n, d2, m)
  {
    MulNonNeg(m, m);
    MulMono(n as real * (m * m), 1.0, n as real);
    assert (n as real * m) * (n as real * m) == n as real * (m * m) * (n as real);
  }

  function LeastFrom(n: nat, d2: real, m: real): (k: nat)
    requires m > 0.0 && forall i: nat :: i < n ==> !Reaches(i, d2, m)
    ensures Reaches(k, d2, m) && forall i: nat :: i < k ==> !Reaches(i, d2, m)
    decreases (d2 / (m * m)).Floor + 2 - n
  {
    if Reaches(n, d2, m) then n
    else
      assert n < (d2 / (m * m)).Floor + 2 by {
        MulPos(m, m);
        Quotient(d2, m * m);
        if n >= 1 && n as real >= d2 / (m * m) {
          MulMono(m * m, d2 / (m * m), n as real);
          ReachesEventually(d2, m, n);
        }
      }
      LeastFrom(n + 1, d2, m)
  }

  /** The ceiling of distance / m, found without the square root: the least n with n m >= distance. */
  function CeilRatio(d2: real, m: real): (n: nat)
    requires m > 0.0
    ensures Reaches(n, d2, m) && forall i: nat :: i < n ==> !Reaches(i, d2, m)
  {
    LeastFrom(0, d2, m)
  }

  predicate TooLong(d2: real, m: real) { m < 0.0 || d2 > m * m }

  /** The bound of the inner loop; a negative maximum makes the quotient at most zero. */
  function NumSegments(d2: real, m: real): nat
    requires m != 0.0
  {
    if m > 0.0 then CeilRatio(d2, m) else 0
  }

  /** How many equal pieces a segment ends up in. */
  function PieceCount(a: Point, b: Point, m: real): (n: nat)
    requires m != 0.0
    ensures n >= 1
  {
    if TooLong(Dist2(a, b), m) && NumSegments(Dist2(a, b), m) > 1 then NumSegments(Dist2(a, b), m) else 1
  }

  function Fraction(j: nat, n: nat): real
    requires n >= 1
  {
    j as real / n as real
  }

  /** The ends of n equal pieces of the segment from a to b. */
  function Cut(a: Point, b: Point, n: nat): (path: Path)
    requires n >= 1
    ensures |path| == n
  {
    seq(n, j requires 0 <= j < n => At(a, b, Fraction(j + 1, n)))
  }

  function Interpolate(prev: Point, current: Point, t: real): (p: Point)
    ensures p == At(prev, current, t)
  {
    var dx, dy := current.x - prev.x, current.y - prev.y;
    assert dx * t == t * dx && dy * t == t * dy;
    Point(prev.x + dx * t, prev.y + dy * t)
  }

  function Sampled(points: Path, m: real): Path
    requires m != 0.0
  {
    if |points| < 2 then points
    else
      var k := |points| - 1;
      Sampled(points[..k], m) + Cut(points[k - 1], points[k], PieceCount(points[k - 1], points[k], m))
  }

  /** The inner loop: pushes the points strictly between prev and current. */
  method PushBetween(before: Path, prev: Point, current: Point, numSegments: nat) returns (result: Path)
    ensures numSegments <= 1 ==> result == before
    ensures numSegments > 1 ==> result == before + Cut(prev, current, numSegments)[..numSegments - 1]
  {
    result := before;
    var j := 1;
    while j < numSegments
      invariant 1 <= j && (numSegments >= 1 ==> j <= numSegments)
      invariant numSegments <= 1 ==> result == before
      invariant numSegments > 1 ==> result == before + Cut(prev, current, numSegments)[..j - 1]
    {
      var t := Fraction(j, numSegments);
      var interpolated := Interpolate(prev, current, t);
      assert Cut(prev, current, numSegments)[j - 1] == interpolated;
      result := result + [interpolated];
      j := j + 1;
    }
  }

  /** One round of the outer loop: the points strictly between the last one and current, then current. */
  method PushSegment(before: Path, current: Point, maxDistance: real) returns (result: Path)
    requires |before| > 0 && (maxDistance != 0.0 || before[|before| - 1] == current)
    ensures maxDistance != 0.0 ==>
              result == before +
                Cut(before[|before| - 1], current, PieceCount(before[|before| - 1], current, maxDistance))
    ensures maxDistance == 0.0 ==> result == before + [current]
  {
    hide Cut, Dist2, TooLong, NumSegments;
    var prev := before[|before| - 1];
    var distance2 := Dist2(prev, current);
    if maxDistance == 0.0 {
      ZeroDistance(prev);
    } else {
      LastCut(prev, current, PieceCount(prev, current, maxDistance));
    }
    result := before;
    if TooLong(distance2, maxDistance) {
      var numSegments := NumSegments(distance2, maxDistance);
      result := PushBetween(result, prev, current, numSegments);
    }
    result := result + [current];
  }

  predicate AllEqual(points: Path) {
    forall i :: 0 <= i < |points| ==> points[i] == points[0]
  }

  /** With a maximum of 0 the inner loop never ends once two neighbours differ. */
  method SamplePathPoints(points: Path, maxDistance: real) returns (result: Path)
    requires maxDistance != 0.0 || AllEqual(points)
    ensures result == if maxDistance != 0.0 then Sampled(points, maxDistance) else points
  {
    if |points| < 2 {
      return points;
    }
    result := [points[0]];
    assert maxDistance != 0.0 ==> Sampled(points[..1], maxDistance) == result;
    hide Sampled, Cut, PieceCount;
    for i := 1 to |points|
      invariant maxDistance != 0.0 ==> result == Sampled(points[..i], maxDistance)
      invariant maxDistance == 0.0 ==> result == points[..i]
      invariant |result| > 0 && result[|result| - 1] == points[i - 1]
    {
      if maxDistance != 0.0 {
        SampledStep(points, maxDistance, i - 1);
        LastCut(points[i - 1], points[i], PieceCount(points[i - 1], points[i], maxDistance));
      }
      result := PushSegment(result, points[i], maxDistance);
    }
    assert points[..|points|] == points;
  }

  lemma ZeroDistance(p: Point)
    ensures !TooLong(Dist2(p, p), 0.0)
  {
  }

  lemma WholeFraction(n: nat)
    requires n >= 1
    ensures Fraction(n, n) == 1.0 && Fraction(0, n) == 0.0
  {
    Quotient(n as real, n as real);
    Cancel(n as real, Fraction(n, n), 1.0);
    Quotient(0.0, n as real);
    Cancel(n as real, Fraction(0, n), 0.0);
  }

  lemma LastCut(a: Point, b: Point, n: nat)
    requires n >= 1
    ensures Cut(a, b, n)[n - 1] == b
    ensures Cut(a, b, n) == Cut(a, b, n)[..n - 1] + [b]
  {
    hide At, Fraction;
    WholeFraction(n);
    EndsOfSegment(a, b);
  }

  lemma WholeCut(a: Point, b: Point)
    ensures At(a, b, Fraction(0, 1)) == a && At(a, b, Fraction(1, 1)) == b
  {
    WholeFraction(1);
    EndsOfSegment(a, b);
  }

  // ---------------------------------------------------------------- the traced curve

  lemma FractionBounds(j: nat, n: nat)
    requires n >= 1 && j <= n
    ensures Unit(Fraction(j, n)) && Fraction(j, n) * n as real == j as real
  {
    FractionInUnit(j as real, n as real);
  }

  lemma NextFraction(j: nat, n: nat)
    requires n >= 1
    ensures Fraction(j + 1, n) - Fraction(j, n) == 1.0 / n as real
    ensures Fraction(j, n) < Fraction(j + 1, n)
  {
    Quotient(1.0, n as real);
    Quotient(j as real, n as real);
    Quotient((j + 1) as real, n as real);
    var x := Fraction(j + 1, n) - Fraction(j, n);
    assert x * n as real == 1.0;
    Cancel(n as real, x, 1.0 / n as real);
    SignOfFactor(x, n as real);
  }

  lemma SignOfFactor(x: real, k: real)
    requires k > 0.0 && x * k > 0.0
    ensures x > 0.0
  {
    if x <= 0.0 { MulNonNeg(-x, k); }
  }

  /** A stretch of a segment, as a set of points. */
  lemma Stretch(p: Point, a: Point, b: Point, s: real, s': real)
    requires s < s'
    ensures OnSegment(p, At(a, b, s), At(a, b, s')) <==> exists t :: s <= t <= s' && p == At(a, b, t)
  {
    hide At, Move;
    if OnSegment(p, At(a, b, s), At(a, b, s')) {
      var r :| Unit(r) && p == At(At(a, b, s), At(a, b, s'), r);
      AtMove(a, b, s, s', r);
      MoveInside(s, s', r);
    }
    if t :| s <= t <= s' && p == At(a, b, t) {
      var r := MoveTo(s, s', t);
      AtMove(a, b, s, s', r);
    }
  }

  lemma MoveInside(s: real, s': real, r: real)
    requires s < s' && Unit(r)
    ensures s <= Move(s, s', r) <= s'
  {
    hide Move;
    var n := r * (s' - s);
    PartOf(r, s' - s, n);
    MoveBy(s, s', r, n);
  }

  lemma PartOf(r: real, k: real, n: real)
    requires Unit(r) && k >= 0.0 && n == r * k
    ensures 0.0 <= n <= k
  {
    MulNonNeg(k, r);
    MulMono(k, r, 1.0);
  }

  lemma MoveTo(s: real, s': real, t: real) returns (r: real)
    requires s < s' && s <= t <= s'
    ensures Unit(r) && Move(s, s', r) == t
  {
    r := (t - s) / (s' - s);
    FractionInUnit(t - s, s' - s);
  }

  /** The number of the piece that holds the parameter t. */
  lemma PieceOf(t: real, n: nat) returns (j: nat)
    requires Unit(t) && n >= 1
    ensures j < n && Fraction(j, n) <= t <= Fraction(j + 1, n)
  {
    if t == 1.0 {
      j := n - 1;
      FractionBounds(n - 1, n);
      WholeFraction(n);
    } else {
      j := InnerPiece(t, n);
    }
  }

  lemma InnerPiece(t: real, n: nat) returns (j: nat)
    requires 0.0 <= t < 1.0 && n >= 1
    ensures j < n && Fraction(j, n) <= t <= Fraction(j + 1, n)
  {
    hide Fraction;
    var p := Scaled(t, n as real);
    j := p.Floor;
    FractionBounds(j, n);
    FractionBounds(j + 1, n);
    ScaledOrder(Fraction(j, n), t, n as real, j as real, p);
    ScaledOrder(t, Fraction(j + 1, n), n as real, p, (j + 1) as real);
  }

  lemma Scaled(t: real, m: real) returns (p: real)
    requires 0.0 <= t < 1.0 && m > 0.0
    ensures p == t * m && 0.0 <= p < m
  {
    p := t * m;
    MulNonNeg(t, m);
    MulPos(1.0 - t, m);
  }

  lemma ScaledOrder(x: real, y: real, m: real, p: real, q: real)
    requires m > 0.0 && x * m == p && y * m == q && p <= q
    ensures x <= y
  {
    QuotientOrder(y, x, m);
  }

  ghost predicate OnPiece(p: Point, a: Point, b: Point, n: nat, j: nat)
    requires n >= 1
  {
    OnSegment(p, At(a, b, Fraction(j, n)), At(a, b, Fraction(j + 1, n)))
  }

  /** The equal pieces cover exactly the segment. */
  lemma PiecesCover(p: Point, a: Point, b: Point, n: nat)
    requires n >= 1
    ensures OnSegment(p, a, b) <==> exists j: nat :: j < n && OnPiece(p, a, b, n, j)
  {
    if OnSegment(p, a, b) {
      var t :| Unit(t) && p == At(a, b, t);
      var j := PieceOf(t, n);
      NextFraction(j, n);
      Stretch(p, a, b, Fraction(j, n), Fraction(j + 1, n));
      assert OnPiece(p, a, b, n, j);
    }
    if j: nat :| j < n && OnPiece(p, a, b, n, j) {
      NextFraction(j, n);
      Stretch(p, a, b, Fraction(j, n), Fraction(j + 1, n));
      FractionBounds(j, n);
      FractionBounds(j + 1, n);
    }
  }

  /** Piece i of a path followed by the pieces of a cut. */
  lemma PieceAfterCut(path: Path, b: Point, n: nat, i: int)
    requires |path| >= 1 && n >= 1 && 0 <= i < |path| - 1 + n
    ensures var a, full := path[|path| - 1], path + Cut(path[|path| - 1], b, n);
            if i < |path| - 1 then full[i] == path[i] && full[i + 1] == path[i + 1]
            else
              && full[i] == At(a, b, Fraction(i - (|path| - 1), n))
              && full[i + 1] == At(a, b, Fraction(i - (|path| - 1) + 1, n))
  {
    var a := path[|path| - 1];
    WholeFraction(n);
    EndsOfSegment(a, b);
  }

  lemma PointOfCutPath(path: Path, b: Point, n: nat, p: Point, i: int)
    requires |path| >= 1 && n >= 1 && 0 <= i < |path| - 1 + n
    requires var full := path + Cut(path[|path| - 1], b, n); OnSegment(p, full[i], full[i + 1])
    ensures OnPath(path, p) || OnSegment(p, path[|path| - 1], b)
  {
    var k, a := |path| - 1, path[|path| - 1];
    PieceAfterCut(path, b, n, i);
    if i < k {
      assert OnSegment(p, path[i], path[i + 1]);
    } else {
      assert OnPiece(p, a, b, n, i - k);
      PiecesCover(p, a, b, n);
    }
  }

  lemma PointOfLastSegment(path: Path, b: Point, n: nat, p: Point)
    requires |path| >= 1 && n >= 1 && OnSegment(p, path[|path| - 1], b)
    ensures OnPath(path + Cut(path[|path| - 1], b, n), p)
  {
    var k, a := |path| - 1, path[|path| - 1];
    PiecesCover(p, a, b, n);
    var j: nat :| j < n && OnPiece(p, a, b, n, j);
    PieceAfterCut(path, b, n, k + j);
    var full := path + Cut(a, b, n);
    assert OnSegment(p, full[k + j], full[k + j + 1]);
  }

  lemma OnPathAfterCut(path: Path, b: Point, n: nat, p: Point)
    requires |path| >= 1 && n >= 1
    ensures OnPath(path + Cut(path[|path| - 1], b, n), p) <==> OnPath(path, p) || OnSegment(p, path[|path| - 1], b)
  {
    var full := path + Cut(path[|path| - 1], b, n);
    if OnPath(full, p) {
      var i :| 0 <= i < |full| - 1 && OnSegment(p, full[i], full[i + 1]);
      PointOfCutPath(path, b, n, p, i);
    }
    if OnPath(path, p) {
      var i :| 0 <= i < |path| - 1 && OnSegment(p, path[i], path[i + 1]);
      assert full[i] == path[i] && full[i + 1] == path[i + 1];
    }
    if OnSegment(p, path[|path| - 1], b) {
      PointOfLastSegment(path, b, n, p);
    }
  }

  lemma OnPathLast(path: Path, p: Point)
    requires |path| >= 2
    ensures var k := |path| - 1; OnPath(path, p) <==> OnPath(path[..k], p) || OnSegment(p, path[k - 1], path[k])
  {
    var k := |path| - 1;
    var init := path[..k];
    if OnPath(path, p) {
      var i :| 0 <= i < |path| - 1 && OnSegment(p, path[i], path[i + 1]);
      if i < k - 1 {
        assert OnSegment(p, init[i], init[i + 1]);
      }
    }
    if OnPath(init, p) {
      var i :| 0 <= i < |init| - 1 && OnSegment(p, init[i], init[i + 1]);
      assert OnSegment(p, path[i], path[i + 1]);
    }
    if OnSegment(p, path[k - 1], path[k]) {
      assert OnSegment(p, path[k - 1], path[k - 1 + 1]);
    }
  }

  lemma ShapeAfterCut(path: Path, b: Point, n: nat)
    requires |path| >= 1 && n >= 1
    ensures var full := path + Cut(path[|path| - 1], b, n);
            |full| == |path| + n && full[0] == path[0] && full[|full| - 1] == b
  {
    hide Cut;
    LastCut(path[|path| - 1], b, n);
  }

  lemma {:induction false} SampledShape(points: Path, m: real)
    requires m != 0.0 && |points| >= 1
    ensures |Sampled(points, m)| >= |points|
    ensures Sampled(points, m)[0] == points[0]
    ensures Sampled(points, m)[|Sampled(points, m)| - 1] == points[|points| - 1]
  {
    if |points| >= 2 {
      var k := |points| - 1;
      hide Cut, PieceCount;
      SampledShape(points[..k], m);
      ShapeAfterCut(Sampled(points[..k], m), points[k], PieceCount(points[k - 1], points[k], m));
    }
  }

  /** Resampling leaves the traced curve unchanged. */
  lemma {:induction false} SamplingKeepsCurve(points: Path, m: real, p: Point)
    requires m != 0.0
    ensures OnPath(Sampled(points, m), p) <==> OnPath(points, p)
  {
    if |points| >= 2 {
      var k := |points| - 1;
      SamplingKeepsCurve(points[..k], m, p);
      SampledShape(points[..k], m);
      OnPathAfterCut(Sampled(points[..k], m), points[k], PieceCount(points[k - 1], points[k], m), p);
      OnPathLast(points, p);
    }
  }

  // ---------------------------------------------------------------- where the samples lie

  /** The position of original vertex i among the samples. */
  function VertexIndex(points: Path, m: real, i: nat): int
    requires m != 0.0 && i < |points|
  {
    |Sampled(points[..i + 1], m)| - 1
  }

  lemma SampledPrefix(points: Path, m: real, k: nat)
    requires m != 0.0 && k <= |points|
    ensures Sampled(points[..k], m) <= Sampled(points, m)
  {
    if k < |points| {
      if |points| >= 2 {
        var init := points[..|points| - 1];
        SampledPrefix(init, m, k);
        assert init[..k] == points[..k];
      }
    } else {
      assert points[..k] == points;
    }
  }

  lemma SampledStep(points: Path, m: real, i: nat)
    requires m != 0.0 && i + 1 < |points|
    ensures Sampled(points[..i + 2], m) ==
            Sampled(points[..i + 1], m) + Cut(points[i], points[i + 1], PieceCount(points[i], points[i + 1], m))
  {
    var upto := points[..i + 2];
    assert upto[..i + 1] == points[..i + 1];
  }

  /** A prefix of the path determines the first samples. */
  lemma SampleOfPrefix(points: Path, m: real, k: nat, i: nat)
    requires m != 0.0 && k <= |points| && i < |Sampled(points[..k], m)|
    ensures i < |Sampled(points, m)| && Sampled(points, m)[i] == Sampled(points[..k], m)[i]
  {
    SampledPrefix(points, m, k);
  }

  /** Where the cut of segment i starts among the samples, and where it ends. */
  lemma NextVertexIndex(points: Path, m: real, i: nat)
    requires m != 0.0 && i + 1 < |points|
    ensures VertexIndex(points, m, i) >= 0
    ensures VertexIndex(points, m, i + 1) == VertexIndex(points, m, i) + PieceCount(points[i], points[i + 1], m)
  {
    SampledStep(points, m, i);
    SampledShape(points[..i + 1], m);
  }

  /** Sample j after vertex i sits at j equal steps along segment i; step n is vertex i + 1. */
  lemma SamplePosition(points: Path, m: real, i: nat, j: nat)
    requires m != 0.0 && i + 1 < |points| && j <= PieceCount(points[i], points[i + 1], m)
    ensures VertexIndex(points, m, i + 1) == VertexIndex(points, m, i) + PieceCount(points[i], points[i + 1], m)
    ensures 0 <= VertexIndex(points, m, i) + j < |Sampled(points, m)|
    ensures Sampled(points, m)[VertexIndex(points, m, i) + j] ==
            At(points[i], points[i + 1], Fraction(j, PieceCount(points[i], points[i + 1], m)))
  {
    hide Sampled, PieceCount, At, Fraction;
    var k, n := VertexIndex(points, m, i), PieceCount(points[i], points[i + 1], m);
    NextVertexIndex(points, m, i);
    SampleOfPrefix(points, m, i + 2, k + j);
    SampledStep(points, m, i);
    if j == 0 {
      SampledShape(points[..i + 1], m);
      StartOfCut(points[i], points[i + 1], n);
    } else {
      assert Sampled(points[..i + 2], m)[k + j] == Cut(points[i], points[i + 1], n)[j - 1];
    }
  }

  lemma StartOfCut(a: Point, b: Point, n: nat)
    requires n >= 1
    ensures At(a, b, Fraction(0, n)) == a
  {
    WholeFraction(n);
    EndsOfSegment(a, b);
  }

  /** Every original vertex is kept, in order, with both ends in place. */
  lemma VerticesKept(points: Path, m: real, i: nat)
    requires m != 0.0 && i < |points|
    ensures 0 <= VertexIndex(points, m, i) < |Sampled(points, m)|
    ensures Sampled(points, m)[VertexIndex(points, m, i)] == points[i]
    ensures i > 0 ==> VertexIndex(points, m, i - 1) < VertexIndex(points, m, i)
    ensures i == 0 ==> VertexIndex(points, m, i) == 0
    ensures i == |points| - 1 ==> VertexIndex(points, m, i) == |Sampled(points, m)| - 1
  {
    hide Sampled, PieceCount, VertexIndex;
    FirstVertex(points, m);
    VertexPlace(points, m, i);
    if i > 0 {
      NextVertexIndex(points, m, i - 1);
    }
  }

  lemma FirstVertex(points: Path, m: real)
    requires m != 0.0 && |points| >= 1
    ensures VertexIndex(points, m, 0) == 0
  {
  }

  lemma VertexPlace(points: Path, m: real, i: nat)
    requires m != 0.0 && i < |points|
    ensures 0 <= VertexIndex(points, m, i) < |Sampled(points, m)|
    ensures Sampled(points, m)[VertexIndex(points, m, i)] == points[i]
    ensures i == |points| - 1 ==> VertexIndex(points, m, i) == |Sampled(points, m)| - 1
  {
    hide Sampled, PieceCount;
    SampledShape(points[..i + 1], m);
    SampleOfPrefix(points, m, i + 1, VertexIndex(points, m, i));
    if i == |points| - 1 {
      assert points[..i + 1] == points;
    }
  }

  // ---------------------------------------------------------------- how close the samples are

  lemma PieceLength(a: Point, b: Point, s: real, s': real)
    ensures Dist2(At(a, b, s), At(a, b, s')) == (s' - s) * (s' - s) * Dist2(a, b)
  {
    var k := s' - s;
    var v := Sub(b, a);
    assert Sub(At(a, b, s'), At(a, b, s)) == Point(k * v.x, k * v.y);
    assert (k * v.x) * (k * v.x) + (k * v.y) * (k * v.y) == k * k * (v.x * v.x + v.y * v.y);
  }

  /** The squared length of one of n equal pieces. */
  lemma EqualPieceLength(a: Point, b: Point, n: nat, j: nat)
    requires n >= 1
    ensures Dist2(At(a, b, Fraction(j, n)), At(a, b, Fraction(j + 1, n))) * (n as real * n as real) == Dist2(a, b)
  {
    var r, k := 1.0 / n as real, n as real;
    Quotient(1.0, k);
    NextFraction(j, n);
    PieceLength(a, b, Fraction(j, n), Fraction(j + 1, n));
    var d := Dist2(a, b);
    assert (r * r * d) * (k * k) == (r * k) * (r * k) * d;
  }

  /** n equal pieces are short enough exactly when n steps of the maximum reach the whole distance. */
  lemma ShortEnough(a: Point, b: Point, n: nat, j: nat, m: real)
    requires n >= 1 && m > 0.0
    ensures Dist2(At(a, b, Fraction(j, n)), At(a, b, Fraction(j + 1, n))) <= m * m <==> Reaches(n, Dist2(a, b), m)
  {
    var piece, k := Dist2(At(a, b, Fraction(j, n)), At(a, b, Fraction(j + 1, n))), n as real;
    EqualPieceLength(a, b, n, j);
    var k2, m2 := k * k, m * m;
    assert k2 > 0.0 by { MulPos(k, k); }
    assert (k * m) * (k * m) == m2 * k2;
    if piece <= m2 {
      MulMono(k2, piece, m2);
    } else {
      MulPos(piece - m2, k2);
      assert (piece - m2) * k2 == piece * k2 - m2 * k2;
    }
  }

  /** A segment is cut into the fewest equal pieces none of which exceeds the maximum. */
  lemma FewestPieces(a: Point, b: Point, m: real, n: nat)
    requires m > 0.0 && n >= 1
    ensures n >= PieceCount(a, b, m) <==> Dist2(At(a, b, Fraction(0, n)), At(a, b, Fraction(1, n))) <= m * m
  {
    var d2, c := Dist2(a, b), PieceCount(a, b, m);
    ShortEnough(a, b, n, 0, m);
    assert Reaches(1, d2, m) <==> d2 <= m * m;
    if n >= c {
      ReachesMore(c, n, d2, m);
    } else {
      assert !Reaches(n, d2, m);
    }
  }

  lemma ReachesMore(c: nat, n: nat, d2: real, m: real)
    requires c <= n && m > 0.0 && Reaches(c, d2, m)
    ensures Reaches(n, d2, m)
  {
    var x, y := c as real * m, n as real * m;
    MulNonNeg(c as real, m);
    MulMono(m, c as real, n as real);
    MulMono(x, x, y);
    MulMono(y, x, y);
  }

  /** Consecutive samples are at most the maximum apart. */
  lemma {:induction false} SamplesClose(points: Path, m: real, i: nat)
    requires m > 0.0 && i + 1 < |Sampled(points, m)| && |points| >= 2
    ensures Dist2(Sampled(points, m)[i], Sampled(points, m)[i + 1]) <= m * m
  {
    var k := |points| - 1;
    var before, a, b := Sampled(points[..k], m), points[k - 1], points[k];
    var n := PieceCount(a, b, m);
    SampledShape(points[..k], m);
    PieceAfterCut(before, b, n, i);
    if i < |before| - 1 {
      SamplesClose(points[..k], m, i);
    } else {
      FewestPieces(a, b, m, n);
      ShortEnough(a, b, n, 0, m);
      ShortEnough(a, b, n, i - (|before| - 1), m);
    }
  }
}
