/** Does resampling change an answer? For which maximum distances, and at which thresholds, it never does. */
module SampledAnswers {
  import opened Segments
  import opened Proximity
  import opened Paths
  import opened Rectangles
  import opened Sampling

  // ---------------------------------------------------------------- paths within a threshold

  /** For every threshold at which the test is exact, resampling either path does not change its answer. */
  lemma SamplingKeepsPathsIntersect(path1: Path, path2: Path, m1: real, m2: real, threshold: real)
    requires m1 != 0.0 && m2 != 0.0 && threshold >= EXACT_FROM
    ensures Detected(Sampled(path1, m1), Sampled(path2, m2), threshold) <==> Detected(path1, path2, threshold)
  {
    DetectionExact(path1, path2, threshold);
    DetectionExact(Sampled(path1, m1), Sampled(path2, m2), threshold);
    forall p ensures OnPath(Sampled(path1, m1), p) <==> OnPath(path1, p) {
      SamplingKeepsCurve(path1, m1, p);
    }
    forall q ensures OnPath(Sampled(path2, m2), q) <==> OnPath(path2, q) {
      SamplingKeepsCurve(path2, m2, q);
    }
  }

  /** The answer at the threshold is the same for all paths and all maximum distances. */
  ghost predicate SamplingNeverMatters(threshold: real) {
    forall path1: Path, path2: Path, m1: real, m2: real :: m1 != 0.0 && m2 != 0.0 ==>
      (Detected(Sampled(path1, m1), Sampled(path2, m2), threshold) <==> Detected(path1, path2, threshold))
  }

  /** The three equal pieces of an axis of a plus sign. */
  function Thirds(axis: real -> Point, l: real): Path { [axis(-3.0 * l), axis(-l), axis(l), axis(3.0 * l)] }

  function OnBar(r: real): Point { Point(r, 0.0) }

  function OnPost(r: real): Point { Point(0.0, r) }

  lemma ThirdsOfBar(l: real)
    requires l > 0.0
    ensures Sampled(Bar(3.0 * l), 2.0 * l) == Thirds(OnBar, l)
  {
    var a, b := Point(-3.0 * l, 0.0), Point(3.0 * l, 0.0);
    assert Bar(3.0 * l) == [a, b];
    ThreePieces(a, b, 2.0 * l);
    CutInThree(a, b);
    assert At(a, b, 1.0 / 3.0) == Point(-l, 0.0) && At(a, b, 2.0 / 3.0) == Point(l, 0.0);
  }

  lemma ThirdsOfPost(l: real)
    requires l > 0.0
    ensures Sampled(Post(3.0 * l), 2.0 * l) == Thirds(OnPost, l)
  {
    var a, b := Point(0.0, -3.0 * l), Point(0.0, 3.0 * l);
    assert Post(3.0 * l) == [a, b];
    ThreePieces(a, b, 2.0 * l);
    CutInThree(a, b);
    assert At(a, b, 1.0 / 3.0) == Point(0.0, -l) && At(a, b, 2.0 / 3.0) == Point(0.0, l);
  }

  lemma ReachesMeans(n: nat, k: real, d2: real, m: real, mm: real)
    requires n as real == k && mm == m * m
    ensures Reaches(n, d2, m) <==> d2 <= k * k * mm
  {
    assert (k * m) * (k * m) == k * k * (m * m);
  }

  /** A square of nine squares of the maximum takes three pieces. */
  lemma ThreeReach(d2: real, m: real, mm: real)
    requires m > 0.0 && mm == m * m && mm > 0.0 && d2 == 9.0 * mm
    ensures CeilRatio(d2, m) == 3 && TooLong(d2, m)
  {
    hide Reaches;
    ReachesMeans(3, 3.0, d2, m, mm);
    ReachesMeans(2, 2.0, d2, m, mm);
    ReachesMeans(1, 1.0, d2, m, mm);
    ReachesMeans(0, 0.0, d2, m, mm);
    var n := CeilRatio(d2, m);
    assert Reaches(3, d2, m);
  }

  lemma ThreePieces(a: Point, b: Point, m: real)
    requires m > 0.0 && Dist2(a, b) == 9.0 * (m * m)
    ensures PieceCount(a, b, m) == 3
    ensures Sampled([a, b], m) == [a] + Cut(a, b, 3)
  {
    hide Dist2, Cut, TooLong, CeilRatio;
    var mm := m * m;
    ProductPos(m, m, mm);
    ThreeReach(Dist2(a, b), m, mm);
    assert [a, b][..1] == [a];
  }

  lemma CutInThree(a: Point, b: Point)
    ensures [a] + Cut(a, b, 3) == [a, At(a, b, 1.0 / 3.0), At(a, b, 2.0 / 3.0), b]
  {
    assert Fraction(1, 3) == 1.0 / 3.0 && Fraction(2, 3) == 2.0 / 3.0 && Fraction(3, 3) == 1.0;
    EndsOfSegment(a, b);
  }

  /** The pieces are too short for the crossing test and, beyond the threshold, all ends too far. */
  lemma ThirdsUnseen(l: real, threshold: real)
    requires l > 0.0 && 4.0 * (l * l) < EPSILON && (threshold <= 0.0 || threshold * threshold < l * l)
    ensures !Detected(Thirds(OnBar, l), Thirds(OnPost, l), threshold)
  {
    hide EndsClose, EndWithin, LineSegmentsIntersect;
    var bar, post := Thirds(OnBar, l), Thirds(OnPost, l);
    forall i, j | 0 <= i < |bar| - 1 && 0 <= j < |post| - 1
      ensures !Crosses(bar, post, i, j) && (threshold > 0.0 ==> !EndsClose(bar, post, threshold, i, j))
    {
      PiecesCrossUnseen(bar[i].x, post[j].y, l);
      if threshold > 0.0 {
        EndsCloseMeaning(bar, post, threshold, i, j);
        PieceEndsFar(bar[i].x, post[j].y, l, threshold * threshold);
      }
    }
  }

  lemma PiecesCrossUnseen(x: real, y: real, l: real)
    requires 4.0 * (l * l) < EPSILON && l > 0.0
    ensures !LineSegmentsIntersect(OnBar(x), OnBar(x + 2.0 * l), OnPost(y), OnPost(y + 2.0 * l))
  {
    assert Denominator(OnBar(x), OnBar(x + 2.0 * l), OnPost(y), OnPost(y + 2.0 * l)) == 4.0 * (l * l);
    MulPos(l, l);
  }

  /** At least l from the origin on its axis. */
  predicate Away(r: real, l: real) { r <= -l || r >= l }

  lemma PieceEndsFar(x: real, y: real, l: real, r2: real)
    requires l > 0.0 && r2 < l * l && Away(x, l) && Away(x + 2.0 * l, l) && Away(y, l) && Away(y + 2.0 * l, l)
    ensures !EndWithin(OnBar(x), OnBar(x + 2.0 * l), OnPost(y), OnPost(y + 2.0 * l), r2)
  {
    var a, b, c, d := OnBar(x), OnBar(x + 2.0 * l), OnPost(y), OnPost(y + 2.0 * l);
    forall t
      ensures Dist2(a, At(c, d, t)) > r2 && Dist2(b, At(c, d, t)) > r2
      ensures Dist2(c, At(a, b, t)) > r2 && Dist2(d, At(a, b, t)) > r2
    {
      assert At(c, d, t).x == 0.0 && At(a, b, t).y == 0.0;
      FarFromAxis(x, At(c, d, t), l);
      FarFromAxis(x + 2.0 * l, At(c, d, t), l);
      FarFromBar(y, At(a, b, t), l);
      FarFromBar(y + 2.0 * l, At(a, b, t), l);
    }
  }

  lemma FarFromAxis(x: real, q: Point, l: real)
    requires l > 0.0 && Away(x, l) && q.x == 0.0
    ensures Dist2(OnBar(x), q) >= l * l
  {
    assert Dist2(OnBar(x), q) == x * x + q.y * q.y;
    SquareNonNeg(q.y);
    AwaySquare(x, l);
  }

  lemma FarFromBar(y: real, p: Point, l: real)
    requires l > 0.0 && Away(y, l) && p.y == 0.0
    ensures Dist2(OnPost(y), p) >= l * l
  {
    assert Dist2(OnPost(y), p) == p.x * p.x + y * y;
    SquareNonNeg(p.x);
    AwaySquare(y, l);
  }

  lemma AwaySquare(x: real, l: real)
    requires l > 0.0 && Away(x, l)
    ensures x * x >= l * l
  {
    var z := Abs(x);
    assert z * z == x * x;
    MulMono(l, l, z);
    MulMono(z, l, z);
  }

  /** Below the bound a plus sign that is seen is missed once its arms are sampled. */
  lemma SampledPlusMissed(threshold: real) returns (l: real)
    requires threshold < EXACT_FROM
    ensures l > 0.0 && Detected(Bar(3.0 * l), Post(3.0 * l), threshold)
    ensures !Detected(Sampled(Bar(3.0 * l), 2.0 * l), Sampled(Post(3.0 * l), 2.0 * l), threshold)
  {
    l := if threshold > 0.000002 then (threshold + EXACT_FROM) / 2.0 else 0.000003;
    StrictSquares(l, EXACT_FROM);
    if threshold > 0.0 {
      StrictSquares(threshold, l);
    }
    LongPlusSeen(l, threshold);
    ThirdsOfBar(l);
    ThirdsOfPost(l);
    ThirdsUnseen(l, threshold);
  }

  lemma LongPlusSeen(l: real, threshold: real)
    requires l >= 0.000002
    ensures Detected(Bar(3.0 * l), Post(3.0 * l), threshold)
  {
    var k := 3.0 * l;
    PlusCrosses(k);
    MulMono(k, 0.000006, k);
    assert 4.0 * (k * k) >= EPSILON;
    CrossingTestDecides(Bar(k)[0], Bar(k)[1], Post(k)[0], Post(k)[1]);
    assert Crosses(Bar(k), Post(k), 0, 0);
  }

  /** Resampling never changes an answer precisely at the thresholds that are exact. */
  lemma SamplingExactThresholds(threshold: real)
    ensures SamplingNeverMatters(threshold) <==> threshold >= EXACT_FROM
  {
    hide Detected, Sampled;
    if threshold >= EXACT_FROM {
      forall path1: Path, path2: Path, m1: real, m2: real | m1 != 0.0 && m2 != 0.0
        ensures Detected(Sampled(path1, m1), Sampled(path2, m2), threshold) <==> Detected(path1, path2, threshold)
      {
        SamplingKeepsPathsIntersect(path1, path2, m1, m2, threshold);
      }
    } else {
      var l := SampledPlusMissed(threshold);
    }
  }

  // ---------------------------------------------------------------- polyline against a rectangle, piece by piece

  /** What the loops find about one piece: one of its ends inside, or an edge hit. */
  predicate PieceFound(a: Point, b: Point, rect: Rectangle) {
    PointInRectangle(a, rect) || PointInRectangle(b, rect) || EdgeHit(a, b, rect)
  }

  lemma DetectedByPieces(points: Path, rect: Rectangle)
    ensures RectangleDetected(points, rect) <==>
            exists i :: 0 <= i < |points| - 1 && PieceFound(points[i], points[i + 1], rect)
  {
    hide EdgeHit, PointInRectangle;
    if |points| >= 2 && VertexIn(points, rect) {
      var i :| 0 <= i < |points| && PointInRectangle(points[i], rect);
      var j := if i == 0 then 0 else i - 1;
      assert PieceFound(points[j], points[j + 1], rect);
    }
    if i :| 0 <= i < |points| - 1 && PieceHit(points, rect, i) {
      assert PieceFound(points[i], points[i + 1], rect);
    }
    if i :| 0 <= i < |points| - 1 && PieceFound(points[i], points[i + 1], rect) {
      if EdgeHit(points[i], points[i + 1], rect) {
        assert PieceHit(points, rect, i);
      }
    }
  }

  lemma DetectedLast(points: Path, rect: Rectangle)
    requires |points| >= 2
    ensures var k := |points| - 1;
            RectangleDetected(points, rect) <==>
            RectangleDetected(points[..k], rect) || PieceFound(points[k - 1], points[k], rect)
  {
    hide PieceFound, RectangleDetected;
    var k := |points| - 1;
    var init := points[..k];
    DetectedByPieces(points, rect);
    DetectedByPieces(init, rect);
    if i :| 0 <= i < |init| - 1 && PieceFound(init[i], init[i + 1], rect) {
      assert PieceFound(points[i], points[i + 1], rect);
    }
    if i :| 0 <= i < k && PieceFound(points[i], points[i + 1], rect) {
      if i < k - 1 {
        assert PieceFound(init[i], init[i + 1], rect);
      }
    }
    if PieceFound(points[k - 1], points[k], rect) {
      var i := k - 1;
      assert PieceFound(points[i], points[i + 1], rect);
    }
  }

  /** Piece j of n equal pieces of a segment is found. */
  predicate PartFound(a: Point, b: Point, n: nat, rect: Rectangle, j: nat)
    requires n >= 1
  {
    PieceFound(At(a, b, Fraction(j, n)), At(a, b, Fraction(j + 1, n)), rect)
  }

  lemma DetectedAfterCut(before: Path, b: Point, n: nat, rect: Rectangle)
    requires |before| >= 1 && n >= 1
    ensures var a := before[|before| - 1];
            RectangleDetected(before + Cut(a, b, n), rect) <==>
            RectangleDetected(before, rect) || exists j: nat :: j < n && PartFound(a, b, n, rect, j)
  {
    hide PieceFound, RectangleDetected, At, Fraction, Cut;
    var k, a := |before| - 1, before[|before| - 1];
    var full := before + Cut(a, b, n);
    DetectedByPieces(before, rect);
    DetectedByPieces(full, rect);
    if i :| 0 <= i < |full| - 1 && PieceFound(full[i], full[i + 1], rect) {
      PieceAfterCut(before, b, n, i);
      if i < k {
        assert PieceFound(before[i], before[i + 1], rect);
      } else {
        assert PartFound(a, b, n, rect, i - k);
      }
    }
    if i :| 0 <= i < k && PieceFound(before[i], before[i + 1], rect) {
      PieceAfterCut(before, b, n, i);
      assert PieceFound(full[i], full[i + 1], rect);
    }
    if j: nat :| j < n && PartFound(a, b, n, rect, j) {
      PieceAfterCut(before, b, n, k + j);
      assert PieceFound(full[k + j], full[k + j + 1], rect);
    }
  }

  /** Some point of the segment lies in the rectangle. */
  ghost predicate Touches(a: Point, b: Point, rect: Rectangle) {
    exists p :: OnSegment(p, a, b) && PointInRectangle(p, rect)
  }

  ghost predicate PartTouches(a: Point, b: Point, n: nat, rect: Rectangle, j: nat)
    requires n >= 1
  {
    Touches(At(a, b, Fraction(j, n)), At(a, b, Fraction(j + 1, n)), rect)
  }

  /** A piece that is not blind is found exactly when some point of it lies in the rectangle. */
  lemma PieceDecided(a: Point, b: Point, rect: Rectangle)
    requires rect.width >= 0.0 && rect.height >= 0.0 && !Blind(b.x - a.x, b.y - a.y, rect)
    ensures PieceFound(a, b, rect) <==> Touches(a, b, rect)
  {
    hide EdgeHit, At, PointInRectangle, Blind;
    EndsOfSegment(a, b);
    assert OnSegment(At(a, b, 0.0), a, b) && OnSegment(At(a, b, 1.0), a, b);
    if EdgeHit(a, b, rect) {
      EdgeHitIsInside(a, b, rect);
    }
    if Touches(a, b, rect) {
      var p :| OnSegment(p, a, b) && PointInRectangle(p, rect);
      var t :| Unit(t) && p == At(a, b, t);
      if !PointInRectangle(a, rect) && !PointInRectangle(b, rect) {
        OutsidePieceDecided(a, b, rect, t);
      }
    }
  }

  // ---------------------------------------------------------------- which pieces are blind

  /** The maximum is at least twice the length of the diagonal of the blind displacements. */
  predicate WideEnough(m: real, rect: Rectangle) {
    var ww, hh := rect.width * rect.width, rect.height * rect.height;
    m * m * (ww * hh) >= 4.0 * (EPSILON * EPSILON) * (ww + hh)
  }

  /** The maximum is negative, or neither side is empty and the maximum is wide enough for both. */
  predicate Harmless(m: real, rect: Rectangle) {
    m < 0.0 || (rect.width > 0.0 && rect.height > 0.0 && WideEnough(m, rect))
  }

  lemma SmallSquare(d: real, k: real, e: real, dd: real, kk: real, ee: real)
    requires k > 0.0 && Abs(d) * k < e && dd == d * d && kk == k * k && ee == e * e
    ensures dd * kk < ee
  {
    var x := Abs(d) * k;
    MulNonNeg(Abs(d), k);
    StrictSquares(x, e);
    assert x * x == dd * kk by {
      assert Abs(d) * Abs(d) == d * d;
      assert x * x == Abs(d) * Abs(d) * (k * k);
    }
  }

  lemma BlindShort(xx: real, yy: real, ww: real, hh: real, ee: real)
    requires ww > 0.0 && hh > 0.0 && xx * hh < ee && yy * ww < ee
    ensures (xx + yy) * (ww * hh) < ee * (ww + hh)
  {
    MulPos(ww, ee - xx * hh);
    MulPos(hh, ee - yy * ww);
    assert ee * (ww + hh) - (xx + yy) * (ww * hh) == ww * (ee - xx * hh) + hh * (ee - yy * ww);
  }

  lemma NotThatShort(mm: real, dd: real, p: real, bound: real)
    requires p > 0.0 && 4.0 * dd >= mm && mm * p >= 4.0 * bound
    ensures dd * p >= bound
  {
    MulMono(p, mm, 4.0 * dd);
  }

  /** A displacement of at least half of a wide enough maximum is not blind. */
  lemma LongPieceNotBlind(dx: real, dy: real, m: real, rect: Rectangle)
    requires rect.width > 0.0 && rect.height > 0.0 && WideEnough(m, rect)
    requires 4.0 * (dx * dx + dy * dy) >= m * m
    ensures !Blind(dx, dy, rect)
  {
    hide Abs;
    var w, h, e := rect.width, rect.height, EPSILON;
    var xx, yy, ww, hh, ee, mm := dx * dx, dy * dy, w * w, h * h, e * e, m * m;
    var p := ww * hh;
    ProductPos(w, w, ww);
    ProductPos(h, h, hh);
    ProductPos(ww, hh, p);
    NotThatShort(mm, xx + yy, p, ee * (ww + hh));
    if Abs(dx) * h < e && Abs(dy) * w < e {
      SmallSquare(dx, h, e, xx, hh, ee);
      SmallSquare(dy, w, e, yy, ww, ee);
      BlindShort(xx, yy, ww, hh, ee);
    }
  }

  // ---------------------------------------------------------------- wide enough maxima change nothing

  /** Cutting leaves pieces of more than half of the maximum. */
  lemma CutPiecesLong(a: Point, b: Point, m: real, j: nat)
    requires m > 0.0 && PieceCount(a, b, m) >= 2
    ensures var n := PieceCount(a, b, m);
            4.0 * Dist2(At(a, b, Fraction(j, n)), At(a, b, Fraction(j + 1, n))) >= m * m
  {
    hide Dist2, At, Fraction;
    var n := PieceCount(a, b, m);
    EqualPieceLength(a, b, n, j);
    assert !Reaches(n - 1, Dist2(a, b), m);
    OneLess(n, n as real);
    LongerThanHalf(Dist2(At(a, b, Fraction(j, n)), At(a, b, Fraction(j + 1, n))), Dist2(a, b), n as real, m);
  }

  lemma OneLess(n: nat, k: real)
    requires n >= 1 && k == n as real
    ensures (n - 1) as real == k - 1.0
  {
  }

  lemma LongerThanHalf(piece: real, d2: real, k: real, m: real)
    requires m > 0.0 && k >= 2.0 && piece * (k * k) == d2
    requires ((k - 1.0) * m) * ((k - 1.0) * m) < d2
    ensures 4.0 * piece >= m * m
  {
    var y, z, k2 := k * m, (k - 1.0) * m, k * k;
    assert z == y - m;
    assert y >= 2.0 * m by { MulMono(m, 2.0, k); }
    SquareOfDouble(y, z);
    assert y * y == m * m * k2;
    ProductPos(k, k, k2);
    QuotientOrder(4.0 * piece, m * m, k2);
  }

  lemma SquareOfDouble(y: real, z: real)
    requires 0.0 <= y <= 2.0 * z
    ensures y * y <= 4.0 * (z * z)
  {
    var w := 2.0 * z;
    MulMono(y, y, w);
    MulMono(w, y, w);
    assert w * w == 4.0 * (z * z);
  }

  lemma DisplacementLength(p: Point, q: Point)
    ensures Dist2(p, q) == (q.x - p.x) * (q.x - p.x) + (q.y - p.y) * (q.y - p.y)
  {
  }

  /** A segment that is cut is longer than the maximum. */
  lemma CutSegmentLong(a: Point, b: Point, m: real)
    requires m > 0.0 && PieceCount(a, b, m) >= 2
    ensures 4.0 * Dist2(a, b) >= m * m
  {
    var mm := m * m;
    ProductPos(m, m, mm);
  }

  lemma CutNotBlind(a: Point, b: Point, m: real, rect: Rectangle, j: nat)
    requires rect.width > 0.0 && rect.height > 0.0 && m > 0.0 && WideEnough(m, rect) && PieceCount(a, b, m) >= 2
    ensures !Blind(b.x - a.x, b.y - a.y, rect)
    ensures var n := PieceCount(a, b, m);
            var p, q := At(a, b, Fraction(j, n)), At(a, b, Fraction(j + 1, n));
            !Blind(q.x - p.x, q.y - p.y, rect)
  {
    hide Blind, WideEnough, PieceCount, Dist2, At, Fraction;
    CutSegmentLong(a, b, m);
    CutPiecesLong(a, b, m, j);
    var n := PieceCount(a, b, m);
    var p, q := At(a, b, Fraction(j, n)), At(a, b, Fraction(j + 1, n));
    DisplacementLength(a, b);
    DisplacementLength(p, q);
    LongPieceNotBlind(b.x - a.x, b.y - a.y, m, rect);
    LongPieceNotBlind(q.x - p.x, q.y - p.y, m, rect);
  }

  /** The pieces of a cut are found exactly when the segment is: it is cut only when neither it nor a piece is blind. */
  lemma PartsFound(a: Point, b: Point, m: real, rect: Rectangle)
    requires m != 0.0 && Harmless(m, rect)
    ensures var n := PieceCount(a, b, m);
            (exists j: nat :: j < n && PartFound(a, b, n, rect, j)) <==> PieceFound(a, b, rect)
  {
    hide PieceFound, WideEnough, Touches, PieceCount, At, Fraction;
    var n := PieceCount(a, b, m);
    if n == 1 {
      WholeCut(a, b);
      assert PartFound(a, b, n, rect, 0) <==> PieceFound(a, b, rect);
    } else {
      NegativeUncut(a, b, m);
      forall j: nat ensures PartFound(a, b, n, rect, j) <==> PartTouches(a, b, n, rect, j) {
        CutNotBlind(a, b, m, rect, j);
        PieceDecided(At(a, b, Fraction(j, n)), At(a, b, Fraction(j + 1, n)), rect);
      }
      CutNotBlind(a, b, m, rect, 0);
      PieceDecided(a, b, rect);
      PartsOfMeeting(a, b, n, rect);
    }
  }

  lemma NegativeUncut(a: Point, b: Point, m: real)
    requires m != 0.0
    ensures m < 0.0 ==> PieceCount(a, b, m) == 1
  {
  }

  /** A point of the segment in the rectangle is a point of one of the pieces. */
  lemma PartsOfMeeting(a: Point, b: Point, n: nat, rect: Rectangle)
    requires n >= 1
    ensures Touches(a, b, rect) <==> exists j: nat :: j < n && PartTouches(a, b, n, rect, j)
  {
    hide PointInRectangle, OnSegment, At, Fraction;
    if Touches(a, b, rect) {
      var p :| OnSegment(p, a, b) && PointInRectangle(p, rect);
      PiecesCover(p, a, b, n);
      var j: nat :| j < n && OnPiece(p, a, b, n, j);
      assert PartTouches(a, b, n, rect, j);
    }
    if j: nat :| j < n && PartTouches(a, b, n, rect, j) {
      var p :| OnSegment(p, At(a, b, Fraction(j, n)), At(a, b, Fraction(j + 1, n))) && PointInRectangle(p, rect);
      assert OnPiece(p, a, b, n, j);
      PiecesCover(p, a, b, n);
    }
  }

  /** With a wide enough maximum resampling changes no answer for the rectangle, blind pieces or not. */
  lemma {:induction false} SamplingKeepsRectangle(points: Path, m: real, rect: Rectangle)
    requires m != 0.0 && Harmless(m, rect)
    ensures RectangleDetected(Sampled(points, m), rect) <==> RectangleDetected(points, rect)
  {
    if |points| >= 2 {
      hide RectangleDetected, WideEnough, PieceFound, PieceCount;
      var k := |points| - 1;
      var n := PieceCount(points[k - 1], points[k], m);
      SamplingKeepsRectangle(points[..k], m, rect);
      SampledShape(points[..k], m);
      DetectedAfterCut(Sampled(points[..k], m), points[k], n, rect);
      PartsFound(points[k - 1], points[k], m, rect);
      DetectedLast(points, rect);
    }
  }

  // ---------------------------------------------------------------- narrower maxima change some answer

  /** A number below 2 e whose square, scaled, still exceeds a bound below that of 2 e. */
  lemma NearlyTwice(e: real, s: real, bound: real) returns (t: real)
    requires e > 0.0 && s > 0.0 && 0.0 < bound < 4.0 * (e * e) * s
    ensures e <= t < 2.0 * e && t * t * s > bound
  {
    var es := e * s;
    ProductPos(e, s, es);
    var g := 4.0 * (e * e) * s - bound;
    var d := Divide(g, 8.0 * es);
    t := 2.0 * e - d;
    StepSize(e, es, d, g, bound);
    assert t * t * s == 4.0 * (e * e) * s - 4.0 * (d * es) + d * d * s;
    SquareNonNeg(d);
    MulNonNeg(d * d, s);
  }

  lemma StepSize(e: real, es: real, d: real, g: real, bound: real)
    requires e > 0.0 && es > 0.0 && bound > 0.0 && d * (8.0 * es) == g && g == 4.0 * (e * es) - bound && g > 0.0
    ensures 0.0 < d <= e / 2.0 && 4.0 * (d * es) == g / 2.0
  {
    assert d * (8.0 * es) == 8.0 * (d * es);
    if d <= 0.0 {
      MulNonNeg(-d, es);
    }
    QuotientOrder(e / 2.0, d, es);
  }

  /** The displacement along the diagonal of the blind displacements, stretched to t over each side. */
  lemma StretchedLonger(dx: real, dy: real, t: real, m: real, rect: Rectangle)
    requires rect.width > 0.0 && rect.height > 0.0 && dx * rect.height == t && dy * rect.width == t
    requires var ww, hh := rect.width * rect.width, rect.height * rect.height;
             t * t * (ww + hh) > m * m * (ww * hh)
    ensures dx * dx + dy * dy > m * m
  {
    var w, h := rect.width, rect.height;
    var ww, hh, mm, dd := w * w, h * h, m * m, dx * dx + dy * dy;
    var p := ww * hh;
    ProductPos(w, w, ww);
    ProductPos(h, h, hh);
    ProductPos(ww, hh, p);
    StretchedProduct(dx, dy, w, h, t);
    assert dd * p == t * t * (ww + hh);
    if dd <= mm {
      MulMono(p, dd, mm);
    }
  }

  lemma StretchedProduct(dx: real, dy: real, w: real, h: real, t: real)
    requires dx * h == t && dy * w == t
    ensures (dx * dx + dy * dy) * (w * w * (h * h)) == t * t * (w * w + h * h)
  {
    assert (dx * dx + dy * dy) * (w * w * (h * h)) == (dx * h) * (dx * h) * (w * w) + (dy * w) * (dy * w) * (h * h);
  }

  predicate BlindPart(f: real, dx: real, dy: real, rect: Rectangle) { Blind(f * dx, f * dy, rect) }

  /** Part f of the stretched displacement is blind when f t stays below the bound. */
  lemma StretchedBlind(dx: real, dy: real, t: real, f: real, rect: Rectangle)
    requires rect.width > 0.0 && rect.height > 0.0 && dx * rect.height == t && dy * rect.width == t
    requires t > 0.0 && f > 0.0 && f * t < EPSILON
    ensures dx > 0.0 && dy > 0.0 && BlindPart(f, dx, dy, rect)
  {
    PositiveFactor(dx, rect.height, t);
    PositiveFactor(dy, rect.width, t);
    var x, y := f * dx, f * dy;
    ProductPos(f, dx, x);
    ProductPos(f, dy, y);
    assert x * rect.height == f * t && y * rect.width == f * t;
  }

  lemma PositiveFactor(x: real, k: real, t: real)
    requires k > 0.0 && t > 0.0 && x * k == t
    ensures x > 0.0
  {
    if x <= 0.0 {
      MulNonNeg(-x, k);
    }
  }

  /** Once outside again, a straight motion stays outside. */
  lemma StaysOutside(a: Point, b: Point, rect: Rectangle, t: real, f: real, r: real)
    requires t <= f <= r && PointInRectangle(At(a, b, t), rect) && !PointInRectangle(At(a, b, f), rect)
    ensures !PointInRectangle(At(a, b, r), rect)
  {
    hide At, PointInRectangle;
    if PointInRectangle(At(a, b, r), rect) {
      if t < r {
        var u := MoveTo(t, r, f);
        AtMove(a, b, t, r, u);
        BetweenStaysIn(At(a, b, t), At(a, b, r), u, rect);
      }
      assert false;
    }
  }

  /** The displacement of each of n equal pieces. */
  lemma PieceDisplacement(a: Point, b: Point, n: nat, j: nat)
    requires n >= 1
    ensures var p, q, f := At(a, b, Fraction(j, n)), At(a, b, Fraction(j + 1, n)), Fraction(1, n);
            q.x - p.x == f * (b.x - a.x) && q.y - p.y == f * (b.y - a.y)
  {
    NextFraction(j, n);
    assert Fraction(1, n) == 1.0 / n as real;
    var g, g', f := Fraction(j, n), Fraction(j + 1, n), Fraction(1, n);
    Difference(g, g', f, b.x - a.x);
    Difference(g, g', f, b.y - a.y);
  }

  lemma Difference(g: real, g': real, f: real, d: real)
    requires g' - g == f
    ensures g' * d - g * d == f * d
  {
  }

  /** No piece of the cut is found when its pieces are blind and the motion only dips in on the first. */
  lemma PartsMissed(a: Point, b: Point, n: nat, rect: Rectangle, t: real)
    requires rect.width >= 0.0 && rect.height >= 0.0 && n >= 1
    requires BlindPart(Fraction(1, n), b.x - a.x, b.y - a.y, rect)
    requires !PointInRectangle(a, rect) && !PointInRectangle(At(a, b, Fraction(1, n)), rect)
    requires 0.0 <= t <= Fraction(1, n) && PointInRectangle(At(a, b, t), rect)
    ensures forall j: nat :: j < n ==> !PartFound(a, b, n, rect, j)
  {
    hide At, PointInRectangle, BlindPart, EdgeHit, Fraction;
    forall j: nat | j < n ensures !PartFound(a, b, n, rect, j) {
      PieceUnseen(a, b, n, rect, j);
      CutPointOutside(a, b, n, rect, t, j);
      CutPointOutside(a, b, n, rect, t, j + 1);
    }
  }

  lemma PieceUnseen(a: Point, b: Point, n: nat, rect: Rectangle, j: nat)
    requires rect.width >= 0.0 && rect.height >= 0.0 && n >= 1 && BlindPart(Fraction(1, n), b.x - a.x, b.y - a.y, rect)
    ensures !EdgeHit(At(a, b, Fraction(j, n)), At(a, b, Fraction(j + 1, n)), rect)
  {
    hide At, EdgeHit, Fraction;
    PieceDisplacement(a, b, n, j);
    BlindEdgeUnseen(At(a, b, Fraction(j, n)), At(a, b, Fraction(j + 1, n)), rect);
  }

  lemma CutPointOutside(a: Point, b: Point, n: nat, rect: Rectangle, t: real, j: nat)
    requires n >= 1 && !PointInRectangle(a, rect) && !PointInRectangle(At(a, b, Fraction(1, n)), rect)
    requires 0.0 <= t <= Fraction(1, n) && PointInRectangle(At(a, b, t), rect)
    ensures !PointInRectangle(At(a, b, Fraction(j, n)), rect)
  {
    hide At, PointInRectangle;
    if j == 0 {
      StartOfCut(a, b, n);
    } else {
      LaterFraction(j, n);
      StaysOutside(a, b, rect, t, Fraction(1, n), Fraction(j, n));
    }
  }

  lemma {:induction false} LaterFraction(j: nat, n: nat)
    requires j >= 1 && n >= 1
    ensures Fraction(1, n) <= Fraction(j, n)
  {
    if j > 1 {
      LaterFraction(j - 1, n);
      NextFraction(j - 1, n);
    }
  }

  /** A segment found as a whole and missed once it is sampled. */
  lemma SampledSegmentMissed(m: real, rect: Rectangle) returns (points: Path)
    requires rect.width > 0.0 && rect.height > 0.0 && m > 0.0 && !WideEnough(m, rect)
    ensures RectangleDetected(points, rect) && !RectangleDetected(Sampled(points, m), rect)
  {
    var dx, dy, n := ManyPieces(m, rect);
    points := DippingSegment(dx, dy, n, rect);
    var a, b := points[0], points[1];
    SamePieceCount(Point(0.0, 0.0), Point(dx, dy), a, b, m);
    assert points[..1] == [a] && points == [a, b];
    assert Sampled(points[..1], m) == [a];
    assert Sampled(points, m) == [a] + Cut(a, b, n);
    DetectedAfterCut([a], b, n, rect);
  }

  lemma SamePieceCount(p: Point, q: Point, a: Point, b: Point, m: real)
    requires m != 0.0 && q.x - p.x == b.x - a.x && q.y - p.y == b.y - a.y
    ensures PieceCount(p, q, m) == PieceCount(a, b, m)
  {
  }

  /** A displacement stretched to less than two bounds of the edge tests, yet longer than the maximum. */
  lemma StretchedDisplacement(m: real, rect: Rectangle) returns (dx: real, dy: real, t: real)
    requires rect.width > 0.0 && rect.height > 0.0 && m > 0.0 && !WideEnough(m, rect)
    ensures dx * rect.height == t && dy * rect.width == t && EPSILON <= t < 2.0 * EPSILON
    ensures dx * dx + dy * dy > m * m
  {
    var w, h := rect.width, rect.height;
    t := StretchedTo(m, w, h, EPSILON);
    dx := Divide(t, h);
    dy := Divide(t, w);
    StretchedLonger(dx, dy, t, m, rect);
  }

  lemma StretchedTo(m: real, w: real, h: real, e: real) returns (t: real)
    requires w > 0.0 && h > 0.0 && m > 0.0 && e > 0.0
    requires m * m * (w * w * (h * h)) < 4.0 * (e * e) * (w * w + h * h)
    ensures e <= t < 2.0 * e && t * t * (w * w + h * h) > m * m * (w * w * (h * h))
  {
    var ww, hh, mm := w * w, h * h, m * m;
    var p := ww * hh;
    ProductPos(w, w, ww);
    ProductPos(h, h, hh);
    ProductPos(m, m, mm);
    ProductPos(ww, hh, p);
    ProductPos(mm, p, mm * p);
    t := NearlyTwice(e, ww + hh, mm * p);
  }

  /** A displacement that is not blind, cut into pieces that are. */
  lemma ManyPieces(m: real, rect: Rectangle) returns (dx: real, dy: real, n: nat)
    requires rect.width > 0.0 && rect.height > 0.0 && m > 0.0 && !WideEnough(m, rect)
    ensures n >= 2 && PieceCount(Point(0.0, 0.0), Point(dx, dy), m) == n
    ensures !Blind(dx, dy, rect) && BlindPart(Fraction(1, n), dx, dy, rect)
  {
    hide PieceCount, Blind, BlindPart, Dist2, Fraction, WideEnough;
    var t;
    dx, dy, t := StretchedDisplacement(m, rect);
    n := SeveralPieces(dx, dy, m);
    var f := HalfAtMost(n);
    SmallPart(t, f, EPSILON);
    StretchedBlind(dx, dy, t, f, rect);
    StretchedSeen(dx, dy, t, rect);
  }

  lemma SmallPart(t: real, f: real, e: real)
    requires 0.0 < t < 2.0 * e && 0.0 < f <= 0.5
    ensures f * t < e
  {
    MulMono(t, f, 0.5);
  }

  lemma HalfAtMost(n: nat) returns (f: real)
    requires n >= 2
    ensures f == Fraction(1, n) && 0.0 < f <= 0.5
  {
    f := Fraction(1, n);
    var k := n as real;
    Quotient(1.0, k);
    assert f * k == 1.0;
    PositiveFactor(f, k, 1.0);
    if f > 0.5 {
      MulPos(f - 0.5, k);
    }
  }

  lemma SeveralPieces(dx: real, dy: real, m: real) returns (n: nat)
    requires m > 0.0 && dx * dx + dy * dy > m * m
    ensures n >= 2 && n == PieceCount(Point(0.0, 0.0), Point(dx, dy), m)
  {
    hide Dist2;
    var a, b := Point(0.0, 0.0), Point(dx, dy);
    DisplacementLength(a, b);
    n := PieceCount(a, b, m);
    var d2 := Dist2(a, b);
    assert d2 == dx * dx + dy * dy;
    ReachesMeans(1, 1.0, d2, m, m * m);
    ReachesMeans(0, 0.0, d2, m, m * m);
    SquareNonNeg(m);
    assert CeilRatio(d2, m) >= 2;
  }

  lemma StretchedSeen(dx: real, dy: real, t: real, rect: Rectangle)
    requires dx * rect.height == t >= EPSILON && dx > 0.0
    ensures !Blind(dx, dy, rect)
  {
  }

  /** A placement of the displacement whose first piece passes the rectangle with both ends outside. */
  lemma DippingSegment(dx: real, dy: real, n: nat, rect: Rectangle) returns (points: Path)
    requires rect.width > 0.0 && rect.height > 0.0 && n >= 2
    requires !Blind(dx, dy, rect) && BlindPart(Fraction(1, n), dx, dy, rect)
    ensures |points| == 2 && points[1].x - points[0].x == dx && points[1].y - points[0].y == dy
    ensures RectangleDetected(points, rect)
    ensures forall j: nat :: j < n ==> !PartFound(points[0], points[1], n, rect, j)
  {
    hide At, PointInRectangle, Blind, BlindPart, EdgeHit, Fraction, PartFound;
    var f := HalfAtMost(n);
    var a, b, t := FirstDip(dx, dy, f, rect);
    points := [a, b];
    PartsMissed(a, b, n, rect, t);
    WholeFraction(n);
    EndsOfSegment(a, b);
    CutPointOutside(a, b, n, rect, t, n);
    OutsidePieceDecided(a, b, rect, t);
    assert PieceHit(points, rect, 0);
  }

  lemma OnOnlyPiece(a: Point, b: Point, p: Point)
    requires OnPath([a, b], p)
    ensures OnSegment(p, a, b)
  {
  }

  /** Where the first piece is inside, as a parameter of the whole segment. */
  lemma FirstDip(dx: real, dy: real, f: real, rect: Rectangle) returns (a: Point, b: Point, t: real)
    requires rect.width >= 0.0 && rect.height >= 0.0 && 0.0 < f <= 0.5 && BlindPart(f, dx, dy, rect)
    ensures b == Point(a.x + dx, a.y + dy)
    ensures Unit(t) && t <= f && PointInRectangle(At(a, b, t), rect)
    ensures !PointInRectangle(a, rect) && !PointInRectangle(At(a, b, f), rect)
  {
    hide PointInRectangle, EdgeHit, Blind, At, OnSegment;
    a := BlindPieceMissed(f * dx, f * dy, rect);
    b := Point(a.x + dx, a.y + dy);
    var q := Point(a.x + f * dx, a.y + f * dy);
    PartOfWay(a, dx, dy, f);
    var path := [a, q];
    assert path[0] == a && path[1] == q;
    var p :| OnPath(path, p) && PointInRectangle(p, rect);
    OnOnlyPiece(a, q, p);
    t := DipParameter(a, b, q, f, p);
    assert !VertexIn(path, rect);
  }

  lemma PartOfWay(a: Point, dx: real, dy: real, f: real)
    ensures At(a, Point(a.x + dx, a.y + dy), f) == Point(a.x + f * dx, a.y + f * dy)
  {
    SameFactor(f, dx, a.x + dx - a.x);
    SameFactor(f, dy, a.y + dy - a.y);
  }

  lemma SameFactor(f: real, d: real, d': real)
    requires d == d'
    ensures f * d == f * d'
  {
  }

  lemma DipParameter(a: Point, b: Point, q: Point, f: real, p: Point) returns (t: real)
    requires 0.0 < f <= 0.5 && q == At(a, b, f) && OnSegment(p, a, q)
    ensures Unit(t) && t <= f && p == At(a, b, t)
  {
    hide At, Move;
    var u :| Unit(u) && p == At(a, q, u);
    EndsOfSegment(a, b);
    AtMove(a, b, 0.0, f, u);
    t := Move(0.0, f, u);
    MoveInside(0.0, f, u);
  }

  /** A displacement along the side that is not empty, longer than the maximum and than both sides. */
  lemma AlongEmptySide(m: real, rect: Rectangle) returns (dx: real, dy: real)
    requires rect.width >= 0.0 && rect.height >= 0.0 && m > 0.0 && (rect.width == 0.0 || rect.height == 0.0)
    ensures dx >= 0.0 && dy >= 0.0 && Blind(dx, dy, rect)
    ensures (dx == 0.0 && dy > 2.0 * rect.height) || (dy == 0.0 && dx > 2.0 * rect.width)
    ensures dx * dx + dy * dy > m * m
  {
    var d := m + 2.0 * (rect.width + rect.height);
    d := d + 1.0;
    LongerSquare(m, d);
    if rect.width == 0.0 {
      dx, dy := 0.0, d;
    } else {
      dx, dy := d, 0.0;
    }
  }

  lemma LongerSquare(m: real, d: real)
    requires 0.0 < m < d
    ensures d * d > m * m
  {
    MulPos(d - m, d + m);
    assert (d - m) * (d + m) == d * d - m * m;
  }

  /** A first piece that ends at the corner of the rectangle, the start and the end of the segment outside. */
  lemma EndsAround(a: Point, b: Point, f: real, dx: real, dy: real, fx: real, fy: real, rect: Rectangle)
    requires 0.0 < f <= 0.5 && dx >= 0.0 && dy >= 0.0 && fx == f * dx && fy == f * dy
    requires rect.width >= 0.0 && rect.height >= 0.0
    requires (dx == 0.0 && dy > 2.0 * rect.height) || (dy == 0.0 && dx > 2.0 * rect.width)
    requires a == Point(rect.x - fx, rect.y - fy) && b == Point(a.x + dx, a.y + dy)
    ensures !PointInRectangle(a, rect) && !PointInRectangle(b, rect)
  {
    AtMostHalf(f, dx, fx);
    AtMostHalf(f, dy, fy);
  }

  lemma AtMostHalf(f: real, d: real, p: real)
    requires 0.0 < f <= 0.5 && d >= 0.0 && p == f * d
    ensures 0.0 <= p <= d / 2.0 && (d > 0.0 ==> p > 0.0)
  {
    MulNonNeg(f, d);
    MulNonNeg(0.5 - f, d);
    if d > 0.0 {
      MulPos(f, d);
    }
  }

  /** With an empty side no positive maximum is harmless: a sample may fall on what the segment itself misses. */
  lemma EmptySideMisleads(m: real, rect: Rectangle) returns (points: Path)
    requires rect.width >= 0.0 && rect.height >= 0.0 && m > 0.0 && (rect.width == 0.0 || rect.height == 0.0)
    ensures !RectangleDetected(points, rect) && RectangleDetected(Sampled(points, m), rect)
  {
    hide At, Blind, EdgeHit, PointInRectangle, Fraction, PieceCount;
    var dx, dy := AlongEmptySide(m, rect);
    var n := SeveralPieces(dx, dy, m);
    var f := HalfAtMost(n);
    var fx, fy := f * dx, f * dy;
    var a := Point(rect.x - fx, rect.y - fy);
    var b := Point(a.x + dx, a.y + dy);
    points := [a, b];
    EndsAround(a, b, f, dx, dy, fx, fy, rect);
    BlindEdgeUnseen(a, b, rect);
    assert !RectangleDetected(points, rect) by {
      assert points[0] == a && points[1] == b;
    }
    SamePieceCount(Point(0.0, 0.0), Point(dx, dy), a, b, m);
    assert points[..1] == [a];
    assert Sampled(points, m) == [a] + Cut(a, b, n);
    PartOfWay(a, dx, dy, f);
    assert Sampled(points, m)[1] == Point(rect.x, rect.y);
    CornerInside(rect);
  }

  lemma CornerInside(rect: Rectangle)
    requires rect.width >= 0.0 && rect.height >= 0.0
    ensures PointInRectangle(Point(rect.x, rect.y), rect)
  {
  }

  /** Resampling never changes an answer for the rectangle precisely when the maximum is harmless. */
  lemma SamplingExactMaxima(m: real, rect: Rectangle)
    requires rect.width >= 0.0 && rect.height >= 0.0 && m != 0.0
    ensures (forall points: Path ::
               RectangleDetected(Sampled(points, m), rect) <==> RectangleDetected(points, rect)) <==>
            Harmless(m, rect)
  {
    hide RectangleDetected, Sampled, WideEnough;
    if Harmless(m, rect) {
      forall points: Path ensures RectangleDetected(Sampled(points, m), rect) <==> RectangleDetected(points, rect) {
        SamplingKeepsRectangle(points, m, rect);
      }
    } else if rect.width == 0.0 || rect.height == 0.0 {
      var points := EmptySideMisleads(m, rect);
    } else {
      var points := SampledSegmentMissed(m, rect);
    }
  }
}
