/** Path against path within a threshold, and which thresholds make the test exact. */
module Paths {
  import opened Segments
  import opened Proximity
  import opened ShortArm

  type Path = seq<Point>

  /** The point lies on one of the straight pieces of the path. */
  ghost predicate OnPath(path: Path, p: Point) {
    exists i :: 0 <= i < |path| - 1 && OnSegment(p, path[i], path[i + 1])
  }

  /** Some point of one path is within the threshold of some point of the other. */
  ghost predicate PathsNear(path1: Path, path2: Path, threshold: real) {
    threshold >= 0.0 &&
    exists p, q :: OnPath(path1, p) && OnPath(path2, q) && Dist2(p, q) <= threshold * threshold
  }

  // ---------------------------------------------------------------- the code

  predicate Crosses(path1: Path, path2: Path, i: int, j: int)
    requires 0 <= i < |path1| - 1 && 0 <= j < |path2| - 1
  {
    LineSegmentsIntersect(path1[i], path1[i + 1], path2[j], path2[j + 1])
  }

  /** One of the four end-to-segment distances is at most the positive threshold. */
  predicate EndsClose(path1: Path, path2: Path, threshold: real, i: int, j: int)
    requires 0 <= i < |path1| - 1 && 0 <= j < |path2| - 1
  {
    var a, b, c, d := path1[i], path1[i + 1], path2[j], path2[j + 1];
    Min(Min(Dist2(a, ClosestPointOnSegment(a, c, d)), Dist2(b, ClosestPointOnSegment(b, c, d))),
        Min(Dist2(c, ClosestPointOnSegment(c, a, b)),
          Dist2(d, ClosestPointOnSegment(d, a, b)))) <= threshold * threshold
  }

  predicate SomeCross(path1: Path, path2: Path) {
    exists i, j :: 0 <= i < |path1| - 1 && 0 <= j < |path2| - 1 && Crosses(path1, path2, i, j)
  }

  predicate SomeClose(path1: Path, path2: Path, threshold: real) {
    exists i, j :: 0 <= i < |path1| - 1 && 0 <= j < |path2| - 1 && EndsClose(path1, path2, threshold, i, j)
  }

  /** What the nested loops decide. */
  predicate Detected(path1: Path, path2: Path, threshold: real) {
    SomeCross(path1, path2) || (threshold > 0.0 && SomeClose(path1, path2, threshold))
  }

  /** The largest double gap a crossing that the parallel test hides can leave at the ends is 0.00001. */
  const EXACT_FROM := 0.000005

  method PathsIntersect(path1: Path, path2: Path, threshold: real) returns (r: bool)
    ensures r <==> Detected(path1, path2, threshold)
    ensures threshold >= EXACT_FROM ==> (r <==> PathsNear(path1, path2, threshold))
  {
    if threshold >= EXACT_FROM {
      DetectionExact(path1, path2, threshold);
    }
    if |path1| < 2 || |path2| < 2 {
      return false;
    }
    for i := 0 to |path1| - 1
      invariant forall i', j' :: 0 <= i' < i && 0 <= j' < |path2| - 1 ==> !Crosses(path1, path2, i', j')
    {
      for j := 0 to |path2| - 1
        invariant forall j' :: 0 <= j' < j ==> !Crosses(path1, path2, i, j')
      {
        if Crosses(path1, path2, i, j) {
          return true;
        }
      }
    }
    if threshold > 0.0 {
      for i := 0 to |path1| - 1
        invariant forall i', j' :: 0 <= i' < i && 0 <= j' < |path2| - 1 ==> !EndsClose(path1, path2, threshold, i', j')
      {
        for j := 0 to |path2| - 1
          invariant forall j' :: 0 <= j' < j ==> !EndsClose(path1, path2, threshold, i, j')
        {
          if EndsClose(path1, path2, threshold, i, j) {
            return true;
          }
        }
      }
    }
    return false;
  }

  // ---------------------------------------------------------------- one pair of pieces

  lemma EndsCloseMeaning(path1: Path, path2: Path, threshold: real, i: int, j: int)
    requires 0 <= i < |path1| - 1 && 0 <= j < |path2| - 1
    ensures EndsClose(path1, path2, threshold, i, j) <==>
            EndWithin(path1[i], path1[i + 1], path2[j], path2[j + 1], threshold * threshold)
  {
    var a, b, c, d := path1[i], path1[i + 1], path2[j], path2[j + 1];
    ClosestPointDecides(a, c, d, threshold * threshold);
    ClosestPointDecides(b, c, d, threshold * threshold);
    ClosestPointDecides(c, a, b, threshold * threshold);
    ClosestPointDecides(d, a, b, threshold * threshold);
  }

  /** A piece of each path, some points of which are within reach. */
  ghost predicate NearPair(path1: Path, path2: Path, threshold: real, i: int, j: int)
    requires 0 <= i < |path1| - 1 && 0 <= j < |path2| - 1
  {
    Near(path1[i], path1[i + 1], path2[j], path2[j + 1], threshold * threshold)
  }

  lemma PathsNearByPieces(path1: Path, path2: Path, threshold: real)
    requires threshold >= 0.0
    ensures PathsNear(path1, path2, threshold) <==>
            exists i, j :: 0 <= i < |path1| - 1 && 0 <= j < |path2| - 1 && NearPair(path1, path2, threshold, i, j)
  {
    var r2 := threshold * threshold;
    if PathsNear(path1, path2, threshold) {
      var p, q :| OnPath(path1, p) && OnPath(path2, q) && Dist2(p, q) <= r2;
      var i :| 0 <= i < |path1| - 1 && OnSegment(p, path1[i], path1[i + 1]);
      var j :| 0 <= j < |path2| - 1 && OnSegment(q, path2[j], path2[j + 1]);
      assert NearPair(path1, path2, threshold, i, j);
    }
    if i, j :| 0 <= i < |path1| - 1 && 0 <= j < |path2| - 1 && NearPair(path1, path2, threshold, i, j) {
      var t, u :| Unit(t) && Unit(u) && Dist2(At(path1[i], path1[i + 1], t), At(path2[j], path2[j + 1], u)) <= r2;
      var p, q := At(path1[i], path1[i + 1], t), At(path2[j], path2[j + 1], u);
      assert OnSegment(p, path1[i], path1[i + 1]) && OnSegment(q, path2[j], path2[j + 1]);
      assert OnPath(path1, p) && OnPath(path2, q);
    }
  }

  // ---------------------------------------------------------------- exactness

  /** Two straight pieces whose directions differ, but by less than the parallel test notices. */
  predicate AlmostParallel(path1: Path, path2: Path, i: int, j: int)
    requires 0 <= i < |path1| - 1 && 0 <= j < |path2| - 1
  {
    var den := Denominator(path1[i], path1[i + 1], path2[j], path2[j + 1]);
    den != 0.0 && Abs(den) < EPSILON
  }

  /** A positive result is always right: no pair of points is invented. */
  lemma DetectionSound(path1: Path, path2: Path, threshold: real)
    requires threshold >= 0.0 && Detected(path1, path2, threshold)
    ensures PathsNear(path1, path2, threshold)
  {
    var r2 := threshold * threshold;
    PathsNearByPieces(path1, path2, threshold);
    if SomeCross(path1, path2) {
      var i, j :| 0 <= i < |path1| - 1 && 0 <= j < |path2| - 1 && Crosses(path1, path2, i, j);
      CrossingTestDecides(path1[i], path1[i + 1], path2[j], path2[j + 1]);
      NearDecided(path1[i], path1[i + 1], path2[j], path2[j + 1], r2);
      assert NearPair(path1, path2, threshold, i, j);
    } else {
      var i, j :| 0 <= i < |path1| - 1 && 0 <= j < |path2| - 1 && EndsClose(path1, path2, threshold, i, j);
      EndsCloseMeaning(path1, path2, threshold, i, j);
      NearDecided(path1[i], path1[i + 1], path2[j], path2[j + 1], r2);
      assert NearPair(path1, path2, threshold, i, j);
    }
  }

  /** A near pair goes unnoticed only if the parallel test hides its crossing and the threshold is tiny. */
  lemma NearPairDetected(path1: Path, path2: Path, threshold: real, i: int, j: int)
    requires threshold > 0.0 && 0 <= i < |path1| - 1 && 0 <= j < |path2| - 1
    requires NearPair(path1, path2, threshold, i, j)
    requires threshold >= EXACT_FROM || !AlmostParallel(path1, path2, i, j)
    ensures Crosses(path1, path2, i, j) || EndsClose(path1, path2, threshold, i, j)
  {
    var a, b, c, d := path1[i], path1[i + 1], path2[j], path2[j + 1];
    var r2 := threshold * threshold;
    NearDecided(a, b, c, d, r2);
    CrossingTestDecides(a, b, c, d);
    EndsCloseMeaning(path1, path2, threshold, i, j);
    if AlmostParallel(path1, path2, i, j) && Meet(a, b, c, d) {
      CrossingHasNearEnd(a, b, c, d);
      MulMono(threshold, EXACT_FROM, threshold);
      MulMono(EXACT_FROM, EXACT_FROM, threshold);
      EndWithinGrows(a, b, c, d, Abs(Denominator(a, b, c, d)) / 4.0, r2);
    }
  }

  /** Whenever the threshold is at least EXACT_FROM, or no two pieces are almost parallel, the loops decide
      exactly whether the two paths come within the threshold of each other. */
  lemma DetectionExact(path1: Path, path2: Path, threshold: real)
    requires threshold > 0.0
    requires threshold >= EXACT_FROM ||
             forall i, j :: 0 <= i < |path1| - 1 && 0 <= j < |path2| - 1 ==> !AlmostParallel(path1, path2, i, j)
    ensures Detected(path1, path2, threshold) <==> PathsNear(path1, path2, threshold)
  {
    if Detected(path1, path2, threshold) {
      DetectionSound(path1, path2, threshold);
    }
    if PathsNear(path1, path2, threshold) {
      PathsNearByPieces(path1, path2, threshold);
      var i, j :| 0 <= i < |path1| - 1 && 0 <= j < |path2| - 1 && NearPair(path1, path2, threshold, i, j);
      NearPairDetected(path1, path2, threshold, i, j);
    }
  }

  /** Every coordinate is a whole number. */
  predicate Whole(path: Path) {
    forall i :: 0 <= i < |path| ==> path[i].x == path[i].x.Floor as real && path[i].y == path[i].y.Floor as real
  }

  lemma WholeDenominator(a: Point, b: Point, c: Point, d: Point)
    requires Whole([a, b, c, d])
    ensures Denominator(a, b, c, d) == 0.0 || Abs(Denominator(a, b, c, d)) >= 1.0
  {
    var w := [a, b, c, d];
    assert a == w[0] && b == w[1] && c == w[2] && d == w[3];
    var n := (a.x.Floor - b.x.Floor) * (c.y.Floor - d.y.Floor) - (a.y.Floor - b.y.Floor) * (c.x.Floor - d.x.Floor);
    WholeProduct(a.x.Floor - b.x.Floor, c.y.Floor - d.y.Floor);
    WholeProduct(a.y.Floor - b.y.Floor, c.x.Floor - d.x.Floor);
    assert Denominator(a, b, c, d) == n as real;
  }

  lemma WholeProduct(m: int, n: int)
    ensures (m as real) * (n as real) == (m * n) as real
  {
  }

  /** On whole-number coordinates every positive threshold is exact. */
  lemma WholePathsExact(path1: Path, path2: Path, threshold: real)
    requires threshold > 0.0 && Whole(path1) && Whole(path2)
    ensures Detected(path1, path2, threshold) <==> PathsNear(path1, path2, threshold)
  {
    forall i, j | 0 <= i < |path1| - 1 && 0 <= j < |path2| - 1 ensures !AlmostParallel(path1, path2, i, j) {
      WholeDenominator(path1[i], path1[i + 1], path2[j], path2[j + 1]);
    }
    DetectionExact(path1, path2, threshold);
  }

  // ---------------------------------------------------------------- which thresholds are exact

  /** A plus sign whose four arms have length l. */
  function Bar(l: real): Path { [Point(-l, 0.0), Point(l, 0.0)] }

  function Post(l: real): Path { [Point(0.0, -l), Point(0.0, l)] }

  lemma PlusCrosses(l: real)
    requires l > 0.0
    ensures Denominator(Bar(l)[0], Bar(l)[1], Post(l)[0], Post(l)[1]) == 4.0 * (l * l)
    ensures Meet(Bar(l)[0], Bar(l)[1], Post(l)[0], Post(l)[1])
    ensures OnPath(Bar(l), Point(0.0, 0.0)) && OnPath(Post(l), Point(0.0, 0.0))
  {
    var o := Point(0.0, 0.0);
    assert At(Bar(l)[0], Bar(l)[1], 0.5) == o && At(Post(l)[0], Post(l)[1], 0.5) == o;
    assert OnSegment(o, Bar(l)[0], Bar(l)[0 + 1]) && OnSegment(o, Post(l)[0], Post(l)[0 + 1]);
  }

  lemma SquareSum(p: Point, q: Point)
    ensures p.x == 0.0 && q.y == 0.0 ==> Dist2(p, q) == q.x * q.x + p.y * p.y
    ensures p.y == 0.0 && q.x == 0.0 ==> Dist2(p, q) == p.x * p.x + q.y * q.y
  {
    assert (0.0 - p.x) * (0.0 - p.x) == p.x * p.x && (0.0 - p.y) * (0.0 - p.y) == p.y * p.y;
  }

  lemma OnAxes(l: real, t: real)
    ensures At(Bar(l)[0], Bar(l)[1], t).y == 0.0 && At(Post(l)[0], Post(l)[1], t).x == 0.0
  {
  }

  lemma PlusEndsFar(l: real, r2: real)
    requires r2 < l * l
    ensures !EndWithin(Bar(l)[0], Bar(l)[1], Post(l)[0], Post(l)[1], r2)
  {
    forall t
      ensures Dist2(Bar(l)[0], At(Post(l)[0], Post(l)[1], t)) > r2 &&
              Dist2(Bar(l)[1], At(Post(l)[0], Post(l)[1], t)) > r2
      ensures Dist2(Post(l)[0], At(Bar(l)[0], Bar(l)[1], t)) > r2 && Dist2(Post(l)[1], At(Bar(l)[0], Bar(l)[1], t)) > r2
    {
      var p, q := At(Bar(l)[0], Bar(l)[1], t), At(Post(l)[0], Post(l)[1], t);
      OnAxes(l, t);
      FarOnAxes(l, p, q);
    }
  }

  lemma FarOnAxes(l: real, p: Point, q: Point)
    requires p.y == 0.0 && q.x == 0.0
    ensures Dist2(Bar(l)[0], q) >= l * l && Dist2(Bar(l)[1], q) >= l * l
    ensures Dist2(Post(l)[0], p) >= l * l && Dist2(Post(l)[1], p) >= l * l
  {
    SquareSum(Bar(l)[0], q);
    SquareSum(Bar(l)[1], q);
    SquareSum(Post(l)[0], p);
    SquareSum(Post(l)[1], p);
    assert (-l) * (-l) == l * l;
    assert q.y * q.y >= 0.0 && p.x * p.x >= 0.0;
  }

  lemma StrictSquares(x: real, y: real)
    requires 0.0 <= x < y
    ensures x * x < y * y
  {
    MulPos(y - x, y + x);
    assert (y - x) * (y + x) == y * y - x * x;
  }

  lemma PlusNear(l: real, threshold: real)
    requires l > 0.0 && threshold >= 0.0
    ensures PathsNear(Bar(l), Post(l), threshold)
  {
    var o := Point(0.0, 0.0);
    PlusCrosses(l);
    assert Dist2(o, o) == 0.0;
    MulNonNeg(threshold, threshold);
  }

  /** Below the bound a small plus sign crosses unnoticed. */
  lemma TinyPlusMissed(threshold: real) returns (l: real)
    requires 0.0 < threshold < EXACT_FROM
    ensures !Detected(Bar(l), Post(l), threshold) && PathsNear(Bar(l), Post(l), threshold)
  {
    l := (threshold + EXACT_FROM) / 2.0;
    PlusNear(l, threshold);
    StrictSquares(l, EXACT_FROM);
    StrictSquares(threshold, l);
    TinyPlusUnseen(l, threshold);
  }

  lemma TinyPlusUnseen(l: real, threshold: real)
    requires l > 0.0 && 4.0 * (l * l) < EPSILON && threshold * threshold < l * l
    ensures !Detected(Bar(l), Post(l), threshold)
  {
    PlusCrosses(l);
    CrossingTestDecides(Bar(l)[0], Bar(l)[1], Post(l)[0], Post(l)[1]);
    assert !Crosses(Bar(l), Post(l), 0, 0);
    PlusEndsFar(l, threshold * threshold);
    EndsCloseMeaning(Bar(l), Post(l), threshold, 0, 0);
  }

  lemma SelfParallel(a: Point, b: Point)
    ensures !LineSegmentsIntersect(a, b, a, b)
  {
    assert Denominator(a, b, a, b) == 0.0;
  }

  /** At threshold 0 overlapping collinear pieces go unnoticed. */
  lemma OverlapMissed()
    ensures !Detected(Bar(1.0), Bar(1.0), 0.0) && PathsNear(Bar(1.0), Bar(1.0), 0.0)
  {
    var o := Point(0.0, 0.0);
    assert PathsNear(Bar(1.0), Bar(1.0), 0.0) by {
      PlusCrosses(1.0);
      assert Dist2(o, o) == 0.0;
    }
    SelfParallel(Bar(1.0)[0], Bar(1.0)[1]);
    assert !Crosses(Bar(1.0), Bar(1.0), 0, 0);
  }

  /** A negative threshold, within which nothing is, does not stop crossings from being reported. */
  lemma NegativeThresholdCrossing(threshold: real)
    requires threshold < 0.0
    ensures Detected(Bar(1.0), Post(1.0), threshold) && !PathsNear(Bar(1.0), Post(1.0), threshold)
  {
    PlusCrosses(1.0);
    CrossingTestDecides(Bar(1.0)[0], Bar(1.0)[1], Post(1.0)[0], Post(1.0)[1]);
    assert Crosses(Bar(1.0), Post(1.0), 0, 0);
  }

  /** The test answers correctly for every two paths with real coordinates precisely when the threshold
      is at least 0.000005; the default threshold 1 is far above it. */
  lemma ExactThresholds(threshold: real)
    ensures (forall path1: Path, path2: Path ::
               Detected(path1, path2, threshold) <==> PathsNear(path1, path2, threshold)) <==>
            threshold >= EXACT_FROM
  {
    if threshold >= EXACT_FROM {
      forall path1: Path, path2: Path
        ensures Detected(path1, path2, threshold) <==> PathsNear(path1, path2, threshold)
      {
        DetectionExact(path1, path2, threshold);
      }
    } else if threshold > 0.0 {
      var l := TinyPlusMissed(threshold);
    } else if threshold == 0.0 {
      OverlapMissed();
    } else {
      NegativeThresholdCrossing(threshold);
    }
  }
}
