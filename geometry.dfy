/**
 * The segment-intersection predicate used by the random graph builder to reject
 * an edge that would cross an edge already in the graph.
 *
 * `Intersects` is the predicate as the program computes it: it never divides the
 * two numerators by the denominator, so the "intersection point" it tests against
 * the bounding boxes is the raw pair of numerators.  `IntersectsIntended` is the
 * evidently intended predicate (numerators divided by the denominator, over the
 * reals), proved to hold exactly when two non-parallel segments share a point.
 *
 * Coordinates are mathematical integers: the 32-bit products of the first
 * denominator term are not modelled.
 */
module Geometry {

  function Min(a: int, b: int): int { if a < b then a else b }
  function Max(a: int, b: int): int { if a < b then b else a }

  /** `v` lies in the closed range spanned by `a` and `b`. */
  predicate Between(a: int, b: int, v: int) { Min(a, b) <= v <= Max(a, b) }

  /** The determinant of the two direction vectors; zero when the lines are parallel. */
  function Denominator(x1: int, y1: int, x2: int, y2: int, x3: int, y3: int, x4: int, y4: int): int
  {
    (x1 - x2) * (y3 - y4) - (y1 - y2) * (x3 - x4)
  }

  /** Numerator of the x coordinate of the intersection of the two lines (Cramer's rule). */
  function NumeratorX(x1: int, y1: int, x2: int, y2: int, x3: int, y3: int, x4: int, y4: int): int
  {
    (x1 * y2 - y1 * x2) * (x3 - x4) - (x1 - x2) * (x3 * y4 - y3 * x4)
  }

  /** Numerator of the y coordinate of the intersection of the two lines (Cramer's rule). */
  function NumeratorY(x1: int, y1: int, x2: int, y2: int, x3: int, y3: int, x4: int, y4: int): int
  {
    (x1 * y2 - y1 * x2) * (y3 - y4) - (y1 - y2) * (x3 * y4 - y3 * x4)
  }

  /**
   * The predicate as written: segments (x1,y1)-(x2,y2) and (x3,y3)-(x4,y4).
   * The same denominator is computed twice; the bounding boxes are checked
   * against the undivided numerators.  Parallel segments are never reported,
   * and where the denominator is 1 (so that dividing by it changes nothing) the
   * result agrees with the intended predicate.
   */
  function Intersects(x1: int, y1: int, x2: int, y2: int, x3: int, y3: int, x4: int, y4: int): (r: bool)
    ensures r ==> Denominator(x1, y1, x2, y2, x3, y3, x4, y4) != 0
    ensures Denominator(x1, y1, x2, y2, x3, y3, x4, y4) == 1 ==> (r <==> IntersectsIntended(x1, y1, x2, y2, x3, y3, x4, y4))
  {
    var denominator1 := Denominator(x1, y1, x2, y2, x3, y3, x4, y4);
    var denominator2 := Denominator(x1, y1, x2, y2, x3, y3, x4, y4);
    if denominator1 == 0 || denominator2 == 0 then false
    else
      var intersectX := NumeratorX(x1, y1, x2, y2, x3, y3, x4, y4);
      var intersectY := NumeratorY(x1, y1, x2, y2, x3, y3, x4, y4);
      Between(x1, x2, intersectX) && Between(y1, y2, intersectY)
      && Between(x3, x4, intersectX) && Between(y3, y4, intersectY)
  }

  /** Parallel (or collinear) segments are never reported as intersecting. */
  lemma ParallelNeverIntersects(x1: int, y1: int, x2: int, y2: int, x3: int, y3: int, x4: int, y4: int)
    requires Denominator(x1, y1, x2, y2, x3, y3, x4, y4) == 0
    ensures !Intersects(x1, y1, x2, y2, x3, y3, x4, y4)
  {
  }

  /** A zero-length segment on either side makes the denominator zero, so no intersection is reported. */
  lemma DegenerateSegmentNeverIntersects(x1: int, y1: int, x2: int, y2: int, x3: int, y3: int, x4: int, y4: int)
    requires (x1 == x2 && y1 == y2) || (x3 == x4 && y3 == y4)
    ensures Denominator(x1, y1, x2, y2, x3, y3, x4, y4) == 0
    ensures !Intersects(x1, y1, x2, y2, x3, y3, x4, y4)
  {
  }

  /** When every coordinate is the same point nothing intersects (the builder's situation). */
  lemma CoincidentPointsNeverIntersect(x: int, y: int)
    ensures !Intersects(x, y, x, y, x, y, x, y)
    ensures !IntersectsIntended(x, y, x, y, x, y, x, y)
  {
    DegenerateSegmentNeverIntersects(x, y, x, y, x, y, x, y);
  }

  /**
   * Exchanging the two segments negates the denominator and both numerators, so
   * the as-written predicate (which never divides) tests the mirrored point
   * (-intersectX, -intersectY) when the arguments come in the other order.
   */
  lemma SwapSegmentsNegates(x1: int, y1: int, x2: int, y2: int, x3: int, y3: int, x4: int, y4: int)
    ensures Denominator(x3, y3, x4, y4, x1, y1, x2, y2) == -Denominator(x1, y1, x2, y2, x3, y3, x4, y4)
    ensures NumeratorX(x3, y3, x4, y4, x1, y1, x2, y2) == -NumeratorX(x1, y1, x2, y2, x3, y3, x4, y4)
    ensures NumeratorY(x3, y3, x4, y4, x1, y1, x2, y2) == -NumeratorY(x1, y1, x2, y2, x3, y3, x4, y4)
  {
  }

  /**
   * For every t >= 1 the diagonals (0,0)-(2t,2t) and (0,2t)-(2t,0) of a square cross
   * at (t,t), yet the as-written predicate reports no intersection: it tests the
   * point (-8t^3, -8t^3), the undivided numerators, instead of (t,t).
   */
  lemma CrossingDiagonalsMissed(t: int)
    requires t >= 1
    ensures Denominator(0, 0, 2 * t, 2 * t, 0, 2 * t, 2 * t, 0) == -8 * t * t
    ensures NumeratorX(0, 0, 2 * t, 2 * t, 0, 2 * t, 2 * t, 0) == -8 * t * t * t
    ensures NumeratorY(0, 0, 2 * t, 2 * t, 0, 2 * t, 2 * t, 0) == -8 * t * t * t
    ensures OnSegment(0, 0, 2 * t, 2 * t, t as real, t as real) && OnSegment(0, 2 * t, 2 * t, 0, t as real, t as real)
    ensures !Intersects(0, 0, 2 * t, 2 * t, 0, 2 * t, 2 * t, 0)
    ensures IntersectsIntended(0, 0, 2 * t, 2 * t, 0, 2 * t, 2 * t, 0)
  {
    var s := 2 * t;
    DiagonalsTestUndividedPoint(t);
    assert OnLine(0, 0, s, s, t as real, t as real);
    assert OnLine(0, s, s, 0, t as real, t as real) by {
      assert (t as real - 0.0) * (0 - s) as real == -2.0 * (t as real) * (t as real);
      assert (t as real - s as real) * (s - 0) as real == -2.0 * (t as real) * (t as real);
    }
    IntendedMeansCommonPoint(0, 0, s, s, 0, s, s, 0);
  }

  /** The integer half of CrossingDiagonalsMissed: the denominator, the numerators and the as-written verdict. */
  lemma DiagonalsTestUndividedPoint(t: int)
    requires t >= 1
    ensures Denominator(0, 0, 2 * t, 2 * t, 0, 2 * t, 2 * t, 0) == -8 * t * t
    ensures NumeratorX(0, 0, 2 * t, 2 * t, 0, 2 * t, 2 * t, 0) == -8 * t * t * t
    ensures NumeratorY(0, 0, 2 * t, 2 * t, 0, 2 * t, 2 * t, 0) == -8 * t * t * t
    ensures !Intersects(0, 0, 2 * t, 2 * t, 0, 2 * t, 2 * t, 0)
  {
    var s := 2 * t;
    assert t * t >= 1 && t * t * t >= 1 by { PositiveCube(t); }
    assert Denominator(0, 0, s, s, 0, s, s, 0) == -8 * t * t;
  }

  lemma PositiveCube(t: int)
    requires t >= 1
    ensures t * t >= 1 && t * t * t >= 1
  {
    assert t * t >= t * 1;
    assert t * t * t >= (t * t) * 1;
  }

  // ---------------------------------------------------------------------------
  // The intended predicate, over the reals.

  predicate BetweenReal(a: int, b: int, v: real) { Min(a, b) as real <= v <= Max(a, b) as real }

  /** The point (px,py) lies on the closed segment (x1,y1)-(x2,y2). */
  predicate OnSegment(x1: int, y1: int, x2: int, y2: int, px: real, py: real)
  {
    OnLine(x1, y1, x2, y2, px, py) && BetweenReal(x1, x2, px) && BetweenReal(y1, y2, py)
  }

  /**
   * The intended predicate: non-parallel lines whose intersection point
   * (numerators divided by the denominator) lies in both bounding boxes.
   */
  predicate IntersectsIntended(x1: int, y1: int, x2: int, y2: int, x3: int, y3: int, x4: int, y4: int)
  {
    var d := Denominator(x1, y1, x2, y2, x3, y3, x4, y4);
    d != 0 &&
    var px := NumeratorX(x1, y1, x2, y2, x3, y3, x4, y4) as real / d as real;
    var py := NumeratorY(x1, y1, x2, y2, x3, y3, x4, y4) as real / d as real;
    BetweenReal(x1, x2, px) && BetweenReal(y1, y2, py)
    && BetweenReal(x3, x4, px) && BetweenReal(y3, y4, py)
  }

  /** The point (px,py) lies on the infinite line through (x1,y1) and (x2,y2). */
  predicate OnLine(x1: int, y1: int, x2: int, y2: int, px: real, py: real)
  {
    (px - x1 as real) * (y2 - y1) as real == (py - y1 as real) * (x2 - x1) as real
  }

  /** Cramer's rule, scaled by the denominator: the numerators describe a point of the first line. */
  lemma NumeratorsOnFirstLine(x1: int, y1: int, x2: int, y2: int, x3: int, y3: int, x4: int, y4: int)
    ensures var d := Denominator(x1, y1, x2, y2, x3, y3, x4, y4);
      (NumeratorX(x1, y1, x2, y2, x3, y3, x4, y4) - x1 * d) * (y2 - y1)
      == (NumeratorY(x1, y1, x2, y2, x3, y3, x4, y4) - y1 * d) * (x2 - x1)
  {
  }

  /** Cramer's rule, scaled by the denominator: the numerators describe a point of the second line. */
  lemma NumeratorsOnSecondLine(x1: int, y1: int, x2: int, y2: int, x3: int, y3: int, x4: int, y4: int)
    ensures var d := Denominator(x1, y1, x2, y2, x3, y3, x4, y4);
      (NumeratorX(x1, y1, x2, y2, x3, y3, x4, y4) - x3 * d) * (y4 - y3)
      == (NumeratorY(x1, y1, x2, y2, x3, y3, x4, y4) - y3 * d) * (x4 - x3)
  {
  }

  /** The point whose coordinates are the numerators divided by a non-zero denominator lies on both lines. */
  lemma CramerPointOnBothLines(x1: int, y1: int, x2: int, y2: int, x3: int, y3: int, x4: int, y4: int)
    requires Denominator(x1, y1, x2, y2, x3, y3, x4, y4) != 0
    ensures var d := Denominator(x1, y1, x2, y2, x3, y3, x4, y4) as real;
      var px := NumeratorX(x1, y1, x2, y2, x3, y3, x4, y4) as real / d;
      var py := NumeratorY(x1, y1, x2, y2, x3, y3, x4, y4) as real / d;
      OnLine(x1, y1, x2, y2, px, py) && OnLine(x3, y3, x4, y4, px, py)
  {
    var d := Denominator(x1, y1, x2, y2, x3, y3, x4, y4);
    var nx := NumeratorX(x1, y1, x2, y2, x3, y3, x4, y4);
    var ny := NumeratorY(x1, y1, x2, y2, x3, y3, x4, y4);
    NumeratorsOnFirstLine(x1, y1, x2, y2, x3, y3, x4, y4);
    NumeratorsOnSecondLine(x1, y1, x2, y2, x3, y3, x4, y4);
    var px := nx as real / d as real;
    var py := ny as real / d as real;
    ScaledLinePoint(x1, y1, x2, y2, nx, ny, d);
    ScaledLinePoint(x3, y3, x4, y4, nx, ny, d);
  }

  /** Dividing a scaled point (nx,ny)/d of a line by its scale d keeps it on the line. */
  lemma ScaledLinePoint(x1: int, y1: int, x2: int, y2: int, nx: int, ny: int, d: int)
    requires d != 0
    requires (nx - x1 * d) * (y2 - y1) == (ny - y1 * d) * (x2 - x1)
    ensures OnLine(x1, y1, x2, y2, nx as real / d as real, ny as real / d as real)
  {
    var D := d as real;
    var px := nx as real / D;
    var py := ny as real / D;
    assert px * D == nx as real;
    assert py * D == ny as real;
    assert ((nx - x1 * d) * (y2 - y1)) as real == ((ny - y1 * d) * (x2 - x1)) as real;
    assert (px - x1 as real) * D == (nx - x1 * d) as real;
    assert (py - y1 as real) * D == (ny - y1 * d) as real;
    assert (px - x1 as real) * D * (y2 - y1) as real == (py - y1 as real) * D * (x2 - x1) as real;
  }

  /** Two non-parallel lines meet only at the point given by the numerators over the denominator. */
  lemma LinesMeetOnlyAtCramerPoint(x1: int, y1: int, x2: int, y2: int, x3: int, y3: int, x4: int, y4: int,
                                   qx: real, qy: real)
    requires Denominator(x1, y1, x2, y2, x3, y3, x4, y4) != 0
    requires OnLine(x1, y1, x2, y2, qx, qy) && OnLine(x3, y3, x4, y4, qx, qy)
    ensures var d := Denominator(x1, y1, x2, y2, x3, y3, x4, y4) as real;
      qx == NumeratorX(x1, y1, x2, y2, x3, y3, x4, y4) as real / d
      && qy == NumeratorY(x1, y1, x2, y2, x3, y3, x4, y4) as real / d
  {
    var a1, b1, c1 := (y1 - y2) as real, (x1 - x2) as real, (x2 * y1 - x1 * y2) as real;
    var a2, b2, c2 := (y3 - y4) as real, (x3 - x4) as real, (x4 * y3 - x3 * y4) as real;
    LineEquation(x1, y1, x2, y2, qx, qy, a1, b1, c1);
    LineEquation(x3, y3, x4, y4, qx, qy, a2, b2, c2);
    var d := Denominator(x1, y1, x2, y2, x3, y3, x4, y4) as real;
    var nx := NumeratorX(x1, y1, x2, y2, x3, y3, x4, y4) as real;
    var ny := NumeratorY(x1, y1, x2, y2, x3, y3, x4, y4) as real;
    CramerTerms(x1, y1, x2, y2, x3, y3, x4, y4, a1, b1, c1, a2, b2, c2);
    SolveForPoint(a1, b1, c1, a2, b2, c2, d, nx, ny, qx, qy);
  }

  /** The unique solution of a two-by-two linear system with non-zero determinant. */
  lemma SolveForPoint(a1: real, b1: real, c1: real, a2: real, b2: real, c2: real,
                      d: real, nx: real, ny: real, qx: real, qy: real)
    requires a1 * qx - b1 * qy == c1 && a2 * qx - b2 * qy == c2
    requires d == b1 * a2 - a1 * b2 && d != 0.0
    requires nx == c2 * b1 - c1 * b2 && ny == c2 * a1 - c1 * a2
    ensures qx == nx / d && qy == ny / d
  {
    SolveTwoByTwo(a1, b1, c1, a2, b2, c2, qx, qy);
    DivideOut(qx, d, nx);
    DivideOut(qy, d, ny);
  }

  lemma DivideOut(q: real, d: real, n: real)
    requires d != 0.0 && q * d == n
    ensures q == n / d
  {
  }

  /** A point of the line through (x1,y1),(x2,y2) satisfies (y1-y2)*qx - (x1-x2)*qy == x2*y1 - x1*y2. */
  lemma LineEquation(x1: int, y1: int, x2: int, y2: int, qx: real, qy: real, a: real, b: real, c: real)
    requires OnLine(x1, y1, x2, y2, qx, qy)
    requires a == (y1 - y2) as real && b == (x1 - x2) as real && c == (x2 * y1 - x1 * y2) as real
    ensures a * qx - b * qy == c
  {
  }

  /** Elimination for a two-by-two linear system. */
  lemma SolveTwoByTwo(a1: real, b1: real, c1: real, a2: real, b2: real, c2: real, qx: real, qy: real)
    requires a1 * qx - b1 * qy == c1
    requires a2 * qx - b2 * qy == c2
    ensures qx * (b1 * a2 - a1 * b2) == c2 * b1 - c1 * b2
    ensures qy * (b1 * a2 - a1 * b2) == c2 * a1 - c1 * a2
  {
    assert (a1 * qx - b1 * qy) * b2 == c1 * b2;
    assert (a2 * qx - b2 * qy) * b1 == c2 * b1;
    assert (a1 * qx - b1 * qy) * a2 == c1 * a2;
    assert (a2 * qx - b2 * qy) * a1 == c2 * a1;
  }

  /** The denominator and numerators written with the coefficients of the two line equations. */
  lemma CramerTerms(x1: int, y1: int, x2: int, y2: int, x3: int, y3: int, x4: int, y4: int,
                    a1: real, b1: real, c1: real, a2: real, b2: real, c2: real)
    requires a1 == (y1 - y2) as real && b1 == (x1 - x2) as real && c1 == (x2 * y1 - x1 * y2) as real
    requires a2 == (y3 - y4) as real && b2 == (x3 - x4) as real && c2 == (x4 * y3 - x3 * y4) as real
    ensures Denominator(x1, y1, x2, y2, x3, y3, x4, y4) as real == b1 * a2 - a1 * b2
    ensures NumeratorX(x1, y1, x2, y2, x3, y3, x4, y4) as real == c2 * b1 - c1 * b2
    ensures NumeratorY(x1, y1, x2, y2, x3, y3, x4, y4) as real == c2 * a1 - c1 * a2
  {
  }

  /**
   * The intended predicate holds exactly when the two segments are not parallel
   * and some point lies on both closed segments.
   */
  lemma IntendedMeansCommonPoint(x1: int, y1: int, x2: int, y2: int, x3: int, y3: int, x4: int, y4: int)
    ensures IntersectsIntended(x1, y1, x2, y2, x3, y3, x4, y4) <==>
      Denominator(x1, y1, x2, y2, x3, y3, x4, y4) != 0
      && exists px: real, py: real :: OnSegment(x1, y1, x2, y2, px, py) && OnSegment(x3, y3, x4, y4, px, py)
  {
    var d := Denominator(x1, y1, x2, y2, x3, y3, x4, y4);
    if d != 0 {
      var px := NumeratorX(x1, y1, x2, y2, x3, y3, x4, y4) as real / d as real;
      var py := NumeratorY(x1, y1, x2, y2, x3, y3, x4, y4) as real / d as real;
      CramerPointOnBothLines(x1, y1, x2, y2, x3, y3, x4, y4);
      if IntersectsIntended(x1, y1, x2, y2, x3, y3, x4, y4) {
        assert OnSegment(x1, y1, x2, y2, px, py) && OnSegment(x3, y3, x4, y4, px, py);
      }
      if exists qx: real, qy: real :: OnSegment(x1, y1, x2, y2, qx, qy) && OnSegment(x3, y3, x4, y4, qx, qy) {
        var qx: real, qy: real :| OnSegment(x1, y1, x2, y2, qx, qy) && OnSegment(x3, y3, x4, y4, qx, qy);
        LinesMeetOnlyAtCramerPoint(x1, y1, x2, y2, x3, y3, x4, y4, qx, qy);
      }
    }
  }

  /** Unlike the as-written predicate, the intended one does not depend on the order of the two segments. */
  lemma IntendedIsSymmetric(x1: int, y1: int, x2: int, y2: int, x3: int, y3: int, x4: int, y4: int)
    ensures IntersectsIntended(x1, y1, x2, y2, x3, y3, x4, y4) == IntersectsIntended(x3, y3, x4, y4, x1, y1, x2, y2)
  {
    IntendedMeansCommonPoint(x1, y1, x2, y2, x3, y3, x4, y4);
    IntendedMeansCommonPoint(x3, y3, x4, y4, x1, y1, x2, y2);
    SwapSegmentsNegates(x1, y1, x2, y2, x3, y3, x4, y4);
  }
}
