/** Segment crossing test of the image region selector: parametric line-line
    intersection with a tolerance band that excludes the segments' end points.
    Click coordinates are integers; the parameters ua and ub are exact reals. */
module Geometry {

  /** An image-local pixel coordinate (+x is right, +y is down). */
  datatype Point = Point(x: int, y: int)

  /** The "sloppy floating point comparison tolerance". */
  const Tol: real := 0.0001

  /** Denominator of the parametric intersection of a1-a2 with b1-b2. */
  function Denom(a1: Point, a2: Point, b1: Point, b2: Point): int
  {
    (b2.y - b1.y) * (a2.x - a1.x) - (b2.x - b1.x) * (a2.y - a1.y)
  }

  /** Numerator of ua, the position of the intersection along a1-a2. */
  function UaNumer(a1: Point, a2: Point, b1: Point, b2: Point): int
  {
    (b2.x - b1.x) * (a1.y - b1.y) - (b2.y - b1.y) * (a1.x - b1.x)
  }

  /** Numerator of ub, the position of the intersection along b1-b2. */
  function UbNumer(a1: Point, a2: Point, b1: Point, b2: Point): int
  {
    (a2.x - a1.x) * (a1.y - b1.y) - (a2.y - a1.y) * (a1.x - b1.x)
  }

  function Abs(r: real): real { if r < 0.0 then -r else r }

  /** JavaScript's `!` applied to a number, coerced back to a number by `<=`:
      1 for zero, 0 for anything else. */
  function NotAsNumber(r: real): real { if r == 0.0 then 1.0 else 0.0 }

  /** The parallel guard exactly as the source writes it, `! Math.abs(denom) <= tol`,
      which parses as `(! Math.abs(denom)) <= tol`. */
  predicate GuardAsWritten(denom: real)
  {
    NotAsNumber(Abs(denom)) <= Tol
  }

  /** The guard the comment beside it describes: "lines aren't parallel or coincident". */
  predicate GuardIntended(denom: real)
  {
    Abs(denom) > Tol
  }

  predicate InBand(u: real)
  {
    Tol <= u <= 1.0 - Tol
  }

  /** The parameter n / d lies in the band, stated without dividing:
      multiply through by d, flipping the comparisons when d is negative.
      RatioInBandMeaning proves this is InBand(n / d). */
  predicate RatioInBand(n: int, d: int)
  {
    if d > 0 then Tol * d as real <= n as real <= (1.0 - Tol) * d as real
    else (1.0 - Tol) * d as real <= n as real <= Tol * d as real
  }

  /** True iff segment a1-a2 and segment b1-b2 cross somewhere other than
      near an end point of either: when the guard admits the denominator d,
      both ua = UaNumer / d and ub = UbNumer / d lie in the band. */
  predicate LinesCross(a1: Point, a2: Point, b1: Point, b2: Point)
  {
    var d := Denom(a1, a2, b1, b2);
    if GuardAsWritten(d as real) then
      RatioInBand(UaNumer(a1, a2, b1, b2), d) && RatioInBand(UbNumer(a1, a2, b1, b2), d)
    else
      false
  }

  /** The point a1 + t * (a2 - a1) of the line through a1 and a2. */
  function At(a1: Point, a2: Point, t: real): (real, real)
  {
    (a1.x as real + t * (a2.x - a1.x) as real, a1.y as real + t * (a2.y - a1.y) as real)
  }

  /** The guard as written is taken exactly when the denominator is non-zero. */
  lemma GuardAsWrittenMeansNonZero(d: real)
    ensures GuardAsWritten(d) <==> d != 0.0
  {
    if d == 0.0 {
      assert NotAsNumber(Abs(d)) == 1.0;
    } else {
      assert Abs(d) != 0.0;
    }
  }

  /** With integer coordinates the denominator is an integer, so the guard as
      written and the intended guard agree on every input. */
  lemma GuardsAgreeOnIntegers(d: int)
    ensures GuardAsWritten(d as real) <==> GuardIntended(d as real)
  {
    GuardAsWrittenMeansNonZero(d as real);
    if d != 0 {
      assert Abs(d as real) >= 1.0;
    }
  }

  /** Parallel or coincident segments (zero denominator) are never reported. */
  lemma ParallelNeverCross(a1: Point, a2: Point, b1: Point, b2: Point)
    requires Denom(a1, a2, b1, b2) == 0
    ensures !LinesCross(a1, a2, b1, b2)
  {
    GuardAsWrittenMeansNonZero(0.0);
  }

  /** Two horizontal segments, or two vertical ones, never cross. */
  lemma AxisParallelNeverCross(a1: Point, a2: Point, b1: Point, b2: Point)
    requires (a1.y == a2.y && b1.y == b2.y) || (a1.x == a2.x && b1.x == b2.x)
    ensures !LinesCross(a1, a2, b1, b2)
  {
    assert Denom(a1, a2, b1, b2) == 0;
    ParallelNeverCross(a1, a2, b1, b2);
  }

  /** Multiplying through by the denominator does not change the test. */
  lemma RatioInBandMeaning(n: int, d: int)
    requires d != 0
    ensures RatioInBand(n, d) <==> InBand(n as real / d as real)
  {
    if d > 0 {
      BetweenScaledUp(Tol, 1.0 - Tol, n as real / d as real, d as real, n as real);
    } else {
      BetweenScaledDown(Tol, 1.0 - Tol, n as real / d as real, d as real, n as real);
    }
  }

  /** For positive c, u lies between lo and hi iff u * c lies between lo * c and hi * c. */
  lemma BetweenScaledUp(lo: real, hi: real, u: real, c: real, uc: real)
    requires c > 0.0 && u * c == uc
    ensures lo <= u <= hi <==> lo * c <= uc <= hi * c
  {
    ScaleUp(lo, u, c);
    ScaleUp(u, hi, c);
  }

  /** For negative c the comparisons turn round. */
  lemma BetweenScaledDown(lo: real, hi: real, u: real, c: real, uc: real)
    requires c < 0.0 && u * c == uc
    ensures lo <= u <= hi <==> hi * c <= uc <= lo * c
  {
    ScaleDown(lo, u, c);
    ScaleDown(u, hi, c);
  }

  /** Multiplying both sides of a <= b by a positive c keeps the comparison. */
  lemma ScaleUp(a: real, b: real, c: real)
    requires c > 0.0
    ensures a <= b <==> a * c <= b * c
  {
    assert (b - a) * c == b * c - a * c;
  }

  /** Multiplying both sides of a <= b by a negative c reverses it. */
  lemma ScaleDown(a: real, b: real, c: real)
    requires c < 0.0
    ensures a <= b <==> b * c <= a * c
  {
    assert (b - a) * c == b * c - a * c;
  }

  /** Division undoes multiplication by a non-zero factor. */
  lemma QuotientUnique(s: real, d: real, n: real)
    requires d != 0.0 && s * d == n
    ensures s == n / d
  {
  }

  /** What LinesCross decides: a non-zero denominator and both parameters
      ua and ub, computed by division as the source does, in the band. */
  lemma LinesCrossMeaning(a1: Point, a2: Point, b1: Point, b2: Point)
    ensures LinesCross(a1, a2, b1, b2) <==>
      Denom(a1, a2, b1, b2) != 0 &&
      InBand(UaNumer(a1, a2, b1, b2) as real / Denom(a1, a2, b1, b2) as real) &&
      InBand(UbNumer(a1, a2, b1, b2) as real / Denom(a1, a2, b1, b2) as real)
  {
    var d := Denom(a1, a2, b1, b2);
    GuardAsWrittenMeansNonZero(d as real);
    if d != 0 {
      RatioInBandMeaning(UaNumer(a1, a2, b1, b2), d);
      RatioInBandMeaning(UbNumer(a1, a2, b1, b2), d);
    }
  }

  /** Cramer's rule: a solution (s, t) of a1 + s (a2 - a1) == b1 + t (b2 - b1)
      is the pair of cross ratios. */
  lemma SolutionIsCrossRatio(dx: real, dy: real, ex: real, ey: real, fx: real, fy: real, s: real, t: real)
    requires s * dx - t * ex == -fx
    requires s * dy - t * ey == -fy
    ensures s * (ey * dx - ex * dy) == ex * fy - ey * fx
    ensures t * (ey * dx - ex * dy) == dx * fy - dy * fx
  {
    assert s * dx * ey - t * ex * ey == -fx * ey;
    assert s * dy * ex - t * ey * ex == -fy * ex;
    assert s * dx * dy - t * ex * dy == -fx * dy;
    assert s * dy * dx - t * ey * dx == -fy * dx;
  }

  /** Conversely the cross ratios solve the system when the denominator is non-zero. */
  lemma CrossRatioIsSolution(dx: real, dy: real, ex: real, ey: real, fx: real, fy: real,
                             d: real, na: real, nb: real)
    requires d == ey * dx - ex * dy && d != 0.0
    requires na == ex * fy - ey * fx && nb == dx * fy - dy * fx
    ensures (na / d) * dx - (nb / d) * ex == -fx
    ensures (na / d) * dy - (nb / d) * ey == -fy
  {
    var s, t := na / d, nb / d;
    assert s * d == na && t * d == nb;
    assert na * dx - nb * ex == -fx * d;
    assert na * dy - nb * ey == -fy * d;
    assert (s * dx - t * ex) * d == -fx * d;
    assert (s * dy - t * ey) * d == -fy * d;
  }

  /** The parameters of LinesCross in terms of the direction vectors
      d = a2 - a1, e = b2 - b1 and the offset f = a1 - b1. */
  lemma RealForms(a1: Point, a2: Point, b1: Point, b2: Point)
    ensures var dx, dy := (a2.x - a1.x) as real, (a2.y - a1.y) as real;
      var ex, ey := (b2.x - b1.x) as real, (b2.y - b1.y) as real;
      var fx, fy := (a1.x - b1.x) as real, (a1.y - b1.y) as real;
      Denom(a1, a2, b1, b2) as real == ey * dx - ex * dy &&
      UaNumer(a1, a2, b1, b2) as real == ex * fy - ey * fx &&
      UbNumer(a1, a2, b1, b2) as real == dx * fy - dy * fx
  {
  }

  /** Points at parameters s and t coincide when (s, t) solves the system. */
  lemma SolutionMeets(a1: Point, a2: Point, b1: Point, b2: Point, s: real, t: real)
    requires s * (a2.x - a1.x) as real - t * (b2.x - b1.x) as real == -(a1.x - b1.x) as real
    requires s * (a2.y - a1.y) as real - t * (b2.y - b1.y) as real == -(a1.y - b1.y) as real
    ensures At(a1, a2, s) == At(b1, b2, t)
  {
    assert At(a1, a2, s).0 == At(b1, b2, t).0;
    assert At(a1, a2, s).1 == At(b1, b2, t).1;
  }

  /** A crossing reported by LinesCross is a common point of both segments,
      at the parameters ua and ub. */
  lemma CrossingIsIntersection(a1: Point, a2: Point, b1: Point, b2: Point)
    requires LinesCross(a1, a2, b1, b2)
    ensures var d := Denom(a1, a2, b1, b2) as real;
      var ua := UaNumer(a1, a2, b1, b2) as real / d;
      var ub := UbNumer(a1, a2, b1, b2) as real / d;
      d != 0.0 && InBand(ua) && InBand(ub) && At(a1, a2, ua) == At(b1, b2, ub)
  {
    LinesCrossMeaning(a1, a2, b1, b2);
    RealForms(a1, a2, b1, b2);
    var d := Denom(a1, a2, b1, b2) as real;
    var na, nb := UaNumer(a1, a2, b1, b2) as real, UbNumer(a1, a2, b1, b2) as real;
    CrossRatioIsSolution((a2.x - a1.x) as real, (a2.y - a1.y) as real,
                         (b2.x - b1.x) as real, (b2.y - b1.y) as real,
                         (a1.x - b1.x) as real, (a1.y - b1.y) as real, d, na, nb);
    SolutionMeets(a1, a2, b1, b2, na / d, nb / d);
  }

  /** A common point of two non-parallel segments, at parameters in the band
      on both, is reported by LinesCross. */
  lemma IntersectionIsCrossing(a1: Point, a2: Point, b1: Point, b2: Point, s: real, t: real)
    requires Denom(a1, a2, b1, b2) != 0
    requires InBand(s) && InBand(t) && At(a1, a2, s) == At(b1, b2, t)
    ensures LinesCross(a1, a2, b1, b2)
  {
    var d := Denom(a1, a2, b1, b2) as real;
    MeetingParameters(a1, a2, b1, b2, s, t);
    QuotientUnique(s, d, UaNumer(a1, a2, b1, b2) as real);
    QuotientUnique(t, d, UbNumer(a1, a2, b1, b2) as real);
    LinesCrossMeaning(a1, a2, b1, b2);
  }

  /** The parameters of a common point, multiplied by the denominator, are
      the numerators. */
  lemma MeetingParameters(a1: Point, a2: Point, b1: Point, b2: Point, s: real, t: real)
    requires At(a1, a2, s) == At(b1, b2, t)
    ensures s * Denom(a1, a2, b1, b2) as real == UaNumer(a1, a2, b1, b2) as real
    ensures t * Denom(a1, a2, b1, b2) as real == UbNumer(a1, a2, b1, b2) as real
  {
    RealForms(a1, a2, b1, b2);
    assert At(a1, a2, s).0 == At(b1, b2, t).0 && At(a1, a2, s).1 == At(b1, b2, t).1;
    SolutionIsCrossRatio((a2.x - a1.x) as real, (a2.y - a1.y) as real,
                         (b2.x - b1.x) as real, (b2.y - b1.y) as real,
                         (a1.x - b1.x) as real, (a1.y - b1.y) as real, s, t);
  }

  /** The segments cross, in the sense of LinesCross, iff they are not parallel
      and meet at a point whose parameter lies in the tolerance band on both. */
  lemma CrossIffProperIntersection(a1: Point, a2: Point, b1: Point, b2: Point)
    ensures LinesCross(a1, a2, b1, b2) <==>
      Denom(a1, a2, b1, b2) != 0 &&
      exists s: real, t: real :: InBand(s) && InBand(t) && At(a1, a2, s) == At(b1, b2, t)
  {
    if LinesCross(a1, a2, b1, b2) {
      CrossingIsIntersection(a1, a2, b1, b2);
      var d := Denom(a1, a2, b1, b2) as real;
      var ua, ub := UaNumer(a1, a2, b1, b2) as real / d, UbNumer(a1, a2, b1, b2) as real / d;
      assert InBand(ua) && InBand(ub) && At(a1, a2, ua) == At(b1, b2, ub);
    }
    if Denom(a1, a2, b1, b2) != 0 && exists s: real, t: real :: InBand(s) && InBand(t) && At(a1, a2, s) == At(b1, b2, t) {
      var s: real, t: real :| InBand(s) && InBand(t) && At(a1, a2, s) == At(b1, b2, t);
      IntersectionIsCrossing(a1, a2, b1, b2, s, t);
    }
  }

  /** Swapping the two segments does not change the verdict. */
  lemma LinesCrossSymmetric(a1: Point, a2: Point, b1: Point, b2: Point)
    ensures LinesCross(a1, a2, b1, b2) == LinesCross(b1, b2, a1, a2)
  {
    LinesCrossMeaning(a1, a2, b1, b2);
    LinesCrossMeaning(b1, b2, a1, a2);
    var d := Denom(a1, a2, b1, b2);
    assert Denom(b1, b2, a1, a2) == -d;
    assert UaNumer(b1, b2, a1, a2) == -UbNumer(a1, a2, b1, b2);
    assert UbNumer(b1, b2, a1, a2) == -UaNumer(a1, a2, b1, b2);
    if d != 0 {
      NegatedRatio(UbNumer(a1, a2, b1, b2) as real, d as real);
      NegatedRatio(UaNumer(a1, a2, b1, b2) as real, d as real);
    }
  }

  lemma NegatedRatio(n: real, d: real)
    requires d != 0.0
    ensures (-n) / (-d) == n / d
  {
  }

  /** Segments that share an end point are never reported as crossing: the
      shared point sits at parameter 0 or 1 on both, outside the band. */
  lemma SharedEndpointNeverCross(a1: Point, a2: Point, b1: Point, b2: Point)
    requires a1 == b1 || a1 == b2 || a2 == b1 || a2 == b2
    ensures !LinesCross(a1, a2, b1, b2)
  {
    SharedEndpointParameters(a1, a2, b1, b2);
    var d := Denom(a1, a2, b1, b2);
    GuardAsWrittenMeansNonZero(d as real);
    if d != 0 {
      assert !RatioInBand(0, d) && !RatioInBand(d, d);
    }
  }

  /** At a shared end point one of the parameters is exactly 0 or 1: the
      numerator is 0 or equals the denominator. */
  lemma SharedEndpointParameters(a1: Point, a2: Point, b1: Point, b2: Point)
    requires a1 == b1 || a1 == b2 || a2 == b1 || a2 == b2
    ensures var d := Denom(a1, a2, b1, b2);
      UaNumer(a1, a2, b1, b2) == 0 || UaNumer(a1, a2, b1, b2) == d || UbNumer(a1, a2, b1, b2) == d
  {
    var dx, dy := a2.x - a1.x, a2.y - a1.y;
    var ex, ey := b2.x - b1.x, b2.y - b1.y;
    var fx, fy := a1.x - b1.x, a1.y - b1.y;
    assert Denom(a1, a2, b1, b2) == ey * dx - ex * dy;
    assert UaNumer(a1, a2, b1, b2) == ex * fy - ey * fx;
    assert UbNumer(a1, a2, b1, b2) == dx * fy - dy * fx;
    if a1 == b1 {
      assert fx == 0 && fy == 0;
    } else if a2 == b1 {
      assert fx == -dx && fy == -dy;
      assert ex * fy - ey * fx == ey * dx - ex * dy;
    } else if a1 == b2 {
      assert ex == fx && ey == fy;
      assert dx * fy - dy * fx == ey * dx - ex * dy;
    } else {
      assert dx == ex - fx && dy == ey - fy;
      assert ey * dx - ex * dy == ey * (ex - fx) - ex * (ey - fy);
    }
  }

  /** A segment compared with itself does not cross itself. */
  lemma SegmentNeverCrossesItself(a1: Point, a2: Point)
    ensures !LinesCross(a1, a2, a1, a2)
  {
    SharedEndpointNeverCross(a1, a2, a1, a2);
  }
}
