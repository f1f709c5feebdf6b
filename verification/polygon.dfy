/** Polygon validity: a path is a polygon when it has at least three points
    and no two of its edges cross. */
module Polygon {
  import opened Geometry

  /** The outcome of the validity check. The source returns `false` for a
      polygon and a message string otherwise (see Reason). */
  datatype Verdict = IsPolygon | TooFewPoints(count: nat) | EdgesCross

  /** The message the source returns for a path that is not a polygon. */
  function Reason(v: Verdict): (msg: string)
    requires !v.IsPolygon?
    ensures |msg| > 0
  {
    match v
    case TooFewPoints(n) => "Only " + NatToString(n) + " points defined"
    case EdgesCross => "Edges cross"
  }

  /** The number a string of decimal digits spells, most significant first. */
  function DecimalValue(s: string): nat
    requires forall i :: 0 <= i < |s| ==> '0' <= s[i] <= '9'
  {
    if |s| == 0 then 0
    else DecimalValue(s[..|s| - 1]) * 10 + (s[|s| - 1] as int - '0' as int)
  }

  /** Decimal digits of n, as JavaScript prints a non-negative integer: they
      spell n, with no leading zero. */
  function NatToString(n: nat): (s: string)
    ensures |s| > 0
    ensures forall i :: 0 <= i < |s| ==> '0' <= s[i] <= '9'
    ensures DecimalValue(s) == n
    ensures |s| > 1 ==> s[0] != '0'
    decreases n
  {
    var digit := ['0' + (n % 10) as char];
    if n < 10 then digit else NatToString(n / 10) + digit
  }

  /** Index of the point an edge starting at j ends at: the next point, or
      the first point for the closing edge. */
  function Next(n: nat, j: nat): nat
    requires j < n
  {
    if j == n - 1 then 0 else j + 1
  }

  /** Does edge i cross edge j? Both edges are taken with wrap-around. */
  predicate EdgePairCrosses(path: seq<Point>, i: nat, j: nat)
    requires i < |path| && j < |path|
  {
    LinesCross(path[i], path[Next(|path|, i)], path[j], path[Next(|path|, j)])
  }

  /** Some pair visited by the check crosses: an edge (i, i + 1) that is
      not the closing edge, against an edge j >= i. */
  ghost predicate SomeVisitedPairCrosses(path: seq<Point>)
  {
    exists i, j :: 0 <= i < |path| - 1 && i <= j < |path| && EdgePairCrosses(path, i, j)
  }

  /** Some two edges of the closed path cross, in either order. */
  ghost predicate SomeEdgesCross(path: seq<Point>)
  {
    exists i, j :: 0 <= i < |path| && 0 <= j < |path| && EdgePairCrosses(path, i, j)
  }

  /** The verdict the check owes for a path. */
  ghost function VerdictOf(path: seq<Point>): Verdict
  {
    if |path| < 3 then TooFewPoints(|path|)
    else if SomeVisitedPairCrosses(path) then EdgesCross
    else IsPolygon
  }

  /** The validity check: nested loops over edge (ii, ii + 1) and edge
      (jj, jj + 1 mod n) for jj >= ii, stopping at the first crossing. */
  method PathNotAPolygon(path: seq<Point>) returns (v: Verdict)
    ensures v == VerdictOf(path)
  {
    if |path| < 3 {
      return TooFewPoints(|path|);
    }
    var ii := 0;
    while ii < |path| - 1
      invariant 0 <= ii <= |path| - 1
      invariant forall i, j :: 0 <= i < ii && i <= j < |path| ==> !EdgePairCrosses(path, i, j)
    {
      var segAStart, segAEnd := path[ii], path[ii + 1];
      var jj := ii;
      while jj < |path|
        invariant ii <= jj <= |path|
        invariant forall j :: ii <= j < jj ==> !EdgePairCrosses(path, ii, j)
      {
        var segBStart := path[jj];
        var segBEnd := if jj == |path| - 1 then path[0] else path[jj + 1];
        assert segBEnd == path[Next(|path|, jj)] && segAEnd == path[Next(|path|, ii)];
        var crosses := LinesCross(segAStart, segAEnd, segBStart, segBEnd);
        assert crosses == EdgePairCrosses(path, ii, jj);
        if crosses {
          return EdgesCross;
        }
        jj := jj + 1;
      }
      ii := ii + 1;
    }
    return IsPolygon;
  }

  /** The verdict names too few points exactly for paths of under three
      points, and otherwise says whether any two edges cross. */
  lemma VerdictOfMeaning(path: seq<Point>)
    ensures VerdictOf(path).TooFewPoints? <==> |path| < 3
    ensures VerdictOf(path).TooFewPoints? ==> VerdictOf(path).count == |path|
    ensures VerdictOf(path).EdgesCross? <==> |path| >= 3 && SomeEdgesCross(path)
    ensures VerdictOf(path).IsPolygon? <==> |path| >= 3 && !SomeEdgesCross(path)
  {
    if |path| >= 3 {
      VisitedPairsSuffice(path);
    }
  }

  /** Two edges that share an end point never cross: an edge with itself, with
      the edge after it, and the first edge with the closing edge. */
  lemma AdjacentEdgesNeverCross(path: seq<Point>, i: nat, j: nat)
    requires i < |path| && j < |path|
    requires j == i || j == Next(|path|, i) || i == Next(|path|, j)
    ensures !EdgePairCrosses(path, i, j)
  {
    SharedEndpointNeverCross(path[i], path[Next(|path|, i)], path[j], path[Next(|path|, j)]);
  }

  /** The check visits only edge pairs (i, j) with j >= i and never takes
      the closing edge first, yet it sees every crossing: crossing is
      symmetric and the closing edge against itself cannot cross. */
  lemma VisitedPairsSuffice(path: seq<Point>)
    requires |path| >= 3
    ensures SomeVisitedPairCrosses(path) <==> SomeEdgesCross(path)
  {
    var n := |path|;
    if SomeEdgesCross(path) {
      var i, j :| 0 <= i < n && 0 <= j < n && EdgePairCrosses(path, i, j);
      if j < i {
        LinesCrossSymmetric(path[i], path[Next(n, i)], path[j], path[Next(n, j)]);
        assert EdgePairCrosses(path, j, i);
        if i == n - 1 {
          assert j < n - 1;
        }
        assert j < n - 1 && j <= i;
      } else if i == n - 1 {
        assert j == n - 1;
        AdjacentEdgesNeverCross(path, i, j);
        assert false;
      }
    }
  }

  /** Any three points form a polygon: every two edges of a triangle share
      a point, so none can cross, even when the points are collinear. */
  lemma TriangleIsPolygon(path: seq<Point>)
    requires |path| == 3
    ensures VerdictOf(path) == IsPolygon
  {
    forall i, j | 0 <= i < 2 && i <= j < 3
      ensures !EdgePairCrosses(path, i, j)
    {
      AdjacentEdgesNeverCross(path, i, j);
    }
  }

  /** Only non-adjacent edges, neither consecutive nor the first against the
      closing edge, can make a path invalid. */
  lemma OnlyNonAdjacentEdgesMatter(path: seq<Point>)
    requires |path| >= 3
    ensures SomeVisitedPairCrosses(path) <==>
      exists i, j :: 0 <= i < |path| - 1 && i + 2 <= j < |path| && !(i == 0 && j == |path| - 1)
                     && EdgePairCrosses(path, i, j)
  {
    if SomeVisitedPairCrosses(path) {
      var i, j :| 0 <= i < |path| - 1 && i <= j < |path| && EdgePairCrosses(path, i, j);
      if j < i + 2 || (i == 0 && j == |path| - 1) {
        AdjacentEdgesNeverCross(path, i, j);
      }
    }
  }

  /** The self-intersecting "bowtie" is rejected: its first edge and its
      third edge cross half way along both (ua = ub = 100 / 200). */
  lemma BowtieEdgesCross(path: seq<Point>)
    requires path == [Point(0, 0), Point(10, 10), Point(10, 0), Point(0, 10)]
    ensures VerdictOf(path) == EdgesCross
  {
    var a1, a2, b1, b2 := path[0], path[1], path[2], path[3];
    assert Denom(a1, a2, b1, b2) == 200;
    assert UaNumer(a1, a2, b1, b2) == 100 && UbNumer(a1, a2, b1, b2) == 100;
    GuardAsWrittenMeansNonZero(200.0);
    assert RatioInBand(100, 200);
    assert EdgePairCrosses(path, 0, 2);
  }

  /** The axis-aligned square is a valid polygon: its edges either share a
      corner or are parallel. */
  lemma SquareIsPolygon(path: seq<Point>)
    requires path == [Point(0, 0), Point(10, 0), Point(10, 10), Point(0, 10)]
    ensures VerdictOf(path) == IsPolygon
  {
    AxisParallelNeverCross(path[0], path[1], path[2], path[3]);
    AxisParallelNeverCross(path[1], path[2], path[3], path[0]);
    assert Next(4, 1) == 2 && Next(4, 3) == 0;
    assert !EdgePairCrosses(path, 0, 2) && !EdgePairCrosses(path, 1, 3);
    OnlyNonAdjacentEdgesMatter(path);
    forall i, j | 0 <= i < 3 && i + 2 <= j < 4 && !(i == 0 && j == 3)
      ensures !EdgePairCrosses(path, i, j)
    {
      assert (i == 0 && j == 2) || (i == 1 && j == 3);
    }
  }
}
