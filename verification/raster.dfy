/** Scan conversion of a polygon into horizontal pixel runs: a bounding box,
    a crossing-number (Jordan curve) inclusion test per pixel, and a scan of
    every row of the box that collects maximal runs of inside pixels. */
module Raster {
  import opened Geometry

  /** One scan line run: the pixels startX .. endX, inclusive, of row y. */
  datatype Segment = Segment(y: int, startX: int, endX: int)

  /** Index of the vertex an edge ending at k starts from: the previous
      vertex, or the last one for the first vertex. */
  function Prev(n: nat, k: nat): nat
    requires k < n
  {
    if k == 0 then n - 1 else k - 1
  }

  /** One end of the edge is strictly below row ty (larger y) and the other is not. */
  predicate Straddles(va: Point, vb: Point, ty: int)
  {
    (va.y > ty) != (vb.y > ty)
  }

  /** Where the row ty meets the line through va and vb, computed as the
      source computes it: multiply, then divide. */
  function RayX(va: Point, vb: Point, ty: int): real
    requires va.y != vb.y
  {
    (vb.x - va.x) as real * (ty - va.y) as real / (vb.y - va.y) as real + va.x as real
  }

  /** The ray from (tx, ty) towards +x crosses the edge va-vb. */
  predicate Toggles(va: Point, vb: Point, tx: int, ty: int)
  {
    Straddles(va, vb, ty) && (tx as real) < RayX(va, vb, ty)
  }

  /** Parity of the number of the first k edges that the ray from (tx, ty) crosses. */
  function Parity(path: seq<Point>, k: nat, tx: int, ty: int): bool
    requires k <= |path|
    decreases k
  {
    if k == 0 then false
    else Parity(path, k - 1, tx, ty) != Toggles(path[k - 1], path[Prev(|path|, k - 1)], tx, ty)
  }

  /** The inclusion test: an odd number of edges crossed. */
  predicate Inside(path: seq<Point>, x: int, y: int)
  {
    Parity(path, |path|, x, y)
  }

  /** Every vertex lies in the closed box [xMin, xMax] x [yMin, yMax]. */
  predicate Bounds(path: seq<Point>, xMin: int, xMax: int, yMin: int, yMax: int)
  {
    forall k :: 0 <= k < |path| ==> xMin <= path[k].x <= xMax && yMin <= path[k].y <= yMax
  }

  /** Each side of the box touches a vertex, so no smaller box bounds the path. */
  predicate Attained(path: seq<Point>, xMin: int, xMax: int, yMin: int, yMax: int)
  {
    (exists k :: 0 <= k < |path| && path[k].x == xMin) &&
    (exists k :: 0 <= k < |path| && path[k].x == xMax) &&
    (exists k :: 0 <= k < |path| && path[k].y == yMin) &&
    (exists k :: 0 <= k < |path| && path[k].y == yMax)
  }

  predicate InSegment(s: Segment, x: int, y: int)
  {
    y == s.y && s.startX <= x <= s.endX
  }

  /** Some run of r contains the pixel (x, y). */
  predicate Covers(r: seq<Segment>, x: int, y: int)
  {
    exists i :: 0 <= i < |r| && InSegment(r[i], x, y)
  }

  /** A run of inside pixels that cannot be extended at either end. */
  predicate MaximalRun(path: seq<Point>, s: Segment)
  {
    s.startX <= s.endX &&
    (forall x :: s.startX <= x <= s.endX ==> Inside(path, x, s.y)) &&
    !Inside(path, s.startX - 1, s.y) && !Inside(path, s.endX + 1, s.y)
  }

  /** Run a comes before run b: an earlier row, or the same row with at
      least one outside pixel between them. */
  predicate Before(a: Segment, b: Segment)
  {
    a.y < b.y || (a.y == b.y && a.endX + 1 < b.startX)
  }

  predicate Ordered(r: seq<Segment>)
  {
    forall i, j :: 0 <= i < j < |r| ==> Before(r[i], r[j])
  }

  /** The extent of the path: the loop over the vertices keeping running
      minima and maxima. The source starts from +/-Infinity; starting from
      the first vertex gives the same box for a non-empty path. */
  method BoundingBox(path: seq<Point>) returns (xMin: int, xMax: int, yMin: int, yMax: int)
    requires |path| >= 1
    ensures Bounds(path, xMin, xMax, yMin, yMax)
    ensures Attained(path, xMin, xMax, yMin, yMax)
  {
    xMin, xMax, yMin, yMax := path[0].x, path[0].x, path[0].y, path[0].y;
    var ii := 0;
    while ii < |path|
      invariant 0 <= ii <= |path|
      invariant Bounds(path[..ii], xMin, xMax, yMin, yMax)
      invariant Attained(path, xMin, xMax, yMin, yMax)
    {
      var point := path[ii];
      if point.x < xMin {
        xMin := point.x;
      }
      if point.x > xMax {
        xMax := point.x;
      }
      if point.y < yMin {
        yMin := point.y;
      }
      if point.y > yMax {
        yMax := point.y;
      }
      ii := ii + 1;
    }
    assert path[..ii] == path;
  }

  /** The inclusion test for one pixel: walk the edges (kk, kk - 1), the
      first one closing back to the last vertex, flipping on each crossing. */
  method PointInPolygon(path: seq<Point>, tx: int, ty: int) returns (tr: bool)
    ensures tr == Inside(path, tx, ty)
  {
    var pl := |path|;
    tr := false;
    var kk := 0;
    while kk < pl
      invariant 0 <= kk <= pl
      invariant tr == Parity(path, kk, tx, ty)
    {
      var va := path[kk];
      var vb := if kk == 0 then path[pl - 1] else path[kk - 1];
      assert vb == path[Prev(pl, kk)];
      assert Parity(path, kk + 1, tx, ty) == (tr != Toggles(va, vb, tx, ty));
      if (va.y > ty) != (vb.y > ty)
         && (tx as real) < (vb.x - va.x) as real * (ty - va.y) as real / (vb.y - va.y) as real + va.x as real
      {
        tr := !tr;
      }
      kk := kk + 1;
    }
  }

  /** The scan: every row of the bounding box, left to right, opening a run
      at an inside pixel that follows an outside one and closing it at the
      next outside pixel. The runs cover exactly the inside pixels, each is
      maximal, and they come out row by row, left to right, never touching. */
  method ScanLines(path: seq<Point>) returns (r: seq<Segment>)
    requires |path| >= 1
    ensures forall x, y :: Covers(r, x, y) <==> Inside(path, x, y)
    ensures forall i :: 0 <= i < |r| ==> MaximalRun(path, r[i])
    ensures Ordered(r)
  {
    var xMin, xMax, yMin, yMax := BoundingBox(path);
    InsideWithinBoxAll(path, xMin, xMax, yMin, yMax);
    r := [];
    var ty := yMin;
    while ty <= yMax
      invariant yMin <= ty <= yMax + 1
      invariant forall x, y :: Covers(r, x, y) <==> y < ty && Inside(path, x, y)
      invariant forall i :: 0 <= i < |r| ==> MaximalRun(path, r[i]) && r[i].y < ty
      invariant Ordered(r)
    {
      var inPoly := false;
      var segment := Segment(ty, xMin, xMin);
      var tx := xMin;
      while tx <= xMax
        invariant xMin <= tx <= xMax + 1
        invariant inPoly == (tx > xMin && Inside(path, tx - 1, ty))
        invariant inPoly ==> segment.y == ty && xMin <= segment.startX < tx
        invariant inPoly ==> !Inside(path, segment.startX - 1, ty)
        invariant inPoly ==> forall x :: segment.startX <= x < tx ==> Inside(path, x, ty)
        invariant var bound := if inPoly then segment.startX else tx;
          forall x, y :: Covers(r, x, y) <==> (y < ty || (y == ty && x < bound)) && Inside(path, x, y)
        invariant var bound := if inPoly then segment.startX else tx;
          forall i :: 0 <= i < |r| ==> MaximalRun(path, r[i]) && (r[i].y < ty || (r[i].y == ty && r[i].endX + 1 < bound))
        invariant Ordered(r)
      {
        var tr := PointInPolygon(path, tx, ty);
        if tr && !inPoly {
          inPoly := true;
          segment := Segment(ty, tx, tx);
        } else if !tr && inPoly {
          inPoly := false;
          segment := segment.(endX := tx - 1);
          CoversAppend(r, segment);
          r := r + [segment];
        }
        tx := tx + 1;
      }
      ty := ty + 1;
    }
  }

  /** Appending a run adds exactly its pixels. */
  lemma CoversAppend(r: seq<Segment>, s: Segment)
    ensures forall x, y :: Covers(r + [s], x, y) <==> Covers(r, x, y) || InSegment(s, x, y)
  {
    forall x, y
      ensures Covers(r + [s], x, y) <==> Covers(r, x, y) || InSegment(s, x, y)
    {
      if Covers(r, x, y) {
        var i :| 0 <= i < |r| && InSegment(r[i], x, y);
        assert (r + [s])[i] == r[i];
      }
      if InSegment(s, x, y) {
        assert (r + [s])[|r|] == s;
      }
      if Covers(r + [s], x, y) {
        var i :| 0 <= i < |r + [s]| && InSegment((r + [s])[i], x, y);
        if i < |r| {
          assert (r + [s])[i] == r[i];
        }
      }
    }
  }

  /** Runs of an ordered scan never share a pixel. */
  lemma OrderedRunsDisjoint(r: seq<Segment>, i: nat, j: nat, x: int, y: int)
    requires Ordered(r) && i < |r| && j < |r| && i != j
    ensures !(InSegment(r[i], x, y) && InSegment(r[j], x, y))
  {
    if i < j {
      assert Before(r[i], r[j]);
    } else {
      assert Before(r[j], r[i]);
    }
  }

  /** Every inside pixel lies in the half-open box [xMin, xMax) x [yMin, yMax)
      of any box bounding the path, so the scan of the closed box misses none
      and its last column and last row are always outside. */
  lemma InsideWithinBox(path: seq<Point>, xMin: int, xMax: int, yMin: int, yMax: int, x: int, y: int)
    requires Bounds(path, xMin, xMax, yMin, yMax)
    requires Inside(path, x, y)
    ensures xMin <= x < xMax && yMin <= y < yMax
  {
    var n := |path|;
    if y >= yMax || y < yMin || x >= xMax {
      forall j | 0 <= j < n
        ensures !Toggles(path[j], path[Prev(n, j)], x, y)
      {
        var va, vb := path[j], path[Prev(n, j)];
        if Straddles(va, vb, y) {
          RayXBetween(va, vb, y);
        }
      }
      ParityNoToggle(path, n, x, y);
    } else if x < xMin {
      forall j | 0 <= j < n
        ensures Toggles(path[j], path[Prev(n, j)], x, y) == Straddles(path[j], path[Prev(n, j)], y)
      {
        var va, vb := path[j], path[Prev(n, j)];
        if Straddles(va, vb, y) {
          RayXBetween(va, vb, y);
        }
      }
      ParityAllToggle(path, n, x, y);
    }
  }

  lemma InsideWithinBoxAll(path: seq<Point>, xMin: int, xMax: int, yMin: int, yMax: int)
    requires Bounds(path, xMin, xMax, yMin, yMax)
    ensures forall x, y :: Inside(path, x, y) ==> xMin <= x < xMax && yMin <= y < yMax
  {
    forall x, y | Inside(path, x, y)
      ensures xMin <= x < xMax && yMin <= y < yMax
    {
      InsideWithinBox(path, xMin, xMax, yMin, yMax, x, y);
    }
  }

  /** A run of the scan lies inside the box. */
  lemma MaximalRunWithinBox(path: seq<Point>, xMin: int, xMax: int, yMin: int, yMax: int, s: Segment)
    requires Bounds(path, xMin, xMax, yMin, yMax)
    requires MaximalRun(path, s)
    ensures xMin <= s.startX && s.endX < xMax && yMin <= s.y < yMax
  {
    InsideWithinBox(path, xMin, xMax, yMin, yMax, s.startX, s.y);
    InsideWithinBox(path, xMin, xMax, yMin, yMax, s.endX, s.y);
  }

  /** With no edge crossed, the parity stays even. */
  lemma {:induction false} ParityNoToggle(path: seq<Point>, k: nat, tx: int, ty: int)
    requires k <= |path|
    requires forall j :: 0 <= j < |path| ==> !Toggles(path[j], path[Prev(|path|, j)], tx, ty)
    ensures !Parity(path, k, tx, ty)
  {
    if k > 0 {
      ParityNoToggle(path, k - 1, tx, ty);
    }
  }

  /** When every straddling edge is crossed, the parity after k edges says
      whether vertex k - 1 and the last vertex lie on different sides of the
      row: the crossings telescope around the closed path. */
  lemma {:induction false} ParityAllToggle(path: seq<Point>, k: nat, tx: int, ty: int)
    requires 1 <= k <= |path|
    requires forall j :: 0 <= j < |path| ==>
      Toggles(path[j], path[Prev(|path|, j)], tx, ty) == Straddles(path[j], path[Prev(|path|, j)], ty)
    ensures Parity(path, k, tx, ty) == ((path[k - 1].y > ty) != (path[|path| - 1].y > ty))
  {
    if k > 1 {
      ParityAllToggle(path, k - 1, tx, ty);
    }
  }

  /** The crossing abscissa lies between the x coordinates of the edge's ends. */
  lemma RayXBetween(va: Point, vb: Point, ty: int)
    requires Straddles(va, vb, ty)
    ensures RayX(va, vb, ty) >= (if va.x <= vb.x then va.x else vb.x) as real
    ensures RayX(va, vb, ty) <= (if va.x <= vb.x then vb.x else va.x) as real
  {
    var dx, n, dy := (vb.x - va.x) as real, (ty - va.y) as real, (vb.y - va.y) as real;
    var t := n / dy;
    UnitRatio(n, dy);
    MulDiv(dx, n, dy);
    assert RayX(va, vb, ty) == dx * t + va.x as real;
    if dx >= 0.0 {
      ScaleUnit(dx, t);
    } else {
      ScaleUnit(-dx, t);
      NegatedProduct(dx, t);
    }
  }

  /** The fraction of the way along the edge at which the row is met lies in [0, 1]. */
  lemma UnitRatio(n: real, dy: real)
    requires (dy > 0.0 && 0.0 <= n < dy) || (dy < 0.0 && dy <= n < 0.0)
    ensures 0.0 <= n / dy <= 1.0
  {
    var t := n / dy;
    QuotientTimes(n, dy);
    if dy > 0.0 {
      BetweenScaledUp(0.0, 1.0, t, dy, n);
    } else {
      BetweenScaledDown(0.0, 1.0, t, dy, n);
    }
  }

  lemma QuotientTimes(n: real, d: real)
    requires d != 0.0
    ensures (n / d) * d == n
  {
  }

  lemma MulDiv(a: real, n: real, d: real)
    requires d != 0.0
    ensures a * n / d == a * (n / d)
  {
  }

  lemma NegatedProduct(c: real, t: real)
    ensures (-c) * t == -(c * t)
  {
  }

  /** Scaling a non-negative c by t in [0, 1] lands between 0 and c. */
  lemma ScaleUnit(c: real, t: real)
    requires c >= 0.0 && 0.0 <= t <= 1.0
    ensures 0.0 <= c * t <= c
  {
    assert c - c * t == c * (1.0 - t);
  }

  /** In the square with corners (0, 0) and (10, 10), the ray from the centre
      crosses only the right-hand edge, so the centre is inside; a pixel to
      the right of the square crosses no edge and is outside. */
  lemma SquareInsideOutside(path: seq<Point>)
    requires path == [Point(0, 0), Point(10, 0), Point(10, 10), Point(0, 10)]
    ensures Inside(path, 5, 5)
    ensures !Inside(path, 15, 5)
  {
    assert RayX(path[0], path[3], 5) == 0.0 && RayX(path[2], path[1], 5) == 10.0;
    assert !Straddles(path[1], path[0], 5) && !Straddles(path[3], path[2], 5);
    forall tx | tx == 5 || tx == 15
      ensures Parity(path, 4, tx, 5) == (tx < 10)
    {
      assert !Parity(path, 1, tx, 5);
      assert !Parity(path, 2, tx, 5);
      assert Parity(path, 3, tx, 5) == (tx < 10);
    }
  }
}
