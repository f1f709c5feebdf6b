/** The image region selector object: its fields, updated in place, and its
    operations. Every operation that needs the DOM node fails with the
    not-attached error when none is set and then changes nothing. */
module Selector {
  import opened Geometry
  import opened PathModel
  import Polygon
  import Raster

  datatype Option<T> = None | Some(value: T)

  /** Why an operation throws. */
  datatype Error =
    | NotAttached               // no DOM node set
    | UnknownLine(handle: int)  // erase of a handle whose pixels are not on the page
    | InvalidPolygon(reason: string)

  datatype Result<T> = Ok(value: T) | Fail(error: Error)

  const NotAttachedMessage: string := "image DOM node not set.  Maybe you didn't call attach()?"

  /** The string the source throws for each error it throws itself. */
  function Message(e: Error): string
    requires !e.UnknownLine?
  {
    match e
    case NotAttached => NotAttachedMessage
    case InvalidPolygon(reason) => "Invalid polygon: " + reason
  }

  class ImageRegionSelector {
    /** The DOM node drawn on, by identity; None until attach. */
    var container: Option<nat>
    var lineNumber: int
    var live: map<int, Line>
    var pathPoints: seq<Point>
    var pathLines: seq<int>
    var crossLines: seq<int>
    var oldCloseLine: int
    var lineColor: string
    var virtualLineColor: string
    var zpos: int

    /** The fields as a value of the state model. */
    function State(): Snapshot
      reads this
    {
      Snapshot(lineNumber, live, pathPoints, pathLines, crossLines, oldCloseLine,
               lineColor, virtualLineColor, zpos)
    }

    predicate Valid()
      reads this
    {
      Inv(State())
    }

    /** A fresh instance with the prototype's initial values. */
    constructor ()
      ensures container == None
      ensures State() == Initial()
      ensures Valid()
    {
      container := None;
      lineNumber := 0;
      live := map[];
      pathPoints := [];
      pathLines := [];
      crossLines := [];
      oldCloseLine := -1;
      lineColor := "Chartreuse";
      virtualLineColor := "Red";
      zpos := 1000;
    }

    method Attach(node: Option<nat>)
      modifies this
      ensures container == node
      ensures State() == old(State())
    {
      container := node;
    }

    method AttachedTo() returns (node: Option<nat>)
      ensures node == container
    {
      node := container;
    }

    /** draw_line: a fresh handle, one more than the last. */
    method DrawLine(p1: Point, p2: Point, color: string, z: int) returns (r: Result<int>)
      modifies this
      ensures container == old(container)
      ensures old(container).None? ==> r == Fail(NotAttached) && State() == old(State())
      ensures old(container).Some? ==>
        r == Ok(old(lineNumber) + 1) && State() == Drawn(old(State()), Line(p1, p2, color, z))
      ensures old(Valid()) ==> Valid()
    {
      if container.None? {
        return Fail(NotAttached);
      }
      ghost var s := State();
      if Inv(s) {
        DrawnKeepsInv(s, Line(p1, p2, color, z));
      }
      lineNumber := lineNumber + 1;
      live := live[lineNumber := Line(p1, p2, color, z)];
      return Ok(lineNumber);
    }

    /** erase_line: takes the line's pixels off the page. */
    method EraseLine(h: int) returns (r: Result<()>)
      modifies this
      ensures container == old(container)
      ensures old(container).None? ==> r == Fail(NotAttached) && State() == old(State())
      ensures old(container).Some? && h in old(live) ==> r == Ok(()) && State() == Erased(old(State()), h)
      ensures old(container).Some? && h !in old(live) ==> r == Fail(UnknownLine(h)) && State() == old(State())
      ensures old(Valid()) && !Held(old(State()), h) ==> Valid()
    {
      if container.None? {
        return Fail(NotAttached);
      }
      ghost var s := State();
      if Inv(s) && !Held(s, h) {
        ErasedOtherKeepsInv(s, h);
      }
      if h !in live {
        return Fail(UnknownLine(h));
      }
      live := live - {h};
      return Ok(());
    }

    /** draw_tiny_cross: bar, then post, both pushed onto the cross lines. */
    method DrawTinyCross(point: Point) returns (r: Result<()>)
      modifies this
      ensures container == old(container)
      ensures old(container).None? ==> r == Fail(NotAttached) && State() == old(State())
      ensures old(container).Some? ==> r == Ok(()) && State() == WithCross(old(State()), point)
    {
      if container.None? {
        return Fail(NotAttached);
      }
      var px, py := point.x, point.y;
      var cty, cby := py - 4, py + 5;
      var clx, crx := px - 4, px + 5;
      var bar := DrawLine(Point(clx, py), Point(crx, py), virtualLineColor, zpos);
      crossLines := crossLines + [bar.value];
      var post := DrawLine(Point(px, cty), Point(px, cby), virtualLineColor, zpos);
      crossLines := crossLines + [post.value];
      return Ok(());
    }

    /** erase_last_tiny_cross: pop and erase the last two cross handles. Only
        called while the one-point cross is on the page. */
    method EraseLastTinyCross() returns (r: Result<()>)
      requires |crossLines| >= 2
      requires crossLines[|crossLines| - 1] in live && crossLines[|crossLines| - 2] in live
      requires crossLines[|crossLines| - 1] != crossLines[|crossLines| - 2]
      modifies this
      ensures container == old(container)
      ensures old(container).None? ==> r == Fail(NotAttached) && State() == old(State())
      ensures old(container).Some? ==> r == Ok(()) && State() == WithoutCross(old(State()))
    {
      if container.None? {
        return Fail(NotAttached);
      }
      var last := crossLines[|crossLines| - 1];
      crossLines := crossLines[..|crossLines| - 1];
      var _ := EraseLine(last);
      var first := crossLines[|crossLines| - 1];
      crossLines := crossLines[..|crossLines| - 1];
      var _ := EraseLine(first);
      return Ok(());
    }

    /** lines_cross, which also refuses to run before attach. */
    method LinesCross(a1: Point, a2: Point, b1: Point, b2: Point) returns (r: Result<bool>)
      ensures container.None? ==> r == Fail(NotAttached)
      ensures container.Some? ==> r.Ok? && (r.value <==> Geometry.LinesCross(a1, a2, b1, b2))
    {
      if container.None? {
        return Fail(NotAttached);
      }
      return Ok(Geometry.LinesCross(a1, a2, b1, b2));
    }

    /** add_path_point(x, y). */
    method AddPathPoint(x: int, y: int) returns (r: Result<()>)
      requires Valid()
      modifies this
      ensures Valid()
      ensures container == old(container)
      ensures old(container).None? ==> r == Fail(NotAttached) && State() == old(State())
      ensures old(container).Some? ==> r == Ok(()) && State() == Added(old(State()), x, y)
    {
      if container.None? {
        return Fail(NotAttached);
      }
      ghost var s := State();
      AddedKeepsInv(s, x, y);
      InvAddable(s);
      PushPathPoint(x, y);
      return Ok(());
    }

    /** The steps of add_path_point on an attached selector: take the cross
        away at the second point, redraw the closing line from the third,
        append the point and draw the path line to it; the first point gets
        the cross instead. */
    method PushPathPoint(x: int, y: int)
      requires container.Some? && Addable(State())
      modifies this
      ensures container == old(container)
      ensures State() == Added(old(State()), x, y)
    {
      ghost var s := State();
      var ppc := |pathPoints|;
      ghost var s1, s2, s3 := s, s, s;
      if ppc == 1 {
        var _ := EraseLastTinyCross();
        s1 := WithoutCross(s);
        assert State() == s1;
      }
      if ppc > 0 {
        var p1 := pathPoints[|pathPoints| - 1];
        var p2 := Point(x, y);
        s2, s3 := s1, s1;
        if ppc > 1 {
          if ppc > 2 {
            var _ := EraseLine(oldCloseLine);
            s2 := Erased(s1, s1.closeLine);
            assert State() == s2;
          }
          var closing := DrawLine(pathPoints[0], p2, virtualLineColor, zpos);
          oldCloseLine := closing.value;
          s3 := Closing(s2, p2);
          assert State() == s3;
        } else {
          s3 := s2;
        }
        pathPoints := pathPoints + [p2];
        ghost var s4 := State();
        assert s4 == s3.(points := s3.points + [p2]);
        var line := DrawLine(p1, p2, lineColor, zpos);
        pathLines := pathLines + [line.value];
        AddedInSteps(s, x, y, s1, s2, s3, s4, State());
      } else {
        var point := Point(x, y);
        var _ := DrawTinyCross(point);
        pathPoints := pathPoints + [point];
      }
    }

    /** remove_last_path_point(); does nothing to an empty path. */
    method RemoveLastPathPoint() returns (r: Result<()>)
      requires Valid()
      modifies this
      ensures Valid()
      ensures container == old(container)
      ensures old(container).None? ==> r == Fail(NotAttached) && State() == old(State())
      ensures old(container).Some? ==> r == Ok(()) && State() == Removed(old(State()))
    {
      if container.None? {
        return Fail(NotAttached);
      }
      ghost var s := State();
      RemovedKeepsInv(s);
      if |pathPoints| == 0 {
        // Popping an empty array changes nothing and no branch below applies.
        return Ok(());
      }
      InvRemovable(s);
      PopPathPoint();
      return Ok(());
    }

    /** The steps of remove_last_path_point on an attached selector with at
        least one point: pop the point, swap the cross back in or out, erase
        the last path line and the old closing line, draw the new one. */
    method PopPathPoint()
      requires container.Some? && Removable(State())
      modifies this
      ensures container == old(container)
      ensures State() == Removed(old(State()))
    {
      ghost var s := State();
      var ppc := |pathPoints|;
      pathPoints := pathPoints[..ppc - 1];
      ghost var s0 := State();
      ghost var s1, s2, s3, s4 := s0, s0, s0, s0;
      if ppc == 1 {
        var _ := EraseLastTinyCross();
        s1 := WithoutCross(s0);
        assert State() == s1;
      }
      s2 := s1;
      if ppc == 2 {
        var _ := DrawTinyCross(pathPoints[0]);
        s2 := WithCross(s1, s1.points[0]);
        assert State() == s2;
      }
      s3 := s2;
      if ppc >= 2 {
        var last := pathLines[|pathLines| - 1];
        pathLines := pathLines[..|pathLines| - 1];
        var _ := EraseLine(last);
        s3 := Shortened(s2);
        assert State() == s3;
      }
      s4 := s3;
      if ppc >= 3 {
        var _ := EraseLine(oldCloseLine);
        s4 := Erased(s3, s3.closeLine);
        assert State() == s4;
      }
      ghost var t := s4;
      if ppc >= 4 {
        var closing := DrawLine(pathPoints[0], pathPoints[ppc - 2], virtualLineColor, zpos);
        oldCloseLine := closing.value;
        t := Closing(s4, s4.points[ppc - 2]);
        assert State() == t;
      }
      RemovedInSteps(s, s0, s1, s2, s3, s4, t);
    }

    method SetPathLineColor(color: string)
      modifies this
      ensures container == old(container)
      ensures State() == old(State()).(lineColor := color)
      ensures Valid() == old(Valid())
    {
      lineColor := color;
    }

    method SetPathVirtualLineColor(color: string)
      modifies this
      ensures container == old(container)
      ensures State() == old(State()).(virtualColor := color)
      ensures Valid() == old(Valid())
    {
      virtualLineColor := color;
    }

    method SetPathZpos(z: int)
      modifies this
      ensures container == old(container)
      ensures State() == old(State()).(zpos := z)
      ensures Valid() == old(Valid())
    {
      zpos := z;
    }

    /** area_verticies: a copy of the path's points, point by point. */
    method AreaVerticies() returns (result: seq<Point>)
      ensures result == pathPoints
    {
      result := [];
      var ii := 0;
      while ii < |pathPoints|
        invariant 0 <= ii <= |pathPoints|
        invariant result == pathPoints[..ii]
      {
        var current := pathPoints[ii];
        result := result + [Point(current.x, current.y)];
        ii := ii + 1;
      }
    }

    /** path_not_a_polygon: the verdict on the current path. */
    method PathNotAPolygon() returns (r: Result<Polygon.Verdict>)
      ensures container.None? ==> r == Fail(NotAttached)
      ensures container.Some? ==> r == Ok(Polygon.VerdictOf(pathPoints))
    {
      if container.None? {
        return Fail(NotAttached);
      }
      var v := Polygon.PathNotAPolygon(pathPoints);
      return Ok(v);
    }

    /** area_pixel_ranges: the scan lines of a valid polygon, or the reason
        it is not one. */
    method AreaPixelRanges() returns (r: Result<seq<Raster.Segment>>)
      ensures container.None? ==> r == Fail(NotAttached) && Message(r.error) == NotAttachedMessage
      ensures container.Some? && !Polygon.VerdictOf(pathPoints).IsPolygon? ==>
        r == Fail(InvalidPolygon(Polygon.Reason(Polygon.VerdictOf(pathPoints)))) &&
        Message(r.error) == "Invalid polygon: " + Polygon.Reason(Polygon.VerdictOf(pathPoints))
      ensures container.Some? && Polygon.VerdictOf(pathPoints).IsPolygon? ==>
        r.Ok? &&
        (forall x, y :: Raster.Covers(r.value, x, y) <==> Raster.Inside(pathPoints, x, y)) &&
        (forall i :: 0 <= i < |r.value| ==> Raster.MaximalRun(pathPoints, r.value[i])) &&
        Raster.Ordered(r.value)
    {
      if container.None? {
        return Fail(NotAttached);
      }
      var whyNot := PathNotAPolygon();
      if !whyNot.value.IsPolygon? {
        return Fail(InvalidPolygon(Polygon.Reason(whyNot.value)));
      }
      var ranges := Raster.ScanLines(pathPoints);
      return Ok(ranges);
    }
  }
}
