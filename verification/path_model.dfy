/** The selector's drawing state as a value, and the state transitions of
    adding and removing path points. A drawn line is identified by the
    handle draw_line returns; the lines whose pixels are on the page are the
    `live` map from handle to line. The current path is drawn as one line per
    pair of consecutive points, a "virtual" closing line from the first point
    to the last once there are three points, and a tiny cross while
    there is exactly one point. */
module PathModel {
  import opened Geometry

  /** A line as handed to draw_line: end points, colour and Z position. */
  datatype Line = Line(p1: Point, p2: Point, color: string, z: int)

  /** Everything the selector remembers apart from the DOM node. */
  datatype Snapshot = Snapshot(
    lineNumber: int,          // last handle handed out
    live: map<int, Line>,     // lines whose pixels are on the page
    points: seq<Point>,       // the current path
    pathLines: seq<int>,      // handle of the line from point i to point i + 1
    crossLines: seq<int>,     // handles of the tiny cross at the only point
    closeLine: int,           // handle of the closing line (stale below three points)
    lineColor: string,
    virtualColor: string,
    zpos: int)

  /** The prototype's initial field values. */
  function Initial(): (s: Snapshot)
    ensures Inv(s)
    ensures s.points == [] && s.live == map[]
    ensures s.lineColor == "Chartreuse" && s.virtualColor == "Red" && s.zpos == 1000
  {
    Snapshot(0, map[], [], [], [], -1, "Chartreuse", "Red", 1000)
  }

  /** draw_line: the next handle is taken and the line's pixels go on the page. */
  function Drawn(s: Snapshot, l: Line): Snapshot
  {
    s.(lineNumber := s.lineNumber + 1, live := s.live[s.lineNumber + 1 := l])
  }

  /** erase_line: the line's pixels leave the page. */
  function Erased(s: Snapshot, h: int): Snapshot
  {
    s.(live := s.live - {h})
  }

  /** The horizontal stroke of the tiny cross at p: x - 4 .. x + 5. */
  function CrossBar(p: Point, color: string, z: int): Line
  {
    Line(Point(p.x - 4, p.y), Point(p.x + 5, p.y), color, z)
  }

  /** The vertical stroke of the tiny cross at p: y - 4 .. y + 5. */
  function CrossPost(p: Point, color: string, z: int): Line
  {
    Line(Point(p.x, p.y - 4), Point(p.x, p.y + 5), color, z)
  }

  /** draw_tiny_cross: bar, then post, in the virtual line colour; both
      handles are pushed onto the cross lines. */
  function WithCross(s: Snapshot, p: Point): Snapshot
  {
    var s1 := Drawn(s, CrossBar(p, s.virtualColor, s.zpos));
    var s2 := Drawn(s1, CrossPost(p, s.virtualColor, s.zpos));
    s2.(crossLines := s.crossLines + [s1.lineNumber, s2.lineNumber])
  }

  /** erase_last_tiny_cross: pop and erase the last two cross handles. */
  function WithoutCross(s: Snapshot): Snapshot
    requires |s.crossLines| >= 2
  {
    var n := |s.crossLines|;
    var s1 := Erased(s, s.crossLines[n - 1]);
    Erased(s1, s.crossLines[n - 2]).(crossLines := s.crossLines[..n - 2])
  }

  /** Draw the virtual line from the first point to p and remember its handle. */
  function Closing(s: Snapshot, p: Point): Snapshot
    requires |s.points| >= 1
  {
    Drawn(s, Line(s.points[0], p, s.virtualColor, s.zpos)).(closeLine := s.lineNumber + 1)
  }

  /** Draw the path line from p1 to p2 and push its handle. */
  function Extended(s: Snapshot, p1: Point, p2: Point): Snapshot
  {
    Drawn(s, Line(p1, p2, s.lineColor, s.zpos)).(pathLines := s.pathLines + [s.lineNumber + 1])
  }

  /** Pop the last path line's handle and erase it. */
  function Shortened(s: Snapshot): Snapshot
    requires |s.pathLines| >= 1
  {
    var n := |s.pathLines|;
    Erased(s, s.pathLines[n - 1]).(pathLines := s.pathLines[..n - 1])
  }

  /** add_path_point(x, y). */
  function Added(s: Snapshot, x: int, y: int): (r: Snapshot)
    requires Shaped(s)
    ensures Shaped(r)
    ensures r.points == s.points + [Point(x, y)]
  {
    var n := |s.points|;
    var p2 := Point(x, y);
    if n == 0 then
      WithCross(s, p2).(points := s.points + [p2])
    else
      var s1 := if n == 1 then WithoutCross(s) else s;
      var s2 := if n > 2 then Erased(s1, s1.closeLine) else s1;
      var s3 := if n > 1 then Closing(s2, p2) else s2;
      var s4 := s3.(points := s3.points + [p2]);
      Extended(s4, s.points[n - 1], p2)
  }

  /** remove_last_path_point(): nothing happens on an empty path. */
  function Removed(s: Snapshot): (r: Snapshot)
    requires Shaped(s)
    ensures Shaped(r)
    ensures |s.points| == 0 ==> r == s
    ensures |s.points| > 0 ==> r.points == s.points[..|s.points| - 1]
  {
    var n := |s.points|;
    if n == 0 then s
    else
      var s0 := s.(points := s.points[..n - 1]);
      var s1 := if n == 1 then WithoutCross(s0) else s0;
      var s2 := if n == 2 then WithCross(s1, s1.points[0]) else s1;
      var s3 := if n >= 2 then Shortened(s2) else s2;
      var s4 := if n >= 3 then Erased(s3, s3.closeLine) else s3;
      if n >= 4 then Closing(s4, s4.points[n - 2]) else s4
  }

  predicate Joins(l: Line, a: Point, b: Point)
  {
    l.p1 == a && l.p2 == b
  }

  /** The path holds one line per pair of consecutive points, and a cross
      of two lines exactly while it has one point. */
  predicate Shaped(s: Snapshot)
  {
    var n := |s.points|;
    |s.crossLines| == (if n == 1 then 2 else 0) &&
    |s.pathLines| == (if n == 0 then 0 else n - 1)
  }

  /** Every live handle, and the closing line's, has been handed out, so
      the next one is fresh. */
  predicate Fresh(s: Snapshot)
  {
    s.lineNumber >= 0 && s.closeLine <= s.lineNumber &&
    forall h :: h in s.live ==> 1 <= h <= s.lineNumber
  }

  /** Path line i is on the page and joins point i to point i + 1; the
      handles increase along the path, so none is used twice. */
  predicate PathDrawn(s: Snapshot)
  {
    (forall i :: 0 <= i < |s.pathLines| && i + 1 < |s.points| ==>
      s.pathLines[i] in s.live && Joins(s.live[s.pathLines[i]], s.points[i], s.points[i + 1])) &&
    (forall i, j :: 0 <= i < j < |s.pathLines| ==> s.pathLines[i] < s.pathLines[j])
  }

  /** From three points on, the closing line is on the page and joins the
      first point to the last; below three points it is not on the page. */
  predicate CloseDrawn(s: Snapshot)
  {
    var n := |s.points|;
    (n >= 3 ==>
      s.closeLine in s.live && s.closeLine !in s.pathLines &&
      Joins(s.live[s.closeLine], s.points[0], s.points[n - 1])) &&
    (n < 3 ==> s.closeLine !in s.live)
  }

  /** With one point, the tiny cross is on the page, centred on it. */
  predicate CrossDrawn(s: Snapshot)
  {
    |s.points| == 1 && |s.crossLines| == 2 ==>
      var p, c := s.points[0], s.crossLines;
      c[0] in s.live && c[1] in s.live && c[0] < c[1] &&
      Joins(s.live[c[0]], Point(p.x - 4, p.y), Point(p.x + 5, p.y)) &&
      Joins(s.live[c[1]], Point(p.x, p.y - 4), Point(p.x, p.y + 5))
  }

  /** What the page shows of the path is in step with the path. */
  predicate Inv(s: Snapshot)
  {
    Shaped(s) && Fresh(s) && PathDrawn(s) && CloseDrawn(s) && CrossDrawn(s)
  }

  /** Adding a point keeps the drawing in step with the path. */
  lemma AddedKeepsInv(s: Snapshot, x: int, y: int)
    requires Inv(s)
    ensures Inv(Added(s, x, y))
  {
    var n := |s.points|;
    if n == 0 {
    } else if n == 1 {
      AddedSecondKeepsInv(s, x, y);
    } else {
      AddedLaterKeepsInv(s, x, y);
    }
  }

  lemma AddedSecondKeepsInv(s: Snapshot, x: int, y: int)
    requires Inv(s) && |s.points| == 1
    ensures Inv(Added(s, x, y))
  {
    var s1 := WithoutCross(s);
    var s4 := s1.(points := s1.points + [Point(x, y)]);
    assert Added(s, x, y) == Extended(s4, s.points[0], Point(x, y));
  }

  lemma AddedLaterKeepsInv(s: Snapshot, x: int, y: int)
    requires Inv(s) && |s.points| >= 2
    ensures Inv(Added(s, x, y))
  {
    var n := |s.points|;
    var s2 := if n > 2 then Erased(s, s.closeLine) else s;
    if n > 2 {
      ErasedKeepsPath(s, s.closeLine);
    }
    assert Added(s, x, y) == ClosedAndExtended(s2, x, y);
    ClosedAndExtendedKeepsInv(s2, x, y);
  }

  /** The last three steps of add_path_point from two points on: draw the
      new closing line, append the point, draw the path line to it. */
  function ClosedAndExtended(s: Snapshot, x: int, y: int): Snapshot
    requires |s.points| >= 1
  {
    var p2 := Point(x, y);
    var s3 := Closing(s, p2);
    Extended(s3.(points := s3.points + [p2]), s.points[|s.points| - 1], p2)
  }

  /** With the old closing line off the page, the last three steps of
      add_path_point restore the invariant. */
  lemma ClosedAndExtendedKeepsInv(s: Snapshot, x: int, y: int)
    requires Shaped(s) && Fresh(s) && PathDrawn(s) && |s.points| >= 2
    ensures Inv(ClosedAndExtended(s, x, y))
  {
    var n := |s.points|;
    var p2 := Point(x, y);
    var s3 := Closing(s, p2);
    DrawnKeepsPath(s, Line(s.points[0], p2, s.virtualColor, s.zpos));
    var r := ClosedAndExtended(s, x, y);
    ExtendedKeepsPath(s3, p2);
    assert r.closeLine == s.lineNumber + 1 && r.lineNumber == s.lineNumber + 2;
    assert r.live[s.lineNumber + 1] == Line(s.points[0], p2, s.virtualColor, s.zpos);
    assert r.pathLines == s.pathLines + [s.lineNumber + 2];
    forall i | 0 <= i < |s.pathLines|
      ensures s.pathLines[i] <= s.lineNumber
    {
      assert s.pathLines[i] in s.live;
    }
    assert s.lineNumber + 1 !in r.pathLines;
    assert CloseDrawn(r);
  }

  /** Erasing a line the path lines do not use keeps them drawn. */
  lemma ErasedKeepsPath(s: Snapshot, h: int)
    requires Fresh(s) && PathDrawn(s) && h !in s.pathLines
    ensures Fresh(Erased(s, h)) && PathDrawn(Erased(s, h))
  {
    var t := Erased(s, h);
    forall i | 0 <= i < |t.pathLines| && i + 1 < |t.points|
      ensures t.pathLines[i] in t.live && Joins(t.live[t.pathLines[i]], t.points[i], t.points[i + 1])
    {
      assert s.pathLines[i] != h;
    }
  }

  /** Drawing a line under a fresh handle keeps the path lines drawn. */
  lemma DrawnKeepsPath(s: Snapshot, l: Line)
    requires Fresh(s) && PathDrawn(s)
    ensures Fresh(Drawn(s, l)) && PathDrawn(Drawn(s, l))
    ensures Drawn(s, l).live[s.lineNumber + 1] == l
  {
    var t := Drawn(s, l);
    forall i | 0 <= i < |t.pathLines| && i + 1 < |t.points|
      ensures t.pathLines[i] in t.live && Joins(t.live[t.pathLines[i]], t.points[i], t.points[i + 1])
    {
      assert s.pathLines[i] in s.live;
    }
  }

  /** Appending a point and drawing the line to it from the old last point
      extends a drawn path to a drawn path. */
  lemma ExtendedKeepsPath(s: Snapshot, p2: Point)
    requires Fresh(s) && PathDrawn(s) && |s.points| >= 1 && |s.pathLines| + 1 == |s.points|
    ensures var t := Extended(s.(points := s.points + [p2]), s.points[|s.points| - 1], p2);
      Fresh(t) && PathDrawn(t) && |t.pathLines| + 1 == |t.points| &&
      t.live[t.pathLines[|t.pathLines| - 1]] == Line(s.points[|s.points| - 1], p2, s.lineColor, s.zpos) &&
      (forall h :: h in s.live ==> h in t.live && t.live[h] == s.live[h])
  {
    var n := |s.points|;
    var u := s.(points := s.points + [p2]);
    var t := Extended(u, s.points[n - 1], p2);
    forall i | 0 <= i < |t.pathLines| && i + 1 < |t.points|
      ensures t.pathLines[i] in t.live && Joins(t.live[t.pathLines[i]], t.points[i], t.points[i + 1])
    {
      if i < |s.pathLines| {
        assert s.pathLines[i] in s.live;
        assert t.points[i] == s.points[i] && t.points[i + 1] == s.points[i + 1];
      }
    }
    forall i, j | 0 <= i < j < |t.pathLines|
      ensures t.pathLines[i] < t.pathLines[j]
    {
      if j == |s.pathLines| {
        assert s.pathLines[i] in s.live;
      }
    }
  }

  /** Every handle add_path_point erases is on the page, and the two cross
      handles are distinct. */
  predicate Addable(s: Snapshot)
  {
    var n := |s.points|;
    Shaped(s) &&
    (n == 1 ==> s.crossLines[0] in s.live && s.crossLines[1] in s.live &&
                s.crossLines[0] != s.crossLines[1]) &&
    (n > 2 ==> s.closeLine in s.live)
  }

  /** A path in step with its drawing can take another point. */
  lemma InvAddable(s: Snapshot)
    requires Inv(s)
    ensures Addable(s)
  {
  }

  /** Added, one statement of add_path_point at a time, for a non-empty path. */
  lemma AddedInSteps(s: Snapshot, x: int, y: int, s1: Snapshot, s2: Snapshot,
                     s3: Snapshot, s4: Snapshot, t: Snapshot)
    requires Shaped(s) && |s.points| >= 1
    requires |s.points| == 1 ==> s1 == WithoutCross(s)
    requires |s.points| != 1 ==> s1 == s
    requires |s.points| > 2 ==> s2 == Erased(s1, s1.closeLine)
    requires |s.points| <= 2 ==> s2 == s1
    requires |s.points| > 1 ==> |s2.points| >= 1 && s3 == Closing(s2, Point(x, y))
    requires |s.points| <= 1 ==> s3 == s2
    requires s4 == s3.(points := s3.points + [Point(x, y)])
    requires t == Extended(s4, s.points[|s.points| - 1], Point(x, y))
    ensures t == Added(s, x, y)
  {
  }

  /** A line drawn through the public draw_line takes a fresh handle and
      leaves the path's drawing alone. */
  lemma DrawnKeepsInv(s: Snapshot, l: Line)
    requires Inv(s)
    ensures Inv(Drawn(s, l))
    ensures Other(Drawn(s, l), s.lineNumber + 1)
  {
    var t := Drawn(s, l);
    DrawnKeepsPath(s, l);
    assert s.lineNumber + 1 !in s.live;
    forall i | 0 <= i < |s.pathLines|
      ensures s.pathLines[i] != s.lineNumber + 1
    {
      assert |s.pathLines| < |s.points|;
      assert s.pathLines[i] in s.live;
    }
  }

  /** Erasing a line the path does not hold leaves the path's drawing alone. */
  lemma ErasedOtherKeepsInv(s: Snapshot, h: int)
    requires Inv(s) && !Held(s, h)
    ensures Inv(Erased(s, h))
  {
    ErasedKeepsPath(s, h);
  }

  /** Every handle remove_last_path_point erases is on the page, and the
      two it may erase are distinct. */
  predicate Removable(s: Snapshot)
  {
    var n := |s.points|;
    n >= 1 && Shaped(s) &&
    (n == 1 ==> s.crossLines[0] in s.live && s.crossLines[1] in s.live &&
                s.crossLines[0] != s.crossLines[1]) &&
    (n >= 2 ==> s.pathLines[n - 2] in s.live) &&
    (n >= 3 ==> s.closeLine in s.live && s.closeLine != s.pathLines[n - 2])
  }

  /** A path of at least one point in step with its drawing can lose its
      last point. */
  lemma InvRemovable(s: Snapshot)
    requires Inv(s) && |s.points| >= 1
    ensures Removable(s)
  {
    var n := |s.points|;
    if n >= 2 {
      assert n - 2 + 1 < n;
    }
  }

  /** Removed, one statement of remove_last_path_point at a time, for a
      non-empty path. */
  lemma RemovedInSteps(s: Snapshot, s0: Snapshot, s1: Snapshot, s2: Snapshot,
                       s3: Snapshot, s4: Snapshot, t: Snapshot)
    requires Shaped(s) && |s.points| >= 1
    requires s0 == s.(points := s.points[..|s.points| - 1])
    requires |s.points| == 1 ==> s1 == WithoutCross(s0)
    requires |s.points| != 1 ==> s1 == s0
    requires |s.points| == 2 ==> s2 == WithCross(s1, s1.points[0])
    requires |s.points| != 2 ==> s2 == s1
    requires |s.points| >= 2 ==> |s2.pathLines| >= 1 && s3 == Shortened(s2)
    requires |s.points| < 2 ==> s3 == s2
    requires |s.points| >= 3 ==> s4 == Erased(s3, s3.closeLine)
    requires |s.points| < 3 ==> s4 == s3
    requires |s.points| >= 4 ==> |s4.points| >= 1 && t == Closing(s4, s4.points[|s.points| - 2])
    requires |s.points| < 4 ==> t == s4
    ensures t == Removed(s)
  {
  }

  /** Removing a point keeps the drawing in step with the path. */
  lemma RemovedKeepsInv(s: Snapshot)
    requires Inv(s)
    ensures Inv(Removed(s))
  {
    var n := |s.points|;
    if n == 1 {
    } else if n == 2 {
      RemovedSecondKeepsInv(s);
    } else if n >= 3 {
      RemovedLaterKeepsInv(s);
    }
  }

  lemma RemovedSecondKeepsInv(s: Snapshot)
    requires Inv(s) && |s.points| == 2
    ensures Inv(Removed(s))
  {
  }

  lemma RemovedLaterKeepsInv(s: Snapshot)
    requires Inv(s) && |s.points| >= 3
    ensures Inv(Removed(s))
  {
  }

  /** The path holds handle h: one of its path lines, one of its cross
      lines or, from three points on, its closing line. */
  predicate Held(s: Snapshot, h: int)
  {
    h in s.pathLines || h in s.crossLines || (|s.points| >= 3 && h == s.closeLine)
  }

  /** A line on the page that the path does not hold: one drawn through the
      public draw_line. */
  predicate Other(s: Snapshot, h: int)
  {
    h in s.live && !Held(s, h)
  }

  /** The cross and the closing line are drawn in the current virtual colour
      at the current Z position, as they would be if drawn now. */
  predicate VirtualInStyle(s: Snapshot)
    requires Inv(s)
  {
    var n := |s.points|;
    (n == 1 ==>
      s.live[s.crossLines[0]] == CrossBar(s.points[0], s.virtualColor, s.zpos) &&
      s.live[s.crossLines[1]] == CrossPost(s.points[0], s.virtualColor, s.zpos)) &&
    (n >= 3 ==> s.live[s.closeLine].color == s.virtualColor && s.live[s.closeLine].z == s.zpos)
  }

  /** Two states show the same picture: the same path, each held handle
      drawing the same line, the same other lines, the same style. Handle
      numbers may differ. */
  ghost predicate SameDrawing(s: Snapshot, t: Snapshot)
  {
    Inv(s) && Inv(t) && t.points == s.points &&
    (forall i :: 0 <= i < |s.pathLines| ==> t.live[t.pathLines[i]] == s.live[s.pathLines[i]]) &&
    (forall i :: 0 <= i < |s.crossLines| ==> t.live[t.crossLines[i]] == s.live[s.crossLines[i]]) &&
    (|s.points| >= 3 ==> t.live[t.closeLine] == s.live[s.closeLine]) &&
    (forall h :: Other(t, h) <==> Other(s, h)) &&
    (forall h :: Other(s, h) ==> t.live[h] == s.live[h]) &&
    t.lineColor == s.lineColor && t.virtualColor == s.virtualColor && t.zpos == s.zpos
  }

  /** Removing the point just added restores the picture: the undo the
      editor offers. The cross and the closing line it redraws use the
      current style, so they match when the old ones were drawn in it. */
  lemma RemoveUndoesAdd(s: Snapshot, x: int, y: int)
    requires Inv(s) && VirtualInStyle(s)
    ensures SameDrawing(s, Removed(Added(s, x, y)))
  {
    var n := |s.points|;
    if n == 0 {
      UndoFirst(s, x, y);
    } else if n == 1 {
      UndoSecond(s, x, y);
    } else if n == 2 {
      UndoThird(s, x, y);
    } else {
      UndoLater(s, x, y);
    }
  }

  lemma UndoFirst(s: Snapshot, x: int, y: int)
    requires Inv(s) && |s.points| == 0
    ensures SameDrawing(s, Removed(Added(s, x, y)))
  {
    AddedKeepsInv(s, x, y);
    RemovedKeepsInv(Added(s, x, y));
  }

  lemma UndoSecond(s: Snapshot, x: int, y: int)
    requires Inv(s) && VirtualInStyle(s) && |s.points| == 1
    ensures SameDrawing(s, Removed(Added(s, x, y)))
  {
    AddedKeepsInv(s, x, y);
    RemovedKeepsInv(Added(s, x, y));
  }

  lemma UndoThird(s: Snapshot, x: int, y: int)
    requires Inv(s) && |s.points| == 2
    ensures SameDrawing(s, Removed(Added(s, x, y)))
  {
    AddedKeepsInv(s, x, y);
    RemovedKeepsInv(Added(s, x, y));
  }

  lemma UndoLater(s: Snapshot, x: int, y: int)
    requires Inv(s) && VirtualInStyle(s) && |s.points| >= 3
    ensures SameDrawing(s, Removed(Added(s, x, y)))
  {
    AddedKeepsInv(s, x, y);
    RemovedKeepsInv(Added(s, x, y));
  }
}
