# Image region selector, modelled in Dafny

The image region selector is a small JavaScript component. It draws on a
`<div>` that holds an image and lets the user trace a polygon on it, one
click at a time. It draws:

- a tiny cross for the first point;
- a line between each pair of consecutive points;
- from the third point on, a "virtual" closing line from the first point to
  the last.

The last point can be taken back. The finished path can be checked for
validity: at least three points, and no two edges crossing. A valid path
can be turned into horizontal pixel runs ("scan lines") with a
crossing-number inclusion test.

The model has five modules:

- `Geometry` covers `lines_cross`, the parametric segment intersection
  test with a tolerance band that excludes end points. The guard
  `! Math.abs(denom) <= tol` is modelled as JavaScript parses it:
  `(!Math.abs(denom)) <= tol`. It is taken exactly when the denominator is
  non-zero. For integer coordinates this is proved to be the same as the
  intended `Math.abs(denom) > tol`.
- `Polygon` covers `path_not_a_polygon`. The nested loop is a method,
  proved against a specification of the verdict. Lemmas show that the
  pairs the loop visits find every crossing, and that edges sharing an
  end point never count. The bowtie is rejected and the square accepted.
- `Raster` covers `area_pixel_ranges`. It has the bounding box loop, the
  per-pixel ray-casting test (each vertex paired with its predecessor,
  vertex 0 with the last one) and the row-by-row run scan. The scan is
  proved to cover exactly the inside pixels, with maximal runs, in row
  then column order, never touching.
- `PathModel` is the drawing state as a value. Handles map to the lines
  on the page. The module has the transitions of `add_path_point` and
  `remove_last_path_point` and the invariant that keeps the page in step
  with the path. It proves the undo law: when the cross and the closing
  line are drawn in the current virtual colour and Z position, adding a
  point and removing it restores the picture.
- `Selector` is the selector object as a class whose fields are updated in
  place. Every method that needs the DOM node fails with the not-attached
  error when none is set. Every state-changing method is proved to move
  the fields exactly as the matching `PathModel` function says.

Coordinates are integers (click pixels). The intersection parameters `ua`
and `ub` and the ray's crossing abscissa are exact reals. The tolerance
`0.0001` is an exact real constant. The pixels of a drawn line are
abstracted to one entry in a map from handle to line (end points, colour,
Z position). The handle is taken from the `line_number` counter, which
only increases.

## Model

| member | source | states |
|---|---|---|
| Geometry.GuardAsWrittenMeansNonZero | webprog1/image_region_selector.js:200 | the guard `! Math.abs(denom) <= tol` is taken iff the denominator is non-zero |
| Geometry.GuardsAgreeOnIntegers | webprog1/image_region_selector.js:193-200 | for an integer denominator, the guard as written and the guard the comment describes (`Math.abs(denom) > tol`) agree |
| Geometry.ParallelNeverCross | webprog1/image_region_selector.js:193-212 | parallel or coincident segments (zero denominator) are never reported as crossing |
| Geometry.AxisParallelNeverCross | webprog1/image_region_selector.js:193-212 | two horizontal or two vertical segments never cross |
| Geometry.RatioInBandMeaning | webprog1/image_region_selector.js:202-207 | the division-free band test on numerator and denominator holds iff `tol <= n/d <= 1 - tol` |
| Geometry.LinesCrossMeaning | webprog1/image_region_selector.js:182-212 | lines_cross is true iff denom != 0 and both ua = UaNumer/denom and ub = UbNumer/denom lie in [tol, 1 - tol] |
| Geometry.CrossingIsIntersection | webprog1/image_region_selector.js:179-212 | a reported crossing is a common point of both segments, at parameters ua and ub inside the band |
| Geometry.IntersectionIsCrossing | webprog1/image_region_selector.js:179-212 | conversely, non-parallel segments that meet at band parameters on both are reported as crossing |
| Geometry.CrossIffProperIntersection | webprog1/image_region_selector.js:179-212 | crossing iff non-parallel and meeting at a point whose parameter lies in the band on both segments |
| Geometry.LinesCrossSymmetric | webprog1/image_region_selector.js:182-212 | swapping the two segments does not change the answer |
| Geometry.SharedEndpointNeverCross | webprog1/image_region_selector.js:179-181 | segments that share an end point are never reported as crossing |
| Geometry.SegmentNeverCrossesItself | webprog1/image_region_selector.js:365-378 | an edge compared with itself (jj = ii) never crosses |
| Polygon.Reason | webprog1/image_region_selector.js:355-357 | the message for an invalid path is non-empty, so it reads as true in JavaScript |
| Polygon.NatToString | webprog1/image_region_selector.js:356 | the point count is printed as decimal digits that spell it, with no leading zero |
| Polygon.PathNotAPolygon | webprog1/image_region_selector.js:350-383 | the nested ii/jj loop returns the verdict: too few points below three, otherwise edges cross iff some visited pair crosses |
| Polygon.VerdictOfMeaning | webprog1/image_region_selector.js:355-382 | too few points iff n < 3 (and the count is n); "Edges cross" iff n >= 3 and some two edges cross; polygon iff n >= 3 and none do |
| Polygon.AdjacentEdgesNeverCross | webprog1/image_region_selector.js:365-376 | an edge never crosses itself, the next edge, or (for the first edge) the closing edge |
| Polygon.VisitedPairsSuffice | webprog1/image_region_selector.js:359-380 | the pairs the loops visit (jj >= ii, closing edge never first) find a crossing iff any two edges cross |
| Polygon.OnlyNonAdjacentEdgesMatter | webprog1/image_region_selector.js:359-380 | the verdict depends only on pairs of non-adjacent edges (neither consecutive nor first against closing) |
| Polygon.TriangleIsPolygon | webprog1/image_region_selector.js:355-382 | any three points, collinear or not, form a valid polygon |
| Polygon.BowtieEdgesCross | webprog1/image_region_selector.js:359-380 | the self-crossing "bowtie" square is rejected with "Edges cross" |
| Polygon.SquareIsPolygon | webprog1/image_region_selector.js:355-382 | the square (0,0), (10,0), (10,10), (0,10) is a valid polygon |
| Raster.BoundingBox | webprog1/image_region_selector.js:398-416 | the running minima and maxima bound every vertex and each is attained by a vertex |
| Raster.PointInPolygon | webprog1/image_region_selector.js:431-443 | the toggle loop over edges (kk, kk - 1), with vertex 0 paired with the last, returns the crossing parity |
| Raster.ScanLines | webprog1/image_region_selector.js:427-456 | the runs cover exactly the inside pixels; each run is a maximal run of inside pixels on its row; runs come row by row, left to right, never touching |
| Raster.CoversAppend | webprog1/image_region_selector.js:450-451 | pushing a run adds exactly its pixels to the covered set |
| Raster.OrderedRunsDisjoint | webprog1/image_region_selector.js:444-452 | two runs of the output never share a pixel |
| Raster.InsideWithinBox | webprog1/image_region_selector.js:428-453 | every inside pixel lies in [x_min, x_max) x [y_min, y_max), so the last column and row are outside and every run opened in a row is closed in it |
| Raster.MaximalRunWithinBox | webprog1/image_region_selector.js:428-453 | every output run satisfies x_min <= start_x <= end_x <= x_max - 1 and y_min <= y <= y_max - 1 |
| Raster.ParityNoToggle | webprog1/image_region_selector.js:439-442 | when the ray crosses no edge the pixel is outside |
| Raster.ParityAllToggle | webprog1/image_region_selector.js:439-442 | when every straddling edge is crossed the parity telescopes round the closed path |
| Raster.RayXBetween | webprog1/image_region_selector.js:440 | the computed crossing abscissa lies between the x coordinates of the edge's ends |
| Raster.SquareInsideOutside | webprog1/image_region_selector.js:431-443 | in that square the centre (5, 5) is inside and (15, 5) is outside |
| PathModel.Initial | webprog1/image_region_selector.js:124-147 | the initial state has no points and no lines on the page, colours "Chartreuse" and "Red", Z position 1000, and satisfies the invariant |
| PathModel.Added | webprog1/image_region_selector.js:265-298 | add_path_point appends exactly (x, y) and leaves earlier points unchanged |
| PathModel.Removed | webprog1/image_region_selector.js:300-325 | remove_last_path_point drops exactly the last point, and changes nothing on an empty path |
| PathModel.AddedKeepsInv | webprog1/image_region_selector.js:265-298 | after an add: 2 cross handles iff 1 point else 0; n - 1 path lines, each live and joining its two points; closing line live and joining first to last iff n >= 3; handles fresh |
| PathModel.RemovedKeepsInv | webprog1/image_region_selector.js:300-325 | the same invariant holds after a removal |
| PathModel.InvRemovable | webprog1/image_region_selector.js:303-316 | under the invariant, every handle remove_last_path_point erases is live and the two erased together are distinct |
| PathModel.DrawnKeepsInv | webprog1/image_region_selector.js:224-254 | a line drawn through the public draw_line gets a fresh handle the path does not hold, and the invariant still holds |
| PathModel.ErasedOtherKeepsInv | webprog1/image_region_selector.js:256-263 | erasing a line the path does not hold keeps the invariant |
| PathModel.RemoveUndoesAdd | webprog1/image_region_selector.js:265-325 | when cross and closing line are in the current style, add then remove restores the points, every held line's end points, colour and Z, the other lines on the page, and the style |
| Selector.ImageRegionSelector.constructor | webprog1/image_region_selector.js:124-147 | a fresh selector is unattached, has the prototype's initial fields and satisfies the invariant |
| Selector.ImageRegionSelector.Attach | webprog1/image_region_selector.js:216-218 | sets the DOM node and nothing else |
| Selector.ImageRegionSelector.AttachedTo | webprog1/image_region_selector.js:220-222 | returns the DOM node set by attach |
| Selector.ImageRegionSelector.DrawLine | webprog1/image_region_selector.js:224-254 | fails unattached; otherwise bumps line_number, puts the line on the page under the new handle, returns that handle, and keeps the invariant |
| Selector.ImageRegionSelector.EraseLine | webprog1/image_region_selector.js:256-263 | fails unattached; takes a live line off the page; keeps the invariant when the path does not hold the handle |
| Selector.ImageRegionSelector.DrawTinyCross | webprog1/image_region_selector.js:150-170 | draws the bar (x - 4 .. x + 5, y) then the post (x, y - 4 .. y + 5) in the virtual colour and pushes both handles |
| Selector.ImageRegionSelector.EraseLastTinyCross | webprog1/image_region_selector.js:173-177 | pops both cross handles and erases their lines |
| Selector.ImageRegionSelector.LinesCross | webprog1/image_region_selector.js:182-212 | fails unattached; otherwise returns the Geometry crossing test |
| Selector.ImageRegionSelector.AddPathPoint | webprog1/image_region_selector.js:265-298 | fails unattached; otherwise moves the fields exactly as `Added` says and keeps the invariant |
| Selector.ImageRegionSelector.RemoveLastPathPoint | webprog1/image_region_selector.js:300-325 | fails unattached; otherwise moves the fields exactly as `Removed` says (nothing on an empty path) and keeps the invariant |
| Selector.ImageRegionSelector.SetPathLineColor | webprog1/image_region_selector.js:327-329 | changes only the path line colour; validity is unchanged |
| Selector.ImageRegionSelector.SetPathVirtualLineColor | webprog1/image_region_selector.js:331-333 | changes only the virtual line colour; validity is unchanged |
| Selector.ImageRegionSelector.SetPathZpos | webprog1/image_region_selector.js:335-337 | changes only the Z position; validity is unchanged |
| Selector.ImageRegionSelector.AreaVerticies | webprog1/image_region_selector.js:339-348 | returns a new sequence equal in length, order and coordinates to the path |
| Selector.ImageRegionSelector.PathNotAPolygon | webprog1/image_region_selector.js:350-383 | fails unattached; otherwise returns the verdict on the current path |
| Selector.ImageRegionSelector.AreaPixelRanges | webprog1/image_region_selector.js:385-457 | fails with the not-attached message when unattached; fails with the message "Invalid polygon: " plus the reason exactly when the path is not a polygon; otherwise returns runs that cover exactly the inside pixels, maximal and ordered |

## Left out

- The pixel painting of `draw_line` and the DOM removal of `erase_line`
  (`Math.sqrt`, `Math.round`, `createElement`, `appendChild`,
  `removeChild`). A drawn line is one map entry from handle to end points,
  colour and Z position.
- `Object.beget` instantiation and the sharing of the prototype's arrays
  between instances. The class has its own fields.
- The DOM node itself. It is an `Option<nat>` identity, and "attached"
  means a node is set.
- Floating-point rounding. Coordinates are integers, and `ua`, `ub` and the
  ray's crossing abscissa are exact reals.
- The undeclared globals of the source (`i`, `ii`, `jj`, `segment`).
- Selector.ImageRegionSelector.EraseLine: erasing a handle that is not on
  the page returns an `UnknownLine` error and changes nothing. In the
  source it throws a TypeError, or does nothing when the line had no
  pixels.
- Selector.ImageRegionSelector.EraseLastTinyCross: requires that both
  cross handles are on the page and distinct. The source pops and erases
  whatever is there.
- Selector.ImageRegionSelector.AddPathPoint and
  Selector.ImageRegionSelector.RemoveLastPathPoint: both require the
  invariant. Public `erase_line` calls on the path's own lines can break
  it, and the source then erases stale handles.
- Raster.BoundingBox: requires a non-empty path and starts from the first
  vertex. The source starts from plus and minus `Infinity`, which gives
  the same box for any non-empty path. The scan runs only on valid
  polygons, which have at least three points.
- Raster.ScanLines: requires a non-empty path for the same reason.
- The header comment of the source names the run fields `x_start` and
  `x_end`. The code writes `start_x` and `end_x`, which the model follows
  as `startX` and `endX`.
- The header comment says `attached_to` returns false before attach. The
  code returns the unset field, here `None`.
