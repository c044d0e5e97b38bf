/**
  Plain geometry of the marquee selection: canvas-local pointer positions,
  the normalised selection box built from two points, and the strict
  overlap test between a note and the selection.
  Numbers are mathematical reals; a coordinate that the browser would
  compute as NaN is represented separately (Pointer.Coord, Box.NaNBox).
 */
module Geometry {

  /** An (x, y) pair: client (viewport) coordinates or canvas-local ones. */
  datatype Point = Point(x: real, y: real)

  /** The rendered bounding box of the SVG canvas, as getBoundingClientRect reports it. */
  datatype Canvas = Canvas(left: real, top: real, width: real, height: real) {
    /** The canvas has a non-empty rendered size, so normalising by it is defined. */
    predicate Rendered() { width > 0.0 && height > 0.0 }
  }

  /**
    The selection rectangle as drawSelection computes it, in units of the
    canvas size. NaNBox stands for a rectangle into which a NaN coordinate
    went: every comparison against it is false.
   */
  datatype Box = NaNBox | Box(x: real, y: real, width: real, height: real)

  /** Math.max(v, 0). */
  function Max0(v: real): (r: real)
    ensures r >= 0.0 && r >= v
    ensures r == v || r == 0.0
  {
    if v > 0.0 then v else 0.0
  }

  /** The pointer's offset from the canvas's top-left corner, clamped to be non-negative on each axis. */
  function CanvasLocal(client: Point, canvas: Canvas): (p: Point)
    ensures p.x >= 0.0 && p.y >= 0.0
    ensures client.x - canvas.left >= 0.0 ==> p.x == client.x - canvas.left
    ensures client.y - canvas.top >= 0.0 ==> p.y == client.y - canvas.top
    ensures client.x - canvas.left < 0.0 ==> p.x == 0.0
    ensures client.y - canvas.top < 0.0 ==> p.y == 0.0
  {
    Point(Max0(client.x - canvas.left), Max0(client.y - canvas.top))
  }

  function Min(a: real, b: real): real { if a <= b then a else b }
  function Max(a: real, b: real): real { if a <= b then b else a }

  /** The point scaled to units of the canvas size. */
  function Normalised(p: Point, canvas: Canvas): Point
    requires canvas.Rendered()
  {
    Point(p.x / canvas.width, p.y / canvas.height)
  }

  /** The closed box contains the point. */
  predicate Covers(b: Box, p: Point)
    requires b.Box?
  {
    b.x <= p.x <= b.x + b.width && b.y <= p.y <= b.y + b.height
  }

  /**
    The selection box spanned by the session's start point and the current
    point: the two coordinates of each axis are sorted, the smaller one is the
    origin and their difference the extent, both divided by the canvas size.
    The result is the smallest box that covers both normalised points.
   */
  function SelectionBox(start: Point, current: Point, canvas: Canvas): (b: Box)
    requires canvas.Rendered()
    ensures b.Box? && b.width >= 0.0 && b.height >= 0.0
    ensures Covers(b, Normalised(start, canvas)) && Covers(b, Normalised(current, canvas))
    ensures b.x == Normalised(start, canvas).x || b.x == Normalised(current, canvas).x
    ensures b.y == Normalised(start, canvas).y || b.y == Normalised(current, canvas).y
    ensures b.x + b.width == Normalised(start, canvas).x || b.x + b.width == Normalised(current, canvas).x
    ensures b.y + b.height == Normalised(start, canvas).y || b.y + b.height == Normalised(current, canvas).y
  {
    var minX, maxX := Min(start.x, current.x), Max(start.x, current.x);
    var minY, maxY := Min(start.y, current.y), Max(start.y, current.y);
    DivideMonotone(minX, maxX, canvas.width);
    DivideMonotone(minY, maxY, canvas.height);
    Box(minX / canvas.width, minY / canvas.height,
        (maxX - minX) / canvas.width, (maxY - minY) / canvas.height)
  }

  /** Dividing by a positive number keeps the order and distributes over the difference. */
  lemma DivideMonotone(lo: real, hi: real, d: real)
    requires lo <= hi && d > 0.0
    ensures lo / d <= hi / d
    ensures (hi - lo) / d >= 0.0
    ensures lo / d + (hi - lo) / d == hi / d
  {
  }

  /** Swapping the start point and the current point yields the same selection box. */
  lemma SelectionBoxSymmetric(start: Point, current: Point, canvas: Canvas)
    requires canvas.Rendered()
    ensures SelectionBox(start, current, canvas) == SelectionBox(current, start, canvas)
  {
  }

  /**
    isRectangleInSelection: the note spans [left, right] x [top, bottom] and
    the selection [selLeft, selRight] x [selTop, selBottom]; the source's
    parameters named width and height are the right and bottom edges.
    All four comparisons are strict. For rectangles of positive width and
    height the test holds exactly when their open intervals intersect on
    both axes; it also holds for some degenerate ones (see
    ZeroWidthSelectionCanOverlap).
   */
  predicate IsRectangleInSelection(left: real, top: real, right: real, bottom: real,
                                   selLeft: real, selTop: real, selRight: real, selBottom: real): (r: bool)
    ensures left < right && top < bottom && selLeft < selRight && selTop < selBottom ==>
      (r <==> Max(left, selLeft) < Min(right, selRight) && Max(top, selTop) < Min(bottom, selBottom))
  {
    left < selRight && right > selLeft && top < selBottom && bottom > selTop
  }

  /** The overlap test does not depend on which rectangle is the note and which the selection. */
  lemma OverlapSymmetric(left: real, top: real, right: real, bottom: real,
                         selLeft: real, selTop: real, selRight: real, selBottom: real)
    ensures IsRectangleInSelection(left, top, right, bottom, selLeft, selTop, selRight, selBottom)
        == IsRectangleInSelection(selLeft, selTop, selRight, selBottom, left, top, right, bottom)
  {
  }

  /** Rectangles that only share a vertical or a horizontal edge do not overlap. */
  lemma SharedEdgeIsNoOverlap(left: real, top: real, right: real, bottom: real,
                              selLeft: real, selTop: real, selRight: real, selBottom: real)
    requires right == selLeft || selRight == left || bottom == selTop || selBottom == top
    ensures !IsRectangleInSelection(left, top, right, bottom, selLeft, selTop, selRight, selBottom)
  {
  }

  /** The point lies strictly inside the rectangle. */
  predicate Inside(p: Point, left: real, top: real, right: real, bottom: real)
  {
    left < p.x < right && top < p.y < bottom
  }

  /**
    For rectangles of positive width and height, the overlap test holds
    exactly when some point lies strictly inside both.
   */
  lemma OverlapIffCommonInterior(left: real, top: real, right: real, bottom: real,
                                 selLeft: real, selTop: real, selRight: real, selBottom: real)
    requires left < right && top < bottom && selLeft < selRight && selTop < selBottom
    ensures IsRectangleInSelection(left, top, right, bottom, selLeft, selTop, selRight, selBottom)
        <==> exists p: Point :: Inside(p, left, top, right, bottom) && Inside(p, selLeft, selTop, selRight, selBottom)
  {
    if IsRectangleInSelection(left, top, right, bottom, selLeft, selTop, selRight, selBottom) {
      var p := Point((Max(left, selLeft) + Min(right, selRight)) / 2.0,
                     (Max(top, selTop) + Min(bottom, selBottom)) / 2.0);
      assert Inside(p, left, top, right, bottom) && Inside(p, selLeft, selTop, selRight, selBottom);
    }
  }

  /**
    A selection of zero width still overlaps a note it crosses strictly
    inside: the test has no non-emptiness condition of its own.
   */
  lemma ZeroWidthSelectionCanOverlap()
    ensures IsRectangleInSelection(10.0, 10.0, 30.0, 30.0, 20.0, 0.0, 20.0, 40.0)
  {
  }

  /** A 20 x 20 note at (10, 10) and a selection at (0, 0) of size 15 x 15 overlap. */
  lemma CornerOverlapScenario()
    ensures IsRectangleInSelection(10.0, 10.0, 30.0, 30.0, 0.0, 0.0, 15.0, 15.0)
  {
  }

  /** The same note and a selection spanning 25..30 on both axes overlap: the selection lies inside the note. */
  lemma ContainedSelectionScenario()
    ensures IsRectangleInSelection(10.0, 10.0, 30.0, 30.0, 25.0, 25.0, 30.0, 30.0)
  {
  }

  /** The same note and a selection starting at its right edge do not overlap. */
  lemma TouchingEdgeScenario()
    ensures !IsRectangleInSelection(10.0, 10.0, 30.0, 30.0, 30.0, 10.0, 40.0, 30.0)
  {
  }
}
