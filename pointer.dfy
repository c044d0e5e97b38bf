/**
  The pointer events the display listens to, and getMousePosition: how a
  mouse or touch event becomes a canvas-local point.
 */
module Pointer {
  import opened Geometry

  /**
    The six event types wired on the main canvas. A mouse event carries its
    client position; a touch event carries its list of active touches
    (event.touches), each with a client position.
   */
  datatype Event =
    | MouseDown(client: Point)
    | MouseMove(client: Point)
    | MouseUp(client: Point)
    | TouchStart(touches: seq<Point>)
    | TouchMove(touches: seq<Point>)
    | TouchEnd(touches: seq<Point>)
  {
    predicate IsTouch() { TouchStart? || TouchMove? || TouchEnd? }
  }

  /**
    A stored {x, y} object: numbers, or NaN coordinates (what subtracting the
    canvas offset from a missing clientX gives).
   */
  datatype Coord = NaN | At(p: Point)

  /** What reading the pointer gives: a point, or a TypeError the handler does not catch. */
  datatype Reading = Throws | Read(c: Coord)

  /**
    getMousePosition. In touch mode the client position is that of the first
    touch; reading it from a mouse event (which has no touch list) or from an
    empty touch list throws. In mouse mode the event's own clientX/clientY is
    used; a touch event has none, so the result is NaN. The point is the
    offset from the canvas's top-left corner, clamped to zero on each axis.
   */
  function Position(mobile: bool, ev: Event, canvas: Canvas): (r: Reading)
    ensures r.Read? && r.c.At? ==> r.c.p.x >= 0.0 && r.c.p.y >= 0.0
    ensures r.Read? && r.c.At? ==> (mobile <==> ev.IsTouch())
    ensures r.Read? && r.c.At? && mobile ==> |ev.touches| > 0 && r.c.p == CanvasLocal(ev.touches[0], canvas)
    ensures r.Read? && r.c.At? && !mobile ==> r.c.p == CanvasLocal(ev.client, canvas)
    ensures r == Throws <==> mobile && !(ev.IsTouch() && |ev.touches| > 0)
    ensures !mobile && ev.IsTouch() ==> r == Read(NaN)
  {
    if mobile then
      if ev.IsTouch() && |ev.touches| > 0 then Read(At(CanvasLocal(ev.touches[0], canvas))) else Throws
    else
      if ev.IsTouch() then Read(NaN) else Read(At(CanvasLocal(ev.client, canvas)))
  }

  /**
    A position read without an exception is a point with non-negative
    coordinates, or NaN; a number is read exactly when the event kind matches
    the mode, and a touch-mode read uses the first touch exactly.
   */
  lemma PositionMatchesMode(mobile: bool, ev: Event, canvas: Canvas)
    ensures Position(mobile, ev, canvas).Read? && Position(mobile, ev, canvas).c.At?
        <==> (mobile == ev.IsTouch() && (mobile ==> |ev.touches| > 0))
    ensures mobile && Position(mobile, ev, canvas).Read? ==>
        Position(mobile, ev, canvas).c.p == CanvasLocal(ev.touches[0], canvas)
  {
  }
}
