/**
  What the selection state machine promises: which events are ignored, what
  starting and ending a session do, the invariant every event keeps, the
  highlights a whole mouse drag leaves, and the touch-mode defect of the
  dispatcher as written next to the corrected dispatcher.
 */
module SelectionFacts {
  import opened Wrappers
  import opened Geometry
  import opened Pointer
  import opened Notes
  import opened Selection

  /**
    The state every event keeps: notes carry a stash exactly while selected,
    and an open session has a numeric start point.
   */
  predicate Inv(s: State)
  {
    AllConsistent(s.notes) && (s.selecting ==> s.start.Some? && s.start.value.At?)
  }

  /** The display's state before any event: nothing open, nothing highlighted. */
  function Initial(notes: seq<Note>): State
  {
    State(false, false, None, None, notes, None, [])
  }

  lemma InitialInv(notes: seq<Note>)
    requires forall k :: 0 <= k < |notes| ==> !notes[k].selected && notes[k].orig.None?
    ensures Inv(Initial(notes))
  {
  }

  /** Every event keeps the invariant. */
  lemma HandleKeepsInv(s: State, ev: Event, canvas: Canvas)
    requires canvas.Rendered() && Inv(s)
    ensures Inv(Handle(s, ev, canvas))
    ensures SameBounds(Handle(s, ev, canvas).notes, s.notes)
  {
  }

  /** A move while no session is open changes nothing. */
  lemma MoveWhileIdleIsIgnored(s: State, ev: Event, canvas: Canvas)
    requires canvas.Rendered() && !s.selecting && (ev.MouseMove? || ev.TouchMove?)
    ensures Handle(s, ev, canvas) == s
  {
  }

  /** An end while no session is open only clears the mode flag. */
  lemma EndWhileIdleOnlyClearsMode(s: State, ev: Event, canvas: Canvas)
    requires canvas.Rendered() && !s.selecting && (ev.MouseUp? || (ev.TouchEnd? && ev.touches == []))
    ensures Handle(s, ev, canvas) == s.(mobile := false)
  {
  }

  /** A touch start without touches, and a touch end that leaves touches active, are ignored. */
  lemma TouchWithWrongCountIsIgnored(s: State, ts: seq<Point>, canvas: Canvas)
    requires canvas.Rendered()
    ensures ts == [] ==> Handle(s, TouchStart(ts), canvas) == s
    ensures ts != [] ==> Handle(s, TouchEnd(ts), canvas) == s
  {
  }

  /**
    An end always closes the session; the mode flag is cleared too, except
    when a mouse release reaches a touch session, where endSelection throws
    before the dispatcher clears the flag.
   */
  lemma EndClosesSession(s: State, ev: Event, canvas: Canvas)
    requires canvas.Rendered() && (ev.MouseUp? || (ev.TouchEnd? && ev.touches == []))
    ensures !Handle(s, ev, canvas).selecting
    ensures Handle(s, ev, canvas).mobile <==> (s.selecting && s.mobile && ev.MouseUp?)
  {
  }

  /**
    A mouse press resets the display and opens a mouse session whose start
    point is the clamped canvas-local pointer position.
   */
  lemma MouseDownStartsSession(s: State, p: Point, canvas: Canvas)
    requires canvas.Rendered()
    ensures Handle(s, MouseDown(p), canvas)
         == State(true, false, Some(At(CanvasLocal(p, canvas))), None, ClearFills(s.notes), None, [])
  {
  }

  /** A touch start resets the display and opens a touch session at the first touch. */
  lemma TouchStartStartsSession(s: State, ts: seq<Point>, canvas: Canvas)
    requires canvas.Rendered() && |ts| > 0
    ensures Handle(s, TouchStart(ts), canvas)
         == State(true, true, Some(At(CanvasLocal(ts[0], canvas))), None, ClearFills(s.notes), None, [])
  {
  }

  /**
    A move in an open session draws the box from the start point to the
    pointer and highlights exactly the notes it overlaps; the count the end
    will report is the number of those notes.
   */
  lemma MoveHighlightsOverlap(s: State, ev: Event, canvas: Canvas)
    requires canvas.Rendered() && Inv(s) && s.selecting
    requires if s.mobile then ev.TouchMove? && |ev.touches| > 0 else ev.MouseMove?
    ensures var b := SelectionBox(s.start.value.p, CanvasLocal(if s.mobile then ev.touches[0] else ev.client, canvas), canvas);
            var t := Handle(s, ev, canvas);
            t.marquee == Some(b) && t.status == [Live(b)] && SameBounds(t.notes, s.notes) &&
            (forall k :: 0 <= k < |t.notes| ==> (t.notes[k].selected <==> InSelection(s.notes[k], b))) &&
            CountSelected(t.notes) == |set k | 0 <= k < |s.notes| && InSelection(s.notes[k], b)|
  {
    var b := SelectionBox(s.start.value.p, CanvasLocal(if s.mobile then ev.touches[0] else ev.client, canvas), canvas);
    assert Position(s.mobile, ev, canvas) == Read(At(CanvasLocal(if s.mobile then ev.touches[0] else ev.client, canvas)));
    assert Handle(s, ev, canvas).notes == SelectIn(s.notes, b);
    CountAfterSelectIn(s.notes, b);
  }

  /**
    A mouse release ends a mouse session: the end point is the clamped
    pointer position, and the count of selected notes and the two points are
    appended to the status text; notes and marquee stay as they are.
   */
  lemma MouseUpAppendsSummary(s: State, p: Point, canvas: Canvas)
    requires canvas.Rendered() && Inv(s) && s.selecting && !s.mobile
    ensures
      var e := At(CanvasLocal(p, canvas));
      Handle(s, MouseUp(p), canvas)
        == s.(selecting := false, end := Some(e),
              status := s.status + [Count(CountSelected(s.notes)), Endpoints(s.start.value, e)])
  {
  }

  /**
    A touch end with no touch left ends a touch session without recording
    an end point or appending anything to the status text.
   */
  lemma TouchEndAddsNoSummary(s: State, canvas: Canvas)
    requires canvas.Rendered() && s.selecting && s.mobile
    ensures Handle(s, TouchEnd([]), canvas) == s.(selecting := false, mobile := false)
  {
  }

  /** A touch that starts and is lifted at once leaves no session, no highlight, no marquee and no text. */
  lemma LostTouchLeavesNothing(s: State, ts: seq<Point>, canvas: Canvas)
    requires canvas.Rendered() && |ts| > 0
    ensures var t := Run(s, [TouchStart(ts), TouchEnd([])], canvas);
            !t.selecting && !t.mobile && t.end.None? && t.marquee.None? && t.status == [] &&
            t.notes == ClearFills(s.notes) && CountSelected(t.notes) == 0
  {
    var u := Handle(s, TouchStart(ts), canvas);
    TouchStartStartsSession(s, ts, canvas);
    assert Run(s, [TouchStart(ts), TouchEnd([])], canvas) == Run(u, [TouchEnd([])], canvas);
    assert Run(u, [TouchEnd([])], canvas) == Handle(u, TouchEnd([]), canvas);
    CountAfterClearIsZero(s.notes);
  }

  /** Running two sequences of events one after the other. */
  lemma {:induction false} RunAppend(s: State, a: seq<Event>, b: seq<Event>, canvas: Canvas)
    requires canvas.Rendered()
    ensures Run(s, a + b, canvas) == Run(Run(s, a, canvas), b, canvas)
    decreases |a|
  {
    if a == [] {
      assert a + b == b;
    } else {
      assert (a + b)[0] == a[0] && (a + b)[1..] == a[1..] + b;
      RunAppend(Handle(s, a[0], canvas), a[1..], b, canvas);
    }
  }

  /** Mouse moves to each of the points, in order. */
  function MouseMoves(ps: seq<Point>): seq<Event>
  {
    seq(|ps|, i requires 0 <= i < |ps| => MouseMove(ps[i]))
  }

  /** Highlighting for one box and then for another is the same as highlighting for the second only. */
  lemma SelectInTwice(s: seq<Note>, b1: Box, b2: Box)
    requires AllConsistent(s)
    ensures SelectIn(SelectIn(s, b1), b2) == SelectIn(s, b2)
  {
  }

  /**
    In an open mouse session, a run of mouse moves leaves the marquee, the
    status line and the highlights of the last move only.
   */
  lemma {:induction false} MouseMovesKeepLast(u: State, ps: seq<Point>, canvas: Canvas)
    requires canvas.Rendered() && Inv(u) && u.selecting && !u.mobile && |ps| > 0
    ensures var b := SelectionBox(u.start.value.p, CanvasLocal(ps[|ps| - 1], canvas), canvas);
            Run(u, MouseMoves(ps), canvas) == u.(marquee := Some(b), status := [Live(b)], notes := SelectIn(u.notes, b))
    decreases |ps|
  {
    var b1 := SelectionBox(u.start.value.p, CanvasLocal(ps[0], canvas), canvas);
    var v := Handle(u, MouseMove(ps[0]), canvas);
    assert v == u.(marquee := Some(b1), status := [Live(b1)], notes := SelectIn(u.notes, b1));
    assert MouseMoves(ps)[0] == MouseMove(ps[0]) && MouseMoves(ps)[1..] == MouseMoves(ps[1..]);
    if |ps| == 1 {
      assert Run(u, MouseMoves(ps), canvas) == Run(v, [], canvas);
    } else {
      HandleKeepsInv(u, MouseMove(ps[0]), canvas);
      MouseMovesKeepLast(v, ps[1..], canvas);
      var b := SelectionBox(u.start.value.p, CanvasLocal(ps[|ps| - 1], canvas), canvas);
      SelectInTwice(u.notes, b1, b);
    }
  }

  /** The events of a drag run as the first event, then the middle ones, then the last. */
  lemma DragRunsInOrder(s: State, first: Event, moves: seq<Event>, last: Event, canvas: Canvas)
    requires canvas.Rendered()
    ensures Run(s, [first] + moves + [last], canvas)
         == Handle(Run(Handle(s, first, canvas), moves, canvas), last, canvas)
  {
    var u := Handle(s, first, canvas);
    assert Run(s, [first], canvas) == Run(u, [], canvas);
    RunAppend(s, [first], moves, canvas);
    RunAppend(s, [first] + moves, [last], canvas);
    var v := Run(u, moves, canvas);
    assert Run(v, [last], canvas) == Run(Handle(v, last, canvas), [], canvas);
  }

  /**
    A whole mouse drag: press at p0, move through ps, release at p1. Afterwards
    the session is closed, the marquee is the box from p0 to the last move,
    the highlighted notes are exactly those that box overlaps, and the text
    holds that box's line, the number of highlighted notes and the two points.
   */
  lemma {:induction false} MouseDragSelectsLastBox(s: State, p0: Point, ps: seq<Point>, p1: Point, canvas: Canvas)
    requires canvas.Rendered() && AllConsistent(s.notes) && |ps| > 0
    ensures
      var t := Run(s, [MouseDown(p0)] + MouseMoves(ps) + [MouseUp(p1)], canvas);
      var b := SelectionBox(CanvasLocal(p0, canvas), CanvasLocal(ps[|ps| - 1], canvas), canvas);
      && !t.selecting && !t.mobile && t.marquee == Some(b)
      && SameBounds(t.notes, s.notes)
      && (forall k :: 0 <= k < |t.notes| ==> (t.notes[k].selected <==> InSelection(s.notes[k], b)))
      && t.status == [Live(b), Count(|set k | 0 <= k < |s.notes| && InSelection(s.notes[k], b)|),
                      Endpoints(At(CanvasLocal(p0, canvas)), At(CanvasLocal(p1, canvas)))]
  {
    var b := SelectionBox(CanvasLocal(p0, canvas), CanvasLocal(ps[|ps| - 1], canvas), canvas);
    DragRunsInOrder(s, MouseDown(p0), MouseMoves(ps), MouseUp(p1), canvas);
    var u := Handle(s, MouseDown(p0), canvas);
    MouseDownStartsSession(s, p0, canvas);
    MouseMovesKeepLast(u, ps, canvas);
    var v := Run(u, MouseMoves(ps), canvas);
    var c := ClearFills(s.notes);
    assert v.notes == SelectIn(c, b);
    MouseUpAppendsSummary(v, p1, canvas);
    CountAfterSelectIn(c, b);
    assert (set k | 0 <= k < |c| && InSelection(c[k], b)) == (set k | 0 <= k < |s.notes| && InSelection(s.notes[k], b));
  }

  /** One-finger touch moves to each of the points, in order. */
  function TouchMoves(ps: seq<Point>): seq<Event>
  {
    seq(|ps|, i requires 0 <= i < |ps| => TouchMove([ps[i]]))
  }

  /**
    In an open touch session, a run of one-finger moves leaves the marquee,
    the status line and the highlights of the last move only.
   */
  lemma {:induction false} TouchMovesKeepLast(u: State, ps: seq<Point>, canvas: Canvas)
    requires canvas.Rendered() && Inv(u) && u.selecting && u.mobile && |ps| > 0
    ensures var b := SelectionBox(u.start.value.p, CanvasLocal(ps[|ps| - 1], canvas), canvas);
            Run(u, TouchMoves(ps), canvas) == u.(marquee := Some(b), status := [Live(b)], notes := SelectIn(u.notes, b))
    decreases |ps|
  {
    var b1 := SelectionBox(u.start.value.p, CanvasLocal(ps[0], canvas), canvas);
    var v := Handle(u, TouchMove([ps[0]]), canvas);
    assert v == u.(marquee := Some(b1), status := [Live(b1)], notes := SelectIn(u.notes, b1));
    assert TouchMoves(ps)[0] == TouchMove([ps[0]]) && TouchMoves(ps)[1..] == TouchMoves(ps[1..]);
    if |ps| == 1 {
      assert Run(u, TouchMoves(ps), canvas) == Run(v, [], canvas);
    } else {
      HandleKeepsInv(u, TouchMove([ps[0]]), canvas);
      TouchMovesKeepLast(v, ps[1..], canvas);
      var b := SelectionBox(u.start.value.p, CanvasLocal(ps[|ps| - 1], canvas), canvas);
      SelectInTwice(u.notes, b1, b);
    }
  }

  /**
    A whole one-finger drag under the corrected dispatcher: touch at p0, move
    through ps, lift. Afterwards the session is closed, the marquee is the box
    from p0 to the last move, the highlighted notes are exactly those that box
    overlaps, and the text holds only that box's line.
   */
  lemma {:induction false} TouchDragSelectsLastBox(s: State, p0: Point, ps: seq<Point>, canvas: Canvas)
    requires canvas.Rendered() && AllConsistent(s.notes) && |ps| > 0
    ensures
      var t := Run(s, [TouchStart([p0])] + TouchMoves(ps) + [TouchEnd([])], canvas);
      var b := SelectionBox(CanvasLocal(p0, canvas), CanvasLocal(ps[|ps| - 1], canvas), canvas);
      && !t.selecting && !t.mobile && t.end.None? && t.marquee == Some(b)
      && SameBounds(t.notes, s.notes)
      && (forall k :: 0 <= k < |t.notes| ==> (t.notes[k].selected <==> InSelection(s.notes[k], b)))
      && t.status == [Live(b)]
  {
    DragRunsInOrder(s, TouchStart([p0]), TouchMoves(ps), TouchEnd([]), canvas);
    var u := Handle(s, TouchStart([p0]), canvas);
    TouchStartStartsSession(s, [p0], canvas);
    TouchMovesKeepLast(u, ps, canvas);
    var v := Run(u, TouchMoves(ps), canvas);
    TouchEndAddsNoSummary(v, canvas);
  }

  // ---- Mouse events under the dispatcher as written ----

  /** On mouse events the dispatcher as written and the corrected one agree. */
  lemma MouseEventsAgree(s: State, ev: Event, canvas: Canvas)
    requires canvas.Rendered() && !ev.IsTouch()
    ensures HandleAsWritten(s, ev, canvas) == Handle(s, ev, canvas)
  {
  }

  /** Every event of the dispatcher as written keeps the notes' stashes consistent and their rectangles in place. */
  lemma HandleAsWrittenKeepsConsistent(s: State, ev: Event, canvas: Canvas)
    requires canvas.Rendered() && AllConsistent(s.notes)
    ensures AllConsistent(HandleAsWritten(s, ev, canvas).notes)
    ensures SameBounds(HandleAsWritten(s, ev, canvas).notes, s.notes)
  {
  }

  /** A sequence of mouse events runs the same under both dispatchers. */
  lemma {:induction false} MouseRunsAgree(s: State, evs: seq<Event>, canvas: Canvas)
    requires canvas.Rendered() && forall i :: 0 <= i < |evs| ==> !evs[i].IsTouch()
    ensures RunAsWritten(s, evs, canvas) == Run(s, evs, canvas)
    decreases |evs|
  {
    if evs != [] {
      MouseEventsAgree(s, evs[0], canvas);
      MouseRunsAgree(Handle(s, evs[0], canvas), evs[1..], canvas);
    }
  }

  /** A whole mouse drag has the same outcome under the dispatcher as written as under the corrected one. */
  lemma MouseDragAsWrittenSelectsLastBox(s: State, p0: Point, ps: seq<Point>, p1: Point, canvas: Canvas)
    requires canvas.Rendered() && AllConsistent(s.notes) && |ps| > 0
    ensures
      var t := RunAsWritten(s, [MouseDown(p0)] + MouseMoves(ps) + [MouseUp(p1)], canvas);
      var b := SelectionBox(CanvasLocal(p0, canvas), CanvasLocal(ps[|ps| - 1], canvas), canvas);
      && !t.selecting && !t.mobile && t.marquee == Some(b)
      && SameBounds(t.notes, s.notes)
      && (forall k :: 0 <= k < |t.notes| ==> (t.notes[k].selected <==> InSelection(s.notes[k], b)))
      && t.status == [Live(b), Count(|set k | 0 <= k < |s.notes| && InSelection(s.notes[k], b)|),
                      Endpoints(At(CanvasLocal(p0, canvas)), At(CanvasLocal(p1, canvas)))]
  {
    var evs := [MouseDown(p0)] + MouseMoves(ps) + [MouseUp(p1)];
    assert forall i :: 0 <= i < |evs| ==> !evs[i].IsTouch();
    MouseRunsAgree(s, evs, canvas);
    MouseDragSelectsLastBox(s, p0, ps, p1, canvas);
  }

  // ---- The touch-mode defect of the dispatcher as written, and the corrected dispatcher ----

  /**
    As written, a touch start leaves the display in mouse mode: the start
    point is read from the touch event's own (absent) clientX/clientY and is NaN.
   */
  lemma TouchStartAsWrittenLosesMode(s: State, ts: seq<Point>, canvas: Canvas)
    requires canvas.Rendered() && |ts| > 0
    ensures var t := HandleAsWritten(s, TouchStart(ts), canvas);
            t.selecting && !t.mobile && t.start == Some(NaN)
  {
  }

  /** The corrected dispatcher keeps the touch mode and starts at the first touch. */
  lemma TouchStartKeepsMode(s: State, ts: seq<Point>, canvas: Canvas)
    requires canvas.Rendered() && |ts| > 0
    ensures var t := Handle(s, TouchStart(ts), canvas);
            t.selecting && t.mobile && t.start == Some(At(CanvasLocal(ts[0], canvas)))
  {
  }

  /**
    As written, a touch start, any touch move and a touch end with no touch
    left highlight nothing, whatever the points: the marquee is a NaN box,
    and the end appends a zero count and two NaN points.
   */
  lemma AsWrittenTouchDragSelectsNothing(s: State, ts: seq<Point>, tm: seq<Point>, canvas: Canvas)
    requires canvas.Rendered() && |ts| > 0
    ensures var s1 := HandleAsWritten(s, TouchStart(ts), canvas);
            var s2 := HandleAsWritten(s1, TouchMove(tm), canvas);
            var s3 := HandleAsWritten(s2, TouchEnd([]), canvas);
            && s2.marquee == Some(NaNBox)
            && (forall k :: 0 <= k < |s2.notes| ==> !s2.notes[k].selected)
            && !s3.selecting && s3.notes == s2.notes
            && s3.status == [Live(NaNBox), Count(0), Endpoints(NaN, NaN)]
  {
    var s2 := HandleAsWritten(HandleAsWritten(s, TouchStart(ts), canvas), TouchMove(tm), canvas);
    assert forall k :: 0 <= k < |s2.notes| ==> !s2.notes[k].selected;
    CountZeroIffNoneSelected(s2.notes);
  }

  /** A 100 x 100 canvas at the page origin, with one note in the middle of it. */
  const DemoCanvas := Canvas(0.0, 0.0, 100.0, 100.0)
  const DemoNote := Note(Rect(0.2, 0.2, 0.1, 0.1), "#aaa", None, false)

  /**
    As written, a touch drag over the note from (10, 10) to (50, 50) highlights
    nothing, and lifting the finger appends a summary with a zero count and
    NaN points.
   */
  lemma TouchDragAsWrittenSelectsNothing()
    ensures var s0 := Initial([DemoNote]);
            var s1 := HandleAsWritten(s0, TouchStart([Point(10.0, 10.0)]), DemoCanvas);
            var s2 := HandleAsWritten(s1, TouchMove([Point(50.0, 50.0)]), DemoCanvas);
            var s3 := HandleAsWritten(s2, TouchEnd([]), DemoCanvas);
            s2.marquee == Some(NaNBox) && !s2.notes[0].selected &&
            s3.status == [Live(NaNBox), Count(0), Endpoints(NaN, NaN)]
  {
  }

  /**
    With the mode kept, the same touch drag highlights the note and lifting
    the finger appends nothing.
   */
  lemma TouchDragSelectsNote()
    ensures var s0 := Initial([DemoNote]);
            var s1 := Handle(s0, TouchStart([Point(10.0, 10.0)]), DemoCanvas);
            var s2 := Handle(s1, TouchMove([Point(50.0, 50.0)]), DemoCanvas);
            var s3 := Handle(s2, TouchEnd([]), DemoCanvas);
            s2.marquee == Some(Box(0.1, 0.1, 0.4, 0.4)) && s3.notes[0].selected &&
            s3.notes[0].fill == HighlightFill && s3.status == [Live(Box(0.1, 0.1, 0.4, 0.4))]
  {
  }
}
