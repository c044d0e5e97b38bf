/**
  The selection state machine of PianoRollDisplay as functions on a value
  of its state: one function per source method (clearSelectionState,
  startSelection, drawSelection, endSelection) and the dispatcher
  handleSelectionEvent. The Display class is proved to change its fields
  exactly as these functions say; the lemmas here state what the source
  promises about them.

  Handle is the dispatcher with the session's input mode kept across the
  reset that starts a session; HandleAsWritten is the dispatcher as the
  source has it, where that reset also clears the touch mode that was just
  set (see TouchStartAsWrittenLosesMode).
 */
module Selection {
  import opened Wrappers
  import opened Geometry
  import opened Pointer
  import opened Notes

  /** One line of the selection-info text. */
  datatype StatusLine =
    | Live(box: Box)                             // overwritten on every move: position and size
    | Count(selected: nat)                       // appended at the end: number of selected notes
    | Endpoints(start: Coord, end: Coord)        // appended at the end: the two corner points

  /**
    The display's selection state: the two session flags, the start and end
    points (None is null), the notes of the main canvas, the marquee
    rectangle (None when there is no #selection element) and the status text.
   */
  datatype State = State(
    selecting: bool,
    mobile: bool,
    start: Option<Coord>,
    end: Option<Coord>,
    notes: seq<Note>,
    marquee: Option<Box>,
    status: seq<StatusLine>)

  /** The state after a reset, keeping only the notes (with their highlights cleared). */
  predicate IsReset(t: State, s: State)
  {
    t == State(false, false, None, None, ClearFills(s.notes), None, [])
  }

  /** clearSelectionState: forget both points, drop both flags, clear the highlights, remove the marquee, empty the text. */
  function ClearSelectionState(s: State): (t: State)
    ensures IsReset(t, s)
    ensures CountSelected(t.notes) == 0
  {
    CountAfterClearIsZero(s.notes);
    State(false, false, None, None, ClearFills(s.notes), None, [])
  }

  /**
    startSelection with the input mode kept: reset, mark the session open,
    and record the pointer position as the start point. A read that throws
    leaves the session open without a start point.
   */
  function StartSelection(s: State, ev: Event, canvas: Canvas): (t: State)
    ensures t.selecting && t.mobile == s.mobile && t.end.None?
    ensures t.notes == ClearFills(s.notes) && t.marquee.None? && t.status == []
    ensures Position(s.mobile, ev, canvas).Read? ==> t.start == Some(Position(s.mobile, ev, canvas).c)
    ensures Position(s.mobile, ev, canvas).Throws? ==> t.start.None?
  {
    var c := ClearSelectionState(s).(selecting := true, mobile := s.mobile);
    match Position(c.mobile, ev, canvas)
    case Throws => c
    case Read(p) => c.(start := Some(p))
  }

  /**
    startSelection as written: the reset clears the mode flag before the
    pointer is read, so the position is always read in mouse mode.
   */
  function StartSelectionAsWritten(s: State, ev: Event, canvas: Canvas): (t: State)
    ensures t.selecting && !t.mobile && t.end.None?
    ensures t.notes == ClearFills(s.notes) && t.marquee.None? && t.status == []
    ensures t.start == Some(Position(false, ev, canvas).c)
  {
    var c := ClearSelectionState(s).(selecting := true);
    match Position(c.mobile, ev, canvas)
    case Throws => c
    case Read(p) => c.(start := Some(p))
  }

  /**
    The selection box of two stored points. If either point is NaN, every
    edge of the box is NaN and no note passes the overlap test against it.
   */
  function BoxOf(start: Coord, current: Coord, canvas: Canvas): (b: Box)
    requires canvas.Rendered()
    ensures start.At? && current.At? ==> b == SelectionBox(start.p, current.p, canvas)
    ensures start.NaN? || current.NaN? ==> forall n: Note :: !InSelection(n, b)
  {
    if start.At? && current.At? then SelectionBox(start.p, current.p, canvas) else NaNBox
  }

  /**
    drawSelection: ignored while no session is open. Otherwise the current
    position is read (a throw changes nothing) and the box from the start
    point to it is drawn as the marquee, written as the live status line, and
    used to highlight exactly the notes it overlaps.
   */
  function DrawSelection(s: State, ev: Event, canvas: Canvas): (t: State)
    requires canvas.Rendered()
    ensures !s.selecting ==> t == s
    ensures Position(s.mobile, ev, canvas).Throws? || s.start.None? ==> t == s
    ensures s.selecting && s.start.Some? && Position(s.mobile, ev, canvas).Read? ==>
      var b := BoxOf(s.start.value, Position(s.mobile, ev, canvas).c, canvas);
      t == s.(marquee := Some(b), status := [Live(b)], notes := SelectIn(s.notes, b))
  {
    if !s.selecting then s
    else
      match Position(s.mobile, ev, canvas)
      case Throws => s
      case Read(current) =>
        match s.start
        case None => s                    // startSelectionPoint.x on null throws
        case Some(start) =>
          var b := BoxOf(start, current, canvas);
          s.(marquee := Some(b), status := [Live(b)], notes := SelectIn(s.notes, b))
  }

  /** The outcome of endSelection: the new state, and whether it returned normally. */
  datatype Ended = Ended(state: State, completed: bool)

  /**
    endSelection: ignored while no session is open. Otherwise the session is
    closed. In touch mode the event's first touch is looked up: on a mouse
    event that throws, and with no touch left it returns at once. Otherwise
    the end point is recorded and the count of selected notes, then the two
    points, are appended to the status text (the second append throws if
    there is no start point).
   */
  function EndSelection(s: State, ev: Event, canvas: Canvas): (e: Ended)
    ensures !s.selecting ==> e == Ended(s, true)
    ensures s.selecting ==> !e.state.selecting
    ensures e.state.notes == s.notes && e.state.marquee == s.marquee && e.state.mobile == s.mobile
    ensures e.state.start == s.start
    ensures s.selecting && s.mobile && !ev.IsTouch() ==> e == Ended(s.(selecting := false), false)
    ensures s.selecting && s.mobile && ev.IsTouch() && |ev.touches| == 0 ==>
      e == Ended(s.(selecting := false), true)
    ensures s.selecting && (!s.mobile || (ev.IsTouch() && |ev.touches| > 0)) ==>
      var p := Position(s.mobile, ev, canvas).c;
      var u := s.(selecting := false, end := Some(p), status := s.status + [Count(CountSelected(s.notes))]);
      e == if s.start.Some? then Ended(u.(status := u.status + [Endpoints(s.start.value, p)]), true) else Ended(u, false)
    ensures !e.completed ==> s.selecting
  {
    if !s.selecting then Ended(s, true)
    else
      var t := s.(selecting := false);
      if t.mobile && !ev.IsTouch() then Ended(t, false)           // event.touches[0] on a mouse event
      else if t.mobile && |ev.touches| == 0 then Ended(t, true)   // the touch is gone: return
      else
        match Position(t.mobile, ev, canvas)
        case Throws => Ended(t, false)
        case Read(endPoint) =>
          var u := t.(end := Some(endPoint), status := t.status + [Count(CountSelected(t.notes))]);
          match t.start
          case None => Ended(u, false)    // startSelectionPoint.x on null throws
          case Some(startPoint) => Ended(u.(status := u.status + [Endpoints(startPoint, endPoint)]), true)
  }

  /**
    The end branch of the dispatcher: end the session, then clear the mode
    flag unless endSelection threw. The session is closed afterwards; touch
    mode survives only an end that threw in an open touch session.
   */
  function EndAndClearMode(s: State, ev: Event, canvas: Canvas): (t: State)
    ensures !t.selecting
    ensures t.mobile <==> s.selecting && s.mobile && (!ev.IsTouch() || (|ev.touches| > 0 && s.start.None?))
    ensures t.notes == s.notes && t.marquee == s.marquee
  {
    var e := EndSelection(s, ev, canvas);
    if e.completed then e.state.(mobile := false) else e.state
  }

  /**
    handleSelectionEvent: a mouse press or a touch start with at least one
    touch begins a session in the matching mode; any move draws; a mouse
    release or a touch end with no touch left ends the session. Every other
    event is ignored.
   */
  function Handle(s: State, ev: Event, canvas: Canvas): (t: State)
    requires canvas.Rendered()
    ensures SameBounds(t.notes, s.notes) && (AllConsistent(s.notes) ==> AllConsistent(t.notes))
    ensures t.selecting && !s.selecting ==> ev.MouseDown? || (ev.TouchStart? && |ev.touches| > 0)
    ensures t.mobile && !s.mobile ==> ev.TouchStart? && |ev.touches| > 0
    ensures ev.MouseUp? || (ev.TouchEnd? && ev.touches == []) ==> !t.selecting
    ensures (ev.TouchStart? && ev.touches == []) || (ev.TouchEnd? && ev.touches != []) ==> t == s
  {
    match ev
    case MouseDown(_) => StartSelection(s.(mobile := false), ev, canvas)
    case TouchStart(ts) => if |ts| > 0 then StartSelection(s.(mobile := true), ev, canvas) else s
    case MouseMove(_) => DrawSelection(s, ev, canvas)
    case TouchMove(_) => DrawSelection(s, ev, canvas)
    case MouseUp(_) => EndAndClearMode(s, ev, canvas)
    case TouchEnd(ts) => if |ts| == 0 then EndAndClearMode(s, ev, canvas) else s
  }

  /** handleSelectionEvent as written: as Handle, except that a session begins through StartSelectionAsWritten. */
  function HandleAsWritten(s: State, ev: Event, canvas: Canvas): (t: State)
    requires canvas.Rendered()
    ensures SameBounds(t.notes, s.notes) && (AllConsistent(s.notes) ==> AllConsistent(t.notes))
    ensures t.selecting && !s.selecting ==> ev.MouseDown? || (ev.TouchStart? && |ev.touches| > 0)
    ensures t.mobile ==> s.mobile
    ensures ev.MouseUp? || (ev.TouchEnd? && ev.touches == []) ==> !t.selecting
  {
    match ev
    case MouseDown(_) => StartSelectionAsWritten(s.(mobile := false), ev, canvas)
    case TouchStart(ts) => if |ts| > 0 then StartSelectionAsWritten(s.(mobile := true), ev, canvas) else s
    case _ => Handle(s, ev, canvas)
  }

  /**
    A click on a gallery card: the chosen roll's notes become the main
    canvas's notes, then clearSelectionState runs.
   */
  function SwitchGrid(s: State, notes: seq<Note>): (t: State)
    ensures IsReset(t, s.(notes := notes))
    ensures SameBounds(t.notes, notes) && CountSelected(t.notes) == 0
  {
    ClearSelectionState(s.(notes := notes))
  }

  /** Feed a sequence of events to the dispatcher, first to last. */
  function Run(s: State, evs: seq<Event>, canvas: Canvas): State
    requires canvas.Rendered()
    decreases |evs|
  {
    if evs == [] then s else Run(Handle(s, evs[0], canvas), evs[1..], canvas)
  }

  /** Feed a sequence of events to the dispatcher as written, first to last. */
  function RunAsWritten(s: State, evs: seq<Event>, canvas: Canvas): State
    requires canvas.Rendered()
    decreases |evs|
  {
    if evs == [] then s else RunAsWritten(HandleAsWritten(s, evs[0], canvas), evs[1..], canvas)
  }
}
