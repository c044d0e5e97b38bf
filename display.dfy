/**
  PianoRollDisplay's selection subsystem as an object: its session fields,
  the note rectangles of the main canvas (updated in place), the marquee
  element and the selection-info text. Each method is proved to leave the
  object in the state the matching function of module Selection gives.
 */
module Display {
  import opened Wrappers
  import opened Geometry
  import opened Pointer
  import opened Notes
  import Selection

  class PianoRollDisplay {
    var startSelectionPoint: Option<Coord>
    var endSelectionPoint: Option<Coord>
    var isSelecting: bool
    var isSelectingMobile: bool
    /** The note rectangles of the main canvas, in document order. */
    var notes: array<Note>
    /** The #selection rectangle, if one is on the canvas. */
    var marquee: Option<Box>
    /** The lines of the selection-info element. */
    var selectionInfo: seq<Selection.StatusLine>

    /** The object's state as a value. */
    function Model(): Selection.State
      reads this, notes
    {
      Selection.State(isSelecting, isSelectingMobile, startSelectionPoint, endSelectionPoint,
                      notes[..], marquee, selectionInfo)
    }

    /** A display showing the given notes, with no session and no selection artifacts. */
    constructor (grid: array<Note>)
      ensures notes == grid
      ensures Model() == Selection.State(false, false, None, None, grid[..], None, [])
    {
      startSelectionPoint, endSelectionPoint := None, None;
      isSelecting, isSelectingMobile := false, false;
      notes := grid;
      marquee, selectionInfo := None, [];
    }

    /** clearNotesFill: every selected note gets its stashed fill back and loses the stash and the 'selected' class. */
    method ClearNotesFill()
      modifies notes
      ensures notes[..] == ClearFills(old(notes[..]))
    {
      var i := 0;
      while i < notes.Length
        invariant 0 <= i <= notes.Length
        invariant forall k :: 0 <= k < i ==> notes[k] == Cleared(old(notes[k]))
        invariant forall k :: i <= k < notes.Length ==> notes[k] == old(notes[k])
      {
        var note := notes[i];
        if note.selected {
          notes[i] := note.(fill := note.orig.GetOr(MissingFill), orig := None, selected := false);
        }
        i := i + 1;
      }
    }

    /**
      selectNotes: clear every highlight, then highlight each note the box
      overlaps (stash its fill, mark it selected, paint it).
     */
    method SelectNotes(b: Box)
      modifies notes
      ensures notes[..] == SelectIn(old(notes[..]), b)
    {
      ClearNotesFill();
      ghost var cleared := notes[..];
      var i := 0;
      while i < notes.Length
        invariant 0 <= i <= notes.Length
        invariant forall k :: 0 <= k < i ==> notes[k] == (if InSelection(cleared[k], b) then Highlight(cleared[k]) else cleared[k])
        invariant forall k :: i <= k < notes.Length ==> notes[k] == cleared[k]
      {
        var note := notes[i];
        if InSelection(note, b) {
          notes[i] := note.(orig := Some(note.fill), selected := true, fill := HighlightFill);
        }
        i := i + 1;
      }
    }

    /** countSelectedNotes: how many notes carry the 'selected' class. */
    method CountSelectedNotes() returns (n: nat)
      ensures n == CountSelected(notes[..])
      ensures n == |SelectedIndices(notes[..])|
    {
      n := 0;
      var i := 0;
      while i < notes.Length
        invariant 0 <= i <= notes.Length
        invariant n == CountSelected(notes[..i])
      {
        assert notes[..i + 1][..i] == notes[..i];
        if notes[i].selected {
          n := n + 1;
        }
        i := i + 1;
      }
      assert notes[..i] == notes[..];
      CountIsSelectedIndices(notes[..]);
    }

    /** clearSelectionState: forget both points, drop both flags, clear the highlights, remove the marquee, empty the text. */
    method ClearSelectionState()
      modifies this, notes
      ensures notes == old(notes)
      ensures Model() == Selection.ClearSelectionState(old(Model()))
    {
      startSelectionPoint := None;
      endSelectionPoint := None;
      isSelecting := false;
      isSelectingMobile := false;
      ClearNotesFill();
      marquee := None;
      selectionInfo := [];
    }

    /**
      startSelection, keeping the session's input mode across the reset:
      reset, open the session, and record the pointer position as the start.
     */
    method StartSelection(ev: Event, canvas: Canvas)
      modifies this, notes
      ensures notes == old(notes)
      ensures Model() == Selection.StartSelection(old(Model()), ev, canvas)
    {
      var mobile := isSelectingMobile;
      ClearSelectionState();
      isSelectingMobile := mobile;
      isSelecting := true;
      var clicked := Position(isSelectingMobile, ev, canvas);
      if clicked.Read? {
        startSelectionPoint := Some(clicked.c);
      }
    }

    /**
      drawSelection: while a session is open, draw the box from the start
      point to the pointer, show it in the text, and highlight the notes it
      overlaps.
     */
    method DrawSelection(ev: Event, canvas: Canvas)
      requires canvas.Rendered()
      modifies this, notes
      ensures notes == old(notes)
      ensures Model() == Selection.DrawSelection(old(Model()), ev, canvas)
    {
      if !isSelecting {
        return;
      }
      var current := Position(isSelectingMobile, ev, canvas);
      if current.Throws? || startSelectionPoint.None? {
        return;
      }
      var b := Selection.BoxOf(startSelectionPoint.value, current.c, canvas);
      marquee := Some(b);
      selectionInfo := [Selection.Live(b)];
      SelectNotes(b);
    }

    /**
      endSelection: close an open session; in mouse mode record the end point
      and append the count of selected notes and the two points to the text.
      completed is false when the source throws part-way.
     */
    method EndSelection(ev: Event, canvas: Canvas) returns (completed: bool)
      modifies this
      ensures notes == old(notes)
      ensures Selection.Ended(Model(), completed) == Selection.EndSelection(old(Model()), ev, canvas)
    {
      if !isSelecting {
        return true;
      }
      isSelecting := false;
      if isSelectingMobile && !ev.IsTouch() {
        return false;
      }
      if isSelectingMobile && |ev.touches| == 0 {
        return true;
      }
      var clicked := Position(isSelectingMobile, ev, canvas);
      if clicked.Throws? {
        return false;
      }
      endSelectionPoint := Some(clicked.c);
      var selected := CountSelectedNotes();
      selectionInfo := selectionInfo + [Selection.Count(selected)];
      if startSelectionPoint.None? {
        return false;
      }
      selectionInfo := selectionInfo + [Selection.Endpoints(startSelectionPoint.value, clicked.c)];
      completed := true;
    }

    /**
      handleSelectionEvent: route a mouse press or a touch start with a touch
      to StartSelection in the matching mode, any move to DrawSelection, and a
      mouse release or a touch end with no touch left to EndSelection.
     */
    method HandleSelectionEvent(ev: Event, canvas: Canvas)
      requires canvas.Rendered()
      modifies this, notes
      ensures notes == old(notes)
      ensures Model() == Selection.Handle(old(Model()), ev, canvas)
    {
      if ev.MouseDown? || (ev.TouchStart? && |ev.touches| > 0) {
        isSelectingMobile := ev.TouchStart?;
        StartSelection(ev, canvas);
      } else if ev.MouseMove? || ev.TouchMove? {
        DrawSelection(ev, canvas);
      } else if ev.MouseUp? || (ev.TouchEnd? && |ev.touches| == 0) {
        var completed := EndSelection(ev, canvas);
        if completed {
          isSelectingMobile := false;
        }
      }
    }

    /** A click on a gallery card: show that roll's notes on the main canvas, then clearSelectionState. */
    method SwitchGrid(grid: array<Note>)
      modifies this, grid
      ensures notes == grid
      ensures Model() == Selection.SwitchGrid(old(Model()), old(grid[..]))
    {
      notes := grid;
      ClearSelectionState();
    }
  }
}
