/**
  The note rectangles of the main piano roll and their highlight state: the
  current fill, the fill stashed in data-original-fill while the note is
  highlighted, and the 'selected' class. The functions here give, for a
  whole row of notes, the effect of clearNotesFill, of the highlighting loop
  in selectNotes and of countSelectedNotes.
 */
module Notes {
  import opened Wrappers
  import opened Geometry

  /** A note's SVG rectangle attributes x, y, width, height. */
  datatype Rect = Rect(x: real, y: real, width: real, height: real)

  /** A note rectangle of the main canvas. */
  datatype Note = Note(bounds: Rect, fill: string, orig: Option<string>, selected: bool)

  /** The fill a highlighted note is given. */
  const HighlightFill: string := "#9f1239"

  /** What getAttribute returns for an absent data-original-fill, once setAttribute has turned it into text. */
  const MissingFill: string := "null"

  /** A note carries a stashed fill exactly while it is selected. */
  predicate Consistent(n: Note) { n.orig.Some? <==> n.selected }

  predicate AllConsistent(s: seq<Note>) { forall k :: 0 <= k < |s| ==> Consistent(s[k]) }

  /** Two rows of notes have the same rectangles in the same order. */
  predicate SameBounds(a: seq<Note>, b: seq<Note>)
  {
    |a| == |b| && forall k :: 0 <= k < |a| ==> a[k].bounds == b[k].bounds
  }

  /**
    The note lies in the selection box under the overlap test: its right and
    bottom edges are x + width and y + height, and so are the box's. A box
    with a NaN coordinate overlaps nothing.
   */
  predicate InSelection(n: Note, b: Box): (r: bool)
    ensures b.NaNBox? ==> !r
    ensures r ==> n.bounds.width + b.width > 0.0 && n.bounds.height + b.height > 0.0
  {
    b.Box? &&
    IsRectangleInSelection(n.bounds.x, n.bounds.y, n.bounds.x + n.bounds.width, n.bounds.y + n.bounds.height,
                           b.x, b.y, b.x + b.width, b.y + b.height)
  }

  /** Highlighting one note: stash its fill, add the 'selected' class, paint it with the highlight fill. */
  function Highlight(n: Note): (r: Note)
    ensures r.bounds == n.bounds && r.selected && r.fill == HighlightFill
    ensures r.orig == Some(n.fill)
    ensures Consistent(r)
  {
    n.(orig := Some(n.fill), selected := true, fill := HighlightFill)
  }

  /**
    Clearing one note: a selected note gets its stashed fill back, loses the
    stash and the 'selected' class; any other note is left as it is.
   */
  function Cleared(n: Note): (r: Note)
    ensures r.bounds == n.bounds && !r.selected
    ensures n.selected ==> r.orig.None? && r.fill == n.orig.GetOr(MissingFill)
    ensures !n.selected ==> r == n
    ensures Consistent(n) ==> Consistent(r)
  {
    if n.selected then n.(fill := n.orig.GetOr(MissingFill), orig := None, selected := false) else n
  }

  /** Highlighting a clean note and then clearing it restores the note exactly. */
  lemma HighlightThenClear(n: Note)
    requires Consistent(n) && !n.selected
    ensures Cleared(Highlight(n)) == n
  {
  }

  /** clearNotesFill over a row of notes. */
  function ClearFills(s: seq<Note>): (r: seq<Note>)
    ensures SameBounds(r, s)
    ensures forall k :: 0 <= k < |r| ==> !r[k].selected
    ensures forall k :: 0 <= k < |r| && !s[k].selected ==> r[k] == s[k]
    ensures forall k :: 0 <= k < |r| && s[k].selected ==> r[k].fill == s[k].orig.GetOr(MissingFill) && r[k].orig.None?
    ensures AllConsistent(s) ==> AllConsistent(r)
  {
    seq(|s|, k requires 0 <= k < |s| => Cleared(s[k]))
  }

  /** Clearing twice is the same as clearing once. */
  lemma ClearFillsIdempotent(s: seq<Note>)
    ensures ClearFills(ClearFills(s)) == ClearFills(s)
  {
  }

  /**
    The effect of selectNotes on the notes: clear every highlight, then
    highlight each note that overlaps the box. The highlighted notes are
    then exactly the overlapping ones, whatever was highlighted before.
   */
  function SelectIn(s: seq<Note>, b: Box): (r: seq<Note>)
    ensures SameBounds(r, s)
    ensures forall k :: 0 <= k < |r| ==> (r[k].selected <==> InSelection(s[k], b))
    ensures forall k :: 0 <= k < |r| && InSelection(s[k], b) ==>
      r[k].fill == HighlightFill && r[k].orig == Some(ClearFills(s)[k].fill)
    ensures forall k :: 0 <= k < |r| && !InSelection(s[k], b) ==> r[k] == ClearFills(s)[k]
    ensures AllConsistent(s) ==> AllConsistent(r)
  {
    var c := ClearFills(s);
    seq(|s|, k requires 0 <= k < |s| => if InSelection(c[k], b) then Highlight(c[k]) else c[k])
  }

  /**
    Clearing after a move restores what clearing before it would have: the
    highlights of a move leave no trace in the notes' fills.
   */
  lemma ClearAfterSelectIn(s: seq<Note>, b: Box)
    requires AllConsistent(s)
    ensures ClearFills(SelectIn(s, b)) == ClearFills(s)
  {
  }

  /** countSelectedNotes: the number of notes carrying the 'selected' class, counted front to back. */
  function CountSelected(s: seq<Note>): (n: nat)
    ensures n <= |s|
  {
    if s == [] then 0 else CountSelected(s[..|s| - 1]) + (if s[|s| - 1].selected then 1 else 0)
  }

  /** The positions of the selected notes. */
  function SelectedIndices(s: seq<Note>): set<int>
  {
    set k | 0 <= k < |s| && s[k].selected
  }

  /** The count is the number of positions holding a selected note. */
  lemma {:induction false} CountIsSelectedIndices(s: seq<Note>)
    ensures CountSelected(s) == |SelectedIndices(s)|
  {
    if s != [] {
      var t := s[..|s| - 1];
      CountIsSelectedIndices(t);
      if s[|s| - 1].selected {
        assert SelectedIndices(s) == SelectedIndices(t) + {|t|};
      } else {
        assert SelectedIndices(s) == SelectedIndices(t);
      }
    }
  }

  /** With no note selected the count is zero, and conversely. */
  lemma {:induction false} CountZeroIffNoneSelected(s: seq<Note>)
    ensures CountSelected(s) == 0 <==> forall k :: 0 <= k < |s| ==> !s[k].selected
  {
    CountIsSelectedIndices(s);
    if CountSelected(s) == 0 {
      assert SelectedIndices(s) == {};
      assert forall k :: 0 <= k < |s| ==> (s[k].selected <==> k in SelectedIndices(s));
    } else {
      var k :| k in SelectedIndices(s);
    }
  }

  /** After clearNotesFill, countSelectedNotes reports zero. */
  lemma CountAfterClearIsZero(s: seq<Note>)
    ensures CountSelected(ClearFills(s)) == 0
  {
    CountZeroIffNoneSelected(ClearFills(s));
  }

  /** After a move, the count is the number of notes the box overlaps. */
  lemma CountAfterSelectIn(s: seq<Note>, b: Box)
    ensures CountSelected(SelectIn(s, b)) == |set k | 0 <= k < |s| && InSelection(s[k], b)|
  {
    var r := SelectIn(s, b);
    CountIsSelectedIndices(r);
    assert SelectedIndices(r) == set k | 0 <= k < |s| && InSelection(s[k], b);
  }
}
