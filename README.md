# Marquee selection of the piano-roll display, in Dafny

This project models the selection subsystem of `PianoRollDisplay` (app.js). On the main piano-roll
canvas the user drags a translucent marquee with the mouse. Every note rectangle the marquee overlaps is
highlighted, and a selection-info text reports the live bounds. When a mouse drag ends, the text also
reports the number of selected notes and the two corner points. Touch events are handled by the same
code, but as written a finger drag highlights nothing (see Findings); with the touch mode kept for the
session, a finger drag highlights the overlapped notes like a mouse drag.

The model has six modules:

- `Geometry`: canvas-local pointer positions clamped to be non-negative (`getMousePosition`'s
  arithmetic), the normalised selection box built from two points (`drawSelection`), and the strict
  overlap test `isRectangleInSelection`.
- `Pointer`: the six event types the canvas listens to, and `getMousePosition`. Its result is a point,
  a NaN point (a touch event read in mouse mode, which has no `clientX`), or a TypeError (a touch-mode
  read of a mouse event or of an empty touch list).
- `Notes`: note records (bounds, fill, stashed `data-original-fill`, `selected` class), and the effect
  of `clearNotesFill`, of `selectNotes` and of `countSelectedNotes` on a row of notes.
- `Selection`: the display's state as a value, and one function per state-changing method
  (`clearSelectionState`, `startSelection`, `drawSelection`, `endSelection`, the dispatcher
  `handleSelectionEvent`, the card click).
- `SelectionFacts`: what the state machine promises: ignored events, session start and end, the
  invariant "stash present iff selected", the highlights a whole drag leaves, and the touch-mode defect.
- `Display`: the class `PianoRollDisplay`, with the session fields, the notes as an array updated in
  place by loops, the marquee and the text. Each method is proved to change the object exactly as the
  matching `Selection` function says.

Coordinates are mathematical reals. A NaN coordinate is a separate value: `Coord.NaN` for a stored
point and `Box.NaNBox` for a selection box, and every comparison against them is false. A statement
that throws in the source ends the handler: the model keeps the state reached at that point, and
`endSelection` reports whether it returned normally. The canvas must have a positive rendered width
and height.

Four behaviours of the code are worth stating plainly:

- The overlap test has no emptiness condition, so a zero-width selection crossing a note strictly
  inside overlaps it (`ZeroWidthSelectionCanOverlap`).
- A selection spanning 25..30 on both axes lies inside a note spanning 10..30 and overlaps it
  (`ContainedSelectionScenario`); a selection that only touches the note's edge does not
  (`TouchingEdgeScenario`).
- With the corrected dispatcher, ending a touch session records no end point: `endSelection` returns
  before reading a position when the session is in touch mode and no touch is left
  (`TouchEndAddsNoSummary`). As written that return is never reached, because the session is never in
  touch mode: the end reads a NaN end point and appends the count and both points
  (`AsWrittenTouchDragSelectsNothing`).
- `handleSelectionEvent` sets the touch-mode flag and then `startSelection` clears it, so a touch
  session runs in mouse mode with a NaN start point (see Findings). `Selection.HandleAsWritten` is the
  dispatcher as written. `Selection.Handle` is the corrected dispatcher, which keeps the mode for the
  session; the display class uses it. The two agree on every mouse event (`MouseEventsAgree`,
  `MouseRunsAgree`), so the mouse-drag results hold for the code as written too.

## Model

| member | source | states |
|---|---|---|
| `Geometry.CanvasLocal` | app.js:206-213 | the position is ≥ 0 on both axes, equals `clientX - left` / `clientY - top` when that is non-negative, and is 0 otherwise |
| `Geometry.SelectionBox` | app.js:68-79 | the box has width and height ≥ 0 and is the smallest box covering both normalised points: each edge is one of the two points' coordinates |
| `Geometry.SelectionBoxSymmetric` | app.js:70-75 | swapping the start point and the current point gives the same box |
| `Geometry.OverlapSymmetric` | app.js:319-335 | the overlap test gives the same answer with the note's edges and the selection's edges swapped |
| `Geometry.IsRectangleInSelection` | app.js:319-335 | the four strict edge comparisons; for rectangles of positive size they hold exactly when the open intervals of the two rectangles intersect on both axes |
| `Geometry.SharedEdgeIsNoOverlap` | app.js:329-334 | rectangles that only share an edge do not overlap (strict inequalities) |
| `Geometry.OverlapIffCommonInterior` | app.js:329-334 | for rectangles of positive size, the test holds exactly when some point lies strictly inside both |
| `Geometry.ZeroWidthSelectionCanOverlap` | app.js:330-333 | a zero-width selection strictly inside a note overlaps it |
| `Geometry.CornerOverlapScenario` | app.js:180-190 | a 20×20 note at (10,10) and a 15×15 selection at the origin overlap |
| `Geometry.ContainedSelectionScenario` | app.js:180-190 | the same note and a selection spanning 25..30 on both axes overlap |
| `Geometry.TouchingEdgeScenario` | app.js:180-190 | the same note and a selection starting at its right edge do not overlap |
| `Pointer.Position` | app.js:200-214 | a numeric read is ≥ 0 on both axes and happens only when the event kind matches the mode: it is the clamped first touch in touch mode and the clamped client point in mouse mode. It throws exactly in touch mode when the event is not a touch event or has no touch, and a mouse-mode read of a touch event is NaN |
| `Pointer.PositionMatchesMode` | app.js:202-204 | a numeric position is read exactly when the mode matches the event kind (and, in touch mode, a touch is present); touch mode uses `touches[0]` |
| `Notes.Highlight` | app.js:192-194 | highlighting stashes the current fill, marks the note selected and paints it `#9f1239`, leaving it consistent |
| `Notes.Cleared` | app.js:306-314 | clearing a selected note restores its stashed fill, drops the stash and unselects it; an unselected note is unchanged |
| `Notes.HighlightThenClear` | app.js:306-314 | highlighting an unselected, consistent note and then clearing it restores the note exactly |
| `Notes.ClearFills` | app.js:296-315 | afterwards no note is selected; only the notes that were selected change, and each of them gets its stash back; "stash iff selected" is preserved |
| `Notes.ClearFillsIdempotent` | app.js:301-314 | clearing twice is the same as clearing once |
| `Notes.SelectIn` | app.js:167-197 | after `selectNotes`, a note is selected exactly when it overlaps the box, whatever was selected before; highlighted notes stash their cleared fill |
| `Notes.InSelection` | app.js:180-190 | a note overlaps the box under the test called with `x + width` and `y + height` as right and bottom edges; a NaN box overlaps no note, and an overlap needs a positive combined width and height |
| `Notes.ClearAfterSelectIn` | app.js:168-196 | clearing after a move gives the same notes as clearing before it |
| `Notes.CountIsSelectedIndices` | app.js:267-274 | the count equals the number of positions holding a selected note |
| `Notes.CountSelected` | app.js:267-274 | `countSelectedNotes` counts front to back and never exceeds the number of notes; that it equals the number of selected positions is `CountIsSelectedIndices` |
| `Notes.CountZeroIffNoneSelected` | app.js:267-274 | the count is zero exactly when no note is selected |
| `Notes.CountAfterClearIsZero` | app.js:296-315 | after `clearNotesFill`, `countSelectedNotes` returns 0 |
| `Notes.CountAfterSelectIn` | app.js:174-196 | after a move, the count is the number of notes the box overlaps |
| `Selection.ClearSelectionState` | app.js:277-293 | points become null, both flags false, highlights cleared, marquee removed, text emptied, and zero notes are selected |
| `Selection.StartSelection` | app.js:53-62 | the session is reset and then opened with the mode kept; the start point is the pointer position read in that mode, and stays null when that read throws |
| `Selection.StartSelectionAsWritten` | app.js:53-62 | as written, the session opens in mouse mode, whatever the event, and the start point is read in mouse mode |
| `Selection.BoxOf` | app.js:70-79 | the box of two numeric points is their selection box; if either point is NaN, no note overlaps the box |
| `Selection.DrawSelection` | app.js:65-101 | a move is a no-op while not selecting or when the read throws; otherwise it draws the box, overwrites the text with its line and highlights exactly the overlapped notes |
| `Selection.EndSelection` | app.js:104-131 | an end is a no-op while not selecting; otherwise it always closes the session and leaves notes, marquee, mode and start point alone. In touch mode a mouse event throws and an event with no touch left returns at once. Otherwise the end point is read, the count of selected notes is appended, then the two points; with no start point that second append throws |
| `Selection.SwitchGrid` | app.js:351-354 | a card click installs the new notes and resets the session, leaving zero selected notes |
| `Selection.EndAndClearMode` | app.js:42-49 | after an end event the session is closed, and the touch-mode flag stays set exactly when `endSelection` threw in an open touch session |
| `Selection.Handle` | app.js:29-50 | (corrected dispatcher) every event keeps the notes' rectangles and stash consistency; only a press or a touch start with touches opens a session, and only the latter enters touch mode; a release or a touch end with no touch left closes the session; other touch starts and ends are ignored |
| `Selection.HandleAsWritten` | app.js:29-50 | every event keeps the notes' rectangles and stash consistency; only a start event opens a session; the touch-mode flag is never set by any event; an end event closes the session |
| `SelectionFacts.InitialInv` | app.js:7-14 | the freshly constructed display satisfies the invariant when its notes are unhighlighted |
| `SelectionFacts.HandleKeepsInv` | app.js:29-50 | (corrected dispatcher) every event keeps "stash present iff selected" and "an open session has a numeric start point", and keeps the notes' rectangles |
| `SelectionFacts.MoveWhileIdleIsIgnored` | app.js:65-66 | a move while not selecting changes nothing |
| `SelectionFacts.EndWhileIdleOnlyClearsMode` | app.js:42-49 | an end while not selecting only clears `isSelectingMobile` |
| `SelectionFacts.TouchWithWrongCountIsIgnored` | app.js:30-45 | a `touchstart` without touches and a `touchend` with touches left are ignored |
| `SelectionFacts.EndClosesSession` | app.js:104-112 | (corrected dispatcher) an end always leaves `isSelecting` false; `isSelectingMobile` ends up false except when a mouse release reaches a touch session and `endSelection` throws |
| `SelectionFacts.MouseDownStartsSession` | app.js:53-62 | a mouse press resets everything and opens a mouse session at the clamped pointer position |
| `SelectionFacts.TouchStartStartsSession` | app.js:30-38 | (corrected dispatcher) a touch start resets everything and opens a touch session at the clamped first touch |
| `SelectionFacts.MoveHighlightsOverlap` | app.js:65-101 | a move in an open session draws the box from the start point to the pointer and highlights exactly the notes it overlaps. The count is the number of those notes |
| `SelectionFacts.MouseUpAppendsSummary` | app.js:114-130 | ending a mouse session records the end point and appends the selected-note count and the two points to the text |
| `SelectionFacts.TouchEndAddsNoSummary` | app.js:111-112 | (corrected dispatcher) ending a touch session records no end point and appends nothing |
| `SelectionFacts.LostTouchLeavesNothing` | app.js:29-50 | (corrected dispatcher) a touch that starts and lifts at once leaves no session, highlight, marquee or text |
| `SelectionFacts.SelectInTwice` | app.js:167-197 | highlights from an earlier move do not accumulate: two moves leave the notes of the second only |
| `SelectionFacts.MouseMovesKeepLast` | app.js:64-101 | a run of mouse moves leaves the marquee, the text and the highlights of the last move |
| `SelectionFacts.MouseDragSelectsLastBox` | app.js:29-131 | after press, moves and release, the highlighted notes are exactly those overlapping the box from the press to the last move. The text holds that box, their number and the two points |
| `SelectionFacts.TouchMovesKeepLast` | app.js:64-101 | (corrected dispatcher) a run of one-finger moves in a touch session leaves the marquee, the text and the highlights of the last move |
| `SelectionFacts.TouchDragSelectsLastBox` | app.js:29-131 | (corrected dispatcher) after a touch, one-finger moves and a lift, the highlighted notes are exactly those overlapping the box from the touch to the last move, and the text holds only that box's line |
| `SelectionFacts.MouseEventsAgree` | app.js:29-50 | on every mouse event the dispatcher as written and the corrected one give the same state |
| `SelectionFacts.HandleAsWrittenKeepsConsistent` | app.js:29-50 | every event of the dispatcher as written keeps "stash present iff selected" and the notes' rectangles |
| `SelectionFacts.MouseRunsAgree` | app.js:29-50 | a sequence of mouse events runs to the same state under the dispatcher as written and the corrected one |
| `SelectionFacts.MouseDragAsWrittenSelectsLastBox` | app.js:29-131 | under the dispatcher as written, a mouse drag highlights exactly the notes overlapping the box from the press to the last move, and the text holds that box, their number and the two points |
| `SelectionFacts.TouchStartAsWrittenLosesMode` | app.js:35-61 | as written, a touch start leaves the display in mouse mode with a NaN start point |
| `SelectionFacts.TouchStartKeepsMode` | app.js:35-61 | the corrected dispatcher keeps touch mode and starts at the first touch |
| `SelectionFacts.TouchDragAsWrittenSelectsNothing` | app.js:29-131 | as written, a touch drag over a note highlights nothing and lifting the finger appends a summary with count 0 and NaN points |
| `SelectionFacts.AsWrittenTouchDragSelectsNothing` | app.js:29-131 | as written, any touch start with touches, any touch move and a lift leave a NaN marquee and no highlighted note, and append a zero count and two NaN points |
| `SelectionFacts.TouchDragSelectsNote` | app.js:29-131 | corrected, the same touch drag highlights the note and lifting the finger appends nothing |
| `Display.PianoRollDisplay.constructor` | app.js:7-14 | a new display has no session, no points, no marquee and no text |
| `Display.PianoRollDisplay.ClearNotesFill` | app.js:296-315 | the array's notes become `ClearFills` of the old notes, updated in place |
| `Display.PianoRollDisplay.SelectNotes` | app.js:167-197 | the array's notes become `SelectIn` of the old notes and the box |
| `Display.PianoRollDisplay.CountSelectedNotes` | app.js:267-274 | returns the number of selected notes, which is the size of the set of their positions |
| `Display.PianoRollDisplay.ClearSelectionState` | app.js:277-293 | the object's new state is `Selection.ClearSelectionState` of the old one |
| `Display.PianoRollDisplay.StartSelection` | app.js:53-62 | (corrected dispatcher) the object's new state is `Selection.StartSelection` of the old one |
| `Display.PianoRollDisplay.DrawSelection` | app.js:65-101 | the object's new state is `Selection.DrawSelection` of the old one |
| `Display.PianoRollDisplay.EndSelection` | app.js:104-131 | the object's new state and the completion flag are `Selection.EndSelection` of the old state |
| `Display.PianoRollDisplay.HandleSelectionEvent` | app.js:29-50 | (corrected dispatcher) the object's new state is `Selection.Handle` of the old state and the event |
| `Display.PianoRollDisplay.SwitchGrid` | app.js:351-354 | the object shows the new notes and its state is `Selection.SwitchGrid` of the old state |

## Findings

| source | as written | input that shows it | evidently intended | confidence | as-written member | corrected member |
|---|---|---|---|---|---|---|
| app.js:35-61 | `handleSelectionEvent` sets `isSelectingMobile` for a `touchstart`. `startSelection` then calls `clearSelectionState`, which sets it back to false (app.js:284) before the pointer is read. The touch session therefore reads the TouchEvent's missing `clientX`/`clientY` (NaN) | a `touchstart` with one touch at (10,10) on a 100×100 canvas, a `touchmove` to (50,50) over a note, then a `touchend` with no touches: nothing is highlighted, and a summary with count 0 and NaN points is appended | the mode chosen by the starting event holds for the whole session, so touches select notes and a lifted finger ends without a summary | high, not executed | `SelectionFacts.TouchDragAsWrittenSelectsNothing` (over `Selection.StartSelectionAsWritten`) | `SelectionFacts.TouchDragSelectsNote` (over `Selection.StartSelection`) |

## Left out

- `Selection.Handle`: the corrected dispatcher, which keeps the touch mode across the reset at the start of a session; `Selection.HandleAsWritten` is the code as written.
- `SelectionFacts.TouchMovesKeepLast`: stated for the corrected dispatcher; as written the session is in mouse mode and every touch move draws a NaN box.
- `SelectionFacts.TouchDragSelectsLastBox`: stated for the corrected dispatcher; as written the drag selects nothing (`AsWrittenTouchDragSelectsNothing`).
- `SelectionFacts.HandleKeepsInv`: stated for the corrected dispatcher. As written, a touch start opens a session with a NaN start point, so the invariant's numeric start fails; `HandleAsWrittenKeepsConsistent` states what the code as written keeps.
- `SelectionFacts.EndClosesSession`: stated for the corrected dispatcher; as written a touch session is in mouse mode when it ends.
- `SelectionFacts.TouchStartStartsSession`: stated for the corrected dispatcher; as written the session starts in mouse mode at NaN (`TouchStartAsWrittenLosesMode`).
- `SelectionFacts.TouchEndAddsNoSummary`: stated for the corrected dispatcher; as written the touch end appends a zero count and NaN end points (`TouchDragAsWrittenSelectsNothing`).
- `SelectionFacts.LostTouchLeavesNothing`: stated for the corrected dispatcher; as written the summary lines are appended.
- `Display.PianoRollDisplay.StartSelection`: follows the corrected `Selection.StartSelection`, which keeps the mode; `Selection.StartSelectionAsWritten` is the code as written.
- `Display.PianoRollDisplay.HandleSelectionEvent`: follows the corrected `Selection.Handle`; on mouse events it equals the code as written (`MouseEventsAgree`).
- `loadPianoRollData` (app.js:16-26): a network fetch and error logging; not modelled.
- `generateSVGs` and `preparePianoRollCard` (app.js:337-375): building the gallery's DOM and drawing notes with `PianoRoll` from `pianoroll.js`, which is not part of this model. Only the card click's effect (app.js:351-354) is modelled, as `SwitchGrid`.
- `setMainPiano` (app.js:216-264) and the button listener (app.js:378-381): DOM cloning and listener wiring. Their only effect that matters here is that the chosen roll's notes become the main canvas's notes.
- `drawSelectionRect` (app.js:134-154): element creation and attribute setting. The marquee is modelled as one optional box value.
- `updateSelectionInfo` and the summary text (app.js:121-130, 157-164): the `toFixed` number formatting. The text is modelled as abstract lines (`Live`, `Count`, `Endpoints`).
- IEEE floating point: coordinates are reals. NaN is a separate value. `Box.NaNBox` stands for any box with at least one NaN component, because the overlap test then fails for every note either way.
- `Selection.DrawSelection`: requires a canvas of positive width and height; the source's division by a zero size (Infinity or NaN) is not modelled.
- The scaling between the notes' coordinate space and the normalised selection depends on `pianoroll.js`. The overlap test compares the numbers as given.
- `selectNotes` iterates the `note-rectangle` children of its `svg` argument, while `clearNotesFill` and `countSelectedNotes` query `.main > svg`. On the page both are the main canvas, and all three are modelled over the same notes array. Other children (the marquee) carry neither class.
- The lookup of `#selection-info` is not modelled: the element exists whenever the main canvas has listeners.
- An exception thrown in a handler is modelled by keeping the state reached before it. The browser's reporting of the error is not modelled.
