# Verification of the evot terminal client

This project models the parts of the evot command-line client whose behaviour is hardest to get right and proves
properties of them in Dafny. `dafny verify dfyconfig.toml` checks everything. It stands beside the sources under
`cli/src` and follows their branches, edge cases and constants.

- **The differential terminal renderer** (`Terminal`, `RenderModel`, `Commands`, `Renderer`, `RenderRuns`,
  `FrameRows`). A terminal is an unbounded sequence of rows with a viewport, a cursor row and a height; cursor moves
  stop at the viewport's edges and a line feed on the last row scrolls. The renderer object emits commands that this
  terminal interprets. A frame has one declarative effect (`FrameEffect`) on the screen the renderer believes in;
  every branch of the renderer is proved to have it, from every state the renderer can reach. Where renderer and
  terminal are in step that screen is the terminal's own, and whole runs of frames, invalidations, forced repaints,
  clears and resizes are then shown to leave exactly what a replay of the whole frame would show. Where they are not
  in step, what each frame leaves on the terminal is told exactly from the display before it. What a frame's rows are
  is stated of its own lines.
- **ANSI-aware wrapping** (`Styles`, `Cells`, `Tokens`, `Filling`, `Wrap`, `Cuts`). Text is a sequence of cells: an
  escape code, or a glyph with its width and kind. The tracker's `process` gives codes their meaning; the *ink* of a
  text is its glyphs with the style each is shown in. Wrapping, slicing and cutting are stated about ink.
- **The `/task` list** (`TaskModel`, `Task`, `TaskRequests`, `TaskRuns`, `TaskCalls`) as a step system in which
  replies arrive arbitrarily late.
- **The streaming Markdown buffer** (`Stream`), **version ordering** (`Version`, `VersionOrder`, `VersionText`), **the
  selector** with its two filters (`Matching`, `Scoring`, `Filter`, `QueryWords`, `Headings`, `Search`, `Selector`,
  `SelectorRuns`), **the session hook** under backpressure (`HookModel`, `HookObject`, `HookRuns`, `HookCalls`),
  **staging of updates** between processes that may crash at any step (`Staging`, `StagingRuns`, `StagingAlone`),
  **the restart argument list** and its reader (`Cli`, `CliText`, `RestartArgv`), and **diff reading, pairing and
  numbering** (`DiffHunks`, `DiffPairing`, `DiffSides`).

Objects that change fields are classes whose methods are proved against a function or relation on their state; the
properties are lemmas about those, over whole runs.

## What the proofs turned up

- The renderer looks for its cursor marker in the last `height` rows of the frame, but after a shrink the terminal's
  first row can be further down. The renderer and the terminal then disagree about the cursor. They agree after a
  frame *exactly* when the marker is at or below the terminal's new first row
  (`RenderRuns.FrameAgreesIffMarkerVisible`); a run of two frames breaks it
  (`RenderRuns.ShorterFrameCanHideItsMarker`). Rows the next frame paints, be it longer, shorter or of the same
  length, then start too low: by as much as the cursor was believed too high, unless the terminal's last row stops the
  cursor first (`RenderRuns.HiddenMarkerMisplacesRows`).
- A terminal resized and put back between two frames is not noticed (`RenderRuns.ResizeAndBackIsNotNoticed`): the next
  frame is patched as if nothing had happened. A patch moves relative to the row the cursor is believed on, so it may
  repair a terminal that was wrong and spoil one that was right (`RenderRuns.PatchRepairsAndSpoils`). Exactly when the
  frame is shown can be told from the display before it: what it paints must land where it belongs, and what it does
  not paint must be there already (`RenderRuns.FrameShowsIff`, and `RenderRuns.EveryFrameShowsIff` for every frame of
  every run). A frame that changes nothing visible alters no row (`RenderRuns.QuietFrameRepairsNothing`). The theorems
  about what runs show therefore assume that a terminal which rearranged its rows either differs in size from the last
  frame or has its rows and its cursor where they were.
- Where ten or more unfocusable rows lead a list, moving up to its first focusable row hides that row, and so does
  moving down from its last one in a list that goes round; no other step hides a focus that was shown
  (`SelectorRuns.FocusIsHiddenExactlyUnderATallLead`).
- Two rows with one key make the keyword filter show one of them twice (`Search.SharedKeyShowsOneRowTwice`); the list
  is exact if and only if no row stands under the key of another matching row (`Search.FoundIsExactIffKeysHold`).
- A comment in the session hook says that after a failed spawn it stays silent for the whole session. The code tries
  again with the next message, so an adapter may never be given a `session_started`
  (`HookRuns.FailedSpawnLosesTheStart`), nor may a process that replaces a broken one
  (`HookRuns.NewProcessMissesTheStart`). Every process hears of a session first exactly when each spawn that works is
  made for a `session_started` (`HookRuns.SessionIsHeardIff`). The model follows the code.
- A pool in which every row may be shown is shown as it is, headers without rows included; in any other pool such
  headers go (`Selector.DefaultVisiblePicks`).
- A value flag standing last, or one whose value is itself dropped, makes a restart read another word as that value
  (`RestartArgv.LastFlagTakesThePin`, `RestartArgv.DroppedValueIsReplaced`). The arguments survive exactly when the
  dashed words that stand as values fit, which can be read off the list from left to right, and no value flag is left
  open for the pin (`RestartArgv.ArgumentsSurviveExactly`). Rewriting twice equals rewriting once exactly when the
  earlier id is not a dashed word of its own (`RestartArgv.RewritingTwice`).

## Model

| member | source | states |
|---|---|---|
| Terminal.Tty.Write | cli/src/term/renderer.ts:866-873 | The terminal's screen after a write is the interpretation of the written commands on the screen before |
| Renderer.TermRenderer.Write | cli/src/term/renderer.ts:866-873 | What is written is carried out by the terminal and on the screen the renderer believes in alike |
| Renderer.TermRenderer.InvalidateRowsFrom | cli/src/term/renderer.ts:224-231 | Marks exactly the painted rows from the clamped start row to the last; nothing before the first frame; all else unchanged |
| Renderer.TermRenderer.InvalidateScrollback | cli/src/term/renderer.ts:243-247 | Arms one history repair and changes nothing else |
| Renderer.TermRenderer.RequestForcedRender | cli/src/term/renderer.ts:249-265 | Forgets everything known of the screen, so that the next frame redraws whatever is on it |
| Renderer.TermRenderer.ClearScreen | cli/src/term/renderer.ts:288-301 | Clears screen and history and restarts from a known origin with the current size |
| Renderer.TermRenderer.AnchorLines | cli/src/term/renderer.ts:361-391 | The frame's lines with the padding the carried anchor asks for, and the anchor carried on |
| Renderer.TermRenderer.CompositeOverlay | cli/src/term/renderer.ts:782-811 | Row by row: overlay rows stand centred in the viewport, all other rows are the base frame's |
| Renderer.TermRenderer.ExtractCursorPosition | cli/src/term/renderer.ts:817-835 | The last marker at or below the frame's own viewport top whose column the terminal has |
| Renderer.TermRenderer.LayOut | cli/src/term/renderer.ts:354-398 | The rows to show, which `FrameRows.NextRowsAre` tells row by row, and the cursor position of the frame, which `FrameRows.CursorIsOnTheLowestMarker` tells |
| Renderer.TermRenderer.PositionHardwareCursor | cli/src/term/renderer.ts:838-853 | Sends the relative moves from the believed row to the marked one, its column and visibility, and believes the cursor there |
| Commands.CursorCommandsMove | cli/src/term/renderer.ts:838-853 | These commands alter no row of any screen; where the believed row was the real one the cursor reaches the marked row or, above the viewport, its top |
| Renderer.TermRenderer.FullRender | cli/src/term/renderer.ts:488-518 | Clearing or not, a full render has the frame's declared effect |
| Commands.FullBuffer | cli/src/term/renderer.ts:500-506 | The buffer of a full render is the commands that `FullCommandsShow` is about |
| Commands.FullCommandsShow | cli/src/term/renderer.ts:500-507 | Printed on a blank screen, or on any screen cleared first, they leave the frame and nothing else |
| Renderer.TermRenderer.ScanChanges | cli/src/term/renderer.ts:562-590 | Finds the first and last changed row, whole and addressable, stale rows exist if and only if an unaddressable row changed, and a shift is found if and only if an uncommitted one did |
| Renderer.TermRenderer.Adopt | cli/src/term/renderer.ts:646-657 | A frame without addressable changes is adopted with no row painted and has the declared effect |
| Renderer.TermRenderer.PatchDeleted | cli/src/term/renderer.ts:659-698 | Moving to the new end, erasing deleted rows in place and moving back has the declared effect |
| Renderer.TermRenderer.PatchChanged | cli/src/term/renderer.ts:700-772 | Painting the changed range, appending with line feeds and erasing surplus rows has the declared effect |
| Renderer.TermRenderer.Differential | cli/src/term/renderer.ts:539-637 | Whatever branch the comparison selects, the declared effect results, including history repair and scrollback shifts |
| Renderer.TermRenderer.Paint | cli/src/term/renderer.ts:520-637 | First render, redraw after a size change or comparison: the declared effect results |
| Renderer.TermRenderer.DoRender | cli/src/term/renderer.ts:328-772 | From every state that makes sense, in step with the terminal or not, exactly the commands `FrameCommands` names are sent; the terminal carries them out, and on the screen the renderer believes in they have the declared effect on rows, top, cursor, stale boundary, anchor and all other fields |
| Commands.MovesTo | cli/src/term/renderer.ts:551-555 | On any terminal a relative move ends as far from the real row as the target is from the believed one, or on the viewport's first or last row |
| Commands.MovesLand | cli/src/term/renderer.ts:551-555 | It lands on its target when the believed row is the real one and the target is in the viewport |
| Commands.MovesClamp | cli/src/term/renderer.ts:838-853 | A move to a row above the viewport stops at the viewport's top |
| Renderer.OnlyTheHeightIsRead | cli/src/term/renderer.ts:328-398 | Layout, cursor, anchor and the choice of branch depend on no more of the screen than its height |
| Renderer.SameIsSent | cli/src/term/renderer.ts:328-772 | Nor does anything that is sent for a frame |
| Renderer.ShapeOfChange | cli/src/term/renderer.ts:639-661 | How the changed range lies between two frames in step with the terminal; deleted-only changes mean a shorter frame |
| Commands.PrintLines | cli/src/term/renderer.ts:728-734 | The paint loop sends the rows one after the other, each erased first if asked, with a line feed between them |
| Commands.LinesPaint | cli/src/term/renderer.ts:728-734 | That leaves exactly the wanted rows, scrolling as often as it must |
| Commands.EraseRows | cli/src/term/renderer.ts:752-755 | The erase loop sends the commands that `ErasePlays` is about |
| Commands.ErasePlays | cli/src/term/renderer.ts:752-755 | They blank the rows from the cursor down in place, the last row of the terminal at the latest, and scroll nothing |
| Commands.FreshIsPainted | cli/src/term/renderer.ts:502-505 | Rows printed from the origin of a blank screen leave the frame, blank below, at the bottom of its own history |
| Commands.FirstPlays | cli/src/term/renderer.ts:500-507 | Printed without clearing on a screen that need not be blank, the rows stand from the cursor down, over what is there |
| Commands.UpdateBuffer | cli/src/term/renderer.ts:700-760 | The update sends the commands that `UpdatePlays` is about |
| Commands.UpdatePlays | cli/src/term/renderer.ts:700-760 | On any terminal they paint the changed rows from the row where the cursor lands, scrolling as often as they must, blank the surplus rows below and leave every other row; the cursor ends on the last row painted if the surplus rows were all there |
| Commands.DeletedBuffer | cli/src/term/renderer.ts:659-688 | The update for lost rows sends the commands that `DeletedPlays` is about |
| Commands.DeletedPlays | cli/src/term/renderer.ts:659-688 | On any terminal they blank the lost rows below the row where the cursor lands, leave every other row and bring the cursor back if the lost rows were all there |
| Renderer.PatchedBuffer | cli/src/term/renderer.ts:700-766 | A buffer patched in the viewport and unchanged above it is the one the frame's effect prescribes |
| RenderRuns.FrameAgreesIffMarkerVisible | cli/src/term/renderer.ts:488-772 | After a frame renderer and terminal agree on everything if and only if the marker is not above the new viewport; otherwise the cursor is on the viewport's top row and believed above it; viewport, scrollback and geometry are right in any case |
| RenderRuns.EveryFrameIsDrawn | cli/src/term/renderer.ts:328-772 | In every state of every run, after any markers, resizes and invalidations, what the renderer remembers makes sense and the next frame is drawn as its contract says |
| RenderRuns.InvariantHolds | cli/src/term/renderer.ts:328-772 | In every state of every run with visible markers, and no frame of unchanged size on a terminal whose rows or cursor were moved behind its back, the renderer agrees with the terminal or knows it must redraw |
| RenderRuns.EveryFrameIsShown | cli/src/term/renderer.ts:488-772 | After each frame of each run the viewport is row for row that of a full replay at the same origin, the real top and cursor row are the believed ones, and the geometry holds |
| FrameRows.NextRowsAre | cli/src/term/renderer.ts:361-398 | What is painted for a frame, on each row: the line that belongs there, in full and followed by the reset, by a reference that names neither padding nor composition as the code builds them |
| FrameRows.EveryFrameShowsItsLines | cli/src/term/renderer.ts:361-398 | After each frame of each run each row of the viewport shows that line, and the rows past the frame's end are blank |
| FrameRows.PlainFrameShowsItsLines | cli/src/term/renderer.ts:361-391 | Without overlay: lines before the padding stand on their index, lines behind it at their distance from the end, the padding shows the reset alone; there is padding exactly when a frame with an anchor neither reaches the bottom nor is as long as the anchor |
| FrameRows.OverlayIsShown | cli/src/term/renderer.ts:782-811 | With an overlay its rows stand in the middle of the viewport, in full, and all other rows are the frame's |
| FrameRows.CursorIsOnTheLowestMarker | cli/src/term/renderer.ts:817-835 | The cursor's row and column are those of the lowest marker in the frame's last rows that the terminal has a column for; there is none if and only if no such row is marked |
| FrameRows.EveryFramePlacesItsCursor | cli/src/term/renderer.ts:838-853 | After each frame of each run the terminal's cursor is on that row, or hidden |
| FrameRows.AnchorIsTheTallestFrame | cli/src/term/renderer.ts:361-376 | In every state of every run the anchor is the greatest number of lasting rows that reached the bottom since it was last dropped |
| FrameRows.RedrawIff | cli/src/term/renderer.ts:520-637 | Everything is redrawn if and only if the size changed, an invalidated history is stale, a row above the viewport changed that either frame did not commit to, or the frame ends above the viewport |
| FrameRows.ScrollbackIsLeftAlone | cli/src/term/renderer.ts:593-637 | Otherwise no row above the viewport is touched |
| FrameRows.UnchangedFrameSendsNoRow | cli/src/term/renderer.ts:646-657 | A frame that changes nothing sends the cursor's commands and nothing else |
| FrameRows.InvalidatedRowsAreRepaired | cli/src/term/renderer.ts:224-231 | Whatever stood in rows that were invalidated, the next frame shows every row of the viewport right |
| RenderRuns.RedrawCommandsReplay | cli/src/term/renderer.ts:500-507 | The commands of a clearing redraw leave the replayed buffer whatever was on the screen |
| RenderRuns.ScrollbackIsHonest | cli/src/term/renderer.ts:593-637 | After each frame of each run every row below the stale boundary, scrollback included, equals the frame's row |
| RenderRuns.StaleRowsAreCommitted | cli/src/term/renderer.ts:571-588 | A wrong row in scrollback was wrong before, or changed below the committed boundary of both frames; it is never at or below the viewport |
| RenderRuns.InvalidatedHistoryIsRepaired | cli/src/term/renderer.ts:597-608 | The frame after a history invalidation makes every row of the buffer match and clears the stale boundary |
| RenderRuns.NoMoveIsClamped | cli/src/term/renderer.ts:659-758 | Between frames of one size the target is addressable, deleted rows fit the viewport and the painted range reaches the last row: the three fallbacks are never needed |
| RenderRuns.AnchorKeepsRows | cli/src/term/renderer.ts:376-390 | Padding keeps committed rows at their index and live rows at their distance from the end |
| RenderRuns.ShorterFrameCanHideItsMarker | cli/src/term/renderer.ts:817-824 | A run of one frame, in step with the terminal, and a next frame whose marker passes the check and is above the terminal's first row |
| RenderRuns.HiddenMarkerMisplacesRows | cli/src/term/renderer.ts:700-758 | What that costs a next frame of any length that is patched and paints rows: they start lower than they belong by as much as the cursor was believed too high, or on the terminal's last row if that comes first; surplus rows are blanked below them and no other row is touched; where they start too low and the first of them changed, rather than being invalidated alone, the frame is not shown |
| RenderRuns.QuietFrameRepairsNothing | cli/src/term/renderer.ts:646-657 | A patched frame without visible changes alters no row of the terminal, in step or not: it is shown if and only if the frame before it was |
| RenderRuns.FrameLeaves | cli/src/term/renderer.ts:328-772 | What any frame leaves on any terminal, in step or not: its first row and every row of its buffer, told from the display before the frame alone |
| RenderRuns.FrameShowsIff | cli/src/term/renderer.ts:328-772 | The terminal shows the frame, from the row the renderer believes first, if and only if what is painted lands where it belongs and all else was there before |
| RenderRuns.EveryFrameShowsIff | cli/src/term/renderer.ts:328-772 | So it is for every frame of every run, after any markers, resizes and invalidations |
| RenderRuns.PatchRepairsAndSpoils | cli/src/term/renderer.ts:700-734 | A frame that changes one row of two: it puts a terminal right that showed that row wrongly, and spoils one that was right but for a cursor one row up |
| RenderRuns.WhatIsShownForSure | cli/src/term/renderer.ts:488-518 | A frame begun in step is shown, and so is one redrawn after clearing, whatever the terminal was like |
| RenderRuns.ResizeAndBackIsNotNoticed | cli/src/term/renderer.ts:333-334 | After a resize and back no comparison sees a change and the commands sent are those of an undisturbed terminal; the frame is shown if and only if it will be, judged on the terminal as it is; an unchanged frame alters no row and is shown if and only if the frame before it was |
| Styles.AnsiCodeTracker.Process | cli/src/render/wrap.ts:199-261 | The tracker's state after a code is the meaning of the code on the state before |
| Styles.AnsiCodeTracker.Apply | cli/src/render/wrap.ts:234-258 | One numeric parameter acts as the switch says, including ranges for basic colours |
| Styles.FeedReachable | cli/src/render/wrap.ts:199-261 | Every code keeps the tracker within the states it can print: valid attributes and colour parameters |
| Styles.NumberMeans | cli/src/render/wrap.ts:234-258 | Attribute by attribute and colour by colour, what each number switches on, switches off and leaves |
| Styles.ExtendedColorMeans | cli/src/render/wrap.ts:217-232 | A 256-colour or true-colour code is taken as a whole, and what follows it is read on |
| Styles.SingleParamMeans | cli/src/render/wrap.ts:216-258 | Any other parameter is read by itself |
| Styles.ReopeningRestoresStyle | cli/src/render/wrap.ts:276-291 | Feeding the active codes of any reachable tracker to a fresh one reproduces attributes, colours and link |
| Styles.NothingActive | cli/src/render/wrap.ts:276-291 | A reachable tracker prints nothing if and only if it is in the default state |
| Styles.ClosingEndsInDefault | cli/src/render/wrap.ts:293-300 | The line-end reset closes underline and link only; with a following reset the default state remains |
| Cells.SolidInkIsKept | cli/src/render/wrap.ts:421-475 | When only white space is dropped, the other glyphs are all there, in order, each in its style |
| Cells.TrimEndDropsWhite | cli/src/render/wrap.ts:452-474 | Trimming a line's end takes white glyphs only and never widens it |
| Tokens.SplitIntoTokensWithAnsi | cli/src/render/wrap.ts:318-373 | Tokens concatenate to the line, each is a word, a run of spaces or one CJK glyph with its codes, and runs are maximal |
| Wrap.BreakLongWord | cli/src/render/wrap.ts:375-419 | Broken lines show the word's ink in the styles of the source, fit the width, are each broken where the next glyph does not fit, leave no underline or link open but on the last, and leave the tracker past the word |
| Wrap.PlaceGlyph | cli/src/render/wrap.ts:399-415 | A glyph that fits stays on the line and nothing else changes; otherwise it opens a line in the active style |
| Wrap.PlaceToken | cli/src/render/wrap.ts:432-471 | A token that fits joins the line and nothing else changes; otherwise the invariant of width, ink, whole tokens, full lines and closed line ends is kept |
| Wrap.UpdateTrackerFromText | cli/src/render/wrap.ts:303-314 | The tracker moves past a text exactly as its codes say |
| Wrap.WrapSingleLine | cli/src/render/wrap.ts:421-475 | Lines fit, show the source's ink short of white space, keep every fitting token whole, none ends in white space, none could hold more (`Filling.Filled`), and none but the last ends with an underline or link open; a line that fits is unchanged |
| Filling.LinedAt | cli/src/render/wrap.ts:432-471 | What that says of each finished line: it shows a stretch of the source that starts where the one before ended, short of white space at its end, and with that white space it is wider than the width or would be with the next token, or glyph of a broken token |
| Filling.FillingEnds | cli/src/render/wrap.ts:473-475 | Trimming the lines and adding the one being built keeps that so |
| Wrap.HardLinesShow | cli/src/render/wrap.ts:486-486 | Splitting at hard breaks loses the breaks only and changes no style |
| Wrap.WrapTextWithAnsi | cli/src/render/wrap.ts:482-498 | Every line fits; each line read from the default state gives every glyph the style it has in the source, across words, glyphs and hard breaks; each hard line has its own group of lines, unchanged if it fits and otherwise none of them able to hold more, and no line of a group but the last leaves an underline or link open |
| Wrap.LineEndResetShuts | cli/src/render/wrap.ts:293-299 | The line-end reset closes underline and link on any line |
| Cells.TrimEndIsTight | cli/src/render/wrap.ts:474-474 | A trimmed line does not end in a white glyph |
| Cuts.ClosersClose | cli/src/render/wrap.ts:544-546 | Closing a head shows the same ink at the same width and ends in the default style with no link |
| Cuts.SliceVisibleAnsi | cli/src/render/wrap.ts:521-548 | Shows exactly the first glyphs asked for, in their styles, and ends in the default style |
| Cuts.TruncateAnsiToWidth | cli/src/render/wrap.ts:593-630 | Fits; unchanged when it already did; otherwise the longest head that leaves room for the ellipsis, which is shown in the default style |
| Cuts.SplitAnsiIntoCells | cli/src/render/wrap.ts:563-591 | Joining the entries gives the text back, one entry per column when every glyph takes a column |
| TaskRuns.InstalledListIsCurrent | cli/src/task/session.ts:567-601 | A list reply is installed only if no action started or finished, no flow started and the identity was not reset since its request |
| TaskRuns.DeletedRowStaysAbsent | cli/src/task/session.ts:509-518 | A row whose delete succeeded stays absent until a request issued after that delete lists it |
| TaskRuns.InstalledDetailIsCurrent | cli/src/task/session.ts:456-474 | A detail opens only for the latest request, with no fence and no other move of the user in between |
| TaskRuns.EveryStepCounts | cli/src/task/session.ts:115-131 | Every step moves the counters as its kind demands and none ever goes back |
| TaskRuns.EveryDeleteRemoves | cli/src/task/session.ts:509-518 | The step that completes a delete takes the row out of the list |
| TaskRuns.EveryStepLists | cli/src/task/session.ts:476-544 | A row enters the list only by an installed list reply |
| TaskRuns.RunsEvolve | cli/src/task/session.ts:86-131 | Every run of the step system meets the step relations the theorems use |
| TaskRequests.EveryStepSends | cli/src/task/session.ts:290-600 | The one request each step sends, for every step and reply: a toggle sends an update, a delete a delete, a run asks first and is sent when confirmed; a step forgets the call it answers and keeps all others |
| TaskCalls.CallWasSent | cli/src/task/session.ts:290-600 | Over every run each awaited request was sent by one earlier step, as that step demanded |
| TaskCalls.ActionWasAskedFor | cli/src/task/session.ts:476-517 | A delete is awaited only because a delete of that row was asked for, a toggle only because a toggle was, and under the identity of that time |
| TaskCalls.RunWasConfirmed | cli/src/task/session.ts:501-504 | A run is awaited only after a run of that row was asked for and that very question answered with yes, with nothing left in between |
| TaskCalls.ToggleReplacesRow | cli/src/task/session.ts:495-500 | A completed toggle leaves the answered row in the old one's place and every other row as it was |
| TaskCalls.DeleteTakesOut | cli/src/task/session.ts:510-518 | A completed delete takes out the rows of that id and leaves the others, in order |
| TaskCalls.RowLeaves | cli/src/task/session.ts:476-592 | A row leaves the list by a completed delete, an installed list or a reset, and in no other way |
| TaskCalls.DeletedRowWasToBeDeleted | cli/src/task/session.ts:476-518 | Over every run a row that leaves otherwise than by a list or a reset was to be deleted |
| TaskCalls.EveryStepMarks | cli/src/task/session.ts:484-537 | An action marks its row and frees it when it ends; nothing else does but sharing and a reset |
| TaskCalls.EveryMarkIsTakenBack | cli/src/task/session.ts:533-592 | Once every reply is in, in whatever order, no row is marked and no list request is under way |
| TaskCalls.EveryStepOutdates | cli/src/task/session.ts:504-579 | The rows count as up to date exactly if a list was installed and nothing made them out of date since |
| Task.TaskSession.Refresh | cli/src/task/session.ts:569-601 | Sends one list request, fenced with the current revision, unless one is under way or an action is pending |
| Task.TaskSession.Invalidate | cli/src/task/session.ts:336-345 | Bumps generation and detail request and leaves the drill-down |
| Task.TaskSession.Open | cli/src/task/session.ts:174-190 | Invalidates, then refreshes when the cached rows are due |
| Task.TaskSession.Preview | cli/src/task/session.ts:153-164 | Refreshes when the cached rows are due |
| Task.TaskSession.Mutate | cli/src/task/session.ts:476-505 | Fences, marks the row and sends the request that `TaskRequests.EveryStepSends` tells; edits start a flow instead |
| Task.TaskSession.Share | cli/src/task/session.ts:290-320 | Asks before publishing, only for a listed row without a pending action |
| Task.TaskSession.ShowDetail | cli/src/task/session.ts:456-465 | Sends a detail request stamped with all three counters |
| Task.TaskSession.ResetIdentity | cli/src/task/session.ts:115-131 | Forgets rows, detail and pending actions, and fences every reply under way |
| Task.TaskSession.Dispose | cli/src/task/session.ts:143-147 | Disposes and invalidates |
| Task.TaskSession.FinishList | cli/src/task/session.ts:575-596 | Installs a current reply, reports a current failure, frees the request slot only if it still is its own |
| Task.TaskSession.FinishDetail | cli/src/task/session.ts:465-473 | Installs the detail only if every counter still is what it was |
| Task.TaskSession.FinishToggle | cli/src/task/session.ts:495-545 | Replaces the row, fences, and frees the row, all only under the same identity |
| Task.TaskSession.FinishDelete | cli/src/task/session.ts:509-545 | Removes the row, fences, and frees the row, all only under the same identity |
| Task.TaskSession.FinishConfirm | cli/src/task/session.ts:501-504 | Sends the run only if confirmed in the same generation; otherwise frees the row |
| Task.TaskSession.FinishRun | cli/src/task/session.ts:504-545 | Marks the cached rows as due, fences, frees the row and refreshes |
| Task.TaskSession.Resume | cli/src/task/session.ts:476-601 | A reply resumes the call it belongs to, and a call is resumed once |
| Stream.IsInsideCodeBlock | cli/src/render/output.ts:968-978 | True if and only if the number of left-to-right fences before the index is odd |
| Stream.FindSafeSplitPoint | cli/src/render/output.ts:985-1004 | Nothing is cut with the end inside code; otherwise the cut is behind the last blank line outside code, or, where there is none, behind the last line, if that is outside code and past the first character |
| Stream.SplitPointIsSafe | cli/src/render/output.ts:985-1004 | A split inside the text follows a newline with an even number of fences before it |
| Stream.AssistantStreamBuffer.Push | cli/src/render/output.ts:1015-1026 | Releases exactly the text before that cut of what was pending and the token, and keeps the rest; an empty token does nothing |
| Stream.AssistantStreamBuffer.FlushSafe | cli/src/render/output.ts:1054-1064 | Releases the text before that cut and keeps the rest |
| Stream.AssistantStreamBuffer.Finish | cli/src/render/output.ts:1029-1039 | Releases the rest unless blank and starts afresh |
| Stream.StreamIsConserved | cli/src/render/output.ts:1010-1064 | For every chunking, released text plus buffer is the stream without its leading line breaks |
| Stream.EveryCutIsSafe | cli/src/render/output.ts:1054-1064 | For every chunking, every cut, seen in the whole message, follows a newline with an even number of fences before it |
| Stream.EveryPushReleases | cli/src/render/output.ts:1015-1064 | Every non-empty token of every message releases exactly that |
| Stream.NoParagraphIsHeldBack | cli/src/render/output.ts:985-1064 | Seen in the whole message: no paragraph that is complete and outside code stays pending, unless the message so far ends inside code or right behind a blank line |
| Stream.StripBreaksStrips | cli/src/render/output.ts:1019-1021 | Leading line breaks are gone, all of them and nothing else |
| Strings.TrimIs | cli/src/render/output.ts:1032-1032 | Trimming leaves what stands between the white space at both ends |
| Version.ParseVersion | cli/src/update/version.ts:21-54 | Parses exactly the strings the specification parses, to a valid version |
| Version.ParseSegments | cli/src/update/version.ts:36-42 | The numbers of the segments, or none when one is not a number |
| Version.CompareParsed | cli/src/update/version.ts:56-92 | Computes the comparison that is proved to be precedence |
| VersionOrder.ComparisonIsPrecedence | cli/src/update/version.ts:56-92 | The sign is antisymmetric, negative if and only if SemVer 2.0.0 section 11 puts the first one first, zero if and only if releases agree up to trailing zeros and prereleases are equal |
| VersionOrder.ComparisonIsTransitive | cli/src/update/version.ts:56-92 | Precedence chains, strictly if one link is strict |
| VersionOrder.VersionsArePreordered | cli/src/update/version.ts:95-102 | On all strings, unreadable ones included: reflexive, antisymmetric in sign, transitive |
| VersionOrder.VersionsTie | cli/src/update/version.ts:95-102 | Zero exactly when both are unreadable, or both readable and equal up to trailing zeros |
| VersionOrder.NewerIsStrict | cli/src/update/version.ts:105-110 | Never both ways, transitive, and never towards an unreadable version |
| VersionOrder.PickGreatest | cli/src/update/check.ts:51-58 | The loop finds the first of the greatest eligible entries under any order |
| VersionOrder.SelectRelease | cli/src/update/check.ts:47-59 | None only when no release is eligible; otherwise an eligible maximum, the earliest of equals |
| VersionText.ParseReadsBack | cli/src/update/version.ts:21-54 | Every valid version is parsed from its own text, with or without `v`, build metadata, leading zeros in the release and white space around it |
| VersionText.ParsesIffDenotes | cli/src/update/version.ts:21-54 | The parser reads a version from exactly the strings that denote it |
| Matching.GreedyIsComplete | cli/src/term/selector.ts:403-409 | Taking each character where it first occurs succeeds if and only if the query embeds by increasing positions |
| Matching.IsSubsequence | cli/src/term/selector.ts:403-409 | True if and only if the query embeds in the text |
| Matching.FuzzyScoreIsExact | cli/src/term/selector.ts:458-487 | A score exists if and only if the query embeds in the text, letter case aside |
| Matching.FuzzyMatchScore | cli/src/term/selector.ts:458-487 | The scan computes the score that exists exactly for embedding queries |
| Scoring.ScoreIsWorth | cli/src/term/selector.ts:458-487 | That score is the worth of taking each character where it first occurs behind the one before, counted without scanning: runs, gaps, word starts, positions and equality |
| Filter.ModelScoreIsExact | cli/src/term/selector.ts:489-512 | A row has a score if and only if every word embeds, as typed or with letters and digits exchanged |
| Filter.ModelFuzzyScore | cli/src/term/selector.ts:489-512 | The word loop computes that score |
| QueryWords.WordsReadBack | cli/src/term/selector.ts:412-414 | Whatever separators stand between, before and behind them, the words of a query are read back whole and in order |
| QueryWords.MixedIsSwapped | cli/src/term/selector.ts:499-506 | Letters before digits, or digits before letters, have their halves exchanged |
| QueryWords.OnlyMixedIsSwapped | cli/src/term/selector.ts:499-506 | No other word is exchanged |
| QueryWords.WordScores | cli/src/term/selector.ts:494-509 | A word counts as typed where it embeds so, and five points more where only its exchange does |
| QueryWords.ScoresAdd | cli/src/term/selector.ts:493-511 | The score of a row is the sum over the words |
| Filter.SortIsAPermutation | cli/src/term/selector.ts:541-545 | Ranking orders the matches and neither adds nor loses one |
| Filter.RankedIsInGroupOrder | cli/src/term/selector.ts:532-546 | Groups in configured order, best scores first within a group |
| Filter.TiesKeepTheirOrder | cli/src/term/selector.ts:541-545 | Rows of one group with equal scores stand in the order of the pool |
| Headings.FilteredRowsAreTheMatches | cli/src/term/selector.ts:529-550 | The filtered list holds exactly the matching rows, each as often as the pool |
| Headings.FilteredIsGrouped | cli/src/term/selector.ts:529-550 | Rows keep group order; every header stands directly before a row of its group, each group's at most once, and above each row of a headed group stands that header or another row of the group |
| Headings.RowStandsUnderItsHeader | cli/src/term/selector.ts:591-610 | From any row, up to its group's header, there are only rows of the group |
| Headings.InsertGroupHeaders | cli/src/term/selector.ts:591-610 | The loop weaves each group's header in before its first row |
| Headings.HeaderIsTheLast | cli/src/term/selector.ts:594-597 | The header of a group is the last one the pool names for it |
| Headings.FilterModels | cli/src/term/selector.ts:529-550 | Filtering, ranking and headings as one method compute the list the theorems are about |
| Search.FindMatched | cli/src/term/selector.ts:555-567 | Rows holding every keyword, then those holding one keyword's letters, each in pool order |
| Search.MatchedIsExact | cli/src/term/selector.ts:555-567 | Exactly the rows that match, each as often as in the pool |
| Sublists.KeptPicks | cli/src/term/selector.ts:555-567 | Filtering takes the wanted elements, each once, in order, and no others |
| Search.FoundIsExactIffKeysHold | cli/src/term/selector.ts:573-587 | With a grouped match the list is the wanted part of the pool, in order, if and only if no row stands under another matching row's key |
| Search.UngroupedIsExact | cli/src/term/selector.ts:573-574 | Without a grouped match the list is exactly the matching rows |
| Search.DistinctKeysHold | cli/src/term/selector.ts:576-587 | Distinct keys are enough |
| Search.SharedKeyShowsOneRowTwice | cli/src/term/selector.ts:578-586 | Two rows under one key: the list shows the second in both places |
| Selector.EnsureVisible | cli/src/term/selector.ts:173-180 | The offset is in range, shows the focus, does not move when the focus is already shown, and otherwise moves no further than it must |
| Selector.FirstFocusable | cli/src/term/selector.ts:182-186 | The first focusable row, or zero |
| Selector.FindLastFocusable | cli/src/term/selector.ts:188-193 | The last focusable row, or zero |
| Selector.WithoutKeyPicks | cli/src/term/selector.ts:325-341 | What a removal leaves of the pool: exactly the rows with another key, and the headers with another key that still head one, in order and each as often as before |
| Selector.DefaultVisiblePicks | cli/src/term/selector.ts:195-198 | What is shown without a query: all of a pool in which every row may be shown, and of any other exactly the rows that may and the headers that head one, in order |
| Selector.ApplyFilter | cli/src/term/selector.ts:514-571 | The list of the query, focus on its first focusable row, window at the top, armed deletion dropped |
| Selector.SelectorUp | cli/src/term/selector.ts:239-257 | The backward scan computes the move the lemmas are about |
| Selector.SelectorDown | cli/src/term/selector.ts:259-271 | The forward scan computes the move the lemmas are about |
| Selector.SelectorRemoveItem | cli/src/term/selector.ts:322-336 | Removal refilters or rebuilds the list and scans for the next focus, as `SelectorRuns.RemovalTakesOneKey` and `SelectorRuns.RemovalFocusesTheNext` tell |
| SelectorRuns.CreatedIsSound | cli/src/term/selector.ts:200-208 | Every selector starts sound: focus and window right |
| SelectorRuns.RunIsSound | cli/src/term/selector.ts:173-336 | Over every sequence of typing, navigation, removal and refresh the focus is in range and focusable whenever a row is, the offset is in range, and the window shows the focus unless ten unfocusable rows lead the list |
| SelectorRuns.FocusIsHiddenExactlyUnderATallLead | cli/src/term/selector.ts:239-271 | For every step: it hides a focus that was shown if and only if it moves up to the first focusable row, or down going round to it, under a lead that fills the window |
| SelectorRuns.UpReachesTheNearest | cli/src/term/selector.ts:239-257 | Up reaches the nearest focusable row above or, going round, the last |
| SelectorRuns.DownReachesTheNearest | cli/src/term/selector.ts:259-271 | Down reaches the nearest focusable row below or, going round, the first |
| SelectorRuns.UpAndDownAreInverse | cli/src/term/selector.ts:239-271 | Each move undoes the other wherever it went somewhere, going round included |
| SelectorRuns.CreatedShowsItsPool | cli/src/term/selector.ts:200-208 | A selector without a wider pool starts with the list of its pool and query |
| SelectorRuns.RunShowsItsPool | cli/src/term/selector.ts:277-336 | Over every run the list is a function of the current pool and query |
| SelectorRuns.PlainListIsExact | cli/src/term/selector.ts:195-198 | Over every run: without a query the list is exactly the rows of the pool that may be shown, with their headers |
| SelectorRuns.QueryIsWhatWasTyped | cli/src/term/selector.ts:277-320 | Over every run the query is what was typed, erased and cleared, and no other event changes it |
| SelectorRuns.RemovalTakesOneKey | cli/src/term/selector.ts:322-341 | A removal takes the rows under one key out of the pool, and headers left without rows: nothing else, nothing twice |
| SelectorRuns.RemovalFocusesTheNext | cli/src/term/selector.ts:331-335 | The focus then goes to the first focusable row from the removed row's place on, or else to the last one |
| SelectorRuns.RemovedRowStaysAway | cli/src/term/selector.ts:322-336 | A removed row is not listed again before the pool is refreshed, whatever is typed |
| SelectorRuns.RefreshKeepsTheRow | cli/src/term/selector.ts:288-305 | A refresh keeps the focus on its row whenever the new list offers it |
| SelectorRuns.ArmedDeletionKnowsItsList | cli/src/term/selector.ts:288-328 | An armed deletion outlives no change of the list |
| HookObject.SessionHook.StartProcess | cli/src/session/hook.ts:124-128 | Announces the process once |
| HookObject.SessionHook.StartSession | cli/src/session/hook.ts:130-138 | Ends a session under another id and starts the new one |
| HookObject.SessionHook.ChangeState | cli/src/session/hook.ts:140-145 | Sends the mood, with a message only when blocked |
| HookObject.SessionHook.RunStarted | cli/src/session/hook.ts:147-153 | Opens a run and reports it and the working mood |
| HookObject.SessionHook.RunFinished | cli/src/session/hook.ts:156-160 | Settles the open run once, under its own or the given id |
| HookObject.SessionHook.RunFailed | cli/src/session/hook.ts:163-167 | Settles the open run once as failed |
| HookObject.SessionHook.SettleRun | cli/src/session/hook.ts:173-177 | Settles the open run silently |
| HookObject.SessionHook.EndSession | cli/src/session/hook.ts:180-186 | Ends an open session and forgets its run and id |
| HookObject.SessionHook.Close | cli/src/session/hook.ts:192-195 | Ends the session and closes, once |
| HookObject.SessionHook.Send | cli/src/session/hook.ts:224-230 | Sends nothing once closed or while no session is open |
| HookObject.SessionHook.WriteMessage | cli/src/session/hook.ts:232-267 | Spawns if need be, writes at once or waits behind a deferred write |
| HookObject.SessionHook.Push | cli/src/session/hook.ts:248-258 | One attempt on the captured process: taken, thrown out or deferred |
| HookObject.SessionHook.SinkSettled | cli/src/session/hook.ts:251-253 | A rejected write drops the process it was made on |
| HookObject.SessionHook.ChainTurn | cli/src/session/hook.ts:260-263 | The chain attempts its next write when none is under way |
| HookObject.SessionHook.Drop | cli/src/session/hook.ts:269-272 | Forgets a process only if it is the current one |
| HookRuns.RunIsOrderly | cli/src/session/hook.ts:124-230 | Over every run of calls each message may follow those before it, and the fields say where the list stands |
| HookRuns.EveryMessageBelongs | cli/src/session/hook.ts:124-230 | No message comes outside a session: each belongs to the latest `session_started`, under its id |
| HookRuns.EverySettlementHasItsRun | cli/src/session/hook.ts:156-167 | Each `run_finished` or `run_failed` settles an earlier run of its session with only moods in between |
| HookRuns.SettlementsArePairedOff | cli/src/session/hook.ts:156-177 | No run is settled twice and no settlement settles two runs |
| HookCalls.EveryMessageHasItsCall | cli/src/session/hook.ts:124-195 | Over every run each message was said by one call, and as that call demands: a finish by a finish, a failure by a failure, with its id, reason and message |
| HookCalls.CallSays | cli/src/session/hook.ts:124-195 | And each call says just what it should in the state it meets |
| HookCalls.RunIsOpenIff | cli/src/session/hook.ts:147-186 | A run is open if and only if one was started and nothing ended it since; it is reported under the id of the latest start |
| HookRuns.CloseIsFinal | cli/src/session/hook.ts:192-195 | Closing ends the open session and nothing is sent after it |
| HookRuns.WritesGoOutInOrder | cli/src/session/hook.ts:232-267 | For every mix of taken, thrown and deferred writes each write is attempted once, in emission order, and processes take turns |
| HookRuns.NothingIsLostIffEverySpawnWorks | cli/src/session/hook.ts:233-241 | Every message is handed to a process if and only if no spawn failed |
| HookRuns.BrokenProcessGetsNothingNew | cli/src/session/hook.ts:269-272 | A process that failed a write is given no new message |
| HookRuns.WrittenIsHeardIff | cli/src/session/hook.ts:232-252 | One message keeps every process's first message a `session_started` if and only if it spawns none or is one itself |
| HookRuns.SessionIsHeardIff | cli/src/session/hook.ts:232-267 | Over every run each process is first given a `session_started` if and only if every spawn that works is made for one |
| HookRuns.FailedSpawnLosesTheStart | cli/src/session/hook.ts:237-240 | After a failed spawn the first message an adapter gets need not be a `session_started` |
| HookRuns.NewProcessMissesTheStart | cli/src/session/hook.ts:254-256 | The process that takes over from a broken one hears of no session |
| StagingRuns.NextIsHonest | cli/src/update/stage.ts:123-153 | Every single file-system step of every process keeps what is on disk honest |
| StagingRuns.RunIsHonest | cli/src/update/stage.ts:44-153 | So does every interleaving of stages, prunes, reads and clears with a crash at any step |
| StagingRuns.ReadIsHonest | cli/src/update/stage.ts:82-110 | A read finds nothing, or a version whose archive and sidecar came whole from one successful stage of it |
| StagingRuns.InterruptedReadIsHonest | cli/src/update/stage.ts:82-110 | A read interrupted between its three looks finds each file whole and from a successful stage |
| StagingRuns.LoneStageSwitchesOnce | cli/src/update/stage.ts:123-153 | While one stage runs alone a read finds the previous version, nothing or the new one; another version stays readable up to the publishing rename and the new one after it; success means published |
| StagingAlone.UndisturbedReadReturns | cli/src/update/stage.ts:82-110 | A reader that nothing disturbs returns exactly what is there and changes nothing |
| StagingAlone.UndisturbedPruneKeepsWhatItFound | cli/src/update/stage.ts:62-65 | A prune goes on to remove what is not of the version it found, if it found one |
| StagingAlone.LoneStageCanSucceed | cli/src/update/stage.ts:123-153 | Whatever is in the directory: a stage that meets no failure and no other process succeeds, and its version is then read, both files whole |
| Cli.ParseArgs | cli/src/cli.ts:23-97 | The argument loop reads what the specification reads, or leaves the process where it does |
| Cli.PositiveNumber | cli/src/cli.ts:101-108 | A number that is accepted is positive |
| Cli.KnownFlagsAreDashed | cli/src/cli.ts:39-93 | Apart from commands every argument that means something starts with a dash |
| CliText.OptionsReadBack | cli/src/cli.ts:23-97 | Every set of options that can be asked for is read from its own arguments, in the long spelling and the short one |
| CliText.ReadableIffAskable | cli/src/cli.ts:23-108 | Options come out of some argument list if and only if no value is empty, no number zero, no fork names a dashed word, and a prompt goes with a command |
| RestartArgv.ValueFlagsAgree | cli/src/restart-argv.ts:1-15 | The rewriter's list of value flags is the reader's |
| RestartArgv.ArgvForRestart | cli/src/restart-argv.ts:22-38 | The loop keeps what the specification keeps and pins the session |
| RestartArgv.KeptArgumentsAreOneByOne | cli/src/restart-argv.ts:31-34 | Keeping a flag's value with it changes nothing: whatever is not a session choice is kept anyway |
| RestartArgv.RewritingTwice | cli/src/restart-argv.ts:22-38 | Rewriting twice is rewriting once with the later id, if and only if the earlier id is not a dashed word of its own |
| RestartArgv.ReadingFolds | cli/src/cli.ts:36-94 | Reading a list is taking its arguments, each with the value the reader gives it, one after the other |
| RestartArgv.StrippedIsWantedIffDashesFit | cli/src/restart-argv.ts:22-36 | The rewriter leaves exactly the words of the arguments that choose no session if and only if each dashed word the reader takes for a value is dropped, with no word after it, behind a session flag and kept behind any other |
| RestartArgv.ArgumentsSurviveExactly | cli/src/restart-argv.ts:22-38 | The rewritten list is read as the original arguments without session choices, and then the pin, if and only if the dashed words fit so and no value flag is left open for a given id |
| RestartArgv.RestartKeepsTheOptions | cli/src/restart-argv.ts:22-38 | Then reading gives the original options with only the session changed, or leaves the process the same way |
| RestartArgv.OwnValuesFit | cli/src/restart-argv.ts:22-38 | The condition holds whenever every value flag has its own non-empty value without a leading dash |
| RestartArgv.LastFlagTakesThePin | cli/src/restart-argv.ts:31-36 | In every list whose dashed words fit and which ends with an open value flag, that flag takes the pinned `--resume` as its value and leaves the id a word of its own |
| RestartArgv.DroppedValueIsReplaced | cli/src/restart-argv.ts:26-36 | For every list that starts with a value flag whose value is dropped: the flag takes the next word left, if it is not empty, instead |
| DiffPairing.PairChanges | cli/src/render/diff.ts:185-205 | Line for line the input, each with the code of its partner |
| DiffPairing.PartnersAreMutual | cli/src/render/diff.ts:198-202 | Partners are mutual, a removed line and a later added one: the k-th of a run with the k-th of the run after it |
| DiffSides.ChangeIsPaired | cli/src/render/diff.ts:185-205 | In a change the k-th removed line has the k-th added one's code beside it and the other way round; a line without a counterpart has none |
| DiffSides.OthersAreNotPaired | cli/src/render/diff.ts:185-205 | Unchanged lines and added lines that follow no removed one have no partner |
| DiffPairing.AssignLineNumbers | cli/src/render/diff.ts:208-231 | Each line gets its side's start plus the lines of that side before it |
| DiffPairing.BuildDiffLines | cli/src/render/diff.ts:174-182 | The parsed lines in order, numbered and paired |
| DiffSides.MarksAreRead | cli/src/render/diff.ts:176-181 | The mark in front of a line says what became of it and is no part of it |
| DiffSides.NumberIsThePlace | cli/src/render/diff.ts:208-231 | A removed or unchanged line is shown under its place in the old file, an added one under its place in the new |
| DiffPairing.OldSideIsConsecutive | cli/src/render/diff.ts:217-222 | Old-side numbers are consecutive from the old start |
| DiffPairing.AddedLinesCountUp | cli/src/render/diff.ts:217-222 | Added lines are numbered upwards, none twice |
| DiffPairing.AddedLinesSkipOnlyContext | cli/src/render/diff.ts:217-222 | With only removed lines between, the next added line has the next number |
| DiffPairing.GutterWidth | cli/src/render/diff.ts:168-171 | The least width that holds every number and the minimum |
| DiffHunks.ParseDiffHunks | cli/src/render/diff.ts:100-115 | The line loop reads the hunks the specification reads |
| DiffHunks.HeaderReadsBack | cli/src/render/diff.ts:104-106 | A hunk header is read back with its four numbers |
| DiffSides.ShortHeaderReadsBack | cli/src/render/diff.ts:104-106 | So is a header with counts of one left out, and with anything behind it |
| DiffSides.FileLinesAreSeen | cli/src/render/diff.ts:107-109 | A line that names a file ends the hunk before it |
| DiffHunks.DiffReadsBack | cli/src/render/diff.ts:100-115 | A diff of any number of files reads back as its hunks, in order; nothing that names a file gets into a hunk |

## Left out

- Termux: its resize exception depends on how that terminal moves its rows.
- Render scheduling, the throttle, traces, diagnostics and the start and end of the renderer: they paint no frame rows.
- Columns: a row is one value; horizontal position, clipping, synchronised output and the replacement of control characters are not modelled, and overlays are given already wrapped and indented.
- The render callback: its result is a parameter, and a history invalidation during it counts as one just before the frame.
- Glyphs: segmentation, widths and kinds are given; tabs, zero-width glyphs and white space other than the space and line breaks do not occur.
- Styles.AnsiCodeTracker.Process: the eight attribute flags are one set of numbers, and codes are already split into parameters.
- Wrap.BreakLongWord: the width of the line being built is taken from the line instead of being counted along, which is the same for additive widths.
- Wrap.WrapTextWithAnsi: a carriage return with line feed is one break glyph.
- TaskRuns.DeletedRowStaysAbsent: assumes that an update's reply is about the row it was sent for.
- The `/task` list's transcripts, painting, focus, share links, import and flow prompts: whether cached rows are due is a parameter, and a destroyed host counts as disposed.
- Stream: the rendering of released text into lines.
- The `/task` rows: a row is its id and one value, so the payload of an update is not modelled.
- Version.ParseVersion: letters and white space of the patterns are ASCII and the trimming set of the language; `isPrerelease` is one field of the parse.
- Release tags, caches and network requests of the update check.
- Matching and filtering: letter case is ASCII only, and scores are real numbers without rounding.
- Search.FindMatched: the snippet that replaces the detail of a match is not cut.
- Selector rows' display fields, effort ladders, renaming, preview panes, `selectorReplaceItem` and the warming of the search cache.
- HookObject.SessionHook.Close: the bounded wait for queued writes and the end of the adapter's input are not modelled.
- Message serialisation and process spawning: an adapter is an oracle for the k-th spawn and the k-th write.
- Staging: operations of `stageUpdate` are steps rather than one method, because other processes act between them; removal order, modification times and clocks are left to chance, and any operation may fail.
- The installer: it is taken to report success only after finishing every file it wrote.
- Cli.ParseArgs: leaving the process is a result; numbers are unbounded.
- RestartArgv.RestartKeepsTheOptions: the condition is `ArgumentsSurviveExactly`'s, which is exact for the arguments read; the options can coincide beyond it, when a later flag overrides the one that differs.
- Word-level differences, colours and the rendering of diff rows.
- Markdown lexing, themes, cards, authentication, login, proxies, screen capture and native bindings.
