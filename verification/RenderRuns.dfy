/**
 What the terminal shows over whole runs of the renderer: frames in any order with row
 invalidations, history invalidations, forced repaints, clears and terminal resizes.
 */
module RenderRuns {
  import opened Options
  import opened Terminal
  import opened RenderModel
  import opened Commands
  import opened Renderer

  /** `Resize` hands over the buffer as the terminal chose to rearrange it. */
  datatype Event =
    | Frame(frame: RenderFrame)
    | InvalidateRows(startRow: int)
    | InvalidateHistory
    | Force
    | Clear
    | Resize(columns: nat, screen: Screen)

  ghost predicate Next(d: Display, e: Event, d': Display)
    requires Physical(d.screen)
  {
    match e
    case Frame(f) => Physical(d'.screen) && (Sane(d) ==> Rendered(d, f, d'))
    case InvalidateRows(startRow) => d' == RowsInvalidated(d, startRow)
    case InvalidateHistory => d' == d.(historyInvalidated := true)
    case Force => d' == Forgotten(d, -1, -1, d.screen)
    case Clear => d' == Forgotten(d, d.columns, d.screen.height, Cleared(d.screen))
    case Resize(columns, screen) =>
      Physical(screen) && screen.reflowed && d' == d.(columns := columns, screen := screen)
  }

  ghost predicate Initial(d: Display) {
    && Physical(d.screen)
    && d == Display([], 0, 0, None, None, 0, {}, false, 0, 0, d.columns, d.screen)
    && d.screen.top == 0 && d.screen.cursor == 0 && d.screen.atMargin && !d.screen.reflowed
    && d.screen.rows == Blanks(d.screen.height)
  }

  ghost predicate IsRun(states: seq<Display>, events: seq<Event>) {
    && |states| == |events| + 1
    && Initial(states[0])
    && (forall i :: 0 <= i < |states| ==> Physical(states[i].screen))
    && (forall i :: 0 <= i < |events| ==> Next(states[i], events[i], states[i + 1]))
  }

  /** The frame's cursor marker, if any, is not above the row the terminal will show first. */
  predicate MarkerVisible(d: Display, f: RenderFrame)
    requires 0 < d.screen.height
  {
    var plan := PlanOf(d, NextRows(d, f), CommittedOf(f));
    CursorOf(d, f).Some? ==> NextTop(d, NextRows(d, f), plan) <= CursorOf(d, f).value.row
  }

  /** The two hypotheses on a frame: its marker is visible, and a terminal that rearranged its buffer has its
      rows and its cursor where they were in spite of it, or changed size so that all is painted again. */
  ghost predicate Admissible(d: Display, e: Event)
    requires Physical(d.screen)
  {
    e.Frame? ==> MarkerVisible(d, e.frame) && (d.screen.reflowed ==> Ready(d))
  }

  ghost predicate Invariant(d: Display) {
    Sane(d) && ((d.width == -1 && d.height == -1) || d.screen.reflowed || Synced(d))
  }

  // ----- one frame -----

  lemma WindowRows(d: Display, next: seq<string>, plan: Plan, k: nat)
    requires plan.Patch? ==> Synced(d)
    requires 0 < d.screen.height && k < NextTop(d, next, plan) + d.screen.height
    ensures plan.Patch? ==> d.top <= |d.screen.rows|
    ensures NextBuffer(d, next, plan)[k] == if plan.Patch? && k < d.top then d.screen.rows[k] else RowAt(next, k)
  {
  }

  /** The renderer and the terminal agree after a frame exactly when the marker it carried is visible. */
  lemma FrameAgreesIffMarkerVisible(d: Display, f: RenderFrame, d': Display)
    requires Ready(d) && Physical(d.screen) && FrameEffect(d, f, d')
    ensures Synced(d') <==> MarkerVisible(d, f)
    ensures ViewportShows(d') && ScrollbackHonest(d') && Geometry(d')
    ensures !MarkerVisible(d, f) ==> d'.cursorRow < d'.top == d'.screen.cursor
  {
    var next := NextRows(d, f);
    var plan := PlanOf(d, next, CommittedOf(f));
    CursorInFrame(d, f);
    forall k | 0 <= k < |d'.screen.rows|
      ensures k < d'.screen.top && Committed(d'.staleFrom, k) ==> d'.screen.rows[k] == RowAt(next, k)
      ensures d'.screen.top <= k ==> d'.screen.rows[k] == RowAt(next, k)
    {
      WindowRows(d, next, plan, k);
      if plan.Patch? && k < d.top && Committed(d'.staleFrom, k) {
        PatchKeepsHonestRow(d, next, k);
      }
    }
  }

  /** A scrollback row that stays below the stale boundary did not change. */
  lemma PatchKeepsHonestRow(d: Display, next: seq<string>, k: nat)
    requires Synced(d) && NonEmptyRows(next) && k < d.top
    requires Committed(NextStaleFrom(d, next, Patch), k)
    ensures d.screen.rows[k] == RowAt(next, k)
  {
    assert Committed(d.staleFrom, k);
    assert d.screen.rows[k] == RowAt(d.lines, k);
    assert !Touched(d, next, k);
    assert TextAt(d.lines, k) == TextAt(next, k);
  }

  // ----- whole runs -----

  /** A frame begun in step with the terminal has its effect there. */
  lemma RenderedWhenReady(d: Display, f: RenderFrame, d': Display)
    requires Sane(d) && Ready(d) && Rendered(d, f, d')
    ensures FrameEffect(d, f, d')
  {
    assert d'.(screen := Interpret(d.screen, FrameCommands(d, f))) == d';
  }

  /** What the renderer remembers after a frame makes sense wherever it began. */
  lemma FrameLeavesSense(d: Display, f: RenderFrame, d': Display)
    requires Ready(d) && FrameEffect(d, f, d')
    ensures NonEmptyRows(d'.lines) && Geometry(d') && d'.cursorRow < d'.top + d'.height && d'.height == d.screen.height
    ensures d'.lines == [] ==> d'.cursorRow == 0
  {
    CursorInFrame(d, f);
  }

  lemma StepKeepsSense(d: Display, e: Event, d': Display)
    requires Sane(d) && Next(d, e, d')
    ensures Sane(d')
  {
    if e.Frame? {
      var pictured := Interpret(Believed(d).screen, FrameCommands(d, e.frame));
      FrameLeavesSense(Believed(d), e.frame, d'.(screen := pictured));
    }
  }

  /** Every frame of every run, after any markers, resizes and invalidations, can be drawn: the renderer is
      never in a state its frame has no contract for. */
  lemma {:induction false} EveryFrameIsDrawn(states: seq<Display>, events: seq<Event>, n: nat)
    requires IsRun(states, events) && n < |states|
    ensures Sane(states[n])
    ensures n < |events| && events[n].Frame? ==> Rendered(states[n], events[n].frame, states[n + 1])
  {
    if n != 0 {
      EveryFrameIsDrawn(states, events, n - 1);
      StepKeepsSense(states[n - 1], events[n - 1], states[n]);
    }
  }

  lemma StepKeepsInvariant(d: Display, e: Event, d': Display)
    requires Invariant(d) && Next(d, e, d') && Admissible(d, e)
    ensures Invariant(d')
    ensures e.Frame? ==> Ready(d) && FrameEffect(d, e.frame, d') && Synced(d')
  {
    StepKeepsSense(d, e, d');
    if e.Frame? {
      RenderedWhenReady(d, e.frame, d');
      FrameAgreesIffMarkerVisible(d, e.frame, d');
    }
  }

  lemma {:induction false} InvariantHolds(states: seq<Display>, events: seq<Event>, n: nat)
    requires IsRun(states, events)
    requires forall i :: 0 <= i < |events| ==> Admissible(states[i], events[i])
    requires n < |states|
    ensures Invariant(states[n])
  {
    if n == 0 {
    } else {
      InvariantHolds(states, events, n - 1);
      StepKeepsInvariant(states[n - 1], events[n - 1], states[n]);
    }
  }

  /** The buffer a renderer that cleared and replayed the whole frame would have left. */
  function Replayed(d: Display): Screen { FreshScreen(Cleared(d.screen), d.lines) }

  lemma SyncedIsShown(d: Display)
    requires Synced(d)
    ensures forall k: nat :: d.top <= k < d.top + d.screen.height ==> d.screen.rows[k] == BufferRow(Replayed(d), k)
  {
  }

  /** After every frame of every run the viewport is, row for row, the one a full replay of that
      frame would show at the same origin, and the renderer knows the origin and the cursor row. */
  lemma EveryFrameIsShown(states: seq<Display>, events: seq<Event>, i: nat)
    requires IsRun(states, events)
    requires forall j :: 0 <= j < |events| ==> Admissible(states[j], events[j])
    requires i < |events| && events[i].Frame?
    ensures var d := states[i + 1];
            && d.lines == NextRows(states[i], events[i].frame)
            && d.screen.top == d.top && d.screen.cursor == d.cursorRow
            && (if d.lines == [] then d.top == 0 else d.top < |d.lines| <= d.top + d.screen.height)
            && forall k: nat :: d.top <= k < d.top + d.screen.height ==> d.screen.rows[k] == BufferRow(Replayed(d), k)
  {
    InvariantHolds(states, events, i);
    StepKeepsInvariant(states[i], events[i], states[i + 1]);
    SyncedIsShown(states[i + 1]);
  }

  /** The commands of a full redraw leave exactly the replayed buffer, whatever was on the screen. */
  lemma RedrawCommandsReplay(s: Screen, rows: seq<string>)
    requires Valid(s) && NonEmptyRows(rows)
    ensures var s' := Interpret(s, FullCommands(true, rows));
            forall k: nat :: BufferRow(s', k) == RowAt(rows, k) == BufferRow(FreshScreen(Cleared(s), rows), k)
  {
    FullCommandsShow(s, true, rows);
  }

  // ----- scrollback -----

  /** Below the stale boundary the whole buffer, scrollback and viewport together, is the frame. */
  lemma ScrollbackIsHonest(states: seq<Display>, events: seq<Event>, i: nat)
    requires IsRun(states, events)
    requires forall j :: 0 <= j < |events| ==> Admissible(states[j], events[j])
    requires i < |events| && events[i].Frame?
    ensures var d := states[i + 1];
            forall k: nat :: (Committed(d.staleFrom, k) || d.top <= k) ==> BufferRow(d.screen, k) == RowAt(d.lines, k)
  {
    InvariantHolds(states, events, i);
    StepKeepsInvariant(states[i], events[i], states[i + 1]);
  }

  /** A row that changes above the viewport is either repainted or was append-only in both frames. */
  lemma StaleRowsAreCommitted(d: Display, f: RenderFrame, d': Display, k: nat)
    requires Ready(d) && Physical(d.screen) && FrameEffect(d, f, d')
    requires k < d'.screen.top && d'.screen.rows[k] != RowAt(d'.lines, k)
    ensures Synced(d) && k < d.top && !Committed(d'.staleFrom, k)
    ensures Changed(d.lines, d'.lines, k) ==> Committed(d.committed, k) && Committed(CommittedOf(f), k)
    ensures !Changed(d.lines, d'.lines, k) ==> d.screen.rows[k] != RowAt(d.lines, k)
  {
    FrameAgreesIffMarkerVisible(d, f, d');
    var next := NextRows(d, f);
    var plan := PlanOf(d, next, CommittedOf(f));
    WindowRows(d, next, plan, k);
    if Changed(d.lines, next, k) && !(Committed(d.committed, k) && Committed(CommittedOf(f), k)) {
      assert Shifted(d, next, CommittedOf(f), k);
    }
  }

  /** A frame drawn after an explicit history invalidation leaves nothing stale anywhere. */
  lemma InvalidatedHistoryIsRepaired(d: Display, f: RenderFrame, d': Display)
    requires Ready(d) && Physical(d.screen) && FrameEffect(d, f, d') && d.historyInvalidated
    ensures d'.staleFrom.None? && !d'.historyInvalidated
    ensures forall k: nat :: BufferRow(d'.screen, k) == RowAt(d'.lines, k)
  {
    FrameAgreesIffMarkerVisible(d, f, d');
  }

  // ----- reachable geometry -----

  /** Between two frames of one size no move is clamped: the deleted rows fit the viewport, the
      first row to paint is addressable, and a shorter frame is painted to its own last row. */
  lemma NoMoveIsClamped(d: Display, next: seq<string>, first: int, last: int)
    requires Synced(d) && d.lines != [] && NonEmptyRows(next)
    requires FirstIn(d, next, d.top, Max(|d.lines|, |next|), first)
    requires LastIn(d, next, d.top, Max(|d.lines|, |next|), last)
    requires first != -1
    ensures |next| <= first && d.top <= Max(0, |next| - 1) ==> |d.lines| - |next| <= d.screen.height
    ensures first < |next| ==>
              (if |d.lines| < |next| && first == |d.lines| then first - 1 else first) <= d.top + d.screen.height - 1
    ensures first < |next| < |d.lines| ==> |next| - 1 <= last
  {
    ShapeOfChange(d, next, first, last);
  }

  // ----- bottom anchoring -----

  /** Padding keeps every committed row at its index and every live row at its distance from the end. */
  lemma AnchorKeepsRows(d: Display, f: RenderFrame, k: nat)
    requires k < |f.lines|
    ensures var base := BaseLines(d, f);
            && |base| == |f.lines| + AnchorPadding(d, f)
            && (AnchorPadding(d, f) == 0 || k < AnchorInsertion(f) ==> base[k] == f.lines[k])
            && (AnchorPadding(d, f) == 0 || AnchorInsertion(f) <= k ==> base[|base| - (|f.lines| - k)] == f.lines[k])
  {
  }

  // ----- any frame on any terminal -----

  /** The terminal's first row and all it shows are what the renderer takes them for. */
  ghost predicate Shows(d: Display)
    requires Valid(d.screen)
  {
    d.top == d.screen.top && ViewportShows(d)
  }

  /** The rows a patch repaints, and where they come to stand on the terminal as it is. */
  function RepaintOf(d: Display, next: seq<string>): (p: Repaint)
    requires Valid(d.screen)
    ensures p.first + p.count <= |next|
  {
    PatchReaches(d, next);
    var first := FirstVisible(d, next);
    if first == -1 then Repaint(0, 0, 0, 0)
    else if |next| <= first then
      Repaint(0, 0, Lands(d.screen, d.cursorRow, Max(0, |next| - 1)) + (if next == [] then 0 else 1),
              |d.lines| - |next|)
    else
      Repaint(first, PatchEnd(d, next) - first + 1, StartRow(d.screen, d.cursorRow, first, Appends(d, next)),
              Max(0, |d.lines| - |next|))
  }

  /** The terminal's first row after a frame, and its row `k`: told from the display before the frame alone. */
  function TopAfter(d: Display, f: RenderFrame): nat
    requires Valid(d.screen)
  {
    var next := NextRows(d, f);
    match PlanOf(d, next, CommittedOf(f))
    case FirstRender => Max(d.screen.top, d.screen.cursor + |next| - d.screen.height)
    case FullRedraw => Max(0, |next| - d.screen.height)
    case Patch => RepaintedTop(d.screen, RepaintOf(d, next))
  }

  function RowAfter(d: Display, f: RenderFrame, k: nat): Row
    requires Valid(d.screen)
  {
    var next := NextRows(d, f);
    match PlanOf(d, next, CommittedOf(f))
    case FirstRender => PaintedRow(d.screen, next, 0, |next|, false, k)
    case FullRedraw => RowAt(next, k)
    case Patch => RepaintedRow(d.screen, next, RepaintOf(d, next), k)
  }

  lemma QuietRepaints(s: Screen, next: seq<string>)
    requires Physical(s)
    ensures Repainted(s, next, Repaint(0, 0, 0, 0), s)
  {
  }

  lemma DeletedRepaints(play: Playback, d: Display, next: seq<string>)
    requires Continues(play) && play([]) == d.screen && Physical(d.screen) && NonEmptyRows(next)
    requires |next| <= FirstVisible(d, next)
    ensures Repainted(d.screen, next, RepaintOf(d, next), play(PatchCommands(d, next)))
  {
    DeletedPlays(play, d.cursorRow, next, |d.lines|);
  }

  lemma UpdateRepaints(play: Playback, d: Display, next: seq<string>, first: nat, end: nat, appends: bool, extra: nat,
                       sent: seq<Command>)
    requires Continues(play) && play([]) == d.screen && Physical(d.screen) && NonEmptyRows(next)
    requires first <= end < |next| && (appends ==> 0 < first)
    requires sent == UpdateCommands(d.cursorRow, next, first, end, appends, extra)
    ensures Repainted(d.screen, next,
                      Repaint(first, end - first + 1, StartRow(d.screen, d.cursorRow, first, appends), extra),
                      play(sent))
  {
    UpdatePlays(play, d.cursorRow, next, first, end, appends, extra);
  }

  lemma PatchIsUpdate(d: Display, next: seq<string>, first: nat, end: nat, appends: bool, extra: nat)
    requires Valid(d.screen) && first == FirstVisible(d, next) < |next| && end == PatchEnd(d, next)
    requires appends == Appends(d, next) && extra == Max(0, |d.lines| - |next|)
    ensures first <= end < |next| && (appends ==> 0 < first)
    ensures PatchCommands(d, next) == UpdateCommands(d.cursorRow, next, first, end, appends, extra)
    ensures RepaintOf(d, next)
            == Repaint(first, end - first + 1, StartRow(d.screen, d.cursorRow, first, appends), extra)
  {
    PatchReaches(d, next);
  }

  lemma PatchRepaints(play: Playback, d: Display, next: seq<string>)
    requires Continues(play) && play([]) == d.screen && Physical(d.screen) && NonEmptyRows(next)
    ensures Repainted(d.screen, next, RepaintOf(d, next), play(PatchCommands(d, next)))
  {
    if FirstVisible(d, next) == -1 {
      QuietRepaints(d.screen, next);
    } else if |next| <= FirstVisible(d, next) {
      DeletedRepaints(play, d, next);
    } else {
      PatchReaches(d, next);
      var first, end, extra := FirstVisible(d, next), PatchEnd(d, next), Max(0, |d.lines| - |next|);
      PatchIsUpdate(d, next, first, end, Appends(d, next), extra);
      UpdateRepaints(play, d, next, first, end, Appends(d, next), extra, PatchCommands(d, next));
    }
  }

  lemma CursorPlaysAfter(play: Playback, done: seq<Command>, believed: nat, marked: Option<CursorPosition>)
    requires Continues(play)
    ensures CursorMoved(play(done), marked, play(done + CursorCommands(believed, marked)))
  {
    assert Then(done, CursorCommands(believed, marked)) == done + CursorCommands(believed, marked);
    CursorCommandsMove(play(done), believed, marked);
  }

  /** The screen is the one a frame leaves. */
  ghost predicate Left(d: Display, f: RenderFrame, s': Screen)
    requires Valid(d.screen)
  {
    && s'.top == TopAfter(d, f) && s'.height == d.screen.height
    && s'.reflowed == (d.screen.reflowed && PlanOf(d, NextRows(d, f), CommittedOf(f)) != FullRedraw)
    && forall k: nat :: BufferRow(s', k) == RowAfter(d, f, k)
  }

  lemma LeftMoved(d: Display, f: RenderFrame, s: Screen, marked: Option<CursorPosition>, s': Screen)
    requires Valid(d.screen) && Left(d, f, s) && CursorMoved(s, marked, s')
    ensures Left(d, f, s')
  {
    SameRows(s, s');
  }

  lemma WholePlays(play: Playback, d: Display, f: RenderFrame, clear: bool)
    requires Continues(play) && play([]) == d.screen && Physical(d.screen)
    requires PlanOf(d, NextRows(d, f), CommittedOf(f)) == if clear then FullRedraw else FirstRender
    ensures Left(d, f, play(FullCommands(clear, NextRows(d, f))))
  {
    if clear {
      FullPlaysFresh(play, true, NextRows(d, f));
    } else {
      FirstPlays(play, NextRows(d, f));
    }
  }

  lemma FramePlays(play: Playback, d: Display, f: RenderFrame)
    requires Continues(play) && play([]) == d.screen && Physical(d.screen)
    ensures Left(d, f, play(FrameCommands(d, f)))
  {
    var next, marked := NextRows(d, f), CursorOf(d, f);
    var plan := PlanOf(d, next, CommittedOf(f));
    if plan == Patch {
      PatchRepaints(play, d, next);
      CursorPlaysAfter(play, PatchCommands(d, next), PatchCursor(d, next), marked);
      LeftMoved(d, f, play(PatchCommands(d, next)), marked, play(FrameCommands(d, f)));
    } else {
      var whole := FullCommands(plan == FullRedraw, next);
      WholePlays(play, d, f, plan == FullRedraw);
      CursorPlaysAfter(play, whole, Max(0, |next| - 1), marked);
      LeftMoved(d, f, play(whole), marked, play(FrameCommands(d, f)));
    }
  }

  lemma SameRows(s: Screen, s': Screen)
    requires s.rows == s'.rows
    ensures forall k: nat :: BufferRow(s', k) == BufferRow(s, k)
  {
  }

  /** What any frame makes of any terminal, in step with the renderer or not. */
  lemma FrameLeaves(d: Display, f: RenderFrame, d': Display)
    requires Sane(d) && Rendered(d, f, d')
    ensures Left(d, f, d'.screen)
  {
    PlaysContinue(d.screen);
    FramePlays(Plays(d.screen), d, f);
  }

  /** The frame will be seen as it should: what is painted lands where it belongs, and what is not painted is
      there already. */
  ghost predicate WillShow(d: Display, f: RenderFrame)
    requires Valid(d.screen)
  {
    var next := NextRows(d, f);
    var top := TopAfter(d, f);
    && top == NextTop(d, next, PlanOf(d, next, CommittedOf(f)))
    && forall k: nat :: top <= k < top + d.screen.height ==> RowAfter(d, f, k) == RowAt(next, k)
  }

  lemma BelievedTop(d: Display, f: RenderFrame, d': Display)
    requires Sane(d) && Rendered(d, f, d')
    ensures d'.lines == NextRows(d, f)
    ensures d'.top == NextTop(d, NextRows(d, f), PlanOf(d, NextRows(d, f), CommittedOf(f)))
  {
    OnlyTheHeightIsRead(d, Believed(d).screen, f);
  }

  /** The terminal shows a frame if and only if it will show it, judged before. */
  lemma FrameShowsIff(d: Display, f: RenderFrame, d': Display)
    requires Sane(d) && Rendered(d, f, d')
    ensures Shows(d') <==> WillShow(d, f)
  {
    FrameLeaves(d, f, d');
    BelievedTop(d, f, d');
    forall k: nat | d'.screen.top <= k < d'.screen.top + d'.screen.height
      ensures d'.screen.rows[k] == RowAfter(d, f, k)
    {
      assert d'.screen.rows[k] == BufferRow(d'.screen, k);
    }
  }

  /** So it is for each frame of each run, whatever markers, resizes and invalidations came before. */
  lemma EveryFrameShowsIff(states: seq<Display>, events: seq<Event>, i: nat)
    requires IsRun(states, events) && i < |events| && events[i].Frame?
    ensures Shows(states[i + 1]) <==> WillShow(states[i], events[i].frame)
  {
    EveryFrameIsDrawn(states, events, i);
    FrameShowsIff(states[i], events[i].frame, states[i + 1]);
  }

  /** A frame begun in step is shown, and so is one that is redrawn after clearing, in step or not. */
  lemma WhatIsShownForSure(d: Display, f: RenderFrame, d': Display)
    requires Sane(d) && Rendered(d, f, d')
    requires Ready(d) || PlanOf(d, NextRows(d, f), CommittedOf(f)) == FullRedraw
    ensures WillShow(d, f) && Shows(d')
  {
    FrameShowsIff(d, f, d');
    if Ready(d) {
      RenderedWhenReady(d, f, d');
      FrameAgreesIffMarkerVisible(d, f, d');
    }
  }

  // ----- the two hypotheses are needed -----

  function PlainFrame(lines: seq<Line>): RenderFrame { RenderFrame(lines, None, false, None, 0, None) }

  /** A two-row terminal that painted three rows and now gets a shorter frame with its cursor on row
      zero: the marker is inside the frame's own last two rows, but above the terminal's first row. */
  lemma ShorterFrameCanHideItsMarker() returns (d0: Display, d: Display, f0: RenderFrame, f: RenderFrame)
    ensures IsRun([d0, d], [Frame(f0)]) && Admissible(d0, Frame(f0))
    ensures Synced(d) && !d.screen.reflowed && !MarkerVisible(d, f)
    ensures CursorOf(d, f).Some? && Max(0, |f.lines| - d.screen.height) <= CursorOf(d, f).value.row
  {
    d0, d, f0 := ThreeRowRun();
    f := PlainFrame([Line("a", Some(0)), Line("b", None)]);
    TwoRows(d, f);
    assert d.lines[..2] == NextRows(d, f);
    MarkerIsAbove(d, f);
  }

  lemma ThreeRowRun() returns (d0: Display, d: Display, f0: RenderFrame)
    ensures IsRun([d0, d], [Frame(f0)]) && Admissible(d0, Frame(f0))
    ensures d.lines == ["a" + SEGMENT_RESET, "b" + SEGMENT_RESET, "c" + SEGMENT_RESET] && d.top == 1
    ensures Synced(d) && !d.screen.reflowed && d.invalidated == {} && !d.historyInvalidated
    ensures d.screen.height == d.height == 2 && d.width == d.columns == 80
  {
    d0 := Display([], 0, 0, None, None, 0, {}, false, 0, 0, 80, Screen(Blanks(2), 0, 0, 2, true, true, false));
    f0 := PlainFrame([Line("a", None), Line("b", None), Line("c", None)]);
    ThreeRows(d0, f0);
    d := WholeFrameIsRendered(d0, f0, false);
    OneFrameRuns(d0, f0, d);
    ThreeRowsAreShown(d0, f0, d);
  }

  lemma ThreeRowsAreShown(d0: Display, f0: RenderFrame, d: Display)
    requires Sane(d0) && Ready(d0) && FrameEffect(d0, f0, d)
    requires d0.lines == [] && d0.width == d0.height == 0 && d0.invalidated == {} && !d0.screen.reflowed
    requires d0.screen.height == 2 && d0.columns == 80 && |NextRows(d0, f0)| == 3 && CursorOf(d0, f0) == None
    ensures Synced(d) && !d.screen.reflowed && d.lines == NextRows(d0, f0) && d.top == 1 && d.invalidated == {}
    ensures d.screen.height == d.height == 2 && d.width == d.columns == 80 && !d.historyInvalidated
  {
    FrameAgreesIffMarkerVisible(d0, f0, d);
  }

  lemma OneFrameRuns(d0: Display, f0: RenderFrame, d: Display)
    requires Initial(d0) && Next(d0, Frame(f0), d)
    ensures IsRun([d0, d], [Frame(f0)])
  {
  }

  lemma MarkerIsAbove(d: Display, f: RenderFrame)
    requires Synced(d) && d.screen.height == 2 && d.top == 1 && |d.lines| == 3 && d.invalidated == {}
    requires d.width == d.columns && d.height == 2 && !d.historyInvalidated
    requires NextRows(d, f) == d.lines[..2] && CursorOf(d, f) == Some(CursorPosition(0, 0)) && |f.lines| == 2
    ensures !MarkerVisible(d, f)
  {
    assert !Touched(d, NextRows(d, f), 0);
  }

  lemma ThreeRows(d: Display, f: RenderFrame)
    requires d.screen.height == 2 && f == PlainFrame([Line("a", None), Line("b", None), Line("c", None)])
    ensures NextRows(d, f) == ["a" + SEGMENT_RESET, "b" + SEGMENT_RESET, "c" + SEGMENT_RESET] && CursorOf(d, f) == None
  {
    assert LaidOut(d, f) == f.lines;
    assert f.lines[..2][..1] == f.lines[..1];
    assert MarkerFrom(f.lines, 1, d.columns) == MarkerFrom(f.lines[..2], 1, d.columns)
           == MarkerFrom(f.lines[..1], 1, d.columns);
  }

  lemma TwoRows(d: Display, f: RenderFrame)
    requires d.screen.height == 2 && 0 < d.columns && f == PlainFrame([Line("a", Some(0)), Line("b", None)])
    ensures NextRows(d, f) == ["a" + SEGMENT_RESET, "b" + SEGMENT_RESET] && CursorOf(d, f) == Some(CursorPosition(0, 0))
  {
    assert LaidOut(d, f) == f.lines;
    assert f.lines[..1] == [Line("a", Some(0))];
    assert MarkerFrom(f.lines, 0, d.columns) == MarkerFrom(f.lines[..1], 0, d.columns);
  }

  /** The display a frame that is printed whole leaves, and what is sent for it. */
  lemma WholeFrameIsRendered(d: Display, f: RenderFrame, clear: bool) returns (d': Display)
    requires Sane(d) && Ready(d)
    requires PlanOf(d, NextRows(d, f), CommittedOf(f)) == if clear then FullRedraw else FirstRender
    ensures Next(d, Frame(f), d') && FrameEffect(d, f, d')
  {
    var rows, marked := NextRows(d, f), CursorOf(d, f);
    var b := Scanned(d, f).(invalidated := if NeedsRepaint(d) || d.lines == [] then d.invalidated else {});
    var whole, play := FullCommands(clear, rows), Plays(d.screen);
    PlaysContinue(d.screen);
    PrintEffect(d, f, b, clear, play, whole);
    WholeSends(d, f, clear, whole);
    d' := CursorSent(Printed(b, rows, play(whole)), marked);
    WholePlaysOn(play, d.screen, whole, Max(0, |rows| - 1), marked);
    assert d'.(screen := Interpret(d.screen, FrameCommands(d, f))) == d';
  }

  lemma WholePlaysOn(play: Playback, s: Screen, whole: seq<Command>, believed: nat, marked: Option<CursorPosition>)
    requires Valid(s) && play == Plays(s)
    ensures Interpret(play(whole), CursorCommands(believed, marked))
            == Interpret(s, whole + CursorCommands(believed, marked))
  {
    InterpretConcat(s, whole, CursorCommands(believed, marked));
  }

  // ----- what being out of step costs -----

  lemma FirstIsInView(d: Display, next: seq<string>)
    requires Sane(d) && d.lines != [] && d.height == d.screen.height && NonEmptyRows(next)
    requires 0 <= FirstVisible(d, next) < |next|
    ensures var first := FirstVisible(d, next);
            d.top <= first && (if Appends(d, next) then d.top < first <= d.top + d.screen.height
                               else first < d.top + d.screen.height)
  {
    var first, k := FirstVisible(d, next), |d.lines|;
    if k < |next| && k < first {
      assert Changed(d.lines, next, k);
      assert Touched(d, next, k);
    }
  }

  lemma PatchFits(d: Display, next: seq<string>)
    requires Sane(d) && d.lines != [] && d.height == d.screen.height && NonEmptyRows(next)
    requires 0 <= FirstVisible(d, next) < |next|
    ensures var p := RepaintOf(d, next);
            0 < p.count && NextTop(d, next, Patch) == Max(d.top, p.first + p.count - d.screen.height)
  {
    PatchReaches(d, next);
  }

  lemma MisplacedIsWrong(d: Display, next: seq<string>, p: Repaint, d': Display)
    requires Sane(d) && Shows(d) && Valid(d'.screen) && d'.lines == next && d'.top == NextTop(d, next, Patch)
    requires p.first + p.count <= |next| && 0 < p.count && d.top <= p.first < p.at <= d.top + d.screen.height
    requires NextTop(d, next, Patch) == Max(d.top, p.first + p.count - d.screen.height)
    requires Repainted(d.screen, next, p, d'.screen) && Changed(d.lines, next, p.first)
    ensures !Shows(d')
  {
    if p.first < RepaintedTop(d.screen, p) {
      assert d'.screen.top != d'.top;
    } else {
      assert BufferRow(d'.screen, p.first) == BufferRow(d.screen, p.first) == RowAt(d.lines, p.first);
      assert RowAt(d.lines, p.first) != RowAt(next, p.first);
    }
  }

  /** The row where a patch starts whose cursor is on the terminal's first row and believed above it. */
  function LandsAt(d: Display, next: seq<string>): int
    requires d.cursorRow < d.top
  {
    var first, behind, last := FirstVisible(d, next), d.top - d.cursorRow, d.top + d.screen.height - 1;
    if Appends(d, next) then Min(first - 1 + behind, last) + 1 else Min(first + behind, last)
  }

  /** How far off a patch starts that is believed to start from above the terminal's first row. */
  lemma StartsBehind(d: Display, next: seq<string>)
    requires Sane(d) && d.lines != [] && d.height == d.screen.height && NonEmptyRows(next)
    requires d.cursorRow < d.top == d.screen.top == d.screen.cursor && 0 <= FirstVisible(d, next) < |next|
    ensures var p := RepaintOf(d, next);
            d.top <= p.first == FirstVisible(d, next) <= p.at == LandsAt(d, next) <= d.top + d.screen.height
  {
    FirstIsInView(d, next);
  }

  /** What a hidden marker costs: rows the next frame changes are painted too low, by as much as the cursor was
      believed too high unless the terminal's last row comes first, and the row they start at stays as it was. */
  lemma HiddenMarkerMisplacesRows(d: Display, f: RenderFrame, d': Display)
    requires Sane(d) && d.lines != [] && Shows(d) && d.cursorRow < d.top == d.screen.cursor
    requires PlanOf(d, NextRows(d, f), CommittedOf(f)) == Patch && Rendered(d, f, d')
    requires 0 <= FirstVisible(d, NextRows(d, f)) < |NextRows(d, f)|
    ensures var next := NextRows(d, f);
            var p := RepaintOf(d, next);
            && Repainted(d.screen, next, p, d'.screen)
            && p.first == FirstVisible(d, next) && p.at == LandsAt(d, next)
            && (p.at != p.first && Changed(d.lines, next, p.first) ==> !Shows(d'))
  {
    var next := NextRows(d, f);
    var p := RepaintOf(d, next);
    StartsBehind(d, next);
    FrameIsRepaint(d, f, d');
    BelievedTop(d, f, d');
    PatchFits(d, next);
    if p.at != p.first && Changed(d.lines, next, p.first) {
      MisplacedIsWrong(d, next, p, d');
    }
  }

  lemma FrameIsRepaint(d: Display, f: RenderFrame, d': Display)
    requires Sane(d) && PlanOf(d, NextRows(d, f), CommittedOf(f)) == Patch && Rendered(d, f, d')
    ensures Repainted(d.screen, NextRows(d, f), RepaintOf(d, NextRows(d, f)), d'.screen)
  {
    FrameLeaves(d, f, d');
    assert forall k: nat ::
        RowAfter(d, f, k) == RepaintedRow(d.screen, NextRows(d, f), RepaintOf(d, NextRows(d, f)), k);
  }

  /** A frame in which nothing visible changed sends the cursor on its way and alters no row: it leaves a
      terminal right if and only if it was right before. */
  lemma QuietFrameRepairsNothing(d: Display, f: RenderFrame, d': Display)
    requires Sane(d) && d.lines != [] && Rendered(d, f, d')
    requires PlanOf(d, NextRows(d, f), CommittedOf(f)) == Patch && FirstVisible(d, NextRows(d, f)) == -1
    ensures d'.screen.rows == d.screen.rows && d'.screen.top == d.screen.top
    ensures Shows(d') <==> Shows(d)
  {
    CursorCommandsMove(d.screen, d.cursorRow, CursorOf(d, f));
    assert FrameCommands(d, f) == [] + CursorCommands(d.cursorRow, CursorOf(d, f))
           == CursorCommands(d.cursorRow, CursorOf(d, f));
    BelievedTop(d, f, d');
    SameVisibleRows(d, NextRows(d, f));
  }

  lemma SameVisibleRows(d: Display, next: seq<string>)
    requires Sane(d) && d.lines != [] && d.height == d.screen.height && NonEmptyRows(next)
    requires FirstVisible(d, next) == -1
    ensures |next| == |d.lines| && NextTop(d, next, Patch) == d.top
    ensures forall k: nat :: d.top <= k ==> RowAt(next, k) == RowAt(d.lines, k)
  {
    if |next| != |d.lines| {
      var k := Max(|next|, |d.lines|) - 1;
      assert Changed(d.lines, next, k);
      assert Touched(d, next, k);
    }
    forall k: nat | d.top <= k < |next| ensures next[k] == d.lines[k] {
      assert !Touched(d, next, k);
    }
  }

  /** A terminal resized and put back between two frames may have moved its rows and its cursor while every
      size comparison still says nothing changed. The next frame is patched as if nothing had: it is shown if
      and only if it will be on the terminal as it is, and one without a change leaves it as it is. */
  lemma ResizeAndBackIsNotNoticed(d: Display, f: RenderFrame, garbled: Screen, d': Display)
    requires Synced(d) && Sane(d) && d.lines != [] && d.width == d.columns && d.height == d.screen.height
    requires Physical(garbled) && garbled.reflowed && garbled.height == d.screen.height
    requires Next(d.(screen := garbled), Frame(f), d')
    ensures var back := d.(screen := garbled);
            && Next(d, Resize(d.columns, garbled), back) && !NeedsRepaint(back)
            && FrameCommands(back, f) == FrameCommands(d, f)
            && (Shows(d') <==> WillShow(back, f))
            && (NextRows(d, f) == d.lines && d.invalidated == {} && !d.historyInvalidated ==>
                 d'.screen.rows == garbled.rows && d'.screen.top == garbled.top && (Shows(d') <==> Shows(back)))
  {
    var back := d.(screen := garbled);
    OnlyTheHeightIsRead(d, garbled, f);
    SameIsSent(d, garbled, f);
    FrameShowsIff(back, f, d');
    if NextRows(d, f) == d.lines && d.invalidated == {} && !d.historyInvalidated {
      UnchangedIsQuiet(back, f);
      QuietFrameRepairsNothing(back, f, d');
    }
  }

  lemma UnchangedIsQuiet(d: Display, f: RenderFrame)
    requires Sane(d) && d.lines != [] && !NeedsRepaint(d) && d.invalidated == {} && !d.historyInvalidated
    requires NextRows(d, f) == d.lines
    ensures PlanOf(d, d.lines, CommittedOf(f)) == Patch && FirstVisible(d, d.lines) == -1
  {
    assert forall k: nat :: !Touched(d, d.lines, k);
  }

  /** Both halves of "right after if and only if right before" fail for a frame that paints: two rows, of which
      the second changes. Where that row alone was wrong it is repaired, and where all was right but the
      cursor moved up it is painted over the first. */
  lemma PatchRepairsAndSpoils() returns (d: Display, f: RenderFrame, wrong: Screen, moved: Screen)
    ensures Synced(d) && Sane(d) && d.width == d.columns && d.height == d.screen.height
    ensures Physical(wrong) && !Shows(d.(screen := wrong)) && WillShow(d.(screen := wrong), f)
    ensures Physical(moved) && Shows(d.(screen := moved)) && !WillShow(d.(screen := moved), f)
  {
    var a, b := "a" + SEGMENT_RESET, "b" + SEGMENT_RESET;
    var right := Screen([Shown(a), Shown(b)], 0, 1, 2, false, false, false);
    d := Display([a, b], 0, 1, None, None, 0, {}, false, 80, 2, 80, right);
    f := PlainFrame([Line("a", None), Line("c", None)]);
    wrong := right.(rows := [Shown(a), Blank], reflowed := true);
    moved := right.(cursor := 0, reflowed := true);
    SecondRowChanges(d, wrong, f);
    SecondRowChanges(d, moved, f);
    assert RowAt(d.lines, 1) == Shown(b);
    assert RowAfter(d.(screen := wrong), f, 0) == RowAt(NextRows(d.(screen := wrong), f), 0);
    assert RowAfter(d.(screen := moved), f, 0) != RowAt(NextRows(d.(screen := moved), f), 0);
  }

  lemma SecondRowChanges(d: Display, screen: Screen, f: RenderFrame)
    requires d.lines == ["a" + SEGMENT_RESET, "b" + SEGMENT_RESET] && d.top == 0 && d.cursorRow == 1
    requires d.width == d.columns && d.height == 2 && d.invalidated == {} && !d.historyInvalidated
    requires Physical(screen) && screen.height == 2 && screen.top == 0 && |screen.rows| == 2
    requires f == PlainFrame([Line("a", None), Line("c", None)])
    ensures var back := d.(screen := screen);
            && NextRows(back, f) == ["a" + SEGMENT_RESET, "c" + SEGMENT_RESET]
            && PlanOf(back, NextRows(back, f), CommittedOf(f)) == Patch
            && RepaintOf(back, NextRows(back, f)) == Repaint(1, 1, Lands(screen, 1, 1), 0)
  {
    var back := d.(screen := screen);
    var next := ["a" + SEGMENT_RESET, "c" + SEGMENT_RESET];
    assert LaidOut(back, f) == f.lines;
    assert NextRows(back, f) == next;
    assert back.lines[1][0] == 'b' && next[1][0] == 'c';
    assert !Touched(back, next, 0) && Touched(back, next, 1);
    VisibleIs(back, next, 1, 1);
  }
}
