/**
 What a frame of the producer becomes on the terminal, row by row: its own lines, the blank rows that hold the
 composer down, the overlay in the middle, and the cursor.
 */
module FrameRows {
  import opened Options
  import opened Terminal
  import opened RenderModel
  import opened Commands
  import opened Renderer
  import opened RenderRuns

  // ----- a reference for the layout -----

  /** How many blank rows a frame is short of the anchor, if it has one and does not fill the terminal by itself. */
  function Shortfall(f: RenderFrame, height: nat, anchor: nat): nat {
    if f.bottomAnchor && f.bottomAnchorStart.Some? && |f.lines| - Max(0, f.transientRows) < height && |f.lines| < anchor
    then anchor - |f.lines| else 0
  }

  /** A changed size drops the anchor of frames that have one. */
  predicate Resized(d: Display) {
    (d.width != 0 && d.width != d.columns) || (d.height != 0 && d.height != d.screen.height)
  }

  function PaddingOf(d: Display, f: RenderFrame): nat {
    Shortfall(f, d.screen.height,
              if f.bottomAnchor && f.bottomAnchorStart.Some? && Resized(d) then 0 else d.anchorLength)
  }

  /** The row the padding stands on: the anchor's start, if the frame has it. */
  function PaddedAt(f: RenderFrame, pad: nat): (at: nat)
    ensures at <= |f.lines|
  {
    if pad == 0 || f.bottomAnchorStart.None? || |f.lines| < f.bottomAnchorStart.value then |f.lines|
    else Max(0, f.bottomAnchorStart.value)
  }

  /** The line on row `k` of the padded frame, if it has that row. */
  function PaddedLine(f: RenderFrame, pad: nat, k: nat): Option<Line> {
    var at := PaddedAt(f, pad);
    if |f.lines| + pad <= k then None
    else if k < at then Some(f.lines[k])
    else if k < at + pad then Some(Line("", None))
    else Some(f.lines[k - pad])
  }

  function TotalRows(f: RenderFrame, pad: nat, height: nat): nat {
    if f.overlay.None? then |f.lines| + pad else Max(|f.lines| + pad, height)
  }

  /** An overlay takes all rows but two, and at least one. */
  function BandRows(rows: nat, height: nat): nat { Min(rows, if height <= 2 then 1 else height - 2) }

  function BandStart(f: RenderFrame, pad: nat, height: nat): int
    requires f.overlay.Some?
  {
    TotalRows(f, pad, height) - height + (height - BandRows(|f.overlay.value|, height)) / 2
  }

  /** The line on row `k` of the whole frame. Under an overlay the frame's own markers do not count. */
  function FrameLine(f: RenderFrame, pad: nat, height: nat, k: nat): Option<Line>
    requires 0 < height
  {
    if f.overlay.None? then PaddedLine(f, pad, k)
    else
      var start := BandStart(f, pad, height);
      if start <= k < start + BandRows(|f.overlay.value|, height) then Some(f.overlay.value[k - start])
      else
        match PaddedLine(f, pad, k)
        case Some(line) => Some(Line(line.text, None))
        case None => if k < height then Some(Line("", None)) else None
  }

  // ----- the layout is the reference -----

  lemma PaddedLinesAre(d: Display, f: RenderFrame, k: nat)
    requires 0 < d.screen.height
    ensures AnchorPadding(d, f) == PaddingOf(d, f)
    ensures var base := BaseLines(d, f);
            && |base| == |f.lines| + PaddingOf(d, f)
            && PaddedLine(f, PaddingOf(d, f), k) == if k < |base| then Some(base[k]) else None
  {
  }

  lemma FrameLinesAre(d: Display, f: RenderFrame, k: nat)
    requires 0 < d.screen.height
    ensures var lines, pad, height := LaidOut(d, f), PaddingOf(d, f), d.screen.height;
            && |lines| == TotalRows(f, pad, height)
            && FrameLine(f, pad, height, k) == if k < |lines| then Some(lines[k]) else None
  {
    PaddedLinesAre(d, f, k);
    if f.overlay.Some? {
      OverlaidLinesAre(d, f, k);
    }
  }

  lemma OverlaidLinesAre(d: Display, f: RenderFrame, k: nat)
    requires 0 < d.screen.height && f.overlay.Some?
    ensures var base, over, height := BaseLines(d, f), f.overlay.value, d.screen.height;
            && OverlayStart(|base|, |over|, height) == BandStart(f, PaddingOf(d, f), height)
            && OverlayHeight(|over|, height) == BandRows(|over|, height)
            && (k < Max(|base|, height) ==> LaidOut(d, f)[k] == OverlayRow(base, over, height, k))
  {
    PaddedLinesAre(d, f, k);
  }

  /** What belongs on row `k` of the terminal for frame `f`. */
  function RowOf(d: Display, f: RenderFrame, k: nat): Row
    requires 0 < d.screen.height
  {
    match FrameLine(f, PaddingOf(d, f), d.screen.height, k)
    case Some(line) => Shown(line.text + SEGMENT_RESET)
    case None => Blank
  }

  /** The rows a frame is painted from are its lines, in full, each followed by the reset. */
  lemma NextRowsAre(d: Display, f: RenderFrame, k: nat)
    requires 0 < d.screen.height
    ensures RowAt(NextRows(d, f), k) == RowOf(d, f, k)
    ensures |NextRows(d, f)| == TotalRows(f, PaddingOf(d, f), d.screen.height)
  {
    FrameLinesAre(d, f, k);
  }

  // ----- the cursor -----

  /** Row `k` of the frame carries a marker that the terminal can show: within the frame's last rows, and within
      its columns. */
  predicate Marked(d: Display, f: RenderFrame, k: nat)
    requires 0 < d.screen.height
  {
    var pad, height := PaddingOf(d, f), d.screen.height;
    var line := FrameLine(f, pad, height, k);
    && TotalRows(f, pad, height) <= k + height
    && line.Some? && line.value.marker.Some? && line.value.marker.value < d.columns
  }

  lemma {:induction false} LowestMarker(lines: seq<Line>, first: nat, columns: nat)
    ensures match MarkerFrom(lines, first, columns)
            case None => forall k :: first <= k < |lines| ==> !UsableAt(lines, columns, k)
            case Some(p) =>
              && UsableAt(lines, columns, p.row) && lines[p.row].marker == Some(p.col)
              && forall k :: p.row < k < |lines| ==> !UsableAt(lines, columns, k)
    decreases |lines|
  {
    if first < |lines| {
      var init := lines[..|lines| - 1];
      LowestMarker(init, first, columns);
      assert forall k :: k < |init| ==> (UsableAt(init, columns, k) <==> UsableAt(lines, columns, k));
    }
  }

  predicate UsableAt(lines: seq<Line>, columns: nat, k: int) {
    0 <= k < |lines| && lines[k].marker.Some? && lines[k].marker.value < columns
  }

  /** The cursor goes to the lowest marked row, at the column of its marker, and nowhere if none is marked. */
  lemma CursorIsOnTheLowestMarker(d: Display, f: RenderFrame)
    requires 0 < d.screen.height
    ensures match CursorOf(d, f)
            case None => forall k: nat :: !Marked(d, f, k)
            case Some(p) =>
              && Marked(d, f, p.row)
              && FrameLine(f, PaddingOf(d, f), d.screen.height, p.row).value.marker == Some(p.col)
              && forall k: nat :: p.row < k ==> !Marked(d, f, k)
  {
    var lines, first := LaidOut(d, f), Max(0, |LaidOut(d, f)| - d.screen.height);
    LowestMarker(lines, first, d.columns);
    forall k: nat ensures Marked(d, f, k) <==> first <= k && UsableAt(lines, d.columns, k) {
      FrameLinesAre(d, f, k);
    }
    FrameLinesAre(d, f, match CursorOf(d, f) case None => 0 case Some(p) => p.row);
  }

  // ----- every frame of every run -----

  /** Every row of the viewport shows the line of the frame that belongs there, in full and with its reset; the
      rows past the frame's end are blank. */
  lemma EveryFrameShowsItsLines(states: seq<Display>, events: seq<Event>, i: nat, k: nat)
    requires IsRun(states, events)
    requires forall j :: 0 <= j < |events| ==> Admissible(states[j], events[j])
    requires i < |events| && events[i].Frame?
    requires states[i + 1].top <= k < states[i + 1].top + states[i + 1].screen.height
    ensures k < |states[i + 1].screen.rows|
    ensures states[i + 1].screen.rows[k] == RowOf(states[i], events[i].frame, k)
  {
    EveryFrameIsShown(states, events, i);
    InvariantHolds(states, events, i);
    StepKeepsInvariant(states[i], events[i], states[i + 1]);
    NextRowsAre(states[i], events[i].frame, k);
  }

  /** What that says of a frame without overlay: each line before the padding stands on its own index, each line
      behind it at its distance from the end, and the padding shows the reset alone. */
  lemma PlainFrameShowsItsLines(states: seq<Display>, events: seq<Event>, i: nat, k: nat)
    requires IsRun(states, events)
    requires forall j :: 0 <= j < |events| ==> Admissible(states[j], events[j])
    requires i < |events| && events[i].Frame? && events[i].frame.overlay.None?
    requires states[i + 1].top <= k < states[i + 1].top + states[i + 1].screen.height
    ensures k < |states[i + 1].screen.rows|
    ensures var f, pad, row := events[i].frame, PaddingOf(states[i], events[i].frame), states[i + 1].screen.rows[k];
            && (k < PaddedAt(f, pad) ==> row == Shown(f.lines[k].text + SEGMENT_RESET))
            && (PaddedAt(f, pad) <= k < PaddedAt(f, pad) + pad ==> row == Shown(SEGMENT_RESET))
            && (PaddedAt(f, pad) + pad <= k < |f.lines| + pad ==> row == Shown(f.lines[k - pad].text + SEGMENT_RESET))
            && (|f.lines| + pad <= k ==> row == Blank)
  {
    EveryFrameShowsItsLines(states, events, i, k);
    assert "" + SEGMENT_RESET == SEGMENT_RESET;
  }

  /** The overlay's rows stand in the middle of the viewport, in full; above and below it is the frame. */
  lemma OverlayIsShown(states: seq<Display>, events: seq<Event>, i: nat, k: nat)
    requires IsRun(states, events)
    requires forall j :: 0 <= j < |events| ==> Admissible(states[j], events[j])
    requires i < |events| && events[i].Frame? && events[i].frame.overlay.Some?
    requires states[i + 1].top <= k < states[i + 1].top + states[i + 1].screen.height
    ensures k < |states[i + 1].screen.rows|
    ensures var f, row, height := events[i].frame, states[i + 1].screen.rows[k], states[i].screen.height;
            var pad := PaddingOf(states[i], f);
            var start, rows := BandStart(f, pad, height), BandRows(|f.overlay.value|, height);
            && (start <= k < start + rows ==> row == Shown(f.overlay.value[k - start].text + SEGMENT_RESET))
            && (!(start <= k < start + rows) && k < |f.lines| + pad ==>
                 row == Shown(PaddedLine(f, pad, k).value.text + SEGMENT_RESET))
            && (!(start <= k < start + rows) && |f.lines| + pad <= k ==>
                 row == if k < height then Shown(SEGMENT_RESET) else Blank)
  {
    EveryFrameShowsItsLines(states, events, i, k);
    assert "" + SEGMENT_RESET == SEGMENT_RESET;
  }

  /** The terminal's cursor is on the lowest marked row of the frame, or hidden. */
  lemma EveryFramePlacesItsCursor(states: seq<Display>, events: seq<Event>, i: nat, k: nat)
    requires IsRun(states, events)
    requires forall j :: 0 <= j < |events| ==> Admissible(states[j], events[j])
    requires i < |events| && events[i].Frame?
    ensures Marked(states[i], events[i].frame, k) ==>
              && states[i + 1].screen.cursorShown && k <= states[i + 1].screen.cursor
              && Marked(states[i], events[i].frame, states[i + 1].screen.cursor)
    ensures states[i + 1].screen.cursorShown ==> Marked(states[i], events[i].frame, states[i + 1].screen.cursor)
  {
    InvariantHolds(states, events, i);
    StepKeepsInvariant(states[i], events[i], states[i + 1]);
    EveryFrameIsShown(states, events, i);
    CursorIsOnTheLowestMarker(states[i], events[i].frame);
  }

  // ----- the anchor -----

  /** The frame has an anchor, and so many rows that last that they reach the bottom. */
  predicate ReachesBottom(d: Display, e: Event) {
    && e.Frame? && e.frame.bottomAnchor && e.frame.bottomAnchorStart.Some?
    && d.screen.height <= |e.frame.lines| - Max(0, e.frame.transientRows)
  }

  predicate DropsAnchor(d: Display, e: Event) {
    || e.Force? || e.Clear?
    || (e.Frame? && e.frame.bottomAnchor && e.frame.bottomAnchorStart.Some? && Resized(d))
  }

  function LastingRows(e: Event): int
    requires e.Frame?
  {
    |e.frame.lines| - Max(0, e.frame.transientRows)
  }

  ghost predicate Anchors(d: Display, e: Event, d': Display) {
    var carried := if DropsAnchor(d, e) then 0 else d.anchorLength;
    d'.anchorLength == if ReachesBottom(d, e) then Max(carried, LastingRows(e)) else carried
  }

  lemma StepAnchors(d: Display, e: Event, d': Display)
    requires Sane(d) && Next(d, e, d')
    ensures Anchors(d, e, d')
  {
  }

  /** Frame `j` reached the bottom with `length` rows, and nothing dropped the anchor from then to state `i`. */
  ghost predicate AnchoredBy(states: seq<Display>, events: seq<Event>, j: int, i: nat, length: int) {
    && 0 <= j < i <= |events| && i <= |states| && ReachesBottom(states[j], events[j])
    && length == LastingRows(events[j])
    && forall m :: j < m < i ==> !DropsAnchor(states[m], events[m])
  }

  ghost predicate Anchored(states: seq<Display>, events: seq<Event>, i: nat, anchor: nat) {
    && (anchor != 0 ==> exists j :: AnchoredBy(states, events, j, i, anchor))
    && forall j, length :: AnchoredBy(states, events, j, i, length) ==> length <= anchor
  }

  lemma AnchoredNext(states: seq<Display>, events: seq<Event>, i: nat, anchor: nat)
    requires i < |events| && |states| == |events| + 1 && Anchored(states, events, i, states[i].anchorLength)
    requires Anchors(states[i], events[i], states[i + 1]) && anchor == states[i + 1].anchorLength
    ensures Anchored(states, events, i + 1, anchor)
  {
    var d, e := states[i], events[i];
    if ReachesBottom(d, e) {
      assert AnchoredBy(states, events, i, i + 1, LastingRows(e));
    }
    if !DropsAnchor(d, e) && d.anchorLength != 0 {
      var j :| AnchoredBy(states, events, j, i, d.anchorLength);
      assert AnchoredBy(states, events, j, i + 1, d.anchorLength);
    }
    var next := i + 1;
    forall j, length | AnchoredBy(states, events, j, next, length) ensures length <= anchor {
      if j < i {
        assert AnchoredBy(states, events, j, i, length);
      }
    }
  }

  /** In every state of every run the anchor is the greatest number of lasting rows that reached the bottom since
      it was last dropped, and nothing if none did. */
  lemma {:induction false} AnchorIsTheTallestFrame(states: seq<Display>, events: seq<Event>, i: nat)
    requires IsRun(states, events) && i < |states|
    ensures Anchored(states, events, i, states[i].anchorLength)
  {
    if i != 0 {
      AnchorIsTheTallestFrame(states, events, i - 1);
      AnchorFollows(states, events, i - 1);
      AnchoredNext(states, events, i - 1, states[i].anchorLength);
    }
  }

  lemma AnchorFollows(states: seq<Display>, events: seq<Event>, i: nat)
    requires IsRun(states, events) && i < |events|
    ensures Anchors(states[i], events[i], states[i + 1])
  {
    EveryFrameIsDrawn(states, events, i);
    StepAnchors(states[i], events[i], states[i + 1]);
  }

  // ----- rows that were invalidated -----

  /** The terminal is as the renderer knows it but for rows that were invalidated. */
  ghost predicate KnownButInvalidated(d: Display) {
    && Sane(d) && d.lines != [] && !NeedsRepaint(d) && d.height == d.screen.height
    && d.screen.top == d.top && d.screen.cursor == d.cursorRow
    && forall k :: d.top <= k < d.top + d.screen.height ==>
         d.screen.rows[k] == RowAt(d.lines, k) || (k in d.invalidated && k < |d.lines|)
  }

  /** The same terminal with those rows as they should be. */
  function Restored(d: Display): Display { d.(screen := Imagined(d)) }

  lemma RestoredIsReady(d: Display)
    requires KnownButInvalidated(d)
    ensures Ready(Restored(d)) && Sane(Restored(d))
  {
  }

  /** In step, every visible row that changed or was invalidated is painted or blanked where it belongs. */
  lemma TouchedIsRepainted(d: Display, next: seq<string>, k: nat)
    requires KnownButInvalidated(d) && NonEmptyRows(next) && (0 < d.top ==> d.top < |next|)
    requires d.top <= k < d.top + d.screen.height && Touched(d, next, k)
    ensures var p := RepaintOf(d, next);
            && (0 < p.count ==> p.at == p.first)
            && (p.at <= k < p.at + p.count
                || (Min(p.at + p.count, d.top + d.screen.height - 1) <= k < p.at + p.count + p.extra
                    && 0 < p.extra && p.at + p.count <= d.top + d.screen.height))
  {
    var first, last := FirstVisible(d, next), LastVisible(d, next);
    assert first <= k <= last;
    PatchReaches(d, next);
    if first < |next| {
      FirstIsInView(d, next);
    }
  }

  lemma SameRepaint(d: Display, next: seq<string>)
    requires KnownButInvalidated(d)
    ensures RepaintOf(Restored(d), next) == RepaintOf(d, next)
  {
    SameVisible(d, Imagined(d), next);
    PatchReaches(d, next);
    PatchReaches(Restored(d), next);
    assert PatchEnd(Restored(d), next) == PatchEnd(d, next) && Appends(Restored(d), next) == Appends(d, next);
  }

  lemma RowsAlike(s: Screen, s': Screen, next: seq<string>, p: Repaint, k: nat)
    requires Valid(s) && Valid(s') && s.top == s'.top && s.height == s'.height && p.first + p.count <= |next|
    requires || BufferRow(s, k) == BufferRow(s', k)
             || (p.at <= k < p.at + p.count)
             || (Min(p.at + p.count, s.top + s.height - 1) <= k < Min(p.at + p.count + p.extra, s.top + s.height)
                 && 0 < p.extra && p.at + p.count <= s.top + s.height)
    ensures RepaintedRow(s, next, p, k) == RepaintedRow(s', next, p, k)
  {
  }

  lemma RepaintsAlike(d: Display, next: seq<string>, k: nat)
    requires KnownButInvalidated(d) && NonEmptyRows(next) && (0 < d.top ==> d.top < |next|) && d.top <= k
    ensures var p := RepaintOf(d, next);
            && RepaintedTop(d.screen, p) == RepaintedTop(Imagined(d), p)
            && RepaintedRow(d.screen, next, p, k) == RepaintedRow(Imagined(d), next, p, k)
  {
    var p := RepaintOf(d, next);
    if k < d.top + d.screen.height && Touched(d, next, k) {
      TouchedIsRepainted(d, next, k);
    } else if k < d.top + d.screen.height {
      assert BufferRow(d.screen, k) == BufferRow(Imagined(d), k);
    }
    RowsAlike(d.screen, Imagined(d), next, p, k);
  }

  /** The next frame puts every invalidated row right, whatever stood there. */
  lemma InvalidatedRowsAreRepaired(d: Display, f: RenderFrame, d': Display)
    requires KnownButInvalidated(d) && Rendered(d, f, d')
    ensures Shows(d')
  {
    if Ready(d) || PlanOf(d, NextRows(d, f), CommittedOf(f)) == FullRedraw {
      WhatIsShownForSure(d, f, d');
    } else {
      var b, next := Restored(d), NextRows(d, f);
      RestoredIsReady(d);
      OnlyTheHeightIsRead(d, Imagined(d), f);
      SameIsSent(d, Imagined(d), f);
      WhatIsShownForSure(b, f, d'.(screen := Interpret(b.screen, FrameCommands(b, f))));
      FrameShowsIff(d, f, d');
      SameRepaint(d, next);
      RepaintsAlike(d, next, d.top);
      forall k: nat | TopAfter(d, f) <= k < TopAfter(d, f) + d.screen.height
        ensures RowAfter(d, f, k) == RowAt(next, k)
      {
        RepaintsAlike(d, next, k);
        assert RowAfter(b, f, k) == RowAt(next, k);
      }
    }
  }

  // ----- what a frame leaves alone -----

  /** The rows above the viewport are rewritten only when the size changed, when their history was invalidated and
      something is stale there, when a row changed there that either frame did not commit to, or when the frame
      ends above the viewport. */
  predicate MustRedraw(d: Display, f: RenderFrame)
    requires 0 < d.screen.height
  {
    var rows := NextRows(d, f);
    || Resized(d)
    || (d.historyInvalidated &&
        (d.staleFrom.Some? || exists k :: 0 <= k < d.top && k < Max(|d.lines|, |rows|)
                                          && (Changed(d.lines, rows, k) || k in d.invalidated)))
    || (exists k :: 0 <= k < d.top && k < Max(|d.lines|, |rows|) && Changed(d.lines, rows, k)
                    && !(Committed(d.committed, k) && Committed(CommittedOf(f), k)))
    || (0 < d.top && |rows| <= d.top)
  }

  lemma RedrawIff(d: Display, f: RenderFrame)
    requires 0 < d.screen.height && d.lines != []
    ensures PlanOf(d, NextRows(d, f), CommittedOf(f)) == if MustRedraw(d, f) then FullRedraw else Patch
  {
    var rows := NextRows(d, f);
    assert forall k: nat :: Touched(d, rows, k) <==>
        k < Max(|d.lines|, |rows|) && (Changed(d.lines, rows, k) || k in d.invalidated);
    assert forall k: nat :: Shifted(d, rows, CommittedOf(f), k) <==>
        && k < Max(|d.lines|, |rows|) && Changed(d.lines, rows, k)
        && !(Committed(CommittedOf(f), k) && Committed(d.committed, k));
  }

  /** Otherwise no row above the viewport is touched. */
  lemma ScrollbackIsLeftAlone(d: Display, f: RenderFrame, d': Display, k: nat)
    requires Sane(d) && Ready(d) && d.lines != [] && Rendered(d, f, d') && !MustRedraw(d, f)
    requires k < d.top
    ensures k < |d.screen.rows| && k < |d'.screen.rows| && d'.screen.rows[k] == d.screen.rows[k]
  {
    RedrawIff(d, f);
    RenderedWhenReady(d, f, d');
  }

  /** A frame that changes nothing and repairs nothing sends no row at all. */
  lemma UnchangedFrameSendsNoRow(d: Display, f: RenderFrame)
    requires Sane(d) && d.lines != [] && !Resized(d) && d.invalidated == {} && !d.historyInvalidated
    requires NextRows(d, f) == d.lines
    ensures FrameCommands(d, f) == CursorCommands(d.cursorRow, CursorOf(d, f))
  {
    UnchangedIsQuiet(d, f);
    assert [] + CursorCommands(d.cursorRow, CursorOf(d, f)) == CursorCommands(d.cursorRow, CursorOf(d, f));
  }
}
