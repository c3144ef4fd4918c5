/**
 The differential renderer. It keeps the last frame, the believed viewport top and the
 believed cursor row, and sends only relative moves, erasures, prints and line feeds.
 Every frame is proved to have the effect `RenderModel.FrameEffect` gives it.
 */
module Renderer {
  import opened Options
  import opened Terminal
  import opened RenderModel
  import opened Commands

  // ----- what one frame changed -----

  ghost predicate FirstIn(d: Display, next: seq<string>, from: nat, to: nat, r: int) {
    if r == -1 then forall k :: from <= k < to ==> !Touched(d, next, k)
    else from <= r < to && Touched(d, next, r) && forall k :: from <= k < r ==> !Touched(d, next, k)
  }

  ghost predicate LastIn(d: Display, next: seq<string>, from: nat, to: nat, r: int) {
    if r == -1 then forall k :: from <= k < to ==> !Touched(d, next, k)
    else from <= r < to && Touched(d, next, r) && forall k :: r < k < to ==> !Touched(d, next, k)
  }

  /** Some row above the viewport and before `to` that shifted, or -1 when there is none. */
  ghost predicate FirstShiftedIn(d: Display, next: seq<string>, committed: Option<nat>, to: nat, r: int) {
    if r == -1 then forall k :: 0 <= k < to && k < d.top ==> !Shifted(d, next, committed, k)
    else 0 <= r < d.top && Shifted(d, next, committed, r)
  }

  /** What looking at one more row does to the bounds found so far. */
  lemma ScanStep(d: Display, next: seq<string>, committed: Option<nat>, from: nat, i: nat, first: int, last: int)
    requires from <= i && FirstIn(d, next, from, i, first) && LastIn(d, next, from, i, last)
    ensures !Touched(d, next, i) ==> FirstIn(d, next, from, i + 1, first) && LastIn(d, next, from, i + 1, last)
    ensures Touched(d, next, i) ==>
              FirstIn(d, next, from, i + 1, if first == -1 then i else first) && LastIn(d, next, from, i + 1, i)
  {
  }

  /** Painting the touched visible rows makes the buffer the kept scrollback plus a window of the new frame. */
  lemma PatchedBuffer(d: Display, next: seq<string>, s': Screen)
    requires Synced(d) && NonEmptyRows(next) && Valid(s')
    requires s'.height == d.screen.height && s'.top == NextTop(d, next, Patch)
    requires forall k: nat :: k < d.top ==> BufferRow(s', k) == BufferRow(d.screen, k)
    requires forall k: nat :: d.top <= k ==>
               BufferRow(s', k) == RowAt(next, k)
                   || (BufferRow(s', k) == BufferRow(d.screen, k) && !Touched(d, next, k))
    ensures s'.rows == NextBuffer(d, next, Patch)
  {
    forall k: nat | k < |s'.rows| ensures s'.rows[k] == NextBuffer(d, next, Patch)[k] {
      assert s'.rows[k] == BufferRow(s', k);
      if d.top <= k {
        assert BufferRow(d.screen, k) == RowAt(d.lines, k);
        if !Touched(d, next, k) {
          assert TextAt(d.lines, k) == TextAt(next, k);
          assert RowAt(d.lines, k) == RowAt(next, k);
        }
      }
    }
  }

  /** Where the touched visible rows can lie once the geometry of the last frame is known. */
  lemma ShapeOfChange(d: Display, next: seq<string>, first: int, last: int)
    requires Synced(d) && d.lines != [] && NonEmptyRows(next)
    requires FirstIn(d, next, d.top, Max(|d.lines|, |next|), first)
    requires LastIn(d, next, d.top, Max(|d.lines|, |next|), last)
    ensures first == -1 <==> last == -1
    ensures |d.lines| != |next| ==>
            first != -1 && first <= Max(d.top, Min(|d.lines|, |next|)) && last == Max(|d.lines|, |next|) - 1
    ensures first != -1 ==> d.top <= first <= last < Max(|d.lines|, |next|)
    ensures |next| <= first ==> |next| < |d.lines|
  {
    if |d.lines| != |next| {
      assert Changed(d.lines, next, Max(|d.lines|, |next|) - 1);
      assert Touched(d, next, Max(|d.lines|, |next|) - 1);
      assert Changed(d.lines, next, Max(d.top, Min(|d.lines|, |next|)));
      assert Touched(d, next, Max(d.top, Min(|d.lines|, |next|)));
    }
  }

  /** Without stale rows the whole scan is the visible scan; with them its first row is the stale boundary. */
  lemma ScanSettles(d: Display, next: seq<string>, first: int, last: int, firstVisible: int, lastVisible: int)
    requires d.top <= |d.lines|
    requires var n := Max(|d.lines|, |next|);
             && FirstIn(d, next, 0, n, first) && LastIn(d, next, 0, n, last)
             && FirstIn(d, next, d.top, n, firstVisible) && LastIn(d, next, d.top, n, lastVisible)
    ensures LeavesStale(d, next) ==> first == FirstTouched(d, next, 0)
    ensures !LeavesStale(d, next) ==> first == firstVisible && last == lastVisible
  {
  }

  /** What the renderer holds once the two frames have been compared and no redraw was called for. */
  function Scanned(d: Display, f: RenderFrame): Display
    requires 0 < d.screen.height
  {
    d.(committed := CommittedOf(f), anchorLength := NextAnchor(d, f), invalidated := {}, historyInvalidated := false,
       staleFrom := NextStaleFrom(d, NextRows(d, f), Patch))
  }

  /** The visible rows are painted and the cursor stands on a row of the viewport. */
  ghost predicate PatchPainted(d: Display, f: RenderFrame, now: Display)
    requires Ready(d) && PlanOf(d, NextRows(d, f), CommittedOf(f)) == Patch
  {
    && Valid(now.screen)
    && now == Scanned(d, f).(top := NextTop(d, NextRows(d, f), Patch), cursorRow := now.screen.cursor,
       screen := now.screen)
    && now.screen.top == now.top && now.screen.height == d.screen.height && now.screen.reflowed == d.screen.reflowed
    && now.screen.rows == NextBuffer(d, NextRows(d, f), Patch)
    && (Physical(d.screen) ==> Physical(now.screen))
    && (NextRows(d, f) == [] ==> now.screen.atMargin && now.screen.cursor == 0)
  }

  /** A frame that only lost rows shows its window once the lost rows are blank. */
  lemma DeletedPaints(d: Display, next: seq<string>, first: int, s': Screen)
    requires Synced(d) && d.lines != [] && NonEmptyRows(next)
    requires FirstIn(d, next, d.top, Max(|d.lines|, |next|), first)
    requires |next| <= first && (if |next| == 0 then d.top == 0 else d.top < |next|)
    requires |next| < |d.lines|
    requires Repainted(d.screen, next, Repaint(0, 0, |next|, |d.lines| - |next|), s')
    ensures s'.top == NextTop(d, next, Patch) && s'.rows == NextBuffer(d, next, Patch)
  {
    PatchedBuffer(d, next, s');
  }

  lemma DeletedIsPatch(d: Display, f: RenderFrame, first: int, play: Playback, now: Display)
    requires Synced(d) && d.lines != [] && PlanOf(d, NextRows(d, f), CommittedOf(f)) == Patch
    requires Continues(play) && play([]) == d.screen
    requires var next := NextRows(d, f);
             && FirstIn(d, next, d.top, Max(|d.lines|, |next|), first)
             && |next| <= first && |next| < |d.lines| && d.top <= Max(0, |next| - 1)
             && now == Scanned(d, f).(cursorRow := Max(0, |next| - 1), screen := now.screen)
             && now.screen == play(DeletedCommands(d.cursorRow, |next|, |d.lines|))
    ensures PatchPainted(d, f, now)
  {
    var next := NextRows(d, f);
    MovesLand(d.screen, Max(0, |next| - 1));
    DeletedPlays(play, d.cursorRow, next, |d.lines|);
    DeletedPaints(d, next, first, now.screen);
  }

  /** `first..last` takes in every touched visible row that the new frame still has. */
  ghost predicate Covers(d: Display, next: seq<string>, first: int, last: int) {
    && d.top <= first <= last && first < |next|
    && (forall k :: d.top <= k < |next| && (k < first || last < k) ==> !Touched(d, next, k))
    && (|d.lines| != |next| ==> |next| - 1 <= last)
  }

  /** Repainting the touched visible rows, and blanking the rows given up, shows the new frame's window. */
  lemma UpdatePaints(d: Display, next: seq<string>, first: int, last: int, s': Screen)
    requires Synced(d) && d.lines != [] && NonEmptyRows(next)
    requires Covers(d, next, first, last)
    requires var end := Min(last, |next| - 1);
             Repainted(d.screen, next, Repaint(first, end - first + 1, first, Max(0, |d.lines| - |next|)), s')
    ensures s'.top == NextTop(d, next, Patch) && s'.rows == NextBuffer(d, next, Patch)
  {
    PatchedBuffer(d, next, s');
  }

  /** The renderer's record of rows painted down to `end`. */
  function Reaching(b: Display, end: nat, screen: Screen): Display {
    b.(top := Max(b.top, end - screen.height + 1), cursorRow := end, screen := screen)
  }

  /** The window of the new frame is on the screen, and the cursor on its row `end`. */
  ghost predicate WindowShown(d: Display, next: seq<string>, end: nat, s': Screen)
    requires Synced(d)
  {
    && Physical(s') && s'.rows == NextBuffer(d, next, Patch) && s'.cursor == end
    && s'.top == NextTop(d, next, Patch) == Max(d.top, end - s'.height + 1)
    && s'.height == d.screen.height && s'.reflowed == d.screen.reflowed
  }

  lemma RepaintShows(d: Display, next: seq<string>, first: int, last: int, s': Screen)
    requires Synced(d) && d.lines != [] && NonEmptyRows(next) && Covers(d, next, first, last)
    requires var end := Min(last, |next| - 1);
             && s'.cursor == end
             && Repainted(d.screen, next, Repaint(first, end - first + 1, first, Max(0, |d.lines| - |next|)), s')
    ensures WindowShown(d, next, Min(last, |next| - 1), s')
  {
    UpdatePaints(d, next, first, last, s');
    EndFits(d, next, first, last);
  }

  lemma UpdateShows(d: Display, next: seq<string>, first: nat, last: nat, appendStart: bool, play: Playback)
    requires Synced(d) && d.lines != [] && NonEmptyRows(next)
    requires Covers(d, next, first, last) && (appendStart ==> 0 < first)
    requires d.top <= (if appendStart then first - 1 else first) < d.top + d.screen.height
    requires Continues(play) && play([]) == d.screen
    ensures var end := Min(last, |next| - 1);
            WindowShown(d, next, end,
              play(UpdateCommands(d.cursorRow, next, first, end, appendStart, Max(0, |d.lines| - |next|))))
  {
    var end, extra := Min(last, |next| - 1), Max(0, |d.lines| - |next|);
    MovesLand(d.screen, if appendStart then first - 1 else first);
    EndFits(d, next, first, last);
    UpdatePlays(play, d.cursorRow, next, first, end, appendStart, extra);
    RepaintShows(d, next, first, last, play(UpdateCommands(d.cursorRow, next, first, end, appendStart, extra)));
  }

  lemma EndFits(d: Display, next: seq<string>, first: int, last: int)
    requires Synced(d) && d.lines != [] && Covers(d, next, first, last)
    ensures var end := Min(last, |next| - 1);
            && d.top <= end && NextTop(d, next, Patch) == Max(d.top, end - d.screen.height + 1)
            && end + 1 + Max(0, |d.lines| - |next|) <= NextTop(d, next, Patch) + d.screen.height
  {
  }

  lemma WindowIsPatch(d: Display, f: RenderFrame, end: nat, b: Display, s': Screen)
    requires Synced(d) && PlanOf(d, NextRows(d, f), CommittedOf(f)) == Patch && NextRows(d, f) != []
    requires WindowShown(d, NextRows(d, f), end, s') && b == Scanned(d, f)
    ensures PatchPainted(d, f, Reaching(b, end, s'))
  {
  }

  lemma CursorInFrame(d: Display, f: RenderFrame)
    requires 0 < d.screen.height
    ensures CursorOf(d, f).Some? ==> CursorOf(d, f).value.row < |NextRows(d, f)|
  {
  }

  /** A display whose renderer has just sent its cursor to the marker, if there is one. */
  function CursorSent(d: Display, marked: Option<CursorPosition>): Display
    requires Valid(d.screen)
  {
    d.(cursorRow := if marked.Some? then marked.value.row else d.cursorRow,
       screen := Interpret(d.screen, CursorCommands(d.cursorRow, marked)))
  }

  /** What the renderer holds when it is about to print a whole frame. */
  ghost predicate AboutToPrint(d: Display, f: RenderFrame, b: Display)
    requires 0 < d.screen.height
  {
    b == Scanned(d, f).(invalidated := if NeedsRepaint(d) || d.lines == [] then d.invalidated else {},
                        staleFrom := b.staleFrom)
  }

  function Printed(b: Display, rows: seq<string>, screen: Screen): Display {
    b.(lines := rows, top := Max(0, |rows| - screen.height), cursorRow := Max(0, |rows| - 1), staleFrom := None,
       width := b.columns, height := screen.height, screen := screen)
  }

  lemma PrintedHasEffect(d: Display, f: RenderFrame, b: Display, clear: bool, s: Screen)
    requires Ready(d) && AboutToPrint(d, f, b)
    requires PlanOf(d, NextRows(d, f), CommittedOf(f)) == if clear then FullRedraw else FirstRender
    requires s == FreshScreen(d.screen.(cursorShown := false, reflowed := d.screen.reflowed && !clear), NextRows(d, f))
    ensures FrameEffect(d, f, CursorSent(Printed(b, NextRows(d, f), s), CursorOf(d, f)))
  {
    CursorInFrame(d, f);
    CursorCommandsMove(s, Max(0, |NextRows(d, f)| - 1), CursorOf(d, f));
  }

  /** A full redraw has the effect the specification gives it. */
  lemma PrintEffect(d: Display, f: RenderFrame, b: Display, clear: bool, play: Playback, buffer: seq<Command>)
    requires Ready(d) && AboutToPrint(d, f, b) && Continues(play) && play([]) == d.screen
    requires PlanOf(d, NextRows(d, f), CommittedOf(f)) == if clear then FullRedraw else FirstRender
    requires buffer == FullCommands(clear, NextRows(d, f))
    ensures FrameEffect(d, f, CursorSent(Printed(b, NextRows(d, f), play(buffer)), CursorOf(d, f)))
  {
    FullPlaysFresh(play, clear, NextRows(d, f));
    PrintedHasEffect(d, f, b, clear, play(buffer));
  }

  /** A patched frame has its effect once the cursor is placed. */
  lemma PatchEffect(d: Display, f: RenderFrame, now: Display, d': Display)
    requires Ready(d) && PlanOf(d, NextRows(d, f), CommittedOf(f)) == Patch
    requires PatchPainted(d, f, now)
    requires d' == CursorSent(now, CursorOf(d, f))
                   .(lines := NextRows(d, f), width := d.columns, height := d.screen.height)
    ensures FrameEffect(d, f, d')
  {
    CursorInFrame(d, f);
    CursorCommandsMove(now.screen, now.cursorRow, CursorOf(d, f));
  }

  // ----- what is sent for a frame -----

  function FirstFrom(d: Display, next: seq<string>, k: nat): (r: int)
    ensures FirstIn(d, next, k, Max(|d.lines|, |next|), r)
    decreases Max(|d.lines|, |next|) - k
  {
    if Max(|d.lines|, |next|) <= k then -1 else if Touched(d, next, k) then k else FirstFrom(d, next, k + 1)
  }

  function LastFrom(d: Display, next: seq<string>, from: nat, to: nat): (r: int)
    ensures LastIn(d, next, from, to, r)
  {
    if to <= from then -1 else if Touched(d, next, to - 1) then to - 1 else LastFrom(d, next, from, to - 1)
  }

  /** The first and the last touched row the terminal can be told to change, or -1. */
  function FirstVisible(d: Display, next: seq<string>): int { FirstFrom(d, next, d.top) }

  function LastVisible(d: Display, next: seq<string>): int { LastFrom(d, next, d.top, Max(|d.lines|, |next|)) }

  lemma VisibleIs(d: Display, next: seq<string>, first: int, last: int)
    requires FirstIn(d, next, d.top, Max(|d.lines|, |next|), first)
    requires LastIn(d, next, d.top, Max(|d.lines|, |next|), last)
    ensures FirstVisible(d, next) == first && LastVisible(d, next) == last
  {
  }

  /** The last row a patch repaints: all rows that were appended are, and none that were lost. */
  function PatchEnd(d: Display, next: seq<string>): int {
    if |d.lines| < |next| then |next| - 1 else Min(LastVisible(d, next), |next| - 1)
  }

  predicate Appends(d: Display, next: seq<string>) {
    |d.lines| < |next| && FirstVisible(d, next) == |d.lines| && d.lines != []
  }

  lemma PatchReaches(d: Display, next: seq<string>)
    ensures FirstVisible(d, next) != -1 ==> FirstVisible(d, next) <= LastVisible(d, next)
    ensures 0 <= FirstVisible(d, next) < |next| ==> FirstVisible(d, next) <= PatchEnd(d, next) < |next|
  {
  }

  function PatchBuffer(believed: nat, previousCount: nat, next: seq<string>, first: int, end: int): seq<Command>
    requires 0 <= first < |next| ==> first <= end < |next|
  {
    if first < 0 then []
    else if |next| <= first then DeletedCommands(believed, |next|, previousCount)
    else
      var appendStart := previousCount < |next| && first == previousCount && 0 < first;
      UpdateCommands(believed, next, first, end, appendStart, Max(0, previousCount - |next|))
  }

  function PatchCommands(d: Display, next: seq<string>): seq<Command> {
    PatchReaches(d, next);
    PatchBuffer(d.cursorRow, |d.lines|, next, FirstVisible(d, next), PatchEnd(d, next))
  }

  /** The row on which the renderer believes the cursor after its patch. */
  function PatchCursor(d: Display, next: seq<string>): nat {
    PatchReaches(d, next);
    if FirstVisible(d, next) == -1 then d.cursorRow
    else if |next| <= FirstVisible(d, next) then Max(0, |next| - 1)
    else PatchEnd(d, next)
  }

  /** All that is sent for a frame. It depends on what the renderer remembers, and on no row of the screen. */
  function FrameCommands(d: Display, f: RenderFrame): seq<Command>
    requires 0 < d.screen.height
  {
    var next, marked := NextRows(d, f), CursorOf(d, f);
    match PlanOf(d, next, CommittedOf(f))
    case FirstRender => FullCommands(false, next) + CursorCommands(Max(0, |next| - 1), marked)
    case FullRedraw => FullCommands(true, next) + CursorCommands(Max(0, |next| - 1), marked)
    case Patch => PatchCommands(d, next) + CursorCommands(PatchCursor(d, next), marked)
  }

  lemma WholeSends(d: Display, f: RenderFrame, clear: bool, buffer: seq<Command>)
    requires 0 < d.screen.height && buffer == FullCommands(clear, NextRows(d, f))
    requires PlanOf(d, NextRows(d, f), CommittedOf(f)) == if clear then FullRedraw else FirstRender
    ensures FrameCommands(d, f) == buffer + CursorCommands(Max(0, |NextRows(d, f)| - 1), CursorOf(d, f))
  {
  }

  ghost predicate Found(d: Display, f: RenderFrame, first: int, last: int)
    requires 0 < d.screen.height
  {
    var next := NextRows(d, f);
    && PlanOf(d, next, CommittedOf(f)) == Patch
    && FirstIn(d, next, d.top, Max(|d.lines|, |next|), first) && LastIn(d, next, d.top, Max(|d.lines|, |next|), last)
  }

  lemma QuietSends(d: Display, f: RenderFrame, first: int, last: int)
    requires 0 < d.screen.height && Found(d, f, first, last) && first == -1
    ensures FrameCommands(d, f) == CursorCommands(d.cursorRow, CursorOf(d, f))
            == [] + CursorCommands(d.cursorRow, CursorOf(d, f))
  {
    VisibleIs(d, NextRows(d, f), first, last);
  }

  lemma DeletedSends(d: Display, f: RenderFrame, first: int, last: int)
    requires 0 < d.screen.height && Found(d, f, first, last) && |NextRows(d, f)| <= first
    ensures var next := NextRows(d, f);
            FrameCommands(d, f) == DeletedCommands(d.cursorRow, |next|, |d.lines|)
                                   + CursorCommands(Max(0, |next| - 1), CursorOf(d, f))
  {
    VisibleIs(d, NextRows(d, f), first, last);
  }

  lemma UpdateSends(d: Display, f: RenderFrame, first: int, last: int)
    requires 0 < d.screen.height && Found(d, f, first, last) && 0 <= first < |NextRows(d, f)|
    ensures var next := NextRows(d, f);
            var end := Min(if |d.lines| < |next| then |next| - 1 else last, |next| - 1);
            && first <= end
            && FrameCommands(d, f)
               == UpdateCommands(d.cursorRow, next, first, end, |d.lines| < |next| && first == |d.lines| && 0 < first,
                                 Max(0, |d.lines| - |next|))
                  + CursorCommands(end, CursorOf(d, f))
  {
    VisibleIs(d, NextRows(d, f), first, last);
    PatchReaches(d, NextRows(d, f));
  }

  /** One frame: the terminal carries out what is sent, which on the screen the renderer believes in has the
      effect of the frame. */
  ghost predicate Rendered(d: Display, f: RenderFrame, d': Display)
    requires Sane(d)
  {
    var sent := FrameCommands(d, f);
    && d'.screen == Interpret(d.screen, sent)
    && FrameEffect(Believed(d), f, d'.(screen := Interpret(Believed(d).screen, sent)))
  }

  /** Nothing of what a frame looks like, or of what is sent for it, is read off the screen but its height. */
  lemma OnlyTheHeightIsRead(d: Display, screen: Screen, f: RenderFrame)
    requires 0 < d.screen.height == screen.height
    ensures var b := d.(screen := screen);
            && NextAnchor(b, f) == NextAnchor(d, f) && NextRows(b, f) == NextRows(d, f)
            && CursorOf(b, f) == CursorOf(d, f)
            && PlanOf(b, NextRows(d, f), CommittedOf(f)) == PlanOf(d, NextRows(d, f), CommittedOf(f))
  {
    var b, next := d.(screen := screen), NextRows(d, f);
    assert BaseLines(b, f) == BaseLines(d, f);
    assert LaidOut(b, f) == LaidOut(d, f);
    assert forall k: nat :: Touched(b, next, k) == Touched(d, next, k);
    assert forall k: nat :: Shifted(b, next, CommittedOf(f), k) == Shifted(d, next, CommittedOf(f), k);
  }

  lemma SameIsSent(d: Display, screen: Screen, f: RenderFrame)
    requires 0 < d.screen.height == screen.height
    ensures FrameCommands(d.(screen := screen), f) == FrameCommands(d, f)
  {
    OnlyTheHeightIsRead(d, screen, f);
    SamePatch(d, screen, NextRows(d, f));
  }

  lemma SameVisible(d: Display, screen: Screen, next: seq<string>)
    ensures var b := d.(screen := screen);
            FirstVisible(b, next) == FirstVisible(d, next) && LastVisible(b, next) == LastVisible(d, next)
  {
    var b := d.(screen := screen);
    assert forall k: nat :: Touched(b, next, k) == Touched(d, next, k);
    VisibleIs(b, next, FirstVisible(d, next), LastVisible(d, next));
  }

  lemma SamePatch(d: Display, screen: Screen, next: seq<string>)
    ensures var b := d.(screen := screen);
            PatchCommands(b, next) == PatchCommands(d, next) && PatchCursor(b, next) == PatchCursor(d, next)
  {
    SameVisible(d, screen, next);
  }

  /** What the renderer holds once a frame is laid out, before it compares anything. */
  ghost predicate Opened(d: Display, f: RenderFrame, b: Display)
    requires 0 < d.screen.height
  {
    b == d.(anchorLength := NextAnchor(d, f), historyInvalidated := false, committed := CommittedOf(f))
  }

  lemma WhereItLeads(d: Display, f: RenderFrame, b: Display)
    requires Ready(d) && Opened(d, f, b)
    ensures d.lines == [] && !NeedsRepaint(d) ==> PlanOf(d, NextRows(d, f), CommittedOf(f)) == FirstRender
    ensures NeedsRepaint(d) ==> PlanOf(d, NextRows(d, f), CommittedOf(f)) == FullRedraw
    ensures d.lines == [] || NeedsRepaint(d) ==> AboutToPrint(d, f, b)
    ensures d.lines != [] && !NeedsRepaint(d) ==>
              Synced(d) && b == Scanned(d, f).(invalidated := d.invalidated, staleFrom := d.staleFrom)
  {
  }

  class TermRenderer {
    const stdout: Tty
    /** The commands of the frame under way, or of the last one. */
    ghost var sent: seq<Command>
    var previousLines: seq<string>
    var previousWidth: int
    var previousHeight: int
    var hardwareCursorRow: nat
    var previousViewportTop: nat
    var trailingEdgeAnchorLength: nat
    var previousCommittedRows: Option<nat>
    var invalidatedRows: set<nat>
    var scrollbackInvalidated: bool
    var scrollbackStaleFrom: Option<nat>

    function State(): Display
      reads this, stdout
    {
      Display(previousLines, previousViewportTop, hardwareCursorRow, scrollbackStaleFrom, previousCommittedRows,
              trailingEdgeAnchorLength, invalidatedRows, scrollbackInvalidated, previousWidth, previousHeight,
              stdout.columns, stdout.screen)
    }

    /** In the middle of a frame: the terminal shows one thing, and the renderer may picture another. */
    ghost predicate InFrame(pictured: Playback, shown: Playback)
      reads this, stdout
    {
      InStep(pictured, shown) && stdout.screen == shown(sent)
    }

    /** The state as the renderer believes it to be. */
    ghost function Belief(pictured: Playback): Display
      reads this, stdout
    {
      Display(previousLines, previousViewportTop, hardwareCursorRow, scrollbackStaleFrom, previousCommittedRows,
              trailingEdgeAnchorLength, invalidatedRows, scrollbackInvalidated, previousWidth, previousHeight,
              stdout.columns, pictured(sent))
    }

    constructor (stdout: Tty)
      ensures this.stdout == stdout
      ensures State() == Display([], 0, 0, None, None, 0, {}, false, 0, 0, stdout.columns, stdout.screen)
    {
      this.stdout := stdout;
      previousLines, previousWidth, previousHeight := [], 0, 0;
      hardwareCursorRow, previousViewportTop, trailingEdgeAnchorLength := 0, 0, 0;
      previousCommittedRows, invalidatedRows, scrollbackInvalidated, scrollbackStaleFrom := None, {}, false, None;
    }

    method Write(ghost pictured: Playback, ghost shown: Playback, commands: seq<Command>)
      requires InFrame(pictured, shown)
      modifies this`sent, stdout`screen
      ensures InFrame(pictured, shown) && sent == old(sent) + commands && (old(sent) == [] ==> sent == commands)
      ensures Belief(pictured) == old(Belief(pictured)).(screen := Interpret(old(Belief(pictured)).screen, commands))
    {
      assert Then(sent, commands) == sent + commands;
      assert [] + commands == commands;
      stdout.Write(commands);
      sent := sent + commands;
    }

    // ----- requests between frames -----

    method InvalidateRowsFrom(startRow: int)
      modifies this`invalidatedRows
      ensures State() == RowsInvalidated(old(State()), startRow)
    {
      if |previousLines| == 0 {
        return;
      }
      var from := Max(0, Min(startRow, |previousLines| - 1));
      for row := from to |previousLines|
        invariant invalidatedRows == old(invalidatedRows) + RowRange(from, row)
      {
        invalidatedRows := invalidatedRows + {row};
      }
    }

    method InvalidateScrollback()
      modifies this`scrollbackInvalidated
      ensures State() == old(State()).(historyInvalidated := true)
    {
      scrollbackInvalidated := true;
    }

    /** The state a forced repaint leaves for the next frame. */
    method RequestForcedRender()
      modifies this
      ensures State() == Forgotten(old(State()), -1, -1, old(stdout.screen))
    {
      previousLines, previousWidth, previousHeight := [], -1, -1;
      hardwareCursorRow, previousViewportTop, trailingEdgeAnchorLength := 0, 0, 0;
      invalidatedRows, scrollbackInvalidated, scrollbackStaleFrom, previousCommittedRows := {}, false, None, None;
    }

    method ClearScreen()
      requires Physical(stdout.screen)
      modifies this, stdout`screen
      ensures State() == Forgotten(old(State()), stdout.columns, old(stdout.screen).height, Cleared(old(stdout.screen)))
    {
      ClearsAll(stdout.screen);
      stdout.Write([BeginSync, ClearAll, EndSync]);
      previousLines := [];
      hardwareCursorRow, previousViewportTop, trailingEdgeAnchorLength := 0, 0, 0;
      invalidatedRows, scrollbackInvalidated, scrollbackStaleFrom, previousCommittedRows := {}, false, None, None;
      previousWidth, previousHeight := stdout.columns, stdout.screen.height;
    }

    // ----- laying a frame out -----

    /** Bottom-anchor padding: live rows that shrink are replaced by blanks above the live region. */
    method AnchorLines(frame: RenderFrame) returns (baseLines: seq<Line>)
      modifies this`trailingEdgeAnchorLength
      requires 0 < stdout.screen.height
      ensures State() == old(State()).(anchorLength := NextAnchor(old(State()), frame))
      ensures baseLines == BaseLines(old(State()), frame)
    {
      baseLines := frame.lines;
      var widthChanged := previousWidth != 0 && previousWidth != stdout.columns;
      var heightChanged := previousHeight != 0 && previousHeight != stdout.screen.height;
      if frame.bottomAnchor && frame.bottomAnchorStart.Some? {
        if widthChanged || heightChanged {
          trailingEdgeAnchorLength := 0;
        }
        var transientRows := Max(0, frame.transientRows);
        var durableLength := Max(0, |baseLines| - transientRows);
        if stdout.screen.height <= durableLength {
          trailingEdgeAnchorLength := Max(trailingEdgeAnchorLength, durableLength);
        } else if |baseLines| < trailingEdgeAnchorLength {
          var insertion := Max(0, Min(frame.bottomAnchorStart.value, |baseLines|));
          var padding := seq(trailingEdgeAnchorLength - |baseLines|, _ => BLANK_LINE);
          baseLines := baseLines[..insertion] + padding + baseLines[insertion..];
        }
      }
    }

    method CompositeOverlay(baseLines: seq<Line>, overlay: seq<Line>, height: nat) returns (result: seq<Line>)
      requires 0 < height
      ensures |result| == Max(|baseLines|, height)
      ensures forall k: nat :: k < |result| ==> result[k] == OverlayRow(baseLines, overlay, height, k)
    {
      result := seq(|baseLines|, k requires 0 <= k < |baseLines| => baseLines[k].(marker := None));
      var workingHeight := Max(|result|, height);
      while |result| < workingHeight
        invariant |baseLines| <= |result| <= workingHeight
        invariant forall k :: 0 <= k < |result| ==>
                    result[k] == if k < |baseLines| then baseLines[k].(marker := None) else BLANK_LINE
      {
        result := result + [BLANK_LINE];
      }
      var maxHeight := Max(1, height - Min(2, Max(0, height - 1)));
      var visibleOverlay := overlay[..Min(|overlay|, maxHeight)];
      var viewportStart := Max(0, workingHeight - height);
      var row := Max(0, (height - |visibleOverlay|) / 2);
      for index := 0 to |visibleOverlay|
        invariant |result| == workingHeight
        invariant forall k :: 0 <= k < |result| ==>
                    result[k] == if viewportStart + row <= k < viewportStart + row + index
                                 then overlay[k - viewportStart - row]
                                 else if k < |baseLines| then baseLines[k].(marker := None) else BLANK_LINE
      {
        result := result[viewportStart + row + index := visibleOverlay[index]];
      }
    }

    /** The lowest usable marker inside the frame's own last `height` rows. */
    method ExtractCursorPosition(lines: seq<Line>, height: nat) returns (position: Option<CursorPosition>)
      ensures position == MarkerFrom(lines, Max(0, |lines| - height), stdout.columns)
    {
      var viewportTop := Max(0, |lines| - height);
      position := None;
      var row := |lines|;
      assert lines[..|lines|] == lines;
      while 0 < row
        invariant 0 <= row <= |lines|
        invariant MarkerFrom(lines, viewportTop, stdout.columns)
                  == if position.Some? then position else MarkerFrom(lines[..row], viewportTop, stdout.columns)
      {
        row := row - 1;
        assert lines[..row + 1][..row] == lines[..row];
        if position.None? && viewportTop <= row && lines[row].marker.Some? && lines[row].marker.value < stdout.columns {
          position := Some(CursorPosition(row, lines[row].marker.value));
        }
      }
    }

    method LayOut(frame: RenderFrame) returns (newLines: seq<string>, cursorPos: Option<CursorPosition>)
      requires Valid(stdout.screen)
      modifies this`trailingEdgeAnchorLength
      ensures State() == old(State()).(anchorLength := NextAnchor(old(State()), frame))
      ensures newLines == NextRows(old(State()), frame) && cursorPos == CursorOf(old(State()), frame)
    {
      ghost var d := State();
      var baseLines := AnchorLines(frame);
      var lines := baseLines;
      if frame.overlay.Some? {
        lines := CompositeOverlay(baseLines, frame.overlay.value, stdout.screen.height);
      }
      assert lines == LaidOut(d, frame);
      cursorPos := ExtractCursorPosition(lines, stdout.screen.height);
      newLines := Painted(lines);
    }

    // ----- painting -----

    method PositionHardwareCursor(ghost pictured: Playback, ghost shown: Playback, cursorPos: Option<CursorPosition>,
                                  totalLines: nat)
      requires InFrame(pictured, shown)
      requires cursorPos.Some? ==> cursorPos.value.row < totalLines
      modifies this`hardwareCursorRow, this`sent, stdout`screen
      ensures InFrame(pictured, shown) && sent == old(sent) + CursorCommands(old(hardwareCursorRow), cursorPos)
      ensures Belief(pictured) == CursorSent(old(Belief(pictured)), cursorPos)
    {
      if cursorPos.None? || totalLines <= 0 {
        Write(pictured, shown, [HideCursor]);
        return;
      }
      var targetRow := Max(0, Min(cursorPos.value.row, totalLines - 1));
      var targetCol := cursorPos.value.col;
      var buffer := Moves(targetRow - hardwareCursorRow) + [CursorColumn(targetCol + 1), ShowCursor];
      Write(pictured, shown, buffer);
      hardwareCursorRow := targetRow;
    }

    /** Adopting a frame that was printed whole. */
    method Remember(ghost pictured: Playback, newLines: seq<string>, height: nat)
      requires pictured(sent).height == height
      modifies this`hardwareCursorRow, this`previousViewportTop, this`previousLines, this`previousWidth,
               this`previousHeight, this`scrollbackStaleFrom
      ensures Belief(pictured) == Printed(old(Belief(pictured)), newLines, pictured(sent))
    {
      hardwareCursorRow := Max(0, |newLines| - 1);
      var bufferLength := Max(height, |newLines|);
      previousViewportTop := Max(0, bufferLength - height);
      previousLines := newLines;
      previousWidth := stdout.columns;
      previousHeight := height;
      scrollbackStaleFrom := None;
    }

    /** Printing the whole frame, after clearing screen and scrollback when asked. */
    method FullRender(ghost d: Display, ghost pictured: Playback, ghost shown: Playback, ghost frame: RenderFrame,
                      clear: bool, newLines: seq<string>, cursorPos: Option<CursorPosition>)
      requires InFrame(pictured, shown) && sent == [] && Ready(d) && newLines == NextRows(d, frame)
               && cursorPos == CursorOf(d, frame)
      requires PlanOf(d, newLines, CommittedOf(frame)) == if clear then FullRedraw else FirstRender
      requires AboutToPrint(d, frame, Belief(pictured))
      modifies this, stdout`screen
      ensures InFrame(pictured, shown) && FrameEffect(d, frame, Belief(pictured))
      ensures sent == FrameCommands(d, frame)
    {
      CursorInFrame(d, frame);
      var buffer := FullBuffer(clear, newLines);
      PrintEffect(d, frame, Belief(pictured), clear, pictured, buffer);
      WholeSends(d, frame, clear, buffer);
      Write(pictured, shown, buffer);
      Remember(pictured, newLines, stdout.screen.height);
      PositionHardwareCursor(pictured, shown, cursorPos, |newLines|);
    }

    /** One pass over both frames, remembering the addressable sub-range. */
    method ScanChanges(ghost d: Display, newLines: seq<string>, committedRows: Option<nat>,
                       previousCommitted: Option<nat>)
      returns (firstChanged: int, lastChanged: int, firstVisible: int, lastVisible: int, firstShifted: int, stale: nat)
      requires d.lines == previousLines && d.invalidated == invalidatedRows && d.top == previousViewportTop
      requires d.committed == previousCommitted && d.top <= |d.lines|
      ensures var n := Max(|d.lines|, |newLines|);
              && FirstIn(d, newLines, 0, n, firstChanged) && LastIn(d, newLines, 0, n, lastChanged)
              && FirstIn(d, newLines, d.top, n, firstVisible) && LastIn(d, newLines, d.top, n, lastVisible)
      ensures 0 < stale <==> LeavesStale(d, newLines)
      ensures firstShifted != -1 <==> ShiftsScrollback(d, newLines, committedRows)
    {
      firstChanged, lastChanged, firstVisible, lastVisible, firstShifted, stale := -1, -1, -1, -1, -1, 0;
      var maxLines := Max(|newLines|, |previousLines|);
      for i := 0 to maxLines
        invariant FirstIn(d, newLines, 0, i, firstChanged) && LastIn(d, newLines, 0, i, lastChanged)
        invariant FirstIn(d, newLines, d.top, Max(d.top, i), firstVisible)
        invariant LastIn(d, newLines, d.top, Max(d.top, i), lastVisible)
        invariant 0 < stale <==> firstChanged != -1 && firstChanged < d.top
        invariant FirstShiftedIn(d, newLines, committedRows, i, firstShifted)
      {
        var oldLine := if i < |previousLines| then previousLines[i] else "";
        var newLine := if i < |newLines| then newLines[i] else "";
        var changed := oldLine != newLine;
        assert changed == Changed(d.lines, newLines, i);
        ScanStep(d, newLines, committedRows, 0, i, firstChanged, lastChanged);
        if d.top <= i {
          ScanStep(d, newLines, committedRows, d.top, i, firstVisible, lastVisible);
        }
        if !changed && i !in invalidatedRows {
          continue;
        }
        if firstChanged == -1 {
          firstChanged := i;
        }
        lastChanged := i;
        if i < previousViewportTop {
          stale := stale + 1;
          if changed && !(Committed(committedRows, i) && Committed(previousCommitted, i)) && firstShifted == -1 {
            firstShifted := i;
          }
          continue;
        }
        if firstVisible == -1 {
          firstVisible := i;
        }
        lastVisible := i;
      }
    }

    /** The tail shared by every branch that patches: place the cursor and adopt the frame. */
    method Adopt(ghost d: Display, ghost pictured: Playback, ghost shown: Playback, ghost frame: RenderFrame,
                 ghost now: Display, newLines: seq<string>, cursorPos: Option<CursorPosition>)
      requires InFrame(pictured, shown) && Ready(d) && PlanOf(d, NextRows(d, frame), CommittedOf(frame)) == Patch
      requires newLines == NextRows(d, frame) && cursorPos == CursorOf(d, frame)
      requires PatchPainted(d, frame, now) && Belief(pictured) == now
      modifies this, stdout`screen
      ensures InFrame(pictured, shown) && FrameEffect(d, frame, Belief(pictured))
      ensures sent == old(sent) + CursorCommands(old(hardwareCursorRow), cursorPos)
    {
      CursorInFrame(d, frame);
      PositionHardwareCursor(pictured, shown, cursorPos, |newLines|);
      previousLines, previousWidth, previousHeight := newLines, stdout.columns, stdout.screen.height;
      PatchEffect(d, frame, now, Belief(pictured));
    }

    /** All visible changes are rows the new frame no longer has. */
    method PatchDeleted(ghost d: Display, ghost pictured: Playback, ghost shown: Playback, ghost frame: RenderFrame,
                        newLines: seq<string>, cursorPos: Option<CursorPosition>,
                        firstChanged: int, targetRow: nat)
      requires InFrame(pictured, shown) && sent == [] && Synced(d) && d.lines != []
               && PlanOf(d, newLines, CommittedOf(frame)) == Patch
      requires newLines == NextRows(d, frame) && cursorPos == CursorOf(d, frame)
      requires Belief(pictured) == Scanned(d, frame)
      requires FirstIn(d, newLines, d.top, Max(|d.lines|, |newLines|), firstChanged)
      requires |newLines| <= firstChanged && |newLines| < |d.lines| && targetRow == Max(0, |newLines| - 1)
               && d.top <= targetRow
      modifies this, stdout`screen
      ensures InFrame(pictured, shown) && FrameEffect(d, frame, Belief(pictured))
      ensures sent == DeletedCommands(d.cursorRow, |newLines|, |d.lines|) + CursorCommands(targetRow, cursorPos)
    {
      var buffer := DeletedBuffer(hardwareCursorRow, |newLines|, |previousLines|);
      Write(pictured, shown, buffer);
      hardwareCursorRow := targetRow;
      DeletedIsPatch(d, frame, firstChanged, pictured, Belief(pictured));
      Adopt(d, pictured, shown, frame, Belief(pictured), newLines, cursorPos);
    }

    method PaintChanged(ghost pictured: Playback, ghost shown: Playback, buffer: seq<Command>, renderEnd: nat)
      requires InFrame(pictured, shown) && sent == []
      modifies this`hardwareCursorRow, this`previousViewportTop, this`sent, stdout`screen
      ensures InFrame(pictured, shown) && sent == buffer
      ensures Belief(pictured) == Reaching(old(Belief(pictured)), renderEnd, pictured(buffer))
    {
      Write(pictured, shown, buffer);
      hardwareCursorRow := renderEnd;
      previousViewportTop := Max(previousViewportTop, renderEnd - stdout.screen.height + 1);
    }

    /** Repainting the rows `first..last` and giving up the rows the new frame no longer has. */
    method PatchChanged(ghost d: Display, ghost pictured: Playback, ghost shown: Playback, ghost frame: RenderFrame,
                        newLines: seq<string>, cursorPos: Option<CursorPosition>,
                        firstChanged: nat, lastChanged: nat, appendStart: bool)
      requires InFrame(pictured, shown) && sent == [] && Synced(d) && d.lines != []
               && PlanOf(d, newLines, CommittedOf(frame)) == Patch
      requires newLines == NextRows(d, frame) && cursorPos == CursorOf(d, frame)
      requires Belief(pictured) == Scanned(d, frame)
      requires Covers(d, newLines, firstChanged, lastChanged)
      requires appendStart ==> 0 < firstChanged
      requires d.top <= (if appendStart then firstChanged - 1 else firstChanged) < d.top + d.screen.height
      modifies this, stdout`screen
      ensures InFrame(pictured, shown) && FrameEffect(d, frame, Belief(pictured))
      ensures var end := Min(lastChanged, |newLines| - 1);
              sent == UpdateCommands(d.cursorRow, newLines, firstChanged, end, appendStart,
                                     Max(0, |d.lines| - |newLines|)) + CursorCommands(end, cursorPos)
    {
      var renderEnd := Min(lastChanged, |newLines| - 1);
      var extraLines := Max(0, |previousLines| - |newLines|);
      var buffer := UpdateBuffer(hardwareCursorRow, newLines, firstChanged, renderEnd, appendStart, extraLines);
      UpdateShows(d, newLines, firstChanged, lastChanged, appendStart, pictured);
      ghost var now := Reaching(Belief(pictured), renderEnd, pictured(buffer));
      WindowIsPatch(d, frame, renderEnd, Belief(pictured), pictured(buffer));
      PaintChanged(pictured, shown, buffer, renderEnd);
      Adopt(d, pictured, shown, frame, now, newLines, cursorPos);
    }

    /** The frame's visible changes, painted in place. The branches that the geometry of the last
        frame rules out hold only `assert false`. */
    method PatchFrame(ghost d: Display, ghost pictured: Playback, ghost shown: Playback, ghost frame: RenderFrame,
                      newLines: seq<string>, cursorPos: Option<CursorPosition>,
                      firstVisible: int, lastVisible: int)
      requires InFrame(pictured, shown) && sent == [] && Synced(d) && !NeedsRepaint(d) && d.lines != []
      requires newLines == NextRows(d, frame) && cursorPos == CursorOf(d, frame)
      requires !(d.historyInvalidated && (LeavesStale(d, newLines) || d.staleFrom.Some?))
      requires !ShiftsScrollback(d, newLines, CommittedOf(frame))
      requires Belief(pictured) == Scanned(d, frame)
      requires FirstIn(d, newLines, d.top, Max(|d.lines|, |newLines|), firstVisible)
      requires LastIn(d, newLines, d.top, Max(|d.lines|, |newLines|), lastVisible)
      modifies this, stdout`screen
      ensures InFrame(pictured, shown) && FrameEffect(d, frame, Belief(pictured))
      ensures sent == FrameCommands(d, frame)
    {
      var height := stdout.screen.height;
      var firstChanged, lastChanged := firstVisible, lastVisible;
      var appendedLines := |previousLines| < |newLines|;
      ShapeOfChange(d, newLines, firstVisible, lastVisible);
      if appendedLines {
        if firstChanged == -1 {
          assert false;
        }
        lastChanged := |newLines| - 1;
      }
      var appendStart := appendedLines && firstChanged == |previousLines| && 0 < firstChanged;

      if firstChanged == -1 {
        PatchedBuffer(d, newLines, d.screen);
        Adopt(d, pictured, shown, frame, Belief(pictured), newLines, cursorPos);
        QuietSends(d, frame, firstVisible, lastVisible);
        return;
      }

      if |newLines| <= firstChanged {
        var targetRow := Max(0, |newLines| - 1);
        if targetRow < previousViewportTop {
          FullRender(d, pictured, shown, frame, true, newLines, cursorPos);
          return;
        }
        if height < |previousLines| - |newLines| {
          assert false;
        }
        PatchDeleted(d, pictured, shown, frame, newLines, cursorPos, firstChanged, targetRow);
        DeletedSends(d, frame, firstVisible, lastVisible);
        return;
      }

      var renderEnd := Min(lastChanged, |newLines| - 1);
      var moveTargetRow := if appendStart then firstChanged - 1 else firstChanged;
      if previousViewportTop + height - 1 < moveTargetRow {
        assert false;
      }
      if |newLines| < |previousLines| && renderEnd < |newLines| - 1 {
        assert false;
      }
      PatchChanged(d, pictured, shown, frame, newLines, cursorPos, firstChanged, lastChanged, appendStart);
      UpdateSends(d, frame, firstVisible, lastVisible);
    }

    /** Comparing the frames, and falling back to a full redraw when scrollback has to be repaired. */
    method Differential(ghost d: Display, ghost pictured: Playback, ghost shown: Playback, ghost frame: RenderFrame,
                        newLines: seq<string>, cursorPos: Option<CursorPosition>,
                        committedRows: Option<nat>, previousCommitted: Option<nat>, repaintHistory: bool)
      requires InFrame(pictured, shown) && sent == [] && Synced(d) && !NeedsRepaint(d) && d.lines != []
      requires newLines == NextRows(d, frame) && cursorPos == CursorOf(d, frame)
      requires committedRows == CommittedOf(frame) && previousCommitted == d.committed
               && repaintHistory == d.historyInvalidated
      requires Belief(pictured) == Scanned(d, frame).(invalidated := d.invalidated, staleFrom := d.staleFrom)
      modifies this, stdout`screen
      ensures InFrame(pictured, shown) && FrameEffect(d, frame, Belief(pictured))
      ensures sent == FrameCommands(d, frame)
    {
      var firstChanged, lastChanged, firstVisible, lastVisible, firstShifted, stale :=
        ScanChanges(d, newLines, committedRows, previousCommitted);
      invalidatedRows := {};
      ScanSettles(d, newLines, firstChanged, lastChanged, firstVisible, lastVisible);
      if repaintHistory && (0 < stale || scrollbackStaleFrom.Some?) {
        FullRender(d, pictured, shown, frame, true, newLines, cursorPos);
        return;
      }
      if firstShifted != -1 {
        FullRender(d, pictured, shown, frame, true, newLines, cursorPos);
        return;
      }
      if 0 < stale {
        scrollbackStaleFrom := Some(if scrollbackStaleFrom.None? then firstChanged
            else Min(scrollbackStaleFrom.value, firstChanged));
        firstChanged, lastChanged := firstVisible, lastVisible;
      }
      PatchFrame(d, pictured, shown, frame, newLines, cursorPos, firstChanged, lastChanged);
    }

    /** Redrawing the frame whole, or patching what changed. */
    method Paint(ghost d: Display, ghost pictured: Playback, ghost shown: Playback, ghost frame: RenderFrame,
                 newLines: seq<string>, cursorPos: Option<CursorPosition>, committedRows: Option<nat>,
                 previousCommitted: Option<nat>, repaintHistory: bool)
      requires InFrame(pictured, shown) && sent == [] && Ready(d) && Opened(d, frame, Belief(pictured))
      requires newLines == NextRows(d, frame) && cursorPos == CursorOf(d, frame)
      requires committedRows == CommittedOf(frame) && previousCommitted == d.committed
               && repaintHistory == d.historyInvalidated
      modifies this, stdout`screen
      ensures InFrame(pictured, shown) && FrameEffect(d, frame, Belief(pictured))
      ensures sent == FrameCommands(d, frame)
    {
      var width, height := stdout.columns, stdout.screen.height;
      var widthChanged := previousWidth != 0 && previousWidth != width;
      var heightChanged := previousHeight != 0 && previousHeight != height;
      WhereItLeads(d, frame, Belief(pictured));
      if |previousLines| == 0 && !widthChanged && !heightChanged {
        FullRender(d, pictured, shown, frame, false, newLines, cursorPos);
        return;
      }
      if widthChanged || heightChanged {
        FullRender(d, pictured, shown, frame, true, newLines, cursorPos);
        return;
      }
      Differential(d, pictured, shown, frame, newLines, cursorPos, committedRows, previousCommitted, repaintHistory);
    }

    /** One frame: lay it out and paint it. */
    method DoRender(frame: RenderFrame)
      requires Sane(State())
      modifies this, stdout`screen
      ensures Rendered(old(State()), frame, State()) && sent == FrameCommands(old(State()), frame)
    {
      ghost var d := Believed(State());
      ghost var pictured, shown := Plays(d.screen), Plays(stdout.screen);
      PlaysInStep(d.screen, stdout.screen);
      sent := [];
      var newLines, cursorPos := LayOut(frame);
      OnlyTheHeightIsRead(old(State()), d.screen, frame);
      SameIsSent(old(State()), d.screen, frame);
      var repaintHistory := scrollbackInvalidated;
      scrollbackInvalidated := false;
      var committedRows := match frame.committedRows { case None => None case Some(n) => Some(Max(0, n)) };
      var previousCommitted := previousCommittedRows;
      previousCommittedRows := committedRows;
      Paint(d, pictured, shown, frame, newLines, cursorPos, committedRows, previousCommitted, repaintHistory);
    }
  }

  function RowRange(from: nat, to: nat): (rows: set<nat>)
    ensures forall k :: k in rows <==> from <= k < to
  {
    if to <= from then {} else RowRange(from, to - 1) + {to - 1}
  }

  function RowsInvalidated(d: Display, startRow: int): Display {
    if d.lines == [] then d
    else
      var from := Max(0, Min(startRow, |d.lines| - 1));
      d.(invalidated := d.invalidated + RowRange(from, |d.lines|))
  }

  function Forgotten(d: Display, width: int, height: int, screen: Screen): Display {
    Display([], 0, 0, None, None, 0, {}, false, width, height, d.columns, screen)
  }

}
