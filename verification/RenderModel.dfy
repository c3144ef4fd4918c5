/**
 What one frame of the renderer is meant to do to the screen, stated without commands.

 `FrameEffect` is the specification that `TermRenderer.DoRender` is proved against. A patched
 frame replaces the viewport by a window of the new frame and leaves scrollback alone; a full
 redraw replaces the whole buffer.
 */
module RenderModel {
  import opened Options
  import opened Terminal

  /** Appended to every painted row, so no painted row is ever the empty string. */
  const SEGMENT_RESET := "\U{1B}[0m\U{1B}]8;;\U{7}"

  /** A row as layout produced it: its text without cursor markers, and the display column of
      the first marker when it carried one. */
  datatype Line = Line(text: string, marker: Option<nat>)

  /** `committedRows` absent means the whole frame is append-only. `overlay` holds the modal
      rows after wrapping and centring. */
  datatype RenderFrame = RenderFrame(
    lines: seq<Line>, committedRows: Option<int>, bottomAnchor: bool, bottomAnchorStart: Option<int>,
    transientRows: int, overlay: Option<seq<Line>>)

  datatype CursorPosition = CursorPosition(row: nat, col: nat)

  /** Everything the renderer remembers, next to the terminal it writes to. */
  datatype Display = Display(
    lines: seq<string>, top: nat, cursorRow: nat, staleFrom: Option<nat>, committed: Option<nat>,
    anchorLength: nat, invalidated: set<nat>, historyInvalidated: bool, width: int, height: int,
    columns: nat, screen: Screen)

  predicate NeedsRepaint(d: Display) {
    (d.width != 0 && d.width != d.columns) || (d.height != 0 && d.height != d.screen.height)
  }

  // ----- from a frame to the rows to paint -----

  const BLANK_LINE := Line("", None)

  function DurableLength(f: RenderFrame): (n: nat) { Max(0, |f.lines| - Max(0, f.transientRows)) }

  predicate HasTailAnchor(f: RenderFrame) { f.bottomAnchor && f.bottomAnchorStart.Some? }

  function CarriedAnchor(d: Display, f: RenderFrame): nat {
    if HasTailAnchor(f) && NeedsRepaint(d) then 0 else d.anchorLength
  }

  function NextAnchor(d: Display, f: RenderFrame): nat {
    if HasTailAnchor(f) && d.screen.height <= DurableLength(f) then Max(CarriedAnchor(d, f), DurableLength(f))
    else CarriedAnchor(d, f)
  }

  /** Blank rows that keep the composer where it was while live rows shrink. */
  function AnchorPadding(d: Display, f: RenderFrame): nat {
    if HasTailAnchor(f) && DurableLength(f) < d.screen.height then Max(0, CarriedAnchor(d, f) - |f.lines|) else 0
  }

  function AnchorInsertion(f: RenderFrame): (n: nat)
    requires HasTailAnchor(f)
    ensures n <= |f.lines|
  {
    Max(0, Min(f.bottomAnchorStart.value, |f.lines|))
  }

  function BaseLines(d: Display, f: RenderFrame): seq<Line> {
    if AnchorPadding(d, f) == 0 then f.lines
    else f.lines[..AnchorInsertion(f)] + seq(AnchorPadding(d, f), _ => BLANK_LINE) + f.lines[AnchorInsertion(f)..]
  }

  function OverlayHeight(rows: nat, height: nat): (n: nat)
    requires 0 < height
    ensures n <= rows && n <= height
  {
    Min(rows, Max(1, height - Min(2, Max(0, height - 1))))
  }

  function OverlayStart(base: nat, rows: nat, height: nat): (n: nat)
    requires 0 < height
    ensures n + OverlayHeight(rows, height) <= Max(base, height)
  {
    Max(0, Max(base, height) - height) + (height - OverlayHeight(rows, height)) / 2
  }

  function OverlayRow(base: seq<Line>, overlay: seq<Line>, height: nat, k: nat): Line
    requires 0 < height
  {
    var start := OverlayStart(|base|, |overlay|, height);
    if start <= k < start + OverlayHeight(|overlay|, height) then overlay[k - start]
    else if k < |base| then base[k].(marker := None)
    else BLANK_LINE
  }

  /** The frame's rows after bottom-anchor padding and overlay composition. */
  function LaidOut(d: Display, f: RenderFrame): seq<Line>
    requires 0 < d.screen.height
  {
    var base := BaseLines(d, f);
    if f.overlay.None? then base
    else
      seq(Max(|base|, d.screen.height) as nat,
          k requires k >= 0 => OverlayRow(base, f.overlay.value, d.screen.height, k))
  }

  function Painted(lines: seq<Line>): (rows: seq<string>)
    ensures |rows| == |lines| && NonEmptyRows(rows)
  {
    seq(|lines|, k requires 0 <= k < |lines| => lines[k].text + SEGMENT_RESET)
  }

  predicate NonEmptyRows(rows: seq<string>) { forall k :: 0 <= k < |rows| ==> rows[k] != "" }

  /** The lowest usable marker at or below row `first`. */
  function MarkerFrom(lines: seq<Line>, first: nat, columns: nat): (p: Option<CursorPosition>)
    ensures p.Some? ==> first <= p.value.row < |lines|
  {
    if |lines| <= first then None
    else
      var last := |lines| - 1;
      if lines[last].marker.Some? && lines[last].marker.value < columns
      then Some(CursorPosition(last, lines[last].marker.value))
      else MarkerFrom(lines[..last], first, columns)
  }

  function CursorOf(d: Display, f: RenderFrame): (p: Option<CursorPosition>)
    requires 0 < d.screen.height
  {
    var lines := LaidOut(d, f);
    MarkerFrom(lines, Max(0, |lines| - d.screen.height), d.columns)
  }

  function NextRows(d: Display, f: RenderFrame): (rows: seq<string>)
    requires 0 < d.screen.height
    ensures NonEmptyRows(rows)
  {
    Painted(LaidOut(d, f))
  }

  function CommittedOf(f: RenderFrame): Option<nat> {
    match f.committedRows
    case None => None
    case Some(n) => Some(Max(0, n))
  }

  // ----- comparing two frames -----

  function TextAt(rows: seq<string>, k: nat): string { if k < |rows| then rows[k] else "" }

  predicate Changed(previous: seq<string>, next: seq<string>, k: nat) { TextAt(previous, k) != TextAt(next, k) }

  predicate Touched(d: Display, next: seq<string>, k: nat) {
    k < Max(|d.lines|, |next|) && (Changed(d.lines, next, k) || k in d.invalidated)
  }

  predicate Committed(boundary: Option<nat>, k: nat) { boundary.None? || k < boundary.value }

  /** A changed row that is not append-only in both frames may have moved to another index. */
  predicate Shifted(d: Display, next: seq<string>, committed: Option<nat>, k: nat) {
    k < Max(|d.lines|, |next|) && Changed(d.lines, next, k) && !(Committed(committed, k) && Committed(d.committed, k))
  }

  function FirstTouched(d: Display, next: seq<string>, k: nat): (r: nat)
    ensures k <= r && (k <= d.top ==> r <= d.top)
    ensures forall i :: k <= i < r ==> !Touched(d, next, i)
    ensures r < d.top ==> Touched(d, next, r)
    decreases d.top - k
  {
    if d.top <= k || Touched(d, next, k) then k else FirstTouched(d, next, k + 1)
  }

  predicate LeavesStale(d: Display, next: seq<string>) { exists k: nat :: k < d.top && Touched(d, next, k) }

  predicate ShiftsScrollback(d: Display, next: seq<string>, committed: Option<nat>) {
    exists k: nat :: k < d.top && Shifted(d, next, committed, k)
  }

  datatype Plan = FirstRender | FullRedraw | Patch

  function PlanOf(d: Display, next: seq<string>, committed: Option<nat>): Plan {
    if d.lines == [] && !NeedsRepaint(d) then FirstRender
    else if NeedsRepaint(d) then FullRedraw
    else if d.historyInvalidated && (LeavesStale(d, next) || d.staleFrom.Some?) then FullRedraw
    else if ShiftsScrollback(d, next, committed) then FullRedraw
    else if 0 < d.top && |next| <= d.top then FullRedraw
    else Patch
  }

  // ----- the effect of a frame -----

  function RowAt(rows: seq<string>, k: nat): Row { if k < |rows| then Shown(rows[k]) else Blank }

  function Window(rows: seq<string>, from: nat, to: nat): (w: seq<Row>)
    requires from <= to
    ensures |w| == to - from && forall k :: 0 <= k < |w| ==> w[k] == RowAt(rows, from + k)
  {
    seq(to - from, k requires k >= 0 => RowAt(rows, from + k))
  }

  function NextTop(d: Display, next: seq<string>, plan: Plan): nat {
    Max(if plan.Patch? then d.top else 0, |next| - d.screen.height)
  }

  function NextBuffer(d: Display, next: seq<string>, plan: Plan): seq<Row>
    requires plan.Patch? ==> d.top <= |d.screen.rows|
  {
    var kept := if plan.Patch? then d.top else 0;
    d.screen.rows[..kept] + Window(next, kept, NextTop(d, next, plan) + d.screen.height)
  }

  function NextStaleFrom(d: Display, next: seq<string>, plan: Plan): Option<nat> {
    if !plan.Patch? then None
    else if !LeavesStale(d, next) then d.staleFrom
    else if d.staleFrom.None? then Some(FirstTouched(d, next, 0))
    else Some(Min(d.staleFrom.value, FirstTouched(d, next, 0)))
  }

  ghost predicate FrameEffect(d: Display, f: RenderFrame, d': Display)
    requires Ready(d)
  {
    var next, committed := NextRows(d, f), CommittedOf(f);
    var plan := PlanOf(d, next, committed);
    var top := NextTop(d, next, plan);
    && d'.lines == next
    && d'.top == top
    && d'.staleFrom == NextStaleFrom(d, next, plan)
    && d'.committed == committed
    && d'.anchorLength == NextAnchor(d, f)
    && d'.invalidated == (if NeedsRepaint(d) || d.lines == [] then d.invalidated else {})
    && !d'.historyInvalidated
    && d'.columns == d.columns && d'.width == d.columns && d'.height == d.screen.height
    && Valid(d'.screen)
    && d'.screen.height == d.screen.height
    && d'.screen.top == top
    && d'.screen.rows == NextBuffer(d, next, plan)
    && d'.screen.reflowed == (d.screen.reflowed && !plan.FullRedraw?)
    && (next == [] ==> d'.screen.atMargin && d'.screen.cursor == 0)
    && CursorPlaced(CursorOf(d, f), d', Physical(d.screen))
  }

  /** The renderer believes a marked cursor reached its row. A terminal stops at its top edge. */
  ghost predicate CursorPlaced(marked: Option<CursorPosition>, d': Display, physical: bool) {
    && d'.screen.cursorShown == marked.Some?
    && match marked
       case None => d'.cursorRow == d'.screen.cursor
       case Some(p) => d'.cursorRow == p.row && (physical ==> d'.screen.cursor == Max(p.row, d'.top))
  }

  // ----- what holds between frames -----

  predicate Geometry(d: Display) {
    if d.lines == [] then d.top == 0 else d.top < |d.lines| <= d.top + d.screen.height
  }

  ghost predicate ViewportShows(d: Display)
    requires Valid(d.screen)
  {
    forall k :: d.screen.top <= k < d.screen.top + d.screen.height ==> d.screen.rows[k] == RowAt(d.lines, k)
  }

  ghost predicate ScrollbackHonest(d: Display)
    requires Valid(d.screen)
  {
    forall k :: 0 <= k < d.screen.top && Committed(d.staleFrom, k) ==> d.screen.rows[k] == RowAt(d.lines, k)
  }

  /** The renderer's beliefs and the terminal agree. */
  ghost predicate Synced(d: Display) {
    && Valid(d.screen)
    && NonEmptyRows(d.lines)
    && Geometry(d)
    && d.top == d.screen.top
    && d.cursorRow == d.screen.cursor
    && ViewportShows(d)
    && ScrollbackHonest(d)
    && (d.lines == [] ==> d.screen.atMargin && d.cursorRow == 0)
  }

  /** A frame may start: the renderer will repaint from nothing, or it and the terminal agree. */
  ghost predicate Ready(d: Display) {
    && Valid(d.screen)
    && (NeedsRepaint(d) || Synced(d))
  }

  /** What the renderer remembers makes sense by itself, for the size it last painted for. */
  ghost predicate Sane(d: Display) {
    && Physical(d.screen)
    && NonEmptyRows(d.lines)
    && if d.lines == [] then d.top == 0 && d.cursorRow == 0
       else 0 < d.height && d.top < |d.lines| <= d.top + d.height && d.cursorRow < d.top + d.height
  }

  /** The screen a renderer out of step with its terminal believes to be writing to. */
  function Imagined(d: Display): Screen {
    Screen(Window(d.lines, 0, d.top + d.screen.height), d.top, d.cursorRow, d.screen.height, true, false, false)
  }

  /** The display as the renderer sees it: the real one wherever that is good enough to start from. */
  ghost function Believed(d: Display): (b: Display)
    requires Sane(d)
    ensures Ready(b) && b.screen.height == d.screen.height && b == d.(screen := b.screen)
  {
    if Ready(d) then d else d.(screen := Imagined(d))
  }
}
