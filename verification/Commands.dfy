/**
 What the renderer sends, and what a terminal makes of it: relative moves, rows printed one after
 the other, rows erased in place, and the buffers put together from them. Nothing here takes the
 terminal's cursor to be where the renderer believes it.
 */
module Commands {
  import opened Options
  import opened Terminal
  import opened RenderModel

  /** The row at `k`, reading past the end of the buffer as blank. */
  function BufferRow(s: Screen, k: nat): Row { if k < |s.rows| then s.rows[k] else Blank }

  // ----- moving -----

  function Moves(delta: int): seq<Command> {
    if 0 < delta then [CursorDown(delta)] else if delta < 0 then [CursorUp(-delta)] else []
  }

  /** Where a move to `row` ends that starts out believing the cursor on row `believed`. */
  function Lands(s: Screen, believed: nat, row: nat): (at: nat)
    requires Valid(s)
    ensures at < s.top + s.height && (Physical(s) ==> s.top <= at)
  {
    if believed < row then Min(s.top + s.height - 1, s.cursor + (row - believed))
    else if row < believed then Max(s.top, s.cursor - (believed - row))
    else s.cursor
  }

  lemma MovesTo(s: Screen, believed: nat, row: nat)
    requires Valid(s)
    ensures Interpret(s, Moves(row - believed)) == s.(cursor := Lands(s, believed, row))
  {
    InterpretOne(s, [], CursorDown(Max(0, row - believed)));
    InterpretOne(s, [], CursorUp(Max(0, believed - row)));
  }

  /** A move lands on its target when the cursor is where it is believed and the target in the viewport. */
  lemma MovesLand(s: Screen, target: nat)
    requires Valid(s)
    requires s.top <= target < s.top + s.height
    ensures Lands(s, s.cursor, target) == target
    ensures Interpret(s, Moves(target - s.cursor)) == s.(cursor := target)
  {
    MovesTo(s, s.cursor, target);
  }

  /** Upward moves past the viewport stop at its top row. */
  lemma MovesClamp(s: Screen, target: nat)
    requires Physical(s)
    requires target < s.top + s.height
    ensures Interpret(s, Moves(target - s.cursor)) == s.(cursor := Max(target, s.top))
  {
    MovesTo(s, s.cursor, target);
  }

  // ----- printing rows -----

  /** What stands at `k` once rows `first..i` were printed from the cursor down: text printed over text, or
      away from the margin, is no clean row. */
  function PaintedRow(s: Screen, rows: seq<string>, first: nat, i: nat, erase: bool, k: nat): Row
    requires first <= i <= |rows|
  {
    if s.cursor <= k < s.cursor + (i - first) then
      if (erase || BufferRow(s, k) == Blank) && (s.cursor < k || s.atMargin) then Shown(rows[first + (k - s.cursor)])
      else Overprinted
    else BufferRow(s, k)
  }

  /** Rows `first..i` of `rows` stand from the cursor of `s` down, and the cursor is on the last of them. */
  ghost predicate PaintedUpTo(s: Screen, rows: seq<string>, first: nat, i: nat, erase: bool, now: Screen)
    requires first <= i <= |rows|
  {
    && Valid(now)
    && now.height == s.height && now.reflowed == s.reflowed && now.cursorShown == s.cursorShown
    && now.cursor == s.cursor + Max(0, i - first - 1) && now.top == Max(s.top, now.cursor - s.height + 1)
    && now.atMargin == (i == first && s.atMargin)
    && forall k: nat :: BufferRow(now, k) == PaintedRow(s, rows, first, i, erase, k)
  }

  lemma NewLineMoves(s: Screen)
    requires Valid(s)
    ensures var s' := Step(s, NewLine);
            && s'.cursor == s.cursor + 1 && s'.top == Max(s.top, s.cursor - s.height + 2)
            && s' == s.(rows := s'.rows, top := s'.top, cursor := s'.cursor, atMargin := true)
            && forall k: nat :: BufferRow(s', k) == BufferRow(s, k)
  {
  }

  /** Starting a new row if asked, erasing it if asked, and printing it. */
  function PaintRow(now: Screen, text: string, newLine: bool, erase: bool): (s': Screen)
    requires Valid(now)
    ensures Valid(s')
  {
    var moved := if newLine then Step(now, NewLine) else now;
    Step(if erase then Step(moved, EraseLine) else moved, Print(text))
  }

  lemma PaintRowResult(now: Screen, text: string, newLine: bool, erase: bool)
    requires Valid(now) && text != ""
    ensures var s' := PaintRow(now, text, newLine, erase);
            && s'.cursor == (if newLine then now.cursor + 1 else now.cursor)
            && s'.top == Max(now.top, s'.cursor - now.height + 1)
            && s' == now.(rows := s'.rows, top := s'.top, cursor := s'.cursor, atMargin := false)
            && forall k: nat :: BufferRow(s', k) ==
                 if k != s'.cursor then BufferRow(now, k)
                 else if (erase || BufferRow(now, k) == Blank) && (newLine || now.atMargin) then Shown(text)
                 else Overprinted
  {
  }

  lemma PaintNext(s: Screen, rows: seq<string>, first: nat, i: nat, now: Screen, erase: bool)
    requires Valid(s) && s.top <= s.cursor && first <= i < |rows| && NonEmptyRows(rows)
    requires PaintedUpTo(s, rows, first, i, erase, now)
    ensures PaintedUpTo(s, rows, first, i + 1, erase, PaintRow(now, rows[i], first < i, erase))
  {
    var at := s.cursor + (i - first);
    assert BufferRow(now, at) == BufferRow(s, at);
    PaintRowResult(now, rows[i], first < i, erase);
  }

  function RowCommands(text: string, newLine: bool, erase: bool): seq<Command> {
    (if newLine then [NewLine] else []) + (if erase then [EraseLine] else []) + [Print(text)]
  }

  lemma RowCommandsPaint(s: Screen, text: string, newLine: bool, erase: bool)
    requires Valid(s)
    ensures Interpret(s, RowCommands(text, newLine, erase)) == PaintRow(s, text, newLine, erase)
  {
    var buffer := if newLine then [NewLine] else [];
    InterpretOne(s, [], NewLine);
    assert [] + [NewLine] == [NewLine];
    InterpretOne(s, buffer, EraseLine);
    assert buffer + [] == buffer;
    InterpretOne(s, buffer + (if erase then [EraseLine] else []), Print(text));
  }

  /** Printing the rows from `first` up to `end`, each erased first if asked, with a line feed between them. */
  function LineCommands(rows: seq<string>, first: nat, end: nat, erase: bool): seq<Command>
    requires end <= |rows|
  {
    if end <= first then []
    else LineCommands(rows, first, end - 1, erase) + RowCommands(rows[end - 1], first < end - 1, erase)
  }

  lemma OneMoreLinePaints(play: Playback, rows: seq<string>, first: nat, i: nat, erase: bool, done: seq<Command>,
                          all: seq<Command>)
    requires Continues(play) && first <= i < |rows| && NonEmptyRows(rows) && play([]).top <= play([]).cursor
    requires PaintedUpTo(play([]), rows, first, i, erase, play(done))
    requires all == done + RowCommands(rows[i], first < i, erase)
    ensures PaintedUpTo(play([]), rows, first, i + 1, erase, play(all))
  {
    assert Then(done, RowCommands(rows[i], first < i, erase)) == all;
    PaintNext(play([]), rows, first, i, play(done), erase);
    RowCommandsPaint(play(done), rows[i], first < i, erase);
  }

  lemma {:induction false} LinesPlay(play: Playback, rows: seq<string>, first: nat, i: nat, erase: bool)
    requires Continues(play) && play([]).top <= play([]).cursor && first <= i <= |rows| && NonEmptyRows(rows)
    ensures PaintedUpTo(play([]), rows, first, i, erase, play(LineCommands(rows, first, i, erase)))
  {
    if first < i {
      LinesPlay(play, rows, first, i - 1, erase);
      var done, all := LineCommands(rows, first, i - 1, erase), LineCommands(rows, first, i, erase);
      OneMoreLinePaints(play, rows, first, i - 1, erase, done, all);
    }
  }

  /** What the printed rows make of a screen: row after row from the cursor down, scrolling where needed. */
  lemma LinesPaint(s: Screen, rows: seq<string>, first: nat, i: nat, erase: bool)
    requires Physical(s) && first <= i <= |rows| && NonEmptyRows(rows)
    ensures PaintedUpTo(s, rows, first, i, erase, Interpret(s, LineCommands(rows, first, i, erase)))
  {
    PlaysContinue(s);
    LinesPlay(Plays(s), rows, first, i, erase);
  }

  method PrintLines(rows: seq<string>, first: nat, last: nat, erase: bool) returns (buffer: seq<Command>)
    requires first <= last <= |rows|
    ensures buffer == LineCommands(rows, first, last, erase)
  {
    buffer := [];
    for i := first to last
      invariant buffer == LineCommands(rows, first, i, erase)
    {
      if first < i {
        buffer := buffer + [NewLine];
      }
      if erase {
        buffer := buffer + [EraseLine];
      }
      buffer := buffer + [Print(rows[i])];
    }
  }

  function FreshScreen(s: Screen, rows: seq<string>): Screen {
    var top := Max(0, |rows| - s.height);
    Screen(Window(rows, 0, top + s.height), top, Max(0, |rows| - 1), s.height, rows == [], s.cursorShown, s.reflowed)
  }

  ghost predicate Fresh(s: Screen) {
    && Valid(s) && s.top == 0 && s.cursor == 0 && s.atMargin
    && forall k :: 0 <= k < |s.rows| ==> s.rows[k] == Blank
  }

  /** A whole frame printed from the top of a blank screen is all there is. */
  lemma FreshIsPainted(s: Screen, rows: seq<string>, now: Screen)
    requires Fresh(s) && PaintedUpTo(s, rows, 0, |rows|, false, now)
    ensures now == FreshScreen(s, rows)
  {
    assert now.rows == Window(rows, 0, now.top + s.height) by {
      forall k | 0 <= k < |now.rows| ensures now.rows[k] == RowAt(rows, k) {
        assert now.rows[k] == BufferRow(now, k);
      }
    }
  }

  // ----- erasing rows -----

  /** `count` rows from the cursor down are blank, or all of them to the last, and the cursor is on the
      last of them. */
  function Erased(s: Screen, count: nat): (s': Screen)
    requires Valid(s)
    ensures Valid(s')
  {
    var n := Min(count, |s.rows| - s.cursor);
    s.(rows := s.rows[..s.cursor] + Blanks(n) + s.rows[s.cursor + n..],
       cursor := s.cursor + Max(0, n - 1), atMargin := s.atMargin || 0 < count)
  }

  /** Erasing one more row, one row further down if there is one. */
  function EraseNext(now: Screen, first: bool): (s': Screen)
    requires Valid(now)
    ensures Valid(s')
  {
    Step(Step(if first then now else Step(now, CursorDown(1)), CarriageReturn), EraseLine)
  }

  lemma BlankOneMore(s: Screen, count: nat, at: nat)
    requires Valid(s) && at == Min(s.cursor + count, |s.rows| - 1)
    ensures Erased(s, count).rows[at := Blank] == Erased(s, count + 1).rows
  {
  }

  lemma EraseNextErases(s: Screen, count: nat)
    requires Valid(s)
    ensures EraseNext(Erased(s, count), count == 0) == Erased(s, count + 1)
  {
    var now := Erased(s, count);
    var at := Min(s.cursor + count, |s.rows| - 1);
    assert EraseNext(now, count == 0) == now.(rows := now.rows[at := Blank], cursor := at, atMargin := true);
    BlankOneMore(s, count, at);
  }

  function EraseOne(first: bool): seq<Command> {
    (if first then [] else [CursorDown(1)]) + [CarriageReturn, EraseLine]
  }

  lemma EraseOneErases(s: Screen, first: bool)
    requires Valid(s)
    ensures Interpret(s, EraseOne(first)) == EraseNext(s, first)
  {
    InterpretOne(s, [], CursorDown(1));
    assert [] + [CursorDown(1)] == [CursorDown(1)];
    InterpretTwo(s, if first then [] else [CursorDown(1)], CarriageReturn, EraseLine);
  }

  function EraseCommands(count: nat): seq<Command> {
    if count == 0 then [] else EraseCommands(count - 1) + EraseOne(count == 1)
  }

  lemma {:induction false} ErasePlays(play: Playback, count: nat)
    requires Continues(play)
    ensures play(EraseCommands(count)) == Erased(play([]), count)
  {
    if count == 0 {
      assert Erased(play([]), 0).rows == play([]).rows;
    } else {
      var done := EraseCommands(count - 1);
      ErasePlays(play, count - 1);
      assert Then(done, EraseOne(count == 1)) == EraseCommands(count);
      EraseOneErases(play(done), count == 1);
      EraseNextErases(play([]), count - 1);
    }
  }

  /** Erasing consecutive rows from the cursor down, without scrolling. */
  method EraseRows(count: nat) returns (buffer: seq<Command>)
    ensures buffer == EraseCommands(count)
  {
    buffer := [];
    for i := 0 to count
      invariant buffer == EraseCommands(i) + if 0 < i < count then [CursorDown(1)] else []
    {
      buffer := buffer + [CarriageReturn, EraseLine];
      assert buffer == EraseCommands(i + 1);
      if i < count - 1 {
        buffer := buffer + [CursorDown(1)];
      }
    }
  }

  /** Erasing `extra` rows, `offset` rows below the cursor, and moving back. */
  function BelowCommands(extra: nat, offset: nat): seq<Command> {
    var back := Max(0, extra - 1 + offset);
    (if 0 < offset then [CursorDown(offset)] else []) + EraseCommands(extra)
    + (if 0 < back then [CursorUp(back)] else [])
  }

  method EraseBelow(extra: nat, offset: nat) returns (buffer: seq<Command>)
    ensures buffer == BelowCommands(extra, offset)
  {
    buffer := if 0 < offset then [CursorDown(offset)] else [];
    var erased := EraseRows(extra);
    buffer := buffer + erased;
    var moveBack := Max(0, extra - 1 + offset);
    if 0 < moveBack {
      buffer := buffer + [CursorUp(moveBack)];
    }
  }

  /** Rows from `offset` rows below the cursor are blank, the last row at the latest; the cursor is back
      where it was if all of them were there. */
  ghost predicate ErasedBelow(s: Screen, extra: nat, offset: nat, s': Screen)
    requires Valid(s)
  {
    var from := Min(s.cursor + offset, s.top + s.height - 1);
    && Valid(s') && s'.height == s.height && s'.top == s.top && s'.reflowed == s.reflowed
    && s'.cursorShown == s.cursorShown && (s.atMargin ==> s'.atMargin)
    && (s.cursor + offset + extra <= s.top + s.height ==> s'.cursor == s.cursor)
    && forall k: nat :: BufferRow(s', k) ==
         if from <= k < Min(from + extra, s.top + s.height) then Blank else BufferRow(s, k)
  }

  lemma DownPlays(play: Playback, offset: nat)
    requires Continues(play) && offset <= 1
    ensures var s := play([]);
            play(if 0 < offset then [CursorDown(offset)] else [])
            == s.(cursor := Min(s.cursor + offset, s.top + s.height - 1))
  {
    var s := play([]);
    InterpretOne(s, [], CursorDown(1));
    assert Then([], [CursorDown(1)]) == [] + [CursorDown(1)] == [CursorDown(1)];
  }

  lemma UpPlays(play: Playback, done: seq<Command>, back: nat)
    requires Continues(play)
    ensures var s := play(done);
            play(done + (if 0 < back then [CursorUp(back)] else []))
            == s.(cursor := if 0 < back then Max(s.top, s.cursor - back) else s.cursor)
  {
    var up := if 0 < back then [CursorUp(back)] else [];
    assert Then(done, up) == done + up;
    InterpretOne(play(done), [], CursorUp(back));
    assert [] + [CursorUp(back)] == [CursorUp(back)];
  }

  lemma ErasePlaysAfter(play: Playback, done: seq<Command>, extra: nat)
    requires Continues(play)
    ensures play(done + EraseCommands(extra)) == Erased(play(done), extra)
  {
    assert Then(done, EraseCommands(extra)) == done + EraseCommands(extra);
    PlaysContinue(play(done));
    ErasePlays(Plays(play(done)), extra);
  }

  lemma BelowPlays(play: Playback, extra: nat, offset: nat)
    requires Continues(play) && Physical(play([])) && 0 < extra && offset <= 1
    ensures ErasedBelow(play([]), extra, offset, play(BelowCommands(extra, offset)))
  {
    var s, down := play([]), if 0 < offset then [CursorDown(offset)] else [];
    DownPlays(play, offset);
    ErasePlaysAfter(play, down, extra);
    UpPlays(play, down + EraseCommands(extra), Max(0, extra - 1 + offset));
    ErasedIsBelow(s, extra, offset, play(BelowCommands(extra, offset)));
  }

  lemma ErasedIsBelow(s: Screen, extra: nat, offset: nat, s': Screen)
    requires Physical(s) && 0 < extra && offset <= 1
    requires var e := Erased(s.(cursor := Min(s.cursor + offset, s.top + s.height - 1)), extra);
             var back := Max(0, extra - 1 + offset);
             s' == e.(cursor := if 0 < back then Max(e.top, e.cursor - back) else e.cursor)
    ensures ErasedBelow(s, extra, offset, s')
  {
  }

  // ----- whole buffers -----

  function Preamble(): seq<Command> { [BeginSync, HideCursor] }

  lemma PreambleHides(s: Screen)
    requires Valid(s)
    ensures Interpret(s, Preamble()) == s.(cursorShown := false)
  {
    InterpretOne(s, [], BeginSync);
    InterpretOne(s, [BeginSync], HideCursor);
    assert [] + [BeginSync] == [BeginSync];
    assert [BeginSync] + [HideCursor] == Preamble();
  }

  function FullCommands(clear: bool, rows: seq<string>): seq<Command> {
    (Preamble() + if clear then [ClearAll] else []) + LineCommands(rows, 0, |rows|, false) + [EndSync]
  }

  lemma FullPlays(play: Playback, clear: bool, rows: seq<string>)
    requires Continues(play) && NonEmptyRows(rows)
    requires Physical(play(Preamble() + if clear then [ClearAll] else []))
    ensures PaintedUpTo(play(Preamble() + if clear then [ClearAll] else []), rows, 0, |rows|, false,
                        play(FullCommands(clear, rows)))
  {
    var start := Preamble() + if clear then [ClearAll] else [];
    LinesPlayAfter(play, start, rows, 0, |rows|, false);
    StepPlays(play, start + LineCommands(rows, 0, |rows|, false), EndSync);
  }

  lemma LinesPlayAfter(play: Playback, done: seq<Command>, rows: seq<string>, first: nat, i: nat, erase: bool)
    requires Continues(play) && Physical(play(done)) && first <= i <= |rows| && NonEmptyRows(rows)
    ensures PaintedUpTo(play(done), rows, first, i, erase, play(done + LineCommands(rows, first, i, erase)))
  {
    assert Then(done, LineCommands(rows, first, i, erase)) == done + LineCommands(rows, first, i, erase);
    LinesPaint(play(done), rows, first, i, erase);
  }

  lemma StepPlays(play: Playback, done: seq<Command>, c: Command)
    requires Continues(play)
    ensures play(done + [c]) == Step(play(done), c)
  {
    assert Then(done, [c]) == done + [c];
    InterpretOne(play(done), [], c);
    assert [] + [c] == [c];
  }

  lemma ClearedPlays(play: Playback, clear: bool)
    requires Continues(play)
    ensures var s := play([]);
            play(Preamble() + if clear then [ClearAll] else [])
            == if clear then Screen(Blanks(s.height), 0, 0, s.height, true, false, false) else s.(cursorShown := false)
  {
    assert Then([], Preamble()) == Preamble();
    PreambleHides(play([]));
    if clear {
      StepPlays(play, Preamble(), ClearAll);
    } else {
      assert Preamble() + [] == Preamble();
    }
  }

  lemma FullPlaysFresh(play: Playback, clear: bool, rows: seq<string>)
    requires Continues(play) && NonEmptyRows(rows) && (clear || Fresh(play([])))
    ensures var s := play([]);
            play(FullCommands(clear, rows))
            == FreshScreen(s.(cursorShown := false, reflowed := s.reflowed && !clear), rows)
  {
    ClearedPlays(play, clear);
    FullPlays(play, clear, rows);
    FreshIsPainted(play(Preamble() + if clear then [ClearAll] else []), rows, play(FullCommands(clear, rows)));
  }

  /** A whole frame printed on a blank screen, or on any screen that is cleared first, is all there is. */
  lemma FullCommandsShow(s: Screen, clear: bool, rows: seq<string>)
    requires Valid(s) && NonEmptyRows(rows) && (clear || Fresh(s))
    ensures Interpret(s, FullCommands(clear, rows))
            == FreshScreen(s.(cursorShown := false, reflowed := s.reflowed && !clear), rows)
  {
    PlaysContinue(s);
    FullPlaysFresh(Plays(s), clear, rows);
  }

  /** Printed without clearing, on a screen that need not be blank, it stands from the cursor down, over
      what is there. */
  lemma FirstPlays(play: Playback, rows: seq<string>)
    requires Continues(play) && Physical(play([])) && NonEmptyRows(rows)
    ensures PaintedUpTo(play([]).(cursorShown := false), rows, 0, |rows|, false, play(FullCommands(false, rows)))
  {
    ClearedPlays(play, false);
    FullPlays(play, false, rows);
  }

  method FullBuffer(clear: bool, newLines: seq<string>) returns (buffer: seq<Command>)
    ensures buffer == FullCommands(clear, newLines)
  {
    buffer := Preamble();
    if clear {
      buffer := buffer + [ClearAll];
    }
    var printed := PrintLines(newLines, 0, |newLines|, false);
    buffer := buffer + printed + [EndSync];
  }

  /** `count` rows of the frame, from row `first`, are painted from row `at` of the buffer down, and the
      `extra` rows after them are blanked. */
  datatype Repaint = Repaint(first: nat, count: nat, at: nat, extra: nat)

  function RepaintedTop(s: Screen, p: Repaint): nat
    requires Valid(s)
  {
    Max(s.top, p.at + p.count - s.height)
  }

  /** What then stands at `k`. Nothing is blanked below the last row, so what falls there falls on it. */
  function RepaintedRow(s: Screen, rows: seq<string>, p: Repaint, k: nat): Row
    requires Valid(s) && p.first + p.count <= |rows|
  {
    var end := RepaintedTop(s, p) + s.height;
    var from := Min(p.at + p.count, end - 1);
    if from <= k < Min(from + p.extra, end) then Blank
    else if p.at <= k < p.at + p.count then Shown(rows[p.first + (k - p.at)])
    else BufferRow(s, k)
  }

  ghost predicate Repainted(s: Screen, rows: seq<string>, p: Repaint, s': Screen)
    requires Valid(s) && p.first + p.count <= |rows|
  {
    && Valid(s')
    && s'.height == s.height && s'.reflowed == s.reflowed && s'.top == RepaintedTop(s, p)
    && forall k: nat :: BufferRow(s', k) == RepaintedRow(s, rows, p, k)
  }

  lemma MovesPlayAfter(play: Playback, done: seq<Command>, believed: nat, row: nat)
    requires Continues(play)
    ensures play(done + Moves(row - believed)) == play(done).(cursor := Lands(play(done), believed, row))
  {
    assert Then(done, Moves(row - believed)) == done + Moves(row - believed);
    MovesTo(play(done), believed, row);
  }

  /** Every update starts by hiding the cursor and moving to its first row. */
  lemma HeadPlays(play: Playback, believed: nat, target: nat, start: Command)
    requires Continues(play)
    ensures play(Preamble() + Moves(target - believed) + [start])
            == Step(play([]).(cursor := Lands(play([]), believed, target), cursorShown := false), start)
  {
    var moves := Moves(target - believed);
    assert Then([], Preamble()) == Preamble();
    PreambleHides(play([]));
    MovesPlayAfter(play, Preamble(), believed, target);
    StepPlays(play, Preamble() + moves, start);
  }

  /** The row an update starts on, and the screen with the cursor at its start. */
  function StartRow(s: Screen, believed: nat, first: nat, appendStart: bool): nat
    requires Valid(s) && (appendStart ==> 0 < first)
  {
    if appendStart then Lands(s, believed, first - 1) + 1 else Lands(s, believed, first)
  }

  ghost predicate Started(s: Screen, at: nat, t: Screen) {
    && Physical(t) && t.height == s.height && t.reflowed == s.reflowed && !t.cursorShown && t.atMargin
    && t.cursor == at && t.top == Max(s.top, at - s.height + 1)
    && forall k: nat :: BufferRow(t, k) == BufferRow(s, k)
  }

  lemma StartPlays(play: Playback, believed: nat, first: nat, appendStart: bool)
    requires Continues(play) && (appendStart ==> 0 < first)
    requires play([]).top <= Lands(play([]), believed, if appendStart then first - 1 else first)
    ensures var head := Preamble() + Moves((if appendStart then first - 1 else first) - believed)
                        + [if appendStart then NewLine else CarriageReturn];
            Started(play([]), StartRow(play([]), believed, first, appendStart), play(head))
  {
    var s, target := play([]), if appendStart then first - 1 else first;
    HeadPlays(play, believed, target, if appendStart then NewLine else CarriageReturn);
    if appendStart {
      NewLineMoves(s.(cursor := Lands(s, believed, target), cursorShown := false));
    }
  }

  function TailCommands(extra: nat): seq<Command> { if 0 < extra then BelowCommands(extra, 1) else [] }

  /** The commands that repaint consecutive rows, for a renderer that believes its cursor on row `believed`. */
  function UpdateCommands(believed: nat, rows: seq<string>, first: nat, last: nat, appendStart: bool,
                          extra: nat): seq<Command>
    requires last < |rows|
  {
    var target := if appendStart then first - 1 else first;
    var head := Preamble() + Moves(target - believed) + [if appendStart then NewLine else CarriageReturn];
    head + LineCommands(rows, first, last + 1, true) + TailCommands(extra) + [EndSync]
  }

  /** The commands that blank the rows a frame only lost. */
  function DeletedCommands(believed: nat, newCount: nat, previousCount: nat): seq<Command> {
    var head := Preamble() + Moves(Max(0, newCount - 1) - believed) + [CarriageReturn];
    head + BelowCommands(Max(0, previousCount - newCount), if newCount == 0 then 0 else 1) + [EndSync]
  }

  lemma BelowPlaysAfter(play: Playback, done: seq<Command>, extra: nat, offset: nat)
    requires Continues(play) && Physical(play(done)) && 0 < extra && offset <= 1
    ensures ErasedBelow(play(done), extra, offset, play(done + BelowCommands(extra, offset)))
  {
    assert Then(done, BelowCommands(extra, offset)) == done + BelowCommands(extra, offset);
    PlaysContinue(play(done));
    BelowPlays(Plays(play(done)), extra, offset);
  }

  ghost predicate TailErased(now: Screen, extra: nat, s': Screen)
    requires Valid(now)
  {
    if 0 < extra then ErasedBelow(now, extra, 1, s') else s' == now
  }

  lemma TailPlaysAfter(play: Playback, done: seq<Command>, extra: nat)
    requires Continues(play) && Physical(play(done))
    ensures TailErased(play(done), extra, play(done + TailCommands(extra)))
  {
    if 0 < extra {
      BelowPlaysAfter(play, done, extra, 1);
    } else {
      assert done + [] == done;
    }
  }

  /** What starting, printing and erasing come to. */
  lemma PartsRepaint(s: Screen, rows: seq<string>, first: nat, last: nat, at: nat, extra: nat, t: Screen, now: Screen,
                     s': Screen)
    requires Valid(s) && first <= last < |rows| && Started(s, at, t)
    requires PaintedUpTo(t, rows, first, last + 1, true, now) && TailErased(now, extra, s')
    ensures var p := Repaint(first, last - first + 1, at, extra);
            && Repainted(s, rows, p, s') && !s'.cursorShown
            && (at + p.count + extra <= s'.top + s.height ==> s'.cursor == at + p.count - 1)
  {
    forall k: nat
      ensures BufferRow(s', k) == RepaintedRow(s, rows, Repaint(first, last - first + 1, at, extra), k)
    {
      assert BufferRow(now, k) == PaintedRow(t, rows, first, last + 1, true, k);
      assert BufferRow(t, k) == BufferRow(s, k);
    }
  }

  /** What an update makes of any terminal: its rows stand where the cursor lands, the rest is as it was. */
  lemma UpdatePlays(play: Playback, believed: nat, rows: seq<string>, first: nat, last: nat, appendStart: bool,
                    extra: nat)
    requires Continues(play) && first <= last < |rows| && NonEmptyRows(rows) && (appendStart ==> 0 < first)
    requires play([]).top <= Lands(play([]), believed, if appendStart then first - 1 else first)
    ensures var s, s' := play([]), play(UpdateCommands(believed, rows, first, last, appendStart, extra));
            var p := Repaint(first, last - first + 1, StartRow(s, believed, first, appendStart), extra);
            && Repainted(s, rows, p, s') && !s'.cursorShown
            && (p.at + p.count + extra <= s'.top + s.height ==> s'.cursor == p.at + p.count - 1)
  {
    var s, at := play([]), StartRow(play([]), believed, first, appendStart);
    var head := Preamble() + Moves((if appendStart then first - 1 else first) - believed)
                + [if appendStart then NewLine else CarriageReturn];
    var done := head + LineCommands(rows, first, last + 1, true);
    var all := done + TailCommands(extra);
    StartPlays(play, believed, first, appendStart);
    LinesPlayAfter(play, head, rows, first, last + 1, true);
    TailPlaysAfter(play, done, extra);
    StepPlays(play, all, EndSync);
    PartsRepaint(s, rows, first, last, at, extra, play(head), play(done), play(all));
  }

  lemma DeletedParts(s: Screen, rows: seq<string>, c: nat, offset: nat, extra: nat, t: Screen, s': Screen)
    requires Valid(s) && s.top <= c < s.top + s.height && offset <= 1 && 0 < extra && Started(s, c, t)
    requires ErasedBelow(t, extra, offset, s')
    ensures Repainted(s, rows, Repaint(0, 0, c + offset, extra), s') && !s'.cursorShown && s'.atMargin
    ensures c + offset + extra <= s.top + s.height ==> s'.cursor == c
  {
    forall k: nat ensures BufferRow(s', k) == RepaintedRow(s, rows, Repaint(0, 0, c + offset, extra), k) {
      assert BufferRow(t, k) == BufferRow(s, k);
    }
  }

  /** What losing rows makes of any terminal. */
  lemma DeletedPlays(play: Playback, believed: nat, rows: seq<string>, previousCount: nat)
    requires Continues(play) && |rows| < previousCount
    requires play([]).top <= Lands(play([]), believed, Max(0, |rows| - 1))
    ensures var s, s' := play([]), play(DeletedCommands(believed, |rows|, previousCount));
            var c, offset := Lands(s, believed, Max(0, |rows| - 1)), if rows == [] then 0 else 1;
            && Repainted(s, rows, Repaint(0, 0, c + offset, previousCount - |rows|), s')
            && !s'.cursorShown && s'.atMargin
            && (c + offset + (previousCount - |rows|) <= s.top + s.height ==> s'.cursor == c)
  {
    var target, offset, extra := Max(0, |rows| - 1), if rows == [] then 0 else 1, previousCount - |rows|;
    var head := Preamble() + Moves(target - believed) + [CarriageReturn];
    StartPlays(play, believed, target, false);
    BelowPlaysAfter(play, head, extra, offset);
    StepPlays(play, head + BelowCommands(extra, offset), EndSync);
    DeletedParts(play([]), rows, Lands(play([]), believed, target), offset, extra, play(head),
                 play(head + BelowCommands(extra, offset)));
  }

  /** The update for a frame that only lost rows. */
  method DeletedBuffer(hardwareCursorRow: nat, newCount: nat, previousCount: nat) returns (buffer: seq<Command>)
    requires newCount < previousCount
    ensures buffer == DeletedCommands(hardwareCursorRow, newCount, previousCount)
  {
    var targetRow := Max(0, newCount - 1);
    var lineDiff := targetRow - hardwareCursorRow;
    buffer := Preamble() + Moves(lineDiff) + [CarriageReturn];
    var extraLines := previousCount - newCount;
    var clearStartOffset := if newCount == 0 then 0 else 1;
    var erased := EraseBelow(extraLines, clearStartOffset);
    buffer := buffer + erased + [EndSync];
  }

  /** The update that repaints rows `first..last` and erases the rows a shorter frame gave up. */
  method UpdateBuffer(hardwareCursorRow: nat, newLines: seq<string>, first: nat, last: nat, appendStart: bool,
                      extra: nat) returns (buffer: seq<Command>)
    requires first <= last < |newLines| && (appendStart ==> 0 < first)
    ensures buffer == UpdateCommands(hardwareCursorRow, newLines, first, last, appendStart, extra)
  {
    var moveTargetRow := if appendStart then first - 1 else first;
    var lineDiff := moveTargetRow - hardwareCursorRow;
    var start := if appendStart then NewLine else CarriageReturn;
    buffer := Preamble() + Moves(lineDiff) + [start];
    var painted := PrintLines(newLines, first, last + 1, true);
    buffer := buffer + painted;
    var erased := [];
    if 0 < extra {
      erased := EraseBelow(extra, 1);
    }
    buffer := buffer + erased + [EndSync];
  }

  // ----- clearing, and placing the cursor -----

  function Cleared(s: Screen): Screen { Screen(Blanks(s.height), 0, 0, s.height, true, s.cursorShown, false) }

  lemma ClearsAll(s: Screen)
    requires Valid(s)
    ensures Interpret(s, [BeginSync, ClearAll, EndSync]) == Cleared(s)
  {
    InterpretOne(s, [], BeginSync);
    assert [] + [BeginSync] == [BeginSync];
    InterpretTwo(s, [BeginSync], ClearAll, EndSync);
    assert [BeginSync] + [ClearAll, EndSync] == [BeginSync, ClearAll, EndSync];
  }

  /** Where the renderer sends its cursor after a frame. */
  function CursorCommands(believed: nat, marked: Option<CursorPosition>): seq<Command> {
    match marked
    case None => [HideCursor]
    case Some(p) => Moves(p.row - believed) + [CursorColumn(p.col + 1), ShowCursor]
  }

  ghost predicate CursorMoved(s: Screen, marked: Option<CursorPosition>, s': Screen) {
    && s'.rows == s.rows && s'.top == s.top && s'.height == s.height && s'.reflowed == s.reflowed
    && s'.cursorShown == marked.Some?
    && (marked.None? ==> s'.cursor == s.cursor && s'.atMargin == s.atMargin)
  }

  lemma ColumnOnly(s: Screen, col: nat)
    requires Valid(s)
    ensures Interpret(s, [CursorColumn(col + 1), ShowCursor]) == s.(atMargin := col == 0, cursorShown := true)
  {
    InterpretTwo(s, [], CursorColumn(col + 1), ShowCursor);
    assert [] + [CursorColumn(col + 1), ShowCursor] == [CursorColumn(col + 1), ShowCursor];
  }

  lemma HidesOnly(s: Screen)
    requires Valid(s)
    ensures Interpret(s, [HideCursor]) == s.(cursorShown := false)
  {
    InterpretOne(s, [], HideCursor);
    assert [] + [HideCursor] == [HideCursor];
  }

  lemma HidePlays(play: Playback)
    requires Continues(play)
    ensures play([HideCursor]) == play([]).(cursorShown := false)
  {
    assert Then([], [HideCursor]) == [HideCursor];
    HidesOnly(play([]));
  }

  lemma MovesPlay(play: Playback, believed: nat, row: nat)
    requires Continues(play)
    ensures play(Moves(row - believed)) == play([]).(cursor := Lands(play([]), believed, row))
  {
    assert Then([], Moves(row - believed)) == Moves(row - believed);
    MovesTo(play([]), believed, row);
  }

  lemma ColumnPlays(play: Playback, moves: seq<Command>, col: nat)
    requires Continues(play)
    ensures play(moves + [CursorColumn(col + 1), ShowCursor]) == play(moves).(atMargin := col == 0, cursorShown := true)
  {
    assert Then(moves, [CursorColumn(col + 1), ShowCursor]) == moves + [CursorColumn(col + 1), ShowCursor];
    ColumnOnly(play(moves), col);
  }

  lemma CursorPlays(play: Playback, believed: nat, marked: Option<CursorPosition>)
    requires Continues(play)
    ensures CursorMoved(play([]), marked, play(CursorCommands(believed, marked)))
    ensures marked.Some? && believed == play([]).cursor && Physical(play([]))
            && marked.value.row < play([]).top + play([]).height ==>
              play(CursorCommands(believed, marked)).cursor == Max(marked.value.row, play([]).top)
  {
    match marked
    case None => HidePlays(play);
    case Some(p) =>
      MovesPlay(play, believed, p.row);
      ColumnPlays(play, Moves(p.row - believed), p.col);
  }

  /** They alter no row of any screen. */
  lemma CursorCommandsMove(s: Screen, believed: nat, marked: Option<CursorPosition>)
    requires Valid(s)
    ensures CursorMoved(s, marked, Interpret(s, CursorCommands(believed, marked)))
    ensures marked.Some? && believed == s.cursor && Physical(s) && marked.value.row < s.top + s.height ==>
              Interpret(s, CursorCommands(believed, marked)).cursor == Max(marked.value.row, s.top)
  {
    PlaysContinue(s);
    CursorPlays(Plays(s), believed, marked);
  }
}
