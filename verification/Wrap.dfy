/**
 Wrapping styled text to a number of columns, re-opening the active style on every new line.
 */
module Wrap {
  import opened Styles
  import opened Cells
  import opened Tokens
  import Filling

  // ----- widths -----

  /** Every glyph takes at least one column and fits in `width` of them. */
  predicate GlyphsFit(t: Text, width: nat) {
    forall k :: 0 <= k < |t| && t[k].Visible? ==> 1 <= t[k].glyph.width <= width
  }

  predicate AllNarrow(lines: seq<Text>, width: nat) { forall k :: 0 <= k < |lines| ==> Width(lines[k]) <= width }

  // ----- breaking a word -----

  lemma LineEndResetIsInvisible(line: Text, s: Style)
    ensures Width(line + Escapes(LineEndReset(s))) == Width(line)
    ensures Inked(DEFAULT_STYLE, line + Escapes(LineEndReset(s))) == Inked(DEFAULT_STYLE, line)
  {
    AppendText(DEFAULT_STYLE, line, Escapes(LineEndReset(s)));
    EscapesAreInvisible(Final(DEFAULT_STYLE, line), LineEndReset(s));
  }

  /** A line that leaves neither underline nor link open behind it. */
  ghost predicate Shut(line: Text) {
    4 !in Final(DEFAULT_STYLE, line).attributes && Final(DEFAULT_STYLE, line).link.None?
  }

  ghost predicate AllShut(lines: seq<Text>) { forall k :: 0 <= k < |lines| ==> Shut(lines[k]) }

  ghost predicate ShutButLast(lines: seq<Text>) { forall k :: 0 <= k < |lines| - 1 ==> Shut(lines[k]) }

  lemma LineEndResetShuts(line: Text)
    ensures Shut(line + Escapes(LineEndReset(Final(DEFAULT_STYLE, line))))
  {
    var s := Final(DEFAULT_STYLE, line);
    AppendText(DEFAULT_STYLE, line, Escapes(LineEndReset(s)));
    EscapesAreInvisible(s, LineEndReset(s));
    ClosingEndsInDefault(s);
  }

  lemma OneMoreShut(lines: seq<Text>, line: Text)
    requires AllShut(lines) && Shut(line)
    ensures AllShut(lines + [line])
  {
  }

  lemma ShutTogether(lines: seq<Text>, more: seq<Text>)
    requires AllShut(lines) && ShutButLast(more) && more != []
    ensures AllShut(lines + more[..|more| - 1])
  {
  }

  lemma {:induction false} TrimEndKeepsStyle(t: Text)
    ensures Final(DEFAULT_STYLE, TrimEnd(t)) == Final(DEFAULT_STYLE, t)
    decreases |t|
  {
    if TrimEnd(t) != t {
      TrimEndKeepsStyle(t[..|t| - 1]);
    }
  }

  /** The lines finished so far and the line being built show `read`, which started in style `s`. */
  ghost predicate Breaking(s: Style, read: Text, lines: seq<Text>, current: Text, style: Style) {
    && Reachable(style) && style == Final(s, read) == Final(DEFAULT_STYLE, current)
    && Page(lines) + Inked(DEFAULT_STYLE, current) == Inked(s, read)
    && (HasGlyph(read) || lines != [] ==> current != []) && AllShut(lines)
  }

  lemma BreakingTakesCell(s: Style, read: Text, lines: seq<Text>, current: Text, style: Style, c: Cell)
    requires Breaking(s, read, lines, current, style)
    ensures Breaking(s, read + [c], lines, current + [c], if c.Escape? then Feed(style, c.code) else style)
    ensures Width(current + [c]) == Width(current) + CellWidth(c)
  {
    AppendCell(s, read, c);
    AppendCell(DEFAULT_STYLE, current, c);
    if c.Escape? {
      FeedReachable(style, c.code);
    }
  }

  lemma BreakingStartsLine(s: Style, read: Text, lines: seq<Text>, current: Text, style: Style)
    requires Breaking(s, read, lines, current, style)
    ensures var pushed := current + Escapes(LineEndReset(style));
            && Page(lines + [pushed]) == Inked(s, read) && Width(pushed) == Width(current) && AllShut(lines + [pushed])
    ensures var opening := Escapes(ActiveCodes(style));
            && Final(DEFAULT_STYLE, opening) == style && Inked(DEFAULT_STYLE, opening) == [] && Width(opening) == 0
  {
    LineEndResetIsInvisible(current, style);
    LineEndResetShuts(current);
    AppendPiece(lines, current + Escapes(LineEndReset(style)));
    Reopened(style);
  }

  /** No line is too wide, and a line that shows a glyph is not empty of columns. */
  ghost predicate Narrow(word: Text, width: nat, lines: seq<Text>, current: Text, read: Text) {
    GlyphsFit(word, width) ==>
      && Width(current) <= width
      && (forall k :: 0 <= k < |lines| ==> Width(lines[k]) <= width)
      && (HasGlyph(read) ==> 1 <= Width(current))
  }

  lemma NarrowTakesCell(word: Text, width: nat, lines: seq<Text>, current: Text, i: nat)
    requires i < |word| && Narrow(word, width, lines, current, word[..i])
             && Width(current) + CellWidth(word[i]) <= width
    ensures Narrow(word, width, lines, current + [word[i]], word[..i + 1])
  {
    assert word[..i + 1] == word[..i] + [word[i]];
    AppendCell(DEFAULT_STYLE, current, word[i]);
    AppendCell(DEFAULT_STYLE, word[..i], word[i]);
  }

  /** A glyph that does not fit moves to a line of its own, which holds nothing but re-opened codes. */
  lemma NarrowStartsLine(word: Text, width: nat, lines: seq<Text>, current: Text, i: nat, pushed: Text, opening: Text)
    requires i < |word| && Narrow(word, width, lines, current, word[..i])
    requires Width(pushed) == Width(current) && Width(opening) == 0
    requires word[i].Visible?
    ensures Narrow(word, width, lines + [pushed], opening + [word[i]], word[..i + 1])
  {
    if GlyphsFit(word, width) {
      AppendCell(DEFAULT_STYLE, opening, word[i]);
      assert 1 <= Width(opening + [word[i]]) <= width;
      forall k | 0 <= k < |lines + [pushed]| ensures Width((lines + [pushed])[k]) <= width {
        assert (lines + [pushed])[k] == if k < |lines| then lines[k] else pushed;
      }
    }
  }

  /** What holds between two cells of a word that is being broken. */
  ghost predicate MidWord(start: Style, word: Text, width: nat, i: nat, lines: seq<Text>, current: Text, style: Style,
                          done: seq<Text>, piece: Text)
    requires i <= |word|
  {
    && Breaking(start, word[..i], lines, current, style) && Narrow(word, width, lines, current, word[..i])
    && Filling.BreakingUp(start, word, width, i, lines, current, done, piece)
  }

  lemma MidWordTakesCode(start: Style, word: Text, width: nat, i: nat, lines: seq<Text>, current: Text, style: Style,
                         done: seq<Text>, piece: Text)
    requires i < |word| && word[i].Escape? && MidWord(start, word, width, i, lines, current, style, done, piece)
    ensures MidWord(start, word, width, i + 1, lines, current + [word[i]], Feed(style, word[i].code), done,
                    piece + [word[i]])
  {
    assert word[..i + 1] == word[..i] + [word[i]];
    BreakingTakesCell(start, word[..i], lines, current, style, word[i]);
    AppendCell(start, word[..i], word[i]);
    Filling.BreakingTakes(start, word, width, i, lines, current, done, piece);
  }

  lemma MidWordTakesGlyph(start: Style, word: Text, width: nat, i: nat, lines: seq<Text>, current: Text, style: Style,
                          done: seq<Text>, piece: Text)
    requires i < |word| && word[i].Visible? && MidWord(start, word, width, i, lines, current, style, done, piece)
    requires Width(current) + word[i].glyph.width <= width
    ensures MidWord(start, word, width, i + 1, lines, current + [word[i]], style, done, piece + [word[i]])
  {
    assert word[..i + 1] == word[..i] + [word[i]];
    Filling.BreakingTakes(start, word, width, i, lines, current, done, piece);
    NarrowTakesCell(word, width, lines, current, i);
    BreakingTakesCell(start, word[..i], lines, current, style, word[i]);
  }

  lemma MidWordWraps(start: Style, word: Text, width: nat, i: nat, lines: seq<Text>, current: Text, style: Style,
                     done: seq<Text>, piece: Text)
    requires Reachable(start) && i < |word| && word[i].Visible?
    requires MidWord(start, word, width, i, lines, current, style, done, piece)
    requires width < Width(current) + word[i].glyph.width
    ensures MidWord(start, word, width, i + 1, lines + [current + Escapes(LineEndReset(style))],
                    Escapes(ActiveCodes(style)) + [word[i]], style, done + [piece], [word[i]])
  {
    var pushed, opening := current + Escapes(LineEndReset(style)), Escapes(ActiveCodes(style));
    LineEndResetIsInvisible(current, style);
    Reopened(style);
    Filling.BreakingPushes(start, word, width, i, lines, current, done, piece, pushed);
    NarrowStartsLine(word, width, lines, current, i, pushed, opening);
    BreakingWraps(start, word, i, lines, current, style);
  }

  lemma BreakingWraps(start: Style, word: Text, i: nat, lines: seq<Text>, current: Text, style: Style)
    requires i < |word| && word[i].Visible? && Breaking(start, word[..i], lines, current, style)
    ensures Breaking(start, word[..i + 1], lines + [current + Escapes(LineEndReset(style))],
                     Escapes(ActiveCodes(style)) + [word[i]], style)
  {
    var pushed, opening := current + Escapes(LineEndReset(style)), Escapes(ActiveCodes(style));
    assert word[..i + 1] == word[..i] + [word[i]];
    BreakingStartsLine(start, word[..i], lines, current, style);
    AppendCell(start, word[..i], word[i]);
    AppendCell(DEFAULT_STYLE, opening, word[i]);
  }

  /** Adds one glyph to the line being built, on a new line when it does not fit. */
  method PlaceGlyph(ghost start: Style, word: Text, i: nat, width: nat, tracker: AnsiCodeTracker, lines: seq<Text>,
                    current: Text, ghost done: seq<Text>, ghost piece: Text)
    returns (lines': seq<Text>, current': Text, ghost done': seq<Text>, ghost piece': Text)
    requires i < |word| && word[i].Visible? && Reachable(start)
    requires MidWord(start, word, width, i, lines, current, tracker.Active(), done, piece)
    ensures MidWord(start, word, width, i + 1, lines', current', tracker.Active(), done', piece')
    ensures Width(current) + word[i].glyph.width <= width ==> lines' == lines && current' == current + [word[i]]
  {
    lines', current' := lines, current;
    done', piece' := done, piece + [word[i]];
    if width < Width(current) + word[i].glyph.width {
      MidWordWraps(start, word, width, i, lines, current, tracker.Active(), done, piece);
      lines' := lines + [current + Escapes(LineEndReset(tracker.Active()))];
      current' := Escapes(ActiveCodes(tracker.Active()));
      done', piece' := done + [piece], [word[i]];
    } else {
      MidWordTakesGlyph(start, word, width, i, lines, current, tracker.Active(), done, piece);
    }
    current' := current' + [word[i]];
  }

  lemma MidWordStarts(start: Style, word: Text, width: nat)
    requires Reachable(start)
    ensures MidWord(start, word, width, 0, [], Escapes(ActiveCodes(start)), start, [], [])
  {
    Reopened(start);
    assert Escapes(ActiveCodes(start)) + [] == Escapes(ActiveCodes(start));
  }

  /** What a broken word comes to. */
  ghost predicate BrokenUp(start: Style, word: Text, width: nat, lines: seq<Text>, style: Style) {
    && Reachable(style) && style == Final(start, word)
    && lines != [] && Final(DEFAULT_STYLE, lines[|lines| - 1]) == style && Page(lines) == Inked(start, word)
    && (GlyphsFit(word, width) ==> forall k :: 0 <= k < |lines| ==> Width(lines[k]) <= width)
    && (GlyphsFit(word, width) && HasGlyph(word) ==> 1 <= Width(lines[|lines| - 1]))
    && ShutButLast(lines)
  }

  lemma MidWordEnds(start: Style, word: Text, width: nat, lines: seq<Text>, current: Text, style: Style,
                    done: seq<Text>, piece: Text, all: seq<Text>)
    requires MidWord(start, word, width, |word|, lines, current, style, done, piece)
    requires all == if current != [] || lines == [] then lines + [current] else lines
    ensures BrokenUp(start, word, width, all, style)
    ensures Filling.BreakingUp(start, word, width, |word|, all[..|all| - 1], all[|all| - 1], done, piece)
  {
    assert word[..|word|] == word;
    AppendPiece(lines, current);
    assert all[..|all| - 1] == lines;
  }

  /** Breaks a word glyph by glyph, re-opening the active style on every new line. */
  method BreakLongWord(word: Text, width: nat, tracker: AnsiCodeTracker)
    returns (lines: seq<Text>, ghost done: seq<Text>, ghost piece: Text)
    requires Reachable(tracker.Active())
    modifies tracker
    ensures BrokenUp(old(tracker.Active()), word, width, lines, tracker.Active())
    ensures Filling.BreakingUp(old(tracker.Active()), word, width, |word|, lines[..|lines| - 1], lines[|lines| - 1],
                               done, piece)
  {
    ghost var start := tracker.Active();
    lines := [];
    var currentLine := Escapes(ActiveCodes(tracker.Active()));
    done, piece := [], [];
    MidWordStarts(start, word, width);
    for i := 0 to |word|
      invariant MidWord(start, word, width, i, lines, currentLine, tracker.Active(), done, piece)
    {
      if word[i].Escape? {
        MidWordTakesCode(start, word, width, i, lines, currentLine, tracker.Active(), done, piece);
        currentLine, piece := currentLine + [word[i]], piece + [word[i]];
        tracker.Process(word[i].code);
      } else {
        lines, currentLine, done, piece :=
          PlaceGlyph(start, word, i, width, tracker, lines, currentLine, done, piece);
      }
    }
    ghost var finished := lines;
    if currentLine != [] {
      lines := lines + [currentLine];
    }
    if |lines| == 0 {
      lines := [[]];
    }
    MidWordEnds(start, word, width, finished, currentLine, tracker.Active(), done, piece, lines);
  }

  // ----- tokens that stay whole -----

  /** `t` stands unbroken somewhere in `line`. */
  ghost predicate Contains(line: Text, t: Text) { exists from: nat :: StandsAt(line, t, from) }

  predicate StandsAt(line: Text, t: Text, from: nat) { from + |t| <= |line| && line[from..from + |t|] == t }

  ghost predicate Holds(lines: seq<Text>, t: Text) { exists k :: 0 <= k < |lines| && Contains(lines[k], t) }

  lemma ContainsAround(before: Text, line: Text, after: Text, t: Text)
    requires Contains(line, t)
    ensures Contains(before + line + after, t)
  {
    var from: nat :| StandsAt(line, t, from);
    assert StandsAt(before + line + after, t, |before| + from);
  }

  lemma ContainsItself(before: Text, t: Text)
    ensures Contains(before + t, t)
  {
    assert StandsAt(before + t, t, |before|);
  }

  predicate NoWhite(t: Text) { forall k :: 0 <= k < |t| && t[k].Visible? ==> !IsWhite(t[k].glyph) }

  /** Trimming a line's end never cuts into a token that is not white space. */
  lemma TrimKeeps(line: Text, t: Text)
    requires Contains(line, t) && NoWhite(t) && t != []
    ensures Contains(TrimEnd(line), t)
  {
    TrimEndDropsWhite(line);
    var n := |TrimEnd(line)|;
    var from: nat :| StandsAt(line, t, from);
    var last := from + |t| - 1;
    assert line[last] == t[|t| - 1];
    assert StandsAt(TrimEnd(line), t, from);
  }

  // ----- wrapping one line -----

  /** The lines wrapped so far and the line being built show what was read, short of some white space. */
  ghost predicate Wrapping(read: Text, wrapped: seq<Text>, current: Text, style: Style) {
    && Reachable(style) && style == Final(DEFAULT_STYLE, read) == Final(DEFAULT_STYLE, current)
    && OnlyWhiteDropped(Inked(DEFAULT_STYLE, read), Page(wrapped) + Inked(DEFAULT_STYLE, current))
  }

  lemma WrappingTakesToken(read: Text, wrapped: seq<Text>, current: Text, style: Style, token: Text)
    requires Wrapping(read, wrapped, current, style)
    ensures Wrapping(read + token, wrapped, current + token, Final(style, token))
  {
    AppendText(DEFAULT_STYLE, read, token);
    AppendText(DEFAULT_STYLE, current, token);
    FinalReachable(style, token);
    DroppedExtend(Inked(DEFAULT_STYLE, read), Page(wrapped), Inked(DEFAULT_STYLE, current), Inked(style, token));
  }

  lemma DroppedExtend(all: seq<Ink>, page: seq<Ink>, current: seq<Ink>, more: seq<Ink>)
    requires OnlyWhiteDropped(all, page + current)
    ensures OnlyWhiteDropped(all + more, page + (current + more))
  {
    NothingDropped(more);
    DroppedConcat(all, page + current, more, more);
    assert page + current + more == page + (current + more);
  }

  /** Pushing the line, trimmed or not, and opening a new one in the active style. */
  lemma WrappingStartsLine(read: Text, wrapped: seq<Text>, current: Text, style: Style, pushed: Text)
    requires Wrapping(read, wrapped, current, style)
    requires pushed == current + Escapes(LineEndReset(style))
             || pushed == TrimEnd(current) + Escapes(LineEndReset(style))
    ensures Wrapping(read, wrapped + [pushed], Escapes(ActiveCodes(style)), style)
  {
    var kept := if pushed == current + Escapes(LineEndReset(style)) then current else TrimEnd(current);
    LineEndResetIsInvisible(kept, style);
    AppendPiece(wrapped, pushed);
    Reopened(style);
    TrimEndDropsWhite(current);
    NothingDropped(Inked(DEFAULT_STYLE, current));
    var ink, keptInk := Inked(DEFAULT_STYLE, current), Inked(DEFAULT_STYLE, kept);
    DroppedAtTheEnd(Inked(DEFAULT_STYLE, read), Page(wrapped), ink, keptInk);
    assert Page(wrapped + [pushed]) + [] == Page(wrapped) + Inked(DEFAULT_STYLE, kept);
  }

  lemma DroppedAtTheEnd(all: seq<Ink>, page: seq<Ink>, current: seq<Ink>, kept: seq<Ink>)
    requires OnlyWhiteDropped(all, page + current) && OnlyWhiteDropped(current, kept)
    ensures OnlyWhiteDropped(all, page + kept)
  {
    NothingDropped(page);
    DroppedConcat(page, page, current, kept);
    DroppedTwice(all, page + current, page + kept);
  }

  lemma WrappingDropsToken(read: Text, wrapped: seq<Text>, current: Text, style: Style, token: Text)
    requires Wrapping(read, wrapped, current, style) && AllWhite(token)
    ensures Wrapping(read + token, wrapped, current, style)
  {
    AppendText(DEFAULT_STYLE, read, token);
    WhiteCanBeDropped(style, token);
    var shown := Page(wrapped) + Inked(DEFAULT_STYLE, current);
    DroppedConcat(Inked(DEFAULT_STYLE, read), shown, Inked(style, token), []);
    assert shown + [] == shown;
  }

  /** A broken token replaces the empty line that would have opened in the active style. */
  lemma WrappingTakesLines(read: Text, wrapped: seq<Text>, style: Style, token: Text, broken: seq<Text>)
    requires Wrapping(read, wrapped, Escapes(ActiveCodes(style)), style)
    requires broken != [] && Page(broken) == Inked(style, token)
    requires Final(DEFAULT_STYLE, broken[|broken| - 1]) == Final(style, token)
    ensures Wrapping(read + token, wrapped + broken[..|broken| - 1], broken[|broken| - 1], Final(style, token))
  {
    PagesJoin(wrapped, broken);
    Reopened(style);
    AppendText(DEFAULT_STYLE, read, token);
    FinalReachable(style, token);
    DroppedExtend(Inked(DEFAULT_STYLE, read), Page(wrapped), [], Inked(style, token));
    assert [] + Inked(style, token) == Inked(style, token);
  }

  lemma PagesJoin(wrapped: seq<Text>, broken: seq<Text>)
    requires broken != []
    ensures Page(wrapped + broken[..|broken| - 1]) + Inked(DEFAULT_STYLE, broken[|broken| - 1])
            == Page(wrapped) + Page(broken)
  {
    var init, last := broken[..|broken| - 1], broken[|broken| - 1];
    AppendPieces(wrapped, init);
    assert Page(broken) == Page(init) + Inked(DEFAULT_STYLE, last);
  }

  /** Once trimmed, no finished line is too wide, and neither is the line being built unless it is blank. */
  ghost predicate Fitting(line: Text, width: nat, wrapped: seq<Text>, current: Text) {
    GlyphsFit(line, width) ==>
      && (forall k :: 0 <= k < |wrapped| ==> Width(TrimEnd(wrapped[k])) <= width)
      && (Width(current) <= width || AllWhite(current))
  }

  lemma FittingStartsLine(line: Text, width: nat, wrapped: seq<Text>, current: Text, style: Style, pushed: Text)
    requires Fitting(line, width, wrapped, current) && style == Final(DEFAULT_STYLE, current)
    requires pushed == current + Escapes(LineEndReset(style))
             || pushed == TrimEnd(current) + Escapes(LineEndReset(style))
    ensures Fitting(line, width, wrapped + [pushed], Escapes(ActiveCodes(style)))
  {
    EscapesAreInvisible(DEFAULT_STYLE, ActiveCodes(style));
    if GlyphsFit(line, width) {
      PushedFits(width, current, style, pushed);
      forall k | 0 <= k < |wrapped + [pushed]| ensures Width(TrimEnd((wrapped + [pushed])[k])) <= width {
        assert (wrapped + [pushed])[k] == if k < |wrapped| then wrapped[k] else pushed;
      }
    }
  }

  lemma PushedFits(width: nat, current: Text, style: Style, pushed: Text)
    requires style == Final(DEFAULT_STYLE, current) && (Width(current) <= width || AllWhite(current))
    requires pushed == current + Escapes(LineEndReset(style))
             || pushed == TrimEnd(current) + Escapes(LineEndReset(style))
    ensures Width(TrimEnd(pushed)) <= width
  {
    TrimEndDropsWhite(current);
    TrimEndDropsWhite(pushed);
    if AllWhite(current) {
      WhiteCanBeDropped(DEFAULT_STYLE, current);
      assert Escapes(LineEndReset(DEFAULT_STYLE)) == [];
      assert AllWhite(pushed);
      TrimEndOfWhite(pushed);
    } else {
      LineEndResetIsInvisible(if pushed == current + Escapes(LineEndReset(style)) then current
          else TrimEnd(current), style);
    }
  }

  /** Every token that is not white space and fits a line stands unbroken in some line. */
  ghost predicate Kept(tokens: seq<Text>, kinds: seq<Kind>, width: nat, n: nat, lines: seq<Text>)
    requires n <= |tokens| == |kinds|
  {
    forall j :: 0 <= j < n && !kinds[j].Space? && Width(tokens[j]) <= width ==> Holds(lines, tokens[j])
  }

  /** Each line only gains cells at its end, after at most a trim. */
  predicate Grows(lines: seq<Text>, lines': seq<Text>) {
    |lines| <= |lines'| && forall j :: 0 <= j < |lines| ==> lines[j] <= lines'[j] || TrimEnd(lines[j]) <= lines'[j]
  }

  predicate NoNewLine(t: Text) { forall k :: 0 <= k < |t| && t[k].Visible? ==> !t[k].glyph.kind.NewLine? }

  lemma KeptGrows(tokens: seq<Text>, kinds: seq<Kind>, width: nat, n: nat, lines: seq<Text>, lines': seq<Text>)
    requires AreTokens(tokens, kinds) && n <= |tokens|
    requires forall j :: 0 <= j < |tokens| ==> NoNewLine(tokens[j])
    requires Kept(tokens, kinds, width, n, lines) && Grows(lines, lines')
    ensures Kept(tokens, kinds, width, n, lines')
  {
    forall j | 0 <= j < n && !kinds[j].Space? && Width(tokens[j]) <= width ensures Holds(lines', tokens[j]) {
      var t := tokens[j];
      var k :| 0 <= k < |lines| && Contains(lines[k], t);
      TokenIsSolid(t, kinds[j]);
      TrimKeeps(lines[k], t);
      if lines[k] <= lines'[k] {
        ContainsAround([], lines[k], lines'[k][|lines[k]|..], t);
        assert [] + lines[k] + lines'[k][|lines[k]|..] == lines'[k];
      } else {
        var kept := TrimEnd(lines[k]);
        ContainsAround([], kept, lines'[k][|kept|..], t);
        assert [] + kept + lines'[k][|kept|..] == lines'[k];
      }
    }
  }

  lemma TokenIsSolid(t: Text, kind: Kind)
    requires IsToken(t, kind) && NoNewLine(t)
    ensures t != []
    ensures !kind.Space? ==> NoWhite(t)
    ensures AllWhite(t) ==> kind.Space?
  {
    if AllWhite(t) {
      assert t[0].Visible?;
    }
  }

  /** What holds between two tokens of a line that is being wrapped. */
  ghost predicate Midway(width: nat, tokens: seq<Text>, kinds: seq<Kind>, n: nat, wrapped: seq<Text>, current: Text,
                         style: Style) {
    && n <= |tokens| && AreTokens(tokens, kinds) && NoNewLine(Join(tokens))
    && Wrapping(Join(tokens[..n]), wrapped, current, style)
    && Fitting(Join(tokens), width, wrapped, current) && AllShut(wrapped)
    && Kept(tokens, kinds, width, n, wrapped + [current])
    && (n == 0 ==> current == [])
    && (GlyphsFit(Join(tokens), width) && 0 < n && Width(current) == 0 ==> AllWhite(tokens[n - 1]))
  }

  lemma {:induction false} PieceInside(pieces: seq<Text>, j: nat) returns (from: nat)
    requires j < |pieces|
    ensures StandsAt(Join(pieces), pieces[j], from)
    decreases |pieces|
  {
    var init, last := pieces[..|pieces| - 1], pieces[|pieces| - 1];
    if j == |pieces| - 1 {
      from := |Join(init)|;
    } else {
      from := PieceInside(init, j);
    }
  }

  lemma TokensInherit(width: nat, tokens: seq<Text>)
    ensures NoNewLine(Join(tokens)) ==> forall j :: 0 <= j < |tokens| ==> NoNewLine(tokens[j])
    ensures GlyphsFit(Join(tokens), width) ==> forall j :: 0 <= j < |tokens| ==> GlyphsFit(tokens[j], width)
  {
    forall j | 0 <= j < |tokens|
      ensures NoNewLine(Join(tokens)) ==> NoNewLine(tokens[j])
      ensures GlyphsFit(Join(tokens), width) ==> GlyphsFit(tokens[j], width)
    {
      var from := PieceInside(tokens, j);
      forall k | 0 <= k < |tokens[j]| ensures tokens[j][k] == Join(tokens)[from + k] {
        assert tokens[j][k] == Join(tokens)[from..from + |tokens[j]|][k];
      }
    }
  }

  lemma TokenHasWidth(width: nat, tokens: seq<Text>, kinds: seq<Kind>, n: nat)
    requires n < |tokens| && AreTokens(tokens, kinds) && GlyphsFit(Join(tokens), width)
    ensures 1 <= Width(tokens[n])
  {
    TokensInherit(width, tokens);
    WidthIsAtLeastGlyphs(tokens[n]);
  }

  lemma ReadOneMore(tokens: seq<Text>, n: nat)
    requires n < |tokens|
    ensures Join(tokens[..n + 1]) == Join(tokens[..n]) + tokens[n]
  {
    assert tokens[..n + 1] == tokens[..n] + [tokens[n]];
    AppendPiece(tokens[..n], tokens[n]);
  }

  lemma KeptNext(tokens: seq<Text>, kinds: seq<Kind>, width: nat, n: nat, lines: seq<Text>, lines': seq<Text>)
    requires n < |tokens| && AreTokens(tokens, kinds) && NoNewLine(Join(tokens))
    requires Kept(tokens, kinds, width, n, lines) && Grows(lines, lines')
    requires lines' != []
    requires kinds[n].Space? || width < Width(tokens[n]) || Contains(lines'[|lines'| - 1], tokens[n])
    ensures Kept(tokens, kinds, width, n + 1, lines')
  {
    TokensInherit(width, tokens);
    KeptGrows(tokens, kinds, width, n, lines, lines');
    forall j | 0 <= j < n + 1 && !kinds[j].Space? && Width(tokens[j]) <= width ensures Holds(lines', tokens[j]) {
    }
  }

  lemma NoWhiteNeighbours(tokens: seq<Text>, kinds: seq<Kind>, n: nat)
    requires 0 < n < |tokens| && AreTokens(tokens, kinds) && NoNewLine(Join(tokens))
    ensures !AllWhite(tokens[n - 1]) || !AllWhite(tokens[n])
  {
    TokensInherit(0, tokens);
    TokenIsSolid(tokens[n - 1], kinds[n - 1]);
    TokenIsSolid(tokens[n], kinds[n]);
    assert kinds[n - 1] != kinds[(n - 1) + 1] || kinds[n - 1].Cjk?;
  }

  /** The token joins the line being built: it fits, or the line shows nothing yet. */
  lemma MidwayAppends(width: nat, tokens: seq<Text>, kinds: seq<Kind>, n: nat, wrapped: seq<Text>, current: Text,
                      style: Style)
    requires Midway(width, tokens, kinds, n, wrapped, current, style) && n < |tokens|
    requires Width(current) + Width(tokens[n]) <= width || (Width(current) == 0 && AllWhite(tokens[n]))
    ensures Midway(width, tokens, kinds, n + 1, wrapped, current + tokens[n], Final(style, tokens[n]))
    ensures Width(current + tokens[n]) == Width(current) + Width(tokens[n])
  {
    var token := tokens[n];
    ReadOneMore(tokens, n);
    WrappingTakesToken(Join(tokens[..n]), wrapped, current, style, token);
    AppendText(DEFAULT_STYLE, current, token);
    ContainsItself(current, token);
    KeptNext(tokens, kinds, width, n, wrapped + [current], wrapped + [current + token]);
    if GlyphsFit(Join(tokens), width) {
      TokenHasWidth(width, tokens, kinds, n);
      if 0 < n {
        NoWhiteNeighbours(tokens, kinds, n);
      }
    }
  }

  /** The line is pushed and the token starts the next one, or is dropped when it is white space. */
  lemma MidwayWraps(width: nat, tokens: seq<Text>, kinds: seq<Kind>, n: nat, wrapped: seq<Text>, current: Text,
                    style: Style)
    requires Midway(width, tokens, kinds, n, wrapped, current, style) && n < |tokens|
    requires Width(tokens[n]) <= width || AllWhite(tokens[n])
    ensures var pushed := TrimEnd(current) + Escapes(LineEndReset(style));
            var opening := Escapes(ActiveCodes(style));
            if AllWhite(tokens[n]) then Midway(width, tokens, kinds, n + 1, wrapped + [pushed], opening, style)
            else Midway(width, tokens, kinds, n + 1, wrapped + [pushed], opening + tokens[n], Final(style, tokens[n]))
    ensures AllWhite(tokens[n]) ==> Final(style, tokens[n]) == style
  {
    var pushed, opening := TrimEnd(current) + Escapes(LineEndReset(style)), Escapes(ActiveCodes(style));
    TrimEndKeepsStyle(current);
    LineEndResetShuts(TrimEnd(current));
    OneMoreShut(wrapped, pushed);
    ReadOneMore(tokens, n);
    WrappingStartsLine(Join(tokens[..n]), wrapped, current, style, pushed);
    FittingStartsLine(Join(tokens), width, wrapped, current, style, pushed);
    EscapesAreInvisible(DEFAULT_STYLE, ActiveCodes(style));
    if AllWhite(tokens[n]) {
      TokensInherit(width, tokens);
      TokenIsSolid(tokens[n], kinds[n]);
      WhiteCanBeDropped(style, tokens[n]);
      WrappingDropsToken(Join(tokens[..n]), wrapped + [pushed], opening, style, tokens[n]);
      KeptNext(tokens, kinds, width, n, wrapped + [current], wrapped + [pushed] + [opening]);
    } else {
      MidwayOpens(width, tokens, kinds, n, wrapped, current, style, pushed, opening);
    }
  }

  lemma MidwayOpens(width: nat, tokens: seq<Text>, kinds: seq<Kind>, n: nat, wrapped: seq<Text>, current: Text,
                    style: Style, pushed: Text, opening: Text)
    requires n < |tokens| && AreTokens(tokens, kinds) && NoNewLine(Join(tokens)) && Width(tokens[n]) <= width
    requires Wrapping(Join(tokens[..n]), wrapped + [pushed], opening, style)
    requires Fitting(Join(tokens), width, wrapped + [pushed], opening) && AllShut(wrapped + [pushed])
    requires Kept(tokens, kinds, width, n, wrapped + [current]) && TrimEnd(current) <= pushed && Width(opening) == 0
    ensures Midway(width, tokens, kinds, n + 1, wrapped + [pushed], opening + tokens[n], Final(style, tokens[n]))
  {
    var token := tokens[n];
    ReadOneMore(tokens, n);
    WrappingTakesToken(Join(tokens[..n]), wrapped + [pushed], opening, style, token);
    AppendText(DEFAULT_STYLE, opening, token);
    OpenedKept(width, tokens, kinds, n, wrapped, current, pushed, opening);
    if GlyphsFit(Join(tokens), width) {
      TokenHasWidth(width, tokens, kinds, n);
    }
  }

  lemma OpenedKept(width: nat, tokens: seq<Text>, kinds: seq<Kind>, n: nat, wrapped: seq<Text>, current: Text,
                   pushed: Text, opening: Text)
    requires n < |tokens| && AreTokens(tokens, kinds) && NoNewLine(Join(tokens))
    requires Kept(tokens, kinds, width, n, wrapped + [current]) && TrimEnd(current) <= pushed
    ensures Kept(tokens, kinds, width, n + 1, wrapped + [pushed] + [opening + tokens[n]])
  {
    ContainsItself(opening, tokens[n]);
    KeptNext(tokens, kinds, width, n, wrapped + [current], wrapped + [pushed] + [opening + tokens[n]]);
  }

  /** A token wider than a line is broken up; whatever stood on the line is pushed first. */
  lemma MidwayBreaks(width: nat, tokens: seq<Text>, kinds: seq<Kind>, n: nat, wrapped: seq<Text>, current: Text,
                     style: Style, lines: seq<Text>, broken: seq<Text>)
    requires Midway(width, tokens, kinds, n, wrapped, current, style) && n < |tokens| && width < Width(tokens[n])
    requires lines == if current == [] then wrapped else wrapped + [current + Escapes(LineEndReset(style))]
    requires broken != [] && Page(broken) == Inked(style, tokens[n]) && ShutButLast(broken)
    requires Final(DEFAULT_STYLE, broken[|broken| - 1]) == Final(style, tokens[n])
    requires GlyphsFit(tokens[n], width) ==> forall k :: 0 <= k < |broken| ==> Width(broken[k]) <= width
    requires GlyphsFit(tokens[n], width) && HasGlyph(tokens[n]) ==> 1 <= Width(broken[|broken| - 1])
    ensures Midway(width, tokens, kinds, n + 1, lines + broken[..|broken| - 1], broken[|broken| - 1],
                   Final(style, tokens[n]))
  {
    ReadOneMore(tokens, n);
    TokensInherit(width, tokens);
    MidwayPushes(width, tokens, kinds, n, wrapped, current, style, lines);
    WrappingTakesLines(Join(tokens[..n]), lines, style, tokens[n], broken);
    BrokenKept(width, tokens, kinds, n, wrapped, current, style, lines, broken);
    BrokenFits(Join(tokens), width, lines, broken);
    ShutTogether(lines, broken);
  }

  lemma BrokenKept(width: nat, tokens: seq<Text>, kinds: seq<Kind>, n: nat, wrapped: seq<Text>, current: Text,
                   style: Style, lines: seq<Text>, broken: seq<Text>)
    requires Midway(width, tokens, kinds, n, wrapped, current, style) && n < |tokens| && width < Width(tokens[n])
    requires lines == if current == [] then wrapped else wrapped + [current + Escapes(LineEndReset(style))]
    requires broken != []
    ensures Kept(tokens, kinds, width, n + 1, lines + broken[..|broken| - 1] + [broken[|broken| - 1]])
  {
    assert lines + broken[..|broken| - 1] + [broken[|broken| - 1]] == lines + broken;
    KeptNext(tokens, kinds, width, n, wrapped + [current], lines + broken);
  }

  lemma BrokenFits(line: Text, width: nat, lines: seq<Text>, broken: seq<Text>)
    requires Fitting(line, width, lines, []) && broken != []
    requires GlyphsFit(line, width) ==> forall k :: 0 <= k < |broken| ==> Width(broken[k]) <= width
    ensures Fitting(line, width, lines + broken[..|broken| - 1], broken[|broken| - 1])
  {
    if GlyphsFit(line, width) {
      forall k | 0 <= k < |broken| ensures Width(TrimEnd(broken[k])) <= width {
        TrimEndDropsWhite(broken[k]);
      }
    }
  }

  lemma MidwayPushes(width: nat, tokens: seq<Text>, kinds: seq<Kind>, n: nat, wrapped: seq<Text>, current: Text,
                     style: Style, lines: seq<Text>)
    requires Midway(width, tokens, kinds, n, wrapped, current, style)
    requires lines == if current == [] then wrapped else wrapped + [current + Escapes(LineEndReset(style))]
    ensures Wrapping(Join(tokens[..n]), lines, Escapes(ActiveCodes(style)), style)
    ensures Fitting(Join(tokens), width, lines, []) && AllShut(lines)
  {
    if current == [] {
      assert Escapes(ActiveCodes(style)) == [];
    } else {
      var pushed := current + Escapes(LineEndReset(style));
      LinePushes(Join(tokens), Join(tokens[..n]), width, wrapped, current, style, pushed);
    }
  }

  lemma LinePushes(line: Text, read: Text, width: nat, wrapped: seq<Text>, current: Text, style: Style, pushed: Text)
    requires Wrapping(read, wrapped, current, style) && Fitting(line, width, wrapped, current) && AllShut(wrapped)
    requires pushed == current + Escapes(LineEndReset(style))
    ensures Wrapping(read, wrapped + [pushed], Escapes(ActiveCodes(style)), style)
    ensures Fitting(line, width, wrapped + [pushed], []) && AllShut(wrapped + [pushed])
  {
    LineEndResetShuts(current);
    OneMoreShut(wrapped, pushed);
    WrappingStartsLine(read, wrapped, current, style, pushed);
    FittingStartsLine(line, width, wrapped, current, style, pushed);
  }

  /** The last line joins the others and every line is trimmed. */
  lemma MidwayEnds(width: nat, tokens: seq<Text>, kinds: seq<Kind>, wrapped: seq<Text>, current: Text, style: Style,
                   lines: seq<Text>)
    requires Midway(width, tokens, kinds, |tokens|, wrapped, current, style)
    requires lines == if current != [] then wrapped + [current] else wrapped
    ensures var result := if 0 < |lines| then TrimAll(lines) else [[]];
            && OnlyWhiteDropped(Inked(DEFAULT_STYLE, Join(tokens)), Page(result)) && ShutButLast(result)
            && (GlyphsFit(Join(tokens), width) ==> forall k :: 0 <= k < |result| ==> Width(result[k]) <= width)
            && Kept(tokens, kinds, width, |tokens|, result)
  {
    assert tokens[..|tokens|] == tokens;
    AppendPiece(wrapped, current);
    var ink := Inked(DEFAULT_STYLE, current);
    assert Page(lines) == Page(wrapped) + ink by {
      if current == [] { assert Page(wrapped) + [] == Page(wrapped); }
    }
    EndsShow(Inked(DEFAULT_STYLE, Join(tokens)), lines);
    EndsShut(wrapped, current, lines);
    EndsKept(width, tokens, kinds, wrapped, current, lines);
    EndsFit(Join(tokens), width, wrapped, current, lines);
  }

  lemma EndsShut(wrapped: seq<Text>, current: Text, lines: seq<Text>)
    requires AllShut(wrapped) && lines == if current != [] then wrapped + [current] else wrapped
    ensures ShutButLast(if 0 < |lines| then TrimAll(lines) else [[]])
  {
    forall k | 0 <= k < |lines| - 1 ensures Shut(TrimEnd(lines[k])) {
      TrimEndKeepsStyle(lines[k]);
    }
  }

  lemma EndsFit(line: Text, width: nat, wrapped: seq<Text>, current: Text, lines: seq<Text>)
    requires Fitting(line, width, wrapped, current)
    requires lines == if current != [] then wrapped + [current] else wrapped
    ensures var result := if 0 < |lines| then TrimAll(lines) else [[]];
            GlyphsFit(line, width) ==> forall k :: 0 <= k < |result| ==> Width(result[k]) <= width
  {
    if GlyphsFit(line, width) {
      TrimEndDropsWhite(current);
      if AllWhite(current) {
        TrimEndOfWhite(current);
      }
      assert Width(TrimEnd(current)) <= width;
      forall k | 0 <= k < |lines| ensures Width(TrimEnd(lines[k])) <= width {
        assert lines[k] == if k < |wrapped| then wrapped[k] else current;
      }
    }
  }

  lemma EndsShow(ink: seq<Ink>, lines: seq<Text>)
    requires OnlyWhiteDropped(ink, Page(lines))
    ensures OnlyWhiteDropped(ink, Page(if 0 < |lines| then TrimAll(lines) else [[]]))
  {
    TrimAllDropsWhite(lines);
    assert Page([[]]) == Page([]) + [];
    DroppedTwice(ink, Page(lines), Page(TrimAll(lines)));
  }

  lemma EndsKept(width: nat, tokens: seq<Text>, kinds: seq<Kind>, wrapped: seq<Text>, current: Text, lines: seq<Text>)
    requires AreTokens(tokens, kinds) && NoNewLine(Join(tokens))
             && Kept(tokens, kinds, width, |tokens|, wrapped + [current])
    requires lines == if current != [] then wrapped + [current] else wrapped
    ensures Kept(tokens, kinds, width, |tokens|, if 0 < |lines| then TrimAll(lines) else [[]])
  {
    TokensInherit(width, tokens);
    forall j | 0 <= j < |tokens| && !kinds[j].Space? && Width(tokens[j]) <= width ensures Holds(lines, tokens[j]) {
      TokenIsSolid(tokens[j], kinds[j]);
      var k :| 0 <= k < |wrapped + [current]| && Contains((wrapped + [current])[k], tokens[j]);
      if k < |wrapped| {
        assert Contains(lines[k], tokens[j]);
      } else {
        assert current != [];
        assert Contains(lines[|wrapped|], tokens[j]);
      }
    }
    KeptGrows(tokens, kinds, width, |tokens|, lines, if 0 < |lines| then TrimAll(lines) else [[]]);
  }

  lemma {:induction false} WidthNeedsGlyph(t: Text)
    ensures 0 < Width(t) ==> HasGlyph(t)
    decreases |t|
  {
    if t != [] {
      WidthNeedsGlyph(t[..|t| - 1]);
    }
  }

  method PlaceToken(width: nat, tokens: seq<Text>, ghost kinds: seq<Kind>, n: nat, wrapped: seq<Text>,
                    currentLine: Text, tracker: AnsiCodeTracker, ghost done: seq<Text>, ghost piece: Text)
    returns (wrapped': seq<Text>, currentLine': Text, ghost done': seq<Text>, ghost piece': Text)
    requires n < |tokens| && Midway(width, tokens, kinds, n, wrapped, currentLine, tracker.Active())
    requires Filling.Underway(tokens, width, n, wrapped, currentLine, done, piece)
    modifies tracker
    ensures Midway(width, tokens, kinds, n + 1, wrapped', currentLine', tracker.Active())
    ensures Width(currentLine) + Width(tokens[n]) <= width ==>
            wrapped' == wrapped && currentLine' == currentLine + tokens[n]
    ensures Filling.Underway(tokens, width, n + 1, wrapped', currentLine', done', piece')
  {
    ghost var style := tracker.Active();
    var token := tokens[n];
    wrapped', currentLine' := wrapped, currentLine;
    done', piece' := done, piece;
    var isWhitespace := AllWhite(token);
    if width < Width(token) && !isWhitespace {
      if currentLine != [] {
        LineEndResetIsInvisible(currentLine, style);
        wrapped' := wrapped + [currentLine + Escapes(LineEndReset(tracker.Active()))];
        Filling.FillingPushes(tokens, width, n, wrapped, currentLine, done, piece, wrapped'[|wrapped|]);
        done' := done + [piece];
      }
      ghost var lines := wrapped';
      var broken, pieces, last := BreakLongWord(token, width, tracker);
      MidwayBreaks(width, tokens, kinds, n, wrapped, currentLine, style, lines, broken);
      Filling.FillingBreaks(tokens, width, n, done', lines, pieces, broken[..|broken| - 1], last,
                            broken[|broken| - 1]);
      done', piece' := done' + pieces, last;
      wrapped', currentLine' := wrapped' + broken[..|broken| - 1], broken[|broken| - 1];
      return;
    }
    if width < Width(currentLine) + Width(token) && 0 < Width(currentLine) {
      MidwayWraps(width, tokens, kinds, n, wrapped, currentLine, style);
      LineEndResetIsInvisible(TrimEnd(currentLine), style);
      wrapped' := wrapped + [TrimEnd(currentLine) + Escapes(LineEndReset(tracker.Active()))];
      Filling.FillingWraps(tokens, width, n, wrapped, currentLine, done, piece, wrapped'[|wrapped|]);
      currentLine' := if isWhitespace then Escapes(ActiveCodes(tracker.Active()))
          else Escapes(ActiveCodes(tracker.Active())) + token;
      done' := done + [if isWhitespace then piece + token else piece];
      piece' := if isWhitespace then [] else token;
    } else {
      MidwayAppends(width, tokens, kinds, n, wrapped, currentLine, style);
      Filling.FillingAppends(tokens, width, n, wrapped, currentLine, done, piece);
      currentLine' := currentLine + token;
      piece' := piece + token;
    }
    UpdateTrackerFromText(token, tracker);
  }

  /** Feeds every code of a text to the tracker. */
  method UpdateTrackerFromText(text: Text, tracker: AnsiCodeTracker)
    modifies tracker
    ensures tracker.Active() == Final(old(tracker.Active()), text)
  {
    for i := 0 to |text|
      invariant tracker.Active() == Final(old(tracker.Active()), text[..i])
    {
      assert text[..i + 1] == text[..i] + [text[i]];
      AppendCell(old(tracker.Active()), text[..i], text[i]);
      if text[i].Escape? {
        tracker.Process(text[i].code);
      }
    }
    assert text[..|text|] == text;
  }

  predicate AllTight(lines: seq<Text>) { forall k :: 0 <= k < |lines| ==> Tight(lines[k]) }

  lemma TrimAllIsTight(lines: seq<Text>)
    ensures AllTight(TrimAll(lines))
  {
    forall k | 0 <= k < |lines| ensures Tight(TrimEnd(lines[k])) {
      TrimEndIsTight(lines[k]);
    }
  }

  ghost predicate WrapsTokens(width: nat, line: Text, lines: seq<Text>, tokens: seq<Text>, kinds: seq<Kind>) {
    && Join(tokens) == line && AreTokens(tokens, kinds)
    && Kept(tokens, kinds, width, |tokens|, lines) && Filling.Filled(tokens, width, lines) && AllTight(lines)
  }

  lemma LineEnds(width: nat, tokens: seq<Text>, kinds: seq<Kind>, wrapped: seq<Text>, current: Text, style: Style,
                 done: seq<Text>, piece: Text, lines: seq<Text>)
    requires Midway(width, tokens, kinds, |tokens|, wrapped, current, style)
    requires Filling.Underway(tokens, width, |tokens|, wrapped, current, done, piece)
    requires lines == if current != [] then wrapped + [current] else wrapped
    ensures var result, line := if 0 < |lines| then TrimAll(lines) else [[]], Join(tokens);
            && OnlyWhiteDropped(Inked(DEFAULT_STYLE, line), Page(result))
            && (GlyphsFit(line, width) ==> AllNarrow(result, width))
            && WrapsTokens(width, line, result, tokens, kinds) && ShutButLast(result)
  {
    TrimAllIsTight(lines);
    MidwayEnds(width, tokens, kinds, wrapped, current, style, lines);
    Filling.FillingEnds(tokens, width, wrapped, current, done, piece, lines);
  }

  /** Greedy wrapping of one line. */
  method WrapSingleLine(line: Text, width: nat)
    returns (wrapped: seq<Text>, ghost tokens: seq<Text>, ghost kinds: seq<Kind>)
    requires NoNewLine(line)
    ensures |wrapped| >= 1
    ensures Width(line) <= width ==> wrapped == [line]
    ensures OnlyWhiteDropped(Inked(DEFAULT_STYLE, line), Page(wrapped))
    ensures GlyphsFit(line, width) ==> AllNarrow(wrapped, width)
    ensures ShutButLast(wrapped) && (width < Width(line) ==> WrapsTokens(width, line, wrapped, tokens, kinds))
  {
    tokens, kinds := [], [];
    if line == [] {
      LineAlone(line);
      return [[]], tokens, kinds;
    }
    if Width(line) <= width {
      LineAlone(line);
      return [line], tokens, kinds;
    }
    wrapped := [];
    var tracker := new AnsiCodeTracker();
    var words: seq<Text>;
    words, kinds := SplitIntoTokensWithAnsi(line);
    tokens := words;
    var currentLine: Text := [];
    ghost var done: seq<Text>, piece: Text := [], [];
    LineStarts(line, width, tokens, kinds);
    for n := 0 to |words|
      invariant fresh(tracker)
      invariant Filling.Underway(tokens, width, n, wrapped, currentLine, done, piece)
      invariant Midway(width, tokens, kinds, n, wrapped, currentLine, tracker.Active())
    {
      wrapped, currentLine, done, piece :=
        PlaceToken(width, words, kinds, n, wrapped, currentLine, tracker, done, piece);
    }
    ghost var wrapped' := wrapped;
    if currentLine != [] {
      wrapped := wrapped + [currentLine];
    }
    LineEnds(width, tokens, kinds, wrapped', currentLine, tracker.Active(), done, piece, wrapped);
    wrapped := if 0 < |wrapped| then TrimAll(wrapped) else [[]];
  }

  lemma LineAlone(line: Text)
    ensures OnlyWhiteDropped(Inked(DEFAULT_STYLE, line), Page([line]))
  {
    NothingDropped(Inked(DEFAULT_STYLE, line));
    AppendPiece([], line);
    assert [] + [line] == [line] && Page([line]) == Inked(DEFAULT_STYLE, line);
  }

  lemma LineStarts(line: Text, width: nat, tokens: seq<Text>, kinds: seq<Kind>)
    requires NoNewLine(line) && width < Width(line) && Join(tokens) == line
    requires HasGlyph(line) ==> AreTokens(tokens, kinds)
    ensures AreTokens(tokens, kinds)
    ensures Midway(width, tokens, kinds, 0, [], [], DEFAULT_STYLE) && Filling.Underway(tokens, width, 0, [], [], [], [])
  {
    WidthNeedsGlyph(line);
    MidwayStarts(width, tokens, kinds);
    Filling.UnderwayStarts(tokens, width);
  }

  lemma MidwayStarts(width: nat, tokens: seq<Text>, kinds: seq<Kind>)
    requires AreTokens(tokens, kinds) && NoNewLine(Join(tokens))
    ensures Midway(width, tokens, kinds, 0, [], [], DEFAULT_STYLE)
  {
    assert tokens[..0] == [];
  }

  // ----- wrapping a text with hard line breaks -----

  /** The pieces of a text between its hard line breaks. */
  function HardLines(text: Text): (lines: seq<Text>)
    ensures lines != []
  {
    if text == [] then [[]]
    else
      var before, last := HardLines(text[..|text| - 1]), text[|text| - 1];
      if last.Visible? && last.glyph.kind.NewLine? then before + [[]]
      else before[..|before| - 1] + [before[|before| - 1] + [last]]
  }

  predicate IsBreak(c: Cell) { c.Visible? && c.glyph.kind.NewLine? }

  /** Every glyph other than a line break takes at least one column and at most `width`. */
  predicate TextFits(text: Text, width: nat) {
    forall k :: 0 <= k < |text| && text[k].Visible? && !IsBreak(text[k]) ==> 1 <= text[k].glyph.width <= width
  }

  /** Only the line breaks themselves are lost, and they change no style. */
  lemma {:induction false} HardLinesShow(text: Text)
    ensures OnlyWhiteDropped(Inked(DEFAULT_STYLE, text), Inked(DEFAULT_STYLE, Join(HardLines(text))))
    ensures Final(DEFAULT_STYLE, text) == Final(DEFAULT_STYLE, Join(HardLines(text)))
    decreases |text|
  {
    if text == [] {
    } else {
      var init, last := text[..|text| - 1], text[|text| - 1];
      var before := HardLines(init);
      HardLinesShow(init);
      assert text == init + [last];
      AppendCell(DEFAULT_STYLE, init, last);
      if IsBreak(last) {
        AppendPiece(before, []);
        assert Join(before) + [] == Join(before);
        var ink := Inked(DEFAULT_STYLE, text);
        assert ink[..|ink| - 1] == Inked(DEFAULT_STYLE, init);
      } else {
        LastPieceGrows(before[..|before| - 1], before[|before| - 1], last);
        assert before == before[..|before| - 1] + [before[|before| - 1]];
        AppendCell(DEFAULT_STYLE, Join(before), last);
        var more := if last.Visible? then [Ink(last.glyph, Final(DEFAULT_STYLE, init))] else [];
        NothingDropped(more);
        DroppedConcat(Inked(DEFAULT_STYLE, init), Inked(DEFAULT_STYLE, Join(before)), more, more);
      }
    }
  }

  lemma {:induction false} HardLinesSplit(text: Text, width: nat)
    ensures forall k :: 0 <= k < |HardLines(text)| ==> NoNewLine(HardLines(text)[k])
    ensures TextFits(text, width) ==> forall k :: 0 <= k < |HardLines(text)| ==> GlyphsFit(HardLines(text)[k], width)
    decreases |text|
  {
    if text != [] {
      HardLinesSplit(text[..|text| - 1], width);
    }
  }

  lemma LastPieceGrows(init: seq<Text>, piece: Text, last: Cell)
    ensures Join(init + [piece + [last]]) == Join(init + [piece]) + [last]
  {
    AppendPiece(init, piece + [last]);
    AppendPiece(init, piece);
  }

  function Concat(groups: seq<seq<Text>>): seq<Text> {
    if groups == [] then [] else Concat(groups[..|groups| - 1]) + groups[|groups| - 1]
  }

  /** `group` shows hard line `n` in the style the text before it left behind. */
  ghost predicate ShowsLine(lines: seq<Text>, n: nat, group: seq<Text>)
    requires n < |lines|
  {
    group != [] && OnlyWhiteDropped(Inked(Final(DEFAULT_STYLE, Join(lines[..n])), lines[n]), Page(group))
  }

  /** A line that fits is left alone. One that does not is broken into lines none of which could hold more,
      keeping every token whole that fits a line; none but the last leaves underline or link open, and none
      ends in white space. */
  ghost predicate Wraps(width: nat, line: Text, lines: seq<Text>) {
    && ShutButLast(lines)
    && if Width(line) <= width then lines == [line]
       else exists tokens: seq<Text>, kinds: seq<Kind> :: WrapsTokens(width, line, lines, tokens, kinds)
  }

  /** Hard line `n` behind the codes that re-open the style the text before it left behind. */
  function Prefixed(lines: seq<Text>, n: nat): Text
    requires n < |lines|
  {
    Escapes(ActiveCodes(Final(DEFAULT_STYLE, Join(lines[..n])))) + lines[n]
  }

  ghost predicate AllWrapped(width: nat, lines: seq<Text>, groups: seq<seq<Text>>) {
    |groups| <= |lines| && forall k :: 0 <= k < |groups| ==> Wraps(width, Prefixed(lines, k), groups[k])
  }

  lemma OneMoreFits(groups: seq<seq<Text>>, group: seq<Text>, fits: (nat, seq<Text>) -> bool)
    requires (forall k :: 0 <= k < |groups| ==> fits(k, groups[k])) && fits(|groups|, group)
    ensures forall k :: 0 <= k < |groups + [group]| ==> fits(k, (groups + [group])[k])
  {
  }

  lemma OneMoreWrapped(width: nat, lines: seq<Text>, groups: seq<seq<Text>>, group: seq<Text>)
    requires AllWrapped(width, lines, groups) && |groups| < |lines|
    requires Wraps(width, Prefixed(lines, |groups|), group)
    ensures AllWrapped(width, lines, groups + [group])
  {
    OneMoreFits(groups, group, (k: nat, g: seq<Text>) => k < |lines| && Wraps(width, Prefixed(lines, k), g));
  }

  lemma EmptyIsWrapped(width: nat)
    ensures AllWrapped(width, [[]], [[[]]]) && ShowsLine([[]], 0, [[]])
    ensures var groups: seq<seq<Text>> := [[[]]]; Concat(groups) == [[]]
  {
    var groups: seq<seq<Text>> := [[[]]];
    assert groups[..0] == [];
    LineAlone([]);
    NothingActive(DEFAULT_STYLE);
    var none: seq<Text> := [[]];
    assert none[..0] == [] && Prefixed(none, 0) == [];
  }

  lemma PrefixedLine(style: Style, line: Text, width: nat)
    requires Reachable(style) && NoNewLine(line)
    ensures var prefixed := Escapes(ActiveCodes(style)) + line;
            && NoNewLine(prefixed) && Inked(DEFAULT_STYLE, prefixed) == Inked(style, line)
            && (GlyphsFit(line, width) ==> GlyphsFit(prefixed, width))
  {
    Reopened(style);
    AppendText(DEFAULT_STYLE, Escapes(ActiveCodes(style)), line);
  }

  /** Wraps every hard line on its own, carrying the active style from one to the next. */
  method WrapTextWithAnsi(text: Text, width: int) returns (result: seq<Text>, ghost groups: seq<seq<Text>>)
    ensures result != []
    ensures width <= 0 ==> result == [text]
    ensures OnlyWhiteDropped(Inked(DEFAULT_STYLE, text), Page(result))
    ensures 0 < width && TextFits(text, width) ==> forall k :: 0 <= k < |result| ==> Width(result[k]) <= width
    ensures 0 < width ==>
              && |groups| == |HardLines(text)| && result == Concat(groups)
              && (forall n :: 0 <= n < |groups| ==> ShowsLine(HardLines(text), n, groups[n]))
              && AllWrapped(width, HardLines(text), groups)
  {
    groups := [];
    LineAlone(text);
    if text == [] {
      groups := [[[]]];
      if 0 < width {
        EmptyIsWrapped(width);
      }
      return [[]], groups;
    }
    if width <= 0 {
      return [text], groups;
    }
    var inputLines := HardLines(text);
    HardLinesShow(text);
    HardLinesSplit(text, width);
    result, groups := WrapLines(inputLines, width);
    DroppedTwice(Inked(DEFAULT_STYLE, text), Inked(DEFAULT_STYLE, Join(inputLines)), Page(result));
  }

  /** The lines produced for the first `n` hard lines. */
  ghost predicate LinesShown(lines: seq<Text>, n: nat, result: seq<Text>, groups: seq<seq<Text>>) {
    && n <= |lines| && |groups| == n && result == Concat(groups)
    && (n == 0 <==> result == [])
    && OnlyWhiteDropped(Inked(DEFAULT_STYLE, Join(lines[..n])), Page(result))
    && forall k :: 0 <= k < n ==> ShowsLine(lines, k, groups[k])
  }

  lemma NarrowJoins(a: seq<Text>, b: seq<Text>, width: nat)
    ensures AllNarrow(a, width) && AllNarrow(b, width) ==> AllNarrow(a + b, width)
  {
  }

  method WrapPrefixed(ghost style: Style, prefix: Text, line: Text, width: nat) returns (wrappedLines: seq<Text>)
    requires Reachable(style) && prefix == Escapes(ActiveCodes(style)) && NoNewLine(line)
    ensures wrappedLines != [] && OnlyWhiteDropped(Inked(style, line), Page(wrappedLines))
    ensures GlyphsFit(line, width) ==> AllNarrow(wrappedLines, width)
    ensures Wraps(width, prefix + line, wrappedLines)
  {
    PrefixedLine(style, line, width);
    var lines, tokens, kinds := WrapSingleLine(prefix + line, width);
    wrappedLines := lines;
    assert width < Width(prefix + line) ==> WrapsTokens(width, prefix + line, lines, tokens, kinds);
  }

  /** Wraps hard line `n` behind the codes that re-open the style so far, and moves the tracker past it. */
  method WrapNextLine(inputLines: seq<Text>, n: nat, result: seq<Text>, ghost groups: seq<seq<Text>>, width: nat,
                      tracker: AnsiCodeTracker) returns (wrappedLines: seq<Text>)
    requires n < |inputLines| && NoNewLine(inputLines[n]) && LinesShown(inputLines, n, result, groups)
    requires AllWrapped(width, inputLines, groups)
    requires tracker.Active() == Final(DEFAULT_STYLE, Join(inputLines[..n]))
    modifies tracker
    ensures tracker.Active() == Final(DEFAULT_STYLE, Join(inputLines[..n + 1]))
    ensures LinesShown(inputLines, n + 1, result + wrappedLines, groups + [wrappedLines])
    ensures GlyphsFit(inputLines[n], width) ==> AllNarrow(wrappedLines, width)
    ensures AllWrapped(width, inputLines, groups + [wrappedLines])
  {
    ghost var style := tracker.Active();
    FinalReachable(DEFAULT_STYLE, Join(inputLines[..n]));
    var prefix := if 0 < |result| then Escapes(ActiveCodes(tracker.Active())) else [];
    assert result == [] ==> style == DEFAULT_STYLE by {
      assert inputLines[..0] == [];
    }
    wrappedLines := WrapPrefixed(style, prefix, inputLines[n], width);
    GroupJoins(inputLines, n, result, groups, wrappedLines);
    OneMoreWrapped(width, inputLines, groups, wrappedLines);
    UpdateTrackerFromText(inputLines[n], tracker);
  }

  method WrapLines(inputLines: seq<Text>, width: nat) returns (result: seq<Text>, ghost groups: seq<seq<Text>>)
    requires forall k :: 0 <= k < |inputLines| ==> NoNewLine(inputLines[k])
    ensures LinesShown(inputLines, |inputLines|, result, groups)
    ensures OnlyWhiteDropped(Inked(DEFAULT_STYLE, Join(inputLines)), Page(result))
    ensures (forall k :: 0 <= k < |inputLines| ==> GlyphsFit(inputLines[k], width)) ==> AllNarrow(result, width)
    ensures AllWrapped(width, inputLines, groups)
  {
    result, groups := [], [];
    var tracker := new AnsiCodeTracker();
    ghost var fits := forall k :: 0 <= k < |inputLines| ==> GlyphsFit(inputLines[k], width);
    assert inputLines[..0] == [];
    for n := 0 to |inputLines|
      invariant fresh(tracker)
      invariant tracker.Active() == Final(DEFAULT_STYLE, Join(inputLines[..n]))
      invariant LinesShown(inputLines, n, result, groups) && AllWrapped(width, inputLines, groups)
      invariant fits ==> AllNarrow(result, width)
    {
      var wrappedLines := WrapNextLine(inputLines, n, result, groups, width, tracker);
      NarrowJoins(result, wrappedLines, width);
      groups := groups + [wrappedLines];
      result := result + wrappedLines;
    }
    assert inputLines[..|inputLines|] == inputLines;
  }

  lemma AppendGroup(groups: seq<seq<Text>>, group: seq<Text>)
    ensures Concat(groups + [group]) == Concat(groups) + group
  {
    assert (groups + [group])[..|groups|] == groups;
  }

  lemma GroupJoins(lines: seq<Text>, n: nat, result: seq<Text>, groups: seq<seq<Text>>, group: seq<Text>)
    requires n < |lines| && LinesShown(lines, n, result, groups) && ShowsLine(lines, n, group)
    ensures LinesShown(lines, n + 1, result + group, groups + [group])
    ensures Final(DEFAULT_STYLE, Join(lines[..n + 1])) == Final(Final(DEFAULT_STYLE, Join(lines[..n])), lines[n])
  {
    GroupInk(lines, n, result, group);
    AppendGroup(groups, group);
    forall k | 0 <= k < n + 1 ensures ShowsLine(lines, k, (groups + [group])[k]) {
      if k < n {
        assert (groups + [group])[k] == groups[k];
      }
    }
  }

  lemma GroupInk(lines: seq<Text>, n: nat, result: seq<Text>, group: seq<Text>)
    requires n < |lines| && ShowsLine(lines, n, group)
    requires OnlyWhiteDropped(Inked(DEFAULT_STYLE, Join(lines[..n])), Page(result))
    ensures OnlyWhiteDropped(Inked(DEFAULT_STYLE, Join(lines[..n + 1])), Page(result + group))
    ensures Final(DEFAULT_STYLE, Join(lines[..n + 1])) == Final(Final(DEFAULT_STYLE, Join(lines[..n])), lines[n])
  {
    var read, more := Join(lines[..n]), lines[n];
    ReadOneMore(lines, n);
    AppendText(DEFAULT_STYLE, read, more);
    AppendPieces(result, group);
    var ink, ink' := Inked(DEFAULT_STYLE, read), Inked(Final(DEFAULT_STYLE, read), more);
    DroppedConcat(ink, Page(result), ink', Page(group));
  }
}
