/**
 How full the lines of a wrapped text are: every line is a stretch of the text short of white space at
 its end, and is broken only where what comes next would not have fitted.
 */
module Filling {
  import opened Styles
  import opened Cells

  /** `line` shows `piece`, which stands in style `s`, short of white space at its end. */
  ghost predicate Trimmed(s: Style, piece: Text, line: Text) {
    var all, kept := Inked(s, piece), Inked(DEFAULT_STYLE, line);
    kept <= all && forall k :: |kept| <= k < |all| ==> IsWhite(all[k].glyph)
  }

  /** Cell `i` is the first glyph of `word` from cell `from` on. */
  predicate NextGlyph(word: Text, from: nat, i: nat) {
    from <= i < |word| && word[i].Visible? && forall j :: from <= j < i ==> word[j].Escape?
  }

  /** `piece` ends after the cells `before` of the word, and the next glyph does not fit behind it. */
  ghost predicate StopsAtGlyph(word: Text, width: nat, before: Text, piece: Text) {
    before <= word && exists i: nat :: NextGlyph(word, |before|, i) && width < Width(piece) + CellWidth(word[i])
  }

  /** `piece` ends before a token that does not fit behind it. */
  ghost predicate StopsAtToken(tokens: seq<Text>, width: nat, before: Text, piece: Text) {
    exists n :: 0 <= n < |tokens| && Join(tokens[..n]) == before && width < Width(piece) + Width(tokens[n])
  }

  /** Nothing more fits behind `piece`: with the white space at its end it is already too wide, or the next
      token is, or, inside a token that fits no line, the next glyph. */
  ghost predicate Full(tokens: seq<Text>, width: nat, before: Text, piece: Text) {
    || width < Width(piece)
    || StopsAtToken(tokens, width, before, piece)
    || StopsAtGlyph(Join(tokens), width, before, piece)
  }

  /** Each line shows its own piece of the text, and no piece could have been longer. */
  ghost predicate Lined(tokens: seq<Text>, width: nat, pieces: seq<Text>, lines: seq<Text>) {
    && |pieces| == |lines|
    && (pieces == [] ||
        var m := |pieces| - 1;
        && Lined(tokens, width, pieces[..m], lines[..m])
        && Trimmed(Final(DEFAULT_STYLE, Join(pieces[..m])), pieces[m], lines[m])
        && Full(tokens, width, Join(pieces), pieces[m]))
  }

  /** What that says of line `k`. */
  lemma {:induction false} LinedAt(tokens: seq<Text>, width: nat, pieces: seq<Text>, lines: seq<Text>, k: nat)
    requires Lined(tokens, width, pieces, lines) && k < |pieces|
    ensures Trimmed(Final(DEFAULT_STYLE, Join(pieces[..k])), pieces[k], lines[k])
    ensures Full(tokens, width, Join(pieces[..k + 1]), pieces[k])
    decreases |pieces|
  {
    var m := |pieces| - 1;
    if k == m {
      assert pieces[..m + 1] == pieces;
    } else {
      LinedAt(tokens, width, pieces[..m], lines[..m], k);
      assert pieces[..m][..k] == pieces[..k] && pieces[..m][..k + 1] == pieces[..k + 1];
    }
  }

  ghost predicate Filled(tokens: seq<Text>, width: nat, lines: seq<Text>) {
    exists done: seq<Text>, last: Text :: FilledBy(tokens, width, lines, done, last)
  }

  ghost predicate FilledBy(tokens: seq<Text>, width: nat, lines: seq<Text>, done: seq<Text>, last: Text) {
    && lines != [] && Join(done) + last == Join(tokens)
    && Lined(tokens, width, done, lines[..|lines| - 1])
    && Trimmed(Final(DEFAULT_STYLE, Join(done)), last, lines[|lines| - 1])
  }

  // ----- one more line -----

  lemma LinedOneMore(tokens: seq<Text>, width: nat, done: seq<Text>, lines: seq<Text>, piece: Text, line: Text)
    requires Lined(tokens, width, done, lines)
    requires Trimmed(Final(DEFAULT_STYLE, Join(done)), piece, line) && Full(tokens, width, Join(done) + piece, piece)
    ensures Lined(tokens, width, done + [piece], lines + [line])
  {
    AppendPiece(done, piece);
    assert (done + [piece])[..|done|] == done && (lines + [line])[..|lines|] == lines;
  }

  lemma Grouped(a: Text, b: Text, c: Text)
    ensures a + b + c == a + (b + c)
  {
  }

  lemma TrimmedMore(s: Style, piece: Text, line: Text, more: seq<Ink>, piece': Text)
    requires Trimmed(s, piece, line) && Inked(s, piece') == Inked(s, piece) + more
    requires forall k :: 0 <= k < |more| ==> IsWhite(more[k].glyph)
    ensures Trimmed(s, piece', line)
  {
    var all := Inked(s, piece');
    forall k | |Inked(DEFAULT_STYLE, line)| <= k < |all| ensures IsWhite(all[k].glyph) {
      if |Inked(s, piece)| <= k {
        assert all[k] == more[k - |Inked(s, piece)|];
      }
    }
  }

  lemma {:induction false} WhiteInk(s: Style, t: Text)
    requires AllWhite(t)
    ensures forall k :: 0 <= k < |Inked(s, t)| ==> IsWhite(Inked(s, t)[k].glyph)
    decreases |t|
  {
    if t != [] {
      WhiteInk(s, t[..|t| - 1]);
    }
  }

  /** White space behind a piece may be counted to it. */
  lemma TrimmedTakesWhite(s: Style, piece: Text, line: Text, white: Text)
    requires Trimmed(s, piece, line) && AllWhite(white)
    ensures Trimmed(s, piece + white, line)
  {
    AppendText(s, piece, white);
    WhiteInk(Final(s, piece), white);
    TrimmedMore(s, piece, line, Inked(Final(s, piece), white), piece + white);
  }

  /** Trimming a line again drops no more than white space at its end. */
  lemma TrimmedTwice(s: Style, piece: Text, line: Text)
    requires Trimmed(s, piece, line)
    ensures Trimmed(s, piece, TrimEnd(line))
  {
    TrimEndDropsWhite(line);
    var kept := TrimEnd(line);
    var white := line[|kept|..];
    assert line == kept + white;
    AppendText(DEFAULT_STYLE, kept, white);
    WhiteInk(Final(DEFAULT_STYLE, kept), white);
    var all := Inked(s, piece);
    forall k | |Inked(DEFAULT_STYLE, kept)| <= k < |all| ensures IsWhite(all[k].glyph) {
      if k < |Inked(DEFAULT_STYLE, line)| {
        assert all[k] == Inked(DEFAULT_STYLE, line)[k]
               == Inked(Final(DEFAULT_STYLE, kept), white)[k - |Inked(DEFAULT_STYLE, kept)|];
      }
    }
  }

  lemma {:induction false} LinedTrims(tokens: seq<Text>, width: nat, pieces: seq<Text>, lines: seq<Text>)
    requires Lined(tokens, width, pieces, lines)
    ensures Lined(tokens, width, pieces, TrimAll(lines))
    decreases |pieces|
  {
    if pieces != [] {
      var m := |pieces| - 1;
      LinedTrims(tokens, width, pieces[..m], lines[..m]);
      assert TrimAll(lines)[..m] == TrimAll(lines[..m]);
      TrimmedTwice(Final(DEFAULT_STYLE, Join(pieces[..m])), pieces[m], lines[m]);
    }
  }

  // ----- the line being built -----

  function Opening(s: Style): Text { Escapes(ActiveCodes(s)) }

  lemma OpenedLine(s: Style, piece: Text)
    requires Reachable(s)
    ensures Inked(DEFAULT_STYLE, Opening(s) + piece) == Inked(s, piece)
    ensures Width(Opening(s) + piece) == Width(piece)
    ensures Final(DEFAULT_STYLE, Opening(s) + piece) == Final(s, piece)
    ensures Trimmed(s, piece, Opening(s) + piece)
  {
    Reopened(s);
    AppendText(DEFAULT_STYLE, Opening(s), piece);
    assert [] + Inked(s, piece) == Inked(s, piece);
  }

  /** After `n` tokens: the finished pieces, and the one on the line being built, behind its opening codes. */
  ghost predicate Underway(tokens: seq<Text>, width: nat, n: nat, wrapped: seq<Text>, current: Text, done: seq<Text>,
                          piece: Text)
    requires n <= |tokens|
  {
    && Join(done) + piece == Join(tokens[..n]) && Lined(tokens, width, done, wrapped)
    && current == Opening(Final(DEFAULT_STYLE, Join(done))) + piece
  }

  lemma UnderwayStarts(tokens: seq<Text>, width: nat)
    ensures Underway(tokens, width, 0, [], [], [], [])
  {
    NothingActive(DEFAULT_STYLE);
  }

  lemma FillingAppends(tokens: seq<Text>, width: nat, n: nat, wrapped: seq<Text>, current: Text, done: seq<Text>,
                       piece: Text)
    requires n < |tokens| && Underway(tokens, width, n, wrapped, current, done, piece)
    ensures Underway(tokens, width, n + 1, wrapped, current + tokens[n], done, piece + tokens[n])
  {
    NextToken(tokens, n);
    Grouped(Join(done), piece, tokens[n]);
    Grouped(Opening(Final(DEFAULT_STYLE, Join(done))), piece, tokens[n]);
  }

  lemma NextToken(tokens: seq<Text>, n: nat)
    requires n < |tokens|
    ensures Join(tokens[..n + 1]) == Join(tokens[..n]) + tokens[n]
  {
    assert tokens[..n + 1] == tokens[..n] + [tokens[n]];
    AppendPiece(tokens[..n], tokens[n]);
  }

  /** The style a line is opened in is the style of the text before it. */
  lemma StyleBefore(done: seq<Text>)
    ensures Reachable(Final(DEFAULT_STYLE, Join(done)))
  {
    FinalReachable(DEFAULT_STYLE, Join(done));
  }

  /** What the line being built shows, trimmed or not, may be pushed for its piece. */
  lemma PushedIsTrimmed(done: seq<Text>, current: Text, piece: Text, pushed: Text)
    requires current == Opening(Final(DEFAULT_STYLE, Join(done))) + piece
    requires Inked(DEFAULT_STYLE, pushed) == Inked(DEFAULT_STYLE, current)
             || Inked(DEFAULT_STYLE, pushed) == Inked(DEFAULT_STYLE, TrimEnd(current))
    ensures Trimmed(Final(DEFAULT_STYLE, Join(done)), piece, pushed) && Width(current) == Width(piece)
  {
    var s := Final(DEFAULT_STYLE, Join(done));
    StyleBefore(done);
    OpenedLine(s, piece);
    TrimmedTwice(s, piece, current);
  }

  /** The line is full: the next token does not fit behind it. */
  lemma FillingPushes(tokens: seq<Text>, width: nat, n: nat, wrapped: seq<Text>, current: Text, done: seq<Text>,
                      piece: Text, pushed: Text)
    requires n < |tokens| && Underway(tokens, width, n, wrapped, current, done, piece)
    requires width < Width(current) + Width(tokens[n])
    requires Inked(DEFAULT_STYLE, pushed) == Inked(DEFAULT_STYLE, current)
             || Inked(DEFAULT_STYLE, pushed) == Inked(DEFAULT_STYLE, TrimEnd(current))
    ensures Lined(tokens, width, done + [piece], wrapped + [pushed]) && Join(done + [piece]) == Join(tokens[..n])
  {
    PushedIsTrimmed(done, current, piece, pushed);
    assert StopsAtToken(tokens, width, Join(done) + piece, piece);
    LinedOneMore(tokens, width, done, wrapped, piece, pushed);
    AppendPiece(done, piece);
  }

  /** White space that does not fit is counted to the line it would have ended. */
  lemma FillingDrops(tokens: seq<Text>, width: nat, n: nat, wrapped: seq<Text>, current: Text, done: seq<Text>,
                     piece: Text, pushed: Text)
    requires n < |tokens| && Underway(tokens, width, n, wrapped, current, done, piece) && AllWhite(tokens[n])
    requires width < Width(current) + Width(tokens[n])
    requires Inked(DEFAULT_STYLE, pushed) == Inked(DEFAULT_STYLE, TrimEnd(current))
    ensures Lined(tokens, width, done + [piece + tokens[n]], wrapped + [pushed])
    ensures Join(done + [piece + tokens[n]]) == Join(tokens[..n + 1])
  {
    PushedIsTrimmed(done, current, piece, pushed);
    TrimmedTakesWhite(Final(DEFAULT_STYLE, Join(done)), piece, pushed, tokens[n]);
    AppendText(DEFAULT_STYLE, piece, tokens[n]);
    LinedOneMore(tokens, width, done, wrapped, piece + tokens[n], pushed);
    NextToken(tokens, n);
    AppendPiece(done, piece + tokens[n]);
    Grouped(Join(done), piece, tokens[n]);
  }

  /** The token opens the next line, or the next line opens empty behind dropped white space. */
  lemma FillingWraps(tokens: seq<Text>, width: nat, n: nat, wrapped: seq<Text>, current: Text, done: seq<Text>,
                     piece: Text, pushed: Text)
    requires n < |tokens| && Underway(tokens, width, n, wrapped, current, done, piece)
    requires width < Width(current) + Width(tokens[n])
    requires Inked(DEFAULT_STYLE, pushed) == Inked(DEFAULT_STYLE, TrimEnd(current))
    ensures var opening := Opening(Final(DEFAULT_STYLE, Join(tokens[..n])));
            && (AllWhite(tokens[n]) ==>
                 Underway(tokens, width, n + 1, wrapped + [pushed], opening, done + [piece + tokens[n]], []))
            && (!AllWhite(tokens[n]) ==>
                 Underway(tokens, width, n + 1, wrapped + [pushed], opening + tokens[n], done + [piece], tokens[n]))
  {
    NextToken(tokens, n);
    if AllWhite(tokens[n]) {
      FillingDrops(tokens, width, n, wrapped, current, done, piece, pushed);
      AppendText(DEFAULT_STYLE, Join(tokens[..n]), tokens[n]);
      WhiteCanBeDropped(Final(DEFAULT_STYLE, Join(tokens[..n])), tokens[n]);
      NothingBehind(Opening(Final(DEFAULT_STYLE, Join(tokens[..n]))));
      NothingBehind(Join(tokens[..n + 1]));
    } else {
      FillingPushes(tokens, width, n, wrapped, current, done, piece, pushed);
    }
  }

  lemma NothingBehind(t: Text)
    ensures t + [] == t
  {
  }

  // ----- a broken word -----

  /** The word up to cell `i`, broken where its next glyph did not fit. */
  ghost predicate BreakingUp(s: Style, word: Text, width: nat, i: nat, lines: seq<Text>, current: Text, done: seq<Text>,
                           piece: Text)
    requires i <= |word|
  {
    && Join(done) + piece == word[..i] && Broken(s, word, width, done, lines)
    && current == Opening(Final(s, Join(done))) + piece
  }

  ghost predicate Broken(s: Style, word: Text, width: nat, done: seq<Text>, lines: seq<Text>) {
    && |done| == |lines|
    && (done == [] ||
        var m := |done| - 1;
        && Broken(s, word, width, done[..m], lines[..m])
        && Trimmed(Final(s, Join(done[..m])), done[m], lines[m])
        && StopsAtGlyph(word, width, Join(done), done[m]))
  }

  lemma BreakingTakes(s: Style, word: Text, width: nat, i: nat, lines: seq<Text>, current: Text, done: seq<Text>,
                      piece: Text)
    requires i < |word| && BreakingUp(s, word, width, i, lines, current, done, piece)
    ensures BreakingUp(s, word, width, i + 1, lines, current + [word[i]], done, piece + [word[i]])
  {
    assert word[..i + 1] == word[..i] + [word[i]];
    Grouped(Join(done), piece, [word[i]]);
    Grouped(Opening(Final(s, Join(done))), piece, [word[i]]);
  }

  lemma BrokenOneMore(s: Style, word: Text, width: nat, done: seq<Text>, lines: seq<Text>, piece: Text, line: Text)
    requires Broken(s, word, width, done, lines)
    requires Trimmed(Final(s, Join(done)), piece, line) && StopsAtGlyph(word, width, Join(done) + piece, piece)
    ensures Broken(s, word, width, done + [piece], lines + [line])
  {
    AppendPiece(done, piece);
    assert (done + [piece])[..|done|] == done && (lines + [line])[..|lines|] == lines;
  }

  lemma BreakingPushes(s: Style, word: Text, width: nat, i: nat, lines: seq<Text>, current: Text, done: seq<Text>,
                       piece: Text, pushed: Text)
    requires Reachable(s) && i < |word| && word[i].Visible?
    requires BreakingUp(s, word, width, i, lines, current, done, piece)
    requires width < Width(current) + CellWidth(word[i])
    requires Inked(DEFAULT_STYLE, pushed) == Inked(DEFAULT_STYLE, current)
    ensures BreakingUp(s, word, width, i + 1, lines + [pushed], Opening(Final(s, word[..i])) + [word[i]],
                       done + [piece], [word[i]])
  {
    FinalReachable(s, Join(done));
    OpenedLine(Final(s, Join(done)), piece);
    GlyphStops(word, width, i, piece);
    BrokenOneMore(s, word, width, done, lines, piece, pushed);
    AppendPiece(done, piece);
    BreakingOpens(s, word, width, i, lines + [pushed], done + [piece]);
  }

  lemma BreakingOpens(s: Style, word: Text, width: nat, i: nat, lines: seq<Text>, done: seq<Text>)
    requires i < |word| && Join(done) == word[..i] && Broken(s, word, width, done, lines)
    ensures BreakingUp(s, word, width, i + 1, lines, Opening(Final(s, word[..i])) + [word[i]], done, [word[i]])
  {
    assert word[..i + 1] == word[..i] + [word[i]];
  }

  lemma GlyphStops(word: Text, width: nat, i: nat, piece: Text)
    requires i < |word| && word[i].Visible? && width < Width(piece) + CellWidth(word[i])
    ensures StopsAtGlyph(word, width, word[..i], piece)
  {
    assert NextGlyph(word, |word[..i]|, i);
  }

  /** A glyph that stops a piece of a token stops it in the whole text. */
  lemma StopsInText(head: Text, word: Text, rest: Text, width: nat, before: Text, piece: Text)
    requires StopsAtGlyph(word, width, before, piece)
    ensures StopsAtGlyph(head + word + rest, width, head + before, piece)
  {
    var i: nat :| NextGlyph(word, |before|, i) && width < Width(piece) + CellWidth(word[i]);
    var all := head + word + rest;
    assert forall j :: |head| <= j < |head| + |word| ==> all[j] == word[j - |head|];
    assert NextGlyph(all, |head + before|, |head| + i);
  }

  lemma TokenInText(tokens: seq<Text>, n: nat)
    requires n < |tokens|
    ensures Join(tokens[..n]) + tokens[n] + Join(tokens[n + 1..]) == Join(tokens)
  {
    NextToken(tokens, n);
    JoinSum(tokens[..n + 1], tokens[n + 1..]);
    Apart(tokens, n + 1);
  }

  lemma Apart(tokens: seq<Text>, n: nat)
    requires n <= |tokens|
    ensures tokens[..n] + tokens[n..] == tokens
  {
  }

  lemma LastApart(a: seq<Text>, b: seq<Text>)
    requires b != []
    ensures a + b[..|b| - 1] + [b[|b| - 1]] == a + b
  {
  }

  lemma LinedBrokenOne(tokens: seq<Text>, width: nat, n: nat, done: seq<Text>, init: seq<Text>, lines: seq<Text>,
                       piece: Text, line: Text)
    requires n < |tokens| && Lined(tokens, width, done + init, lines) && Join(done) == Join(tokens[..n])
    requires Trimmed(Final(Final(DEFAULT_STYLE, Join(done)), Join(init)), piece, line)
    requires StopsAtGlyph(tokens[n], width, Join(init) + piece, piece)
    ensures Lined(tokens, width, done + init + [piece], lines + [line])
  {
    AppendPieces(done, init);
    AppendText(DEFAULT_STYLE, Join(done), Join(init));
    TokenInText(tokens, n);
    StopsInText(Join(tokens[..n]), tokens[n], Join(tokens[n + 1..]), width, Join(init) + piece, piece);
    Grouped(Join(done), Join(init), piece);
    LinedOneMore(tokens, width, done + init, lines, piece, line);
  }

  /** The finished lines of a broken token follow those of the text before it. */
  lemma {:induction false} LinedBroken(tokens: seq<Text>, width: nat, n: nat, done: seq<Text>, lines: seq<Text>,
                                       pieces: seq<Text>, broken: seq<Text>)
    requires n < |tokens| && Lined(tokens, width, done, lines) && Join(done) == Join(tokens[..n])
    requires Broken(Final(DEFAULT_STYLE, Join(done)), tokens[n], width, pieces, broken)
    ensures Lined(tokens, width, done + pieces, lines + broken)
    decreases |pieces|
  {
    if pieces == [] {
      assert done + pieces == done && lines + broken == lines;
    } else {
      var m := |pieces| - 1;
      LinedBroken(tokens, width, n, done, lines, pieces[..m], broken[..m]);
      LinedBrokenOne(tokens, width, n, done, pieces[..m], lines + broken[..m], pieces[m], broken[m]);
      LastApart(done, pieces);
      LastApart(lines, broken);
    }
  }

  /** A token broken up behind `done`: its last piece is on the line being built. */
  lemma FillingBreaks(tokens: seq<Text>, width: nat, n: nat, done: seq<Text>, lines: seq<Text>, pieces: seq<Text>,
                      broken: seq<Text>, last: Text, current: Text)
    requires n < |tokens| && Lined(tokens, width, done, lines) && Join(done) == Join(tokens[..n])
    requires var s := Final(DEFAULT_STYLE, Join(done));
             BreakingUp(s, tokens[n], width, |tokens[n]|, broken, current, pieces, last)
    ensures Underway(tokens, width, n + 1, lines + broken, current, done + pieces, last)
  {
    LinedBroken(tokens, width, n, done, lines, pieces, broken);
    NextToken(tokens, n);
    AppendPieces(done, pieces);
    AppendText(DEFAULT_STYLE, Join(done), Join(pieces));
    assert tokens[n][..|tokens[n]|] == tokens[n];
    Grouped(Join(done), Join(pieces), last);
  }

  /** At the end the line being built joins the others, unless nothing is on it. */
  lemma FillingEnds(tokens: seq<Text>, width: nat, wrapped: seq<Text>, current: Text, done: seq<Text>, piece: Text,
                    lines: seq<Text>)
    requires Underway(tokens, width, |tokens|, wrapped, current, done, piece)
    requires lines == if current != [] then wrapped + [current] else wrapped
    ensures Filled(tokens, width, if 0 < |lines| then TrimAll(lines) else [[]])
  {
    assert tokens[..|tokens|] == tokens;
    LinedTrims(tokens, width, done, wrapped);
    PushedIsTrimmed(done, current, piece, TrimEnd(current));
    if current != [] {
      CurrentIsLast(tokens, width, wrapped, current, done, piece);
    } else if wrapped == [] {
      PushedIsTrimmed(done, current, piece, []);
      assert FilledBy(tokens, width, [[]], done, piece);
    } else {
      LastIsDone(tokens, width, wrapped, done);
    }
  }

  lemma CurrentIsLast(tokens: seq<Text>, width: nat, wrapped: seq<Text>, current: Text, done: seq<Text>, piece: Text)
    requires Join(done) + piece == Join(tokens) && Lined(tokens, width, done, TrimAll(wrapped))
    requires Trimmed(Final(DEFAULT_STYLE, Join(done)), piece, TrimEnd(current))
    ensures Filled(tokens, width, TrimAll(wrapped + [current]))
  {
    var lines := TrimAll(wrapped + [current]);
    assert lines == TrimAll(wrapped) + [TrimEnd(current)];
    assert lines[..|lines| - 1] == TrimAll(wrapped);
    assert FilledBy(tokens, width, lines, done, piece);
  }

  lemma LastIsDone(tokens: seq<Text>, width: nat, wrapped: seq<Text>, done: seq<Text>)
    requires wrapped != [] && Lined(tokens, width, done, TrimAll(wrapped)) && Join(done) + [] == Join(tokens)
    ensures Filled(tokens, width, TrimAll(wrapped))
  {
    var m := |done| - 1;
    NothingBehind(Join(done));
    assert FilledBy(tokens, width, TrimAll(wrapped), done[..m], done[m]);
  }
}
