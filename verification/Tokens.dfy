/**
 Splitting a line into word, space and CJK tokens, with every escape code attached to the next
 visible glyph.
 */
module Tokens {
  import opened Styles
  import opened Cells

  /** The kind of token a glyph belongs to. */
  function TokenKind(g: Glyph): Kind { if g.kind.Space? || g.kind.Cjk? then g.kind else Word }

  predicate OnlyEscapes(t: Text) { forall k :: 0 <= k < |t| ==> t[k].Escape? }

  predicate OfKind(t: Text, kind: Kind) { forall k :: 0 <= k < |t| && t[k].Visible? ==> TokenKind(t[k].glyph) == kind }

  /** A run of spaces, a run of word glyphs, or one CJK glyph, with escape codes in between. */
  ghost predicate IsToken(t: Text, kind: Kind) {
    && HasGlyph(t)
    && OfKind(t, kind)
    && (kind.Cjk? ==> forall i, j :: 0 <= i < |t| && 0 <= j < |t| && t[i].Visible? && t[j].Visible? ==> i == j)
  }

  /** Tokens are maximal: two neighbours of one kind can only be CJK glyphs. */
  ghost predicate Maximal(kinds: seq<Kind>) {
    forall j :: 0 <= j && j + 1 < |kinds| ==> kinds[j] != kinds[j + 1] || kinds[j].Cjk?
  }

  ghost predicate AreTokens(tokens: seq<Text>, kinds: seq<Kind>) {
    && |kinds| == |tokens|
    && (forall j :: 0 <= j < |tokens| ==> IsToken(tokens[j], kinds[j]))
    && Maximal(kinds)
  }

  lemma {:induction false} EscapesHoldNoGlyph(t: Text)
    requires OnlyEscapes(t)
    ensures !HasGlyph(t)
    decreases |t|
  {
    if t != [] {
      EscapesHoldNoGlyph(t[..|t| - 1]);
    }
  }

  lemma TokenTakesEscapes(t: Text, kind: Kind, codes: Text)
    requires IsToken(t, kind) && OnlyEscapes(codes)
    ensures IsToken(t + codes, kind)
  {
    AppendText(DEFAULT_STYLE, t, codes);
  }

  lemma TokenTakesGlyph(t: Text, kind: Kind, codes: Text, glyph: Glyph)
    requires OnlyEscapes(codes) && TokenKind(glyph) == kind
    requires t == [] || (IsToken(t, kind) && !kind.Cjk?)
    ensures IsToken(t + codes + [Visible(glyph)], kind)
  {
    AppendCell(DEFAULT_STYLE, t + codes, Visible(glyph));
  }

  /** What has been read so far: finished tokens, the token being built, and codes waiting for a glyph. */
  ghost predicate Scanning(read: Text, tokens: seq<Text>, kinds: seq<Kind>, current: Text, kind: Kind, pending: Text) {
    && Join(tokens) + current + pending == read
    && AreTokens(tokens, kinds) && OnlyEscapes(pending)
    && (if current == [] then kinds == [] || kinds[|kinds| - 1].Cjk?
        else IsToken(current, kind) && !kind.Cjk? && (kinds == [] || kinds[|kinds| - 1] != kind))
    && (HasGlyph(read) ==> current != [] || tokens != [])
  }

  lemma TokensTake(tokens: seq<Text>, kinds: seq<Kind>, t: Text, kind: Kind)
    requires AreTokens(tokens, kinds) && IsToken(t, kind)
    requires kinds != [] ==> kind.Cjk? || kinds[|kinds| - 1] != kind
    ensures AreTokens(tokens + [t], kinds + [kind]) && Join(tokens + [t]) == Join(tokens) + t
  {
    AppendPiece(tokens, t);
  }

  lemma ScanEscape(read: Text, tokens: seq<Text>, kinds: seq<Kind>, current: Text, kind: Kind, pending: Text, c: Cell)
    requires Scanning(read, tokens, kinds, current, kind, pending) && c.Escape?
    ensures Scanning(read + [c], tokens, kinds, current, kind, pending + [c])
  {
    AppendCell(DEFAULT_STYLE, read, c);
    assert Join(tokens) + current + (pending + [c]) == Join(tokens) + current + pending + [c];
  }

  /** Before a glyph of kind `next` is taken: the token being built is finished unless it has that kind. */
  ghost predicate Flushed(read: Text, tokens: seq<Text>, kinds: seq<Kind>, current: Text, pending: Text, next: Kind) {
    && Join(tokens) + current + pending == read
    && AreTokens(tokens, kinds) && OnlyEscapes(pending)
    && (kinds == [] || next.Cjk? || kinds[|kinds| - 1] != next)
    && (current == [] || (IsToken(current, next) && !next.Cjk?))
  }

  lemma ScanFlush(read: Text, tokens: seq<Text>, kinds: seq<Kind>, current: Text, kind: Kind, pending: Text, next: Kind)
    requires Scanning(read, tokens, kinds, current, kind, pending) && (next.Space? || next.Word? || next.Cjk?)
    ensures if current != [] && (next.Cjk? || kind != next)
            then Flushed(read, tokens + [current], kinds + [kind], [], pending, next)
            else Flushed(read, tokens, kinds, current, pending, next)
  {
    if current != [] && (next.Cjk? || kind != next) {
      TokensTake(tokens, kinds, current, kind);
      assert Join(tokens) + current + [] + pending == read;
    }
  }

  lemma ScanCjk(read: Text, tokens: seq<Text>, kinds: seq<Kind>, pending: Text, glyph: Glyph, kind: Kind)
    requires Flushed(read, tokens, kinds, [], pending, Cjk) && TokenKind(glyph).Cjk?
    ensures Scanning(read + [Visible(glyph)], tokens + [pending + [Visible(glyph)]], kinds + [Cjk], [], kind, [])
  {
    var token := pending + [Visible(glyph)];
    TokenTakesGlyph([], Cjk, pending, glyph);
    assert [] + pending + [Visible(glyph)] == token;
    TokensTake(tokens, kinds, token, Cjk);
    assert Join(tokens) + token + [] + [] == Join(tokens) + [] + pending + [Visible(glyph)];
  }

  lemma ScanRun(read: Text, tokens: seq<Text>, kinds: seq<Kind>, current: Text, pending: Text, glyph: Glyph)
    requires Flushed(read, tokens, kinds, current, pending, TokenKind(glyph)) && !TokenKind(glyph).Cjk?
    ensures Scanning(read + [Visible(glyph)], tokens, kinds, current + pending + [Visible(glyph)], TokenKind(glyph), [])
  {
    TokenTakesGlyph(current, TokenKind(glyph), pending, glyph);
    assert Join(tokens) + (current + pending + [Visible(glyph)]) + []
           == Join(tokens) + current + pending + [Visible(glyph)];
  }

  /** Codes left over at the end join the last token, or make one of their own on a line without glyphs. */
  function LastTokens(tokens: seq<Text>, current: Text, pending: Text): seq<Text> {
    if current + pending == [] then tokens
    else if current != [] || tokens == [] then tokens + [current + pending]
    else tokens[..|tokens| - 1] + [tokens[|tokens| - 1] + pending]
  }

  lemma ScanEnds(line: Text, tokens: seq<Text>, kinds: seq<Kind>, current: Text, kind: Kind, pending: Text)
    requires Scanning(line, tokens, kinds, current, kind, pending)
    ensures Join(LastTokens(tokens, current, pending)) == line
    ensures HasGlyph(line) ==>
              AreTokens(LastTokens(tokens, current, pending), if current == [] then kinds else kinds + [kind])
  {
    EscapesHoldNoGlyph(pending);
    if current + pending == [] {
      assert Join(tokens) == line;
    } else if current != [] || tokens == [] {
      AppendPiece(tokens, current + pending);
      assert Join(tokens) + (current + pending) == line;
      if current != [] {
        TokenTakesEscapes(current, kind, pending);
        TokensTake(tokens, kinds, current + pending, kind);
      }
    } else {
      var init, last := tokens[..|tokens| - 1], tokens[|tokens| - 1];
      assert tokens == init + [last];
      AppendPiece(init, last);
      AppendPiece(init, last + pending);
      assert Join(init) + (last + pending) == line;
      TokenTakesEscapes(last, kinds[|kinds| - 1], pending);
    }
  }

  method TakeGlyph(ghost read: Text, tokens: seq<Text>, ghost kinds: seq<Kind>, current: Text, currentKind: Kind,
                   pendingAnsi: Text, glyph: Glyph)
    returns (tokens': seq<Text>, ghost kinds': seq<Kind>, current': Text, currentKind': Kind)
    requires Scanning(read, tokens, kinds, current, currentKind, pendingAnsi)
    ensures Scanning(read + [Visible(glyph)], tokens', kinds', current', currentKind', [])
  {
    tokens', kinds', current', currentKind' := tokens, kinds, current, currentKind;
    var kind := TokenKind(glyph);
    ScanFlush(read, tokens, kinds, current, currentKind, pendingAnsi, kind);
    if current != [] && (kind.Cjk? || currentKind != kind) {
      tokens', kinds', current' := tokens + [current], kinds + [currentKind], [];
    }
    if kind.Cjk? {
      ScanCjk(read, tokens', kinds', pendingAnsi, glyph, currentKind);
      tokens', kinds' := tokens' + [pendingAnsi + [Visible(glyph)]], kinds' + [kind];
    } else {
      ScanRun(read, tokens', kinds', current', pendingAnsi, glyph);
      current', currentKind' := current' + pendingAnsi + [Visible(glyph)], kind;
    }
  }

  method SplitIntoTokensWithAnsi(line: Text) returns (tokens: seq<Text>, ghost kinds: seq<Kind>)
    ensures Join(tokens) == line
    ensures HasGlyph(line) ==> AreTokens(tokens, kinds)
  {
    tokens, kinds := [], [];
    var current: Text, pendingAnsi: Text, currentKind := [], [], Word;
    for i := 0 to |line|
      invariant Scanning(line[..i], tokens, kinds, current, currentKind, pendingAnsi)
    {
      assert line[..i + 1] == line[..i] + [line[i]];
      if line[i].Escape? {
        ScanEscape(line[..i], tokens, kinds, current, currentKind, pendingAnsi, line[i]);
        pendingAnsi := pendingAnsi + [line[i]];
      } else {
        tokens, kinds, current, currentKind :=
          TakeGlyph(line[..i], tokens, kinds, current, currentKind, pendingAnsi, line[i].glyph);
        pendingAnsi := [];
      }
    }
    assert line[..|line|] == line;
    ScanEnds(line, tokens, kinds, current, currentKind, pendingAnsi);
    kinds := if current == [] then kinds else kinds + [currentKind];
    if pendingAnsi != [] {
      if current != [] {
        current := current + pendingAnsi;
      } else if 0 < |tokens| {
        tokens := tokens[..|tokens| - 1] + [tokens[|tokens| - 1] + pendingAnsi];
      } else {
        current := pendingAnsi;
      }
    }
    if current != [] {
      tokens := tokens + [current];
    }
  }
}
