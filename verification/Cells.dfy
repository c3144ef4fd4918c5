/**
 Styled text as a sequence of cells, and what a line of cells looks like on a terminal.
 */
module Cells {
  import opened Styles

  datatype Kind = Space | NewLine | Cjk | Word

  /** One user-perceived character with the columns it takes. */
  datatype Glyph = Glyph(text: string, width: nat, kind: Kind)

  datatype Cell = Escape(code: Code) | Visible(glyph: Glyph)

  type Text = seq<Cell>

  /** A glyph as it appears: with the attributes and hyperlink in force where it stands. */
  datatype Ink = Ink(glyph: Glyph, style: Style)

  predicate IsWhite(g: Glyph) { g.kind.Space? || g.kind.NewLine? }

  function CellWidth(c: Cell): nat { if c.Visible? then c.glyph.width else 0 }

  function Width(t: Text): nat {
    if t == [] then 0 else Width(t[..|t| - 1]) + CellWidth(t[|t| - 1])
  }

  /** The style in force after a text that starts in style `s`. */
  function Final(s: Style, t: Text): Style {
    if t == [] then s
    else
      var before := Final(s, t[..|t| - 1]);
      if t[|t| - 1].Escape? then Feed(before, t[|t| - 1].code) else before
  }

  /** Every glyph of a text that starts in style `s`, with its own style. */
  function Inked(s: Style, t: Text): seq<Ink> {
    if t == [] then []
    else
      var init, last := t[..|t| - 1], t[|t| - 1];
      if last.Visible? then Inked(s, init) + [Ink(last.glyph, Final(s, init))] else Inked(s, init)
  }

  /** A sequence of lines, each interpreted on its own from the default style. */
  function Page(lines: seq<Text>): seq<Ink> {
    if lines == [] then [] else Page(lines[..|lines| - 1]) + Inked(DEFAULT_STYLE, lines[|lines| - 1])
  }

  function Join(pieces: seq<Text>): Text {
    if pieces == [] then [] else Join(pieces[..|pieces| - 1]) + pieces[|pieces| - 1]
  }

  function Escapes(codes: seq<Code>): (t: Text)
    ensures |t| == |codes| && forall k :: 0 <= k < |t| ==> t[k] == Escape(codes[k])
  {
    seq(|codes|, k requires 0 <= k < |codes| => Escape(codes[k]))
  }

  predicate HasGlyph(t: Text) { t != [] && (t[|t| - 1].Visible? || HasGlyph(t[..|t| - 1])) }

  // ----- appending -----

  lemma AppendCell(s: Style, t: Text, c: Cell)
    ensures Width(t + [c]) == Width(t) + CellWidth(c)
    ensures HasGlyph(t + [c]) == (HasGlyph(t) || c.Visible?)
    ensures Final(s, t + [c]) == if c.Escape? then Feed(Final(s, t), c.code) else Final(s, t)
    ensures Inked(s, t + [c]) == Inked(s, t) + if c.Visible? then [Ink(c.glyph, Final(s, t))] else []
  {
    assert (t + [c])[..|t|] == t;
  }

  lemma {:induction false} AppendText(s: Style, a: Text, b: Text)
    ensures Width(a + b) == Width(a) + Width(b)
    ensures HasGlyph(a + b) == (HasGlyph(a) || HasGlyph(b))
    ensures Final(s, a + b) == Final(Final(s, a), b)
    ensures Inked(s, a + b) == Inked(s, a) + Inked(Final(s, a), b)
    decreases |b|
  {
    if b == [] {
      assert a + b == a;
    } else {
      var init, last := b[..|b| - 1], b[|b| - 1];
      AppendText(s, a, init);
      AppendCell(s, a + init, last);
      AppendCell(Final(s, a), init, last);
      assert a + b == a + init + [last] && b == init + [last];
    }
  }

  lemma AppendPiece(pieces: seq<Text>, t: Text)
    ensures Join(pieces + [t]) == Join(pieces) + t
    ensures Page(pieces + [t]) == Page(pieces) + Inked(DEFAULT_STYLE, t)
  {
    assert (pieces + [t])[..|pieces|] == pieces;
  }

  lemma {:induction false} JoinSum(a: seq<Text>, b: seq<Text>)
    ensures Join(a + b) == Join(a) + Join(b)
    decreases |b|
  {
    if b == [] {
      assert a + b == a;
    } else {
      var init, last := b[..|b| - 1], b[|b| - 1];
      JoinSum(a, init);
      assert (a + b)[..|a + b| - 1] == a + init;
      assert Join(a) + (Join(init) + last) == Join(a) + Join(init) + last;
    }
  }

  lemma {:induction false} PageSum(a: seq<Text>, b: seq<Text>)
    ensures Page(a + b) == Page(a) + Page(b)
    decreases |b|
  {
    if b == [] {
      assert a + b == a;
    } else {
      var init, last := b[..|b| - 1], b[|b| - 1];
      PageSum(a, init);
      assert (a + b)[..|a + b| - 1] == a + init;
      assert Page(a) + (Page(init) + Inked(DEFAULT_STYLE, last)) == Page(a) + Page(init) + Inked(DEFAULT_STYLE, last);
    }
  }

  lemma AppendPieces(a: seq<Text>, b: seq<Text>)
    ensures Join(a + b) == Join(a) + Join(b)
    ensures Page(a + b) == Page(a) + Page(b)
  {
    JoinSum(a, b);
    PageSum(a, b);
  }

  lemma {:induction false} EscapesAreInvisible(s: Style, codes: seq<Code>)
    ensures Width(Escapes(codes)) == 0
    ensures Final(s, Escapes(codes)) == FeedAll(s, codes)
    ensures Inked(s, Escapes(codes)) == []
    decreases |codes|
  {
    if codes != [] {
      var init := codes[..|codes| - 1];
      EscapesAreInvisible(s, init);
      assert Escapes(codes)[..|codes| - 1] == Escapes(init);
    }
  }

  /** Opening a line with the active codes puts it in the active style. */
  lemma Reopened(s: Style)
    requires Reachable(s)
    ensures Width(Escapes(ActiveCodes(s))) == 0
    ensures Final(DEFAULT_STYLE, Escapes(ActiveCodes(s))) == s
    ensures Inked(DEFAULT_STYLE, Escapes(ActiveCodes(s))) == []
  {
    EscapesAreInvisible(DEFAULT_STYLE, ActiveCodes(s));
    ReopeningRestoresStyle(s);
  }

  lemma {:induction false} FinalReachable(s: Style, t: Text)
    requires Reachable(s)
    ensures Reachable(Final(s, t))
    decreases |t|
  {
    if t != [] {
      FinalReachable(s, t[..|t| - 1]);
      if t[|t| - 1].Escape? {
        FeedReachable(Final(s, t[..|t| - 1]), t[|t| - 1].code);
      }
    }
  }

  // ----- dropping white space -----

  /** `kept` is `all` with some white space left out and nothing else changed. */
  predicate OnlyWhiteDropped(all: seq<Ink>, kept: seq<Ink>) {
    if all == [] then kept == []
    else
      var last := all[|all| - 1];
      || (kept != [] && kept[|kept| - 1] == last && OnlyWhiteDropped(all[..|all| - 1], kept[..|kept| - 1]))
      || (IsWhite(last.glyph) && OnlyWhiteDropped(all[..|all| - 1], kept))
  }

  lemma {:induction false} NothingDropped(all: seq<Ink>)
    ensures OnlyWhiteDropped(all, all)
    decreases |all|
  {
    if all != [] {
      NothingDropped(all[..|all| - 1]);
    }
  }

  lemma {:induction false} DroppedConcat(a: seq<Ink>, a': seq<Ink>, b: seq<Ink>, b': seq<Ink>)
    requires OnlyWhiteDropped(a, a') && OnlyWhiteDropped(b, b')
    ensures OnlyWhiteDropped(a + b, a' + b')
    decreases |b|
  {
    if b == [] {
      assert a + b == a && a' + b' == a';
    } else {
      var last := b[|b| - 1];
      assert (a + b)[..|a + b| - 1] == a + b[..|b| - 1];
      if b' != [] && b'[|b'| - 1] == last && OnlyWhiteDropped(b[..|b| - 1], b'[..|b'| - 1]) {
        DroppedConcat(a, a', b[..|b| - 1], b'[..|b'| - 1]);
        assert (a' + b')[..|a' + b'| - 1] == a' + b'[..|b'| - 1];
      } else {
        DroppedConcat(a, a', b[..|b| - 1], b');
      }
    }
  }

  lemma {:induction false} DroppedTwice(a: seq<Ink>, b: seq<Ink>, c: seq<Ink>)
    requires OnlyWhiteDropped(a, b) && OnlyWhiteDropped(b, c)
    ensures OnlyWhiteDropped(a, c)
    decreases |a|
  {
    if a != [] {
      var last := a[|a| - 1];
      if b != [] && b[|b| - 1] == last && OnlyWhiteDropped(a[..|a| - 1], b[..|b| - 1]) {
        if c != [] && c[|c| - 1] == last && OnlyWhiteDropped(b[..|b| - 1], c[..|c| - 1]) {
          DroppedTwice(a[..|a| - 1], b[..|b| - 1], c[..|c| - 1]);
        } else {
          DroppedTwice(a[..|a| - 1], b[..|b| - 1], c);
        }
      } else {
        DroppedTwice(a[..|a| - 1], b, c);
      }
    }
  }

  function Solid(ink: seq<Ink>): seq<Ink> {
    if ink == [] then []
    else Solid(ink[..|ink| - 1]) + if IsWhite(ink[|ink| - 1].glyph) then [] else [ink[|ink| - 1]]
  }

  /** Dropping only white space keeps every other glyph, in order and in its own style. */
  lemma {:induction false} SolidInkIsKept(all: seq<Ink>, kept: seq<Ink>)
    requires OnlyWhiteDropped(all, kept)
    ensures Solid(all) == Solid(kept)
    decreases |all|
  {
    if all != [] {
      if kept != [] && kept[|kept| - 1] == all[|all| - 1] && OnlyWhiteDropped(all[..|all| - 1], kept[..|kept| - 1]) {
        SolidInkIsKept(all[..|all| - 1], kept[..|kept| - 1]);
      } else {
        SolidInkIsKept(all[..|all| - 1], kept);
      }
    }
  }

  predicate AllWhite(t: Text) { forall k :: 0 <= k < |t| ==> t[k].Visible? && IsWhite(t[k].glyph) }

  lemma {:induction false} WhiteCanBeDropped(s: Style, t: Text)
    requires AllWhite(t)
    ensures OnlyWhiteDropped(Inked(s, t), [])
    ensures Final(s, t) == s
    decreases |t|
  {
    if t != [] {
      WhiteCanBeDropped(s, t[..|t| - 1]);
      var ink := Inked(s, t);
      assert ink[..|ink| - 1] == Inked(s, t[..|t| - 1]);
    }
  }

  // ----- trimming -----

  function TrimEnd(t: Text): Text {
    if t != [] && t[|t| - 1].Visible? && IsWhite(t[|t| - 1].glyph) then TrimEnd(t[..|t| - 1]) else t
  }

  /** The text does not end in a white glyph. */
  predicate Tight(t: Text) { t == [] || t[|t| - 1].Escape? || !IsWhite(t[|t| - 1].glyph) }

  lemma {:induction false} TrimEndIsTight(t: Text)
    ensures Tight(TrimEnd(t))
    decreases |t|
  {
    if t != [] {
      TrimEndIsTight(t[..|t| - 1]);
    }
  }

  lemma WhiteGlyphDrops(all: seq<Ink>, kept: seq<Ink>, white: Ink)
    requires OnlyWhiteDropped(all, kept) && IsWhite(white.glyph)
    ensures OnlyWhiteDropped(all + [white], kept)
  {
    assert (all + [white])[..|all|] == all;
  }

  lemma {:induction false} TrimEndDropsWhite(t: Text)
    ensures TrimEnd(t) <= t && AllWhite(t[|TrimEnd(t)|..])
    ensures Width(TrimEnd(t)) <= Width(t)
    ensures OnlyWhiteDropped(Inked(DEFAULT_STYLE, t), Inked(DEFAULT_STYLE, TrimEnd(t)))
    decreases |t|
  {
    if t != [] && t[|t| - 1].Visible? && IsWhite(t[|t| - 1].glyph) {
      var init, last := t[..|t| - 1], t[|t| - 1];
      TrimEndDropsWhite(init);
      WhiteGlyphDrops(Inked(DEFAULT_STYLE, init), Inked(DEFAULT_STYLE, TrimEnd(init)),
          Ink(last.glyph, Final(DEFAULT_STYLE, init)));
      assert t == init + [last] && t[|TrimEnd(t)|..] == init[|TrimEnd(t)|..] + [last];
    } else {
      NothingDropped(Inked(DEFAULT_STYLE, t));
    }
  }

  lemma {:induction false} TrimEndOfWhite(t: Text)
    requires AllWhite(t)
    ensures TrimEnd(t) == []
    decreases |t|
  {
    if t != [] {
      TrimEndOfWhite(t[..|t| - 1]);
    }
  }

  function TrimAll(lines: seq<Text>): (r: seq<Text>)
    ensures |r| == |lines|
    ensures forall k :: 0 <= k < |r| ==> r[k] == TrimEnd(lines[k])
  {
    seq(|lines|, k requires 0 <= k < |lines| => TrimEnd(lines[k]))
  }

  lemma {:induction false} TrimAllDropsWhite(lines: seq<Text>)
    ensures OnlyWhiteDropped(Page(lines), Page(TrimAll(lines)))
    decreases |lines|
  {
    if lines != [] {
      var init, last := lines[..|lines| - 1], lines[|lines| - 1];
      TrimAllDropsWhite(init);
      TrimEndDropsWhite(last);
      DroppedConcat(Page(init), Page(TrimAll(init)), Inked(DEFAULT_STYLE, last), Inked(DEFAULT_STYLE, TrimEnd(last)));
      assert TrimAll(lines) == TrimAll(init) + [TrimEnd(last)];
      AppendPiece(TrimAll(init), TrimEnd(last));
    }
  }

  lemma {:induction false} WidthIsAtLeastGlyphs(t: Text)
    requires HasGlyph(t)
    requires forall k :: 0 <= k < |t| && t[k].Visible? ==> 1 <= t[k].glyph.width
    ensures 1 <= Width(t)
    decreases |t|
  {
    if t[|t| - 1].Escape? {
      WidthIsAtLeastGlyphs(t[..|t| - 1]);
    }
  }
}
