/**
 The other cuts that respect escape codes: slicing by glyphs, truncating to a width, and one
 entry per terminal column.
 */
module Cuts {
  import opened Styles
  import opened Cells
  import opened Tokens

  // ----- cutting a text short -----

  function Closers(s: Style): seq<Code> { LineEndReset(s) + if ActiveCodes(s) == [] then [] else [Sgr([Plain(0)])] }

  lemma ClosersFeed(s: Style)
    requires Reachable(s)
    ensures FeedAll(s, Closers(s)) == DEFAULT_STYLE
  {
    NothingActive(s);
    ClosingEndsInDefault(s);
    if ActiveCodes(s) != [] {
      FeedOne(s, LineEndReset(s), Sgr([Plain(0)]));
    } else {
      assert Closers(s) == [];
    }
  }

  lemma ClosersClose(text: Text)
    ensures var closed := text + Escapes(Closers(Final(DEFAULT_STYLE, text)));
            Inked(DEFAULT_STYLE, closed) == Inked(DEFAULT_STYLE, text) && Final(DEFAULT_STYLE, closed) == DEFAULT_STYLE
            && Width(closed) == Width(text)
  {
    var s := Final(DEFAULT_STYLE, text);
    FinalReachable(DEFAULT_STYLE, text);
    ClosersFeed(s);
    AppendText(DEFAULT_STYLE, text, Escapes(Closers(s)));
    EscapesAreInvisible(s, Closers(s));
  }

  lemma HeadIsShown(text: Text, i: nat)
    requires i <= |text|
    ensures Inked(DEFAULT_STYLE, text[..i]) <= Inked(DEFAULT_STYLE, text)
  {
    var head, tail := text[..i], text[i..];
    assert text == head + tail;
    AppendText(DEFAULT_STYLE, head, tail);
  }

  function HeadLength(glyphs: nat, max: int): nat { if max <= 0 then 0 else if glyphs < max then glyphs else max }

  /** A head that is the whole text or shows `max` glyphs shows the first `max` of them. */
  lemma HeadHolds(text: Text, i: nat, max: nat)
    requires i <= |text| && |Inked(DEFAULT_STYLE, text[..i])| <= max
    requires i == |text| || |Inked(DEFAULT_STYLE, text[..i])| == max
    ensures Inked(DEFAULT_STYLE, text[..i])
            == Inked(DEFAULT_STYLE, text)[..HeadLength(|Inked(DEFAULT_STYLE, text)|, max)]
  {
    HeadIsShown(text, i);
    if i == |text| {
      assert text[..i] == text;
    }
  }

  /** Keeps the first glyphs of a text and closes whatever they left open. */
  method SliceVisibleAnsi(text: Text, maxGraphemes: int) returns (out: Text)
    ensures Inked(DEFAULT_STYLE, out)
            == Inked(DEFAULT_STYLE, text)[..HeadLength(|Inked(DEFAULT_STYLE, text)|, maxGraphemes)]
    ensures Final(DEFAULT_STYLE, out) == DEFAULT_STYLE
  {
    if text == [] || maxGraphemes <= 0 {
      return [];
    }
    var tracker := new AnsiCodeTracker();
    var count, i := 0, 0;
    out := [];
    while i < |text| && count < maxGraphemes
      invariant 0 <= i <= |text| && out == text[..i]
      invariant count == |Inked(DEFAULT_STYLE, text[..i])| <= maxGraphemes
      invariant fresh(tracker) && tracker.Active() == Final(DEFAULT_STYLE, text[..i])
    {
      assert text[..i + 1] == text[..i] + [text[i]];
      AppendCell(DEFAULT_STYLE, text[..i], text[i]);
      if text[i].Escape? {
        tracker.Process(text[i].code);
      } else {
        count := count + 1;
      }
      out := out + [text[i]];
      i := i + 1;
    }
    HeadHolds(text, i, maxGraphemes);
    ClosersClose(out);
    out := out + Escapes(Closers(tracker.Active()));
  }

  const ELLIPSIS := Glyph("\U{2026}", 1, Word)

  /** Keeps the longest head that leaves room for the ellipsis, closes it, and marks the cut. */
  method TruncateAnsiToWidth(text: Text, width: int) returns (out: Text, ghost cut: nat)
    ensures width <= 0 ==> out == []
    ensures 0 < width && Width(text) <= width ==> out == text
    ensures 0 < width ==> Width(out) <= width
    ensures width == 1 < Width(text) ==> out == [Visible(ELLIPSIS)]
    ensures 1 < width < Width(text) ==>
              && cut < |text| && text[cut].Visible?
              && Width(text[..cut]) <= width - 1 < Width(text[..cut + 1])
              && Inked(DEFAULT_STYLE, out) == Inked(DEFAULT_STYLE, text[..cut]) + [Ink(ELLIPSIS, DEFAULT_STYLE)]
              && Final(DEFAULT_STYLE, out) == DEFAULT_STYLE
  {
    cut := 0;
    if width <= 0 || text == [] {
      return [], cut;
    }
    if Width(text) <= width {
      return text, cut;
    }
    AppendCell(DEFAULT_STYLE, [], Visible(ELLIPSIS));
    assert [] + [Visible(ELLIPSIS)] == [Visible(ELLIPSIS)];
    if width <= 1 {
      return [Visible(ELLIPSIS)], cut;
    }
    var kept: Text;
    kept, out := TakeWidth(text, width - 1);
    cut := |kept|;
    assert kept == text[..cut];
    ClosersClose(kept);
    AppendCell(DEFAULT_STYLE, out, Visible(ELLIPSIS));
    out := out + [Visible(ELLIPSIS)];
  }

  /** The cells before the first glyph that would pass `limit`, and the same cells closed. */
  method TakeWidth(text: Text, limit: nat) returns (kept: Text, closed: Text)
    requires limit < Width(text)
    ensures kept < text && text[|kept|].Visible? && Width(kept) <= limit < Width(text[..|kept| + 1])
    ensures closed == kept + Escapes(Closers(Final(DEFAULT_STYLE, kept)))
  {
    var tracker := new AnsiCodeTracker();
    var used, i, stop := 0, 0, false;
    while i < |text| && !stop
      invariant 0 <= i <= |text| && used == Width(text[..i]) <= limit
      invariant fresh(tracker) && tracker.Active() == Final(DEFAULT_STYLE, text[..i])
      invariant stop ==> i < |text| && text[i].Visible? && limit < used + text[i].glyph.width
      decreases |text| - i, !stop
    {
      assert text[..i + 1] == text[..i] + [text[i]];
      AppendCell(DEFAULT_STYLE, text[..i], text[i]);
      if text[i].Escape? {
        tracker.Process(text[i].code);
        i := i + 1;
      } else if limit < used + text[i].glyph.width {
        stop := true;
      } else {
        used := used + text[i].glyph.width;
        i := i + 1;
      }
    }
    StopsInside(text, limit, i);
    kept := text[..i];
    closed := kept + Escapes(Closers(tracker.Active()));
  }

  lemma StopsInside(text: Text, limit: nat, i: nat)
    requires i <= |text| && Width(text[..i]) <= limit < Width(text)
    requires i < |text| ==> text[i].Visible? && limit < Width(text[..i]) + text[i].glyph.width
    ensures i < |text| && limit < Width(text[..i + 1]) && text[..i] < text
  {
    assert text[..|text|] == text;
    assert text[..i + 1] == text[..i] + [text[i]];
    AppendCell(DEFAULT_STYLE, text[..i], text[i]);
  }

  // ----- one entry per column -----

  /** An entry that shows a glyph stands at the column where that glyph starts. */
  ghost predicate Aligned(cells: seq<Text>) {
    forall k :: 0 <= k < |cells| && HasGlyph(cells[k]) ==> Width(Join(cells[..k])) == k
  }

  lemma AlignedGrows(cells: seq<Text>, piece: Text)
    requires Aligned(cells) && (HasGlyph(piece) ==> |cells| == Width(Join(cells)))
    ensures Aligned(cells + [piece]) && Join(cells + [piece]) == Join(cells) + piece
  {
    AppendPiece(cells, piece);
    forall k | 0 <= k < |cells + [piece]| && HasGlyph((cells + [piece])[k])
      ensures Width(Join((cells + [piece])[..k])) == k
    {
      assert (cells + [piece])[..k] == cells[..k];
      assert cells[..|cells|] == cells;
    }
  }

  /** One glyph with the codes before it, followed by a filler for every further column it takes. */
  method PlaceCell(cells: seq<Text>, pendingCodes: Text, cell: Cell) returns (cells': seq<Text>)
    requires OnlyEscapes(pendingCodes) && cell.Visible?
    ensures Join(cells') == Join(cells) + pendingCodes + [cell] && cells' != []
    ensures Aligned(cells) && |cells| == Width(Join(cells)) && 1 <= cell.glyph.width ==>
              Aligned(cells') && |cells'| == Width(Join(cells'))
  {
    ghost var aligned := Aligned(cells) && |cells| == Width(Join(cells)) && 1 <= cell.glyph.width;
    var piece := pendingCodes + [cell];
    AppendPiece(cells, piece);
    if aligned {
      AlignedGrows(cells, piece);
      AppendText(DEFAULT_STYLE, Join(cells), piece);
      AppendCell(DEFAULT_STYLE, pendingCodes, cell);
      EscapesAreNarrow(pendingCodes);
    }
    cells' := cells + [piece];
    assert Join(cells') == Join(cells) + pendingCodes + [cell];
    var pad := 1;
    while pad < cell.glyph.width
      invariant 1 <= pad && |cells'| == |cells| + pad && (1 <= cell.glyph.width ==> pad <= cell.glyph.width)
      invariant Join(cells') == Join(cells) + pendingCodes + [cell]
      invariant aligned ==> Aligned(cells')
    {
      AppendPiece(cells', []);
      if aligned {
        AlignedGrows(cells', []);
      }
      cells' := cells' + [[]];
      pad := pad + 1;
    }
  }

  lemma {:induction false} EscapesAreNarrow(t: Text)
    requires OnlyEscapes(t)
    ensures Width(t) == 0
    decreases |t|
  {
    if t != [] {
      EscapesAreNarrow(t[..|t| - 1]);
    }
  }

  lemma LastCellTakes(cells: seq<Text>, codes: Text)
    requires cells != [] && OnlyEscapes(codes)
    ensures var cells' := cells[..|cells| - 1] + [cells[|cells| - 1] + codes];
            && Join(cells') == Join(cells) + codes && Width(Join(cells')) == Width(Join(cells))
            && (Aligned(cells) ==> Aligned(cells'))
  {
    var init, last := cells[..|cells| - 1], cells[|cells| - 1];
    assert cells == init + [last];
    AppendPiece(init, last);
    AppendPiece(init, last + codes);
    AppendText(DEFAULT_STYLE, Join(cells), codes);
    EscapesAreNarrow(codes);
    EscapesHoldNoGlyph(codes);
    AppendText(DEFAULT_STYLE, last, codes);
    var cells' := init + [last + codes];
    if Aligned(cells) {
      forall k | 0 <= k < |cells'| && HasGlyph(cells'[k]) ensures Width(Join(cells'[..k])) == k {
        assert cells'[..k] == cells[..k];
        assert HasGlyph(cells[k]);
      }
    }
  }

  method SplitAnsiIntoCells(text: Text) returns (cells: seq<Text>)
    ensures Join(cells) == text
    ensures !HasGlyph(text) ==> |cells| == if text == [] then 0 else 1
    ensures HasGlyph(text) && (forall k :: 0 <= k < |text| && text[k].Visible? ==> 1 <= text[k].glyph.width) ==>
              |cells| == Width(text) && Aligned(cells)
  {
    cells := [];
    var pendingCodes: Text := [];
    ghost var wide := forall k :: 0 <= k < |text| && text[k].Visible? ==> 1 <= text[k].glyph.width;
    for i := 0 to |text|
      invariant Join(cells) + pendingCodes == text[..i]
      invariant OnlyEscapes(pendingCodes)
      invariant HasGlyph(text[..i]) <==> cells != []
      invariant wide ==> |cells| == Width(Join(cells)) && Aligned(cells)
    {
      assert text[..i + 1] == text[..i] + [text[i]];
      AppendCell(DEFAULT_STYLE, text[..i], text[i]);
      if text[i].Escape? {
        pendingCodes := pendingCodes + [text[i]];
      } else {
        cells := PlaceCell(cells, pendingCodes, text[i]);
        pendingCodes := [];
      }
    }
    assert text[..|text|] == text;
    if pendingCodes != [] {
      if 0 < |cells| {
        ghost var before := cells;
        LastCellTakes(cells, pendingCodes);
        cells := cells[..|cells| - 1] + [cells[|cells| - 1] + pendingCodes];
      } else {
        AppendPiece([], pendingCodes);
        cells := cells + [pendingCodes];
      }
    }
  }
}
