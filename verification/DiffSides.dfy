/**
 What a diff says of the two files: which lines each side has, where they stand, and which are partners.
 */
module DiffSides {
  import opened Options
  import opened Strings
  import opened Sublists
  import opened DiffPairing
  import DiffHunks

  // ----- reading a line -----

  /** The mark in front of a line says what became of it, and is no part of it. A line without a mark is context. */
  lemma MarksAreRead(code: string)
    ensures ParsedLine("+" + code) == Line(Add, code)
    ensures ParsedLine("-" + code) == Line(Remove, code)
    ensures ParsedLine(" " + code) == Line(Context, code)
    ensures code == "" || (code[0] != '+' && code[0] != '-' && code[0] != ' ') ==>
              ParsedLine(code) == Line(Context, code)
  {
    assert ("+" + code)[1..] == code && ("-" + code)[1..] == code && (" " + code)[1..] == code;
  }

  // ----- the two sides -----

  function OnOldSide(): Line -> bool { (line: Line) => line.kind != Add }

  function OnNewSide(): Line -> bool { (line: Line) => line.kind != Remove }

  lemma {:induction false} BeforeCounts(lines: seq<Line>, absent: Kind, side: Line -> bool, n: nat)
    requires n <= |lines| && forall line :: side(line) <==> line.kind != absent
    ensures Before(lines, absent, n) == |Kept(lines[..n], side)|
  {
    if n != 0 {
      BeforeCounts(lines, absent, side, n - 1);
      assert lines[..n][..n - 1] == lines[..n - 1];
    }
  }

  /** A removed or unchanged line is shown under its place in the old file, an added one under its place in the new. */
  lemma NumberIsThePlace(lines: seq<Line>, oldStart: nat, newStart: nat, dls: seq<DiffLine>, i: nat)
    requires IsNumbered(lines, oldStart, newStart, dls) && i < |dls|
    ensures lines[i].kind == Add ==> dls[i].lineNum == newStart + |Kept(lines[..i], OnNewSide())|
    ensures lines[i].kind != Add ==> dls[i].lineNum == oldStart + |Kept(lines[..i], OnOldSide())|
  {
    BeforeCounts(lines, Add, OnOldSide(), i);
    BeforeCounts(lines, Remove, OnNewSide(), i);
    assert dls[i].lineNum == NumberAt(lines, oldStart, newStart, i);
  }

  // ----- partners -----

  /** In a change the k-th removed line has the k-th added one's code beside it and the other way round; a line
      without a counterpart has none. */
  lemma ChangeIsPaired(lines: seq<Line>, start: nat, middle: nat, end: nat, k: nat)
    requires IsChange(lines, start, middle, end)
    ensures start + k < middle ==>
              PairedAt(lines, start + k).pairedCode
              == if middle + k < end then Some(lines[middle + k].code) else None
    ensures middle + k < end ==>
              PairedAt(lines, middle + k).pairedCode
              == if start + k < middle then Some(lines[start + k].code) else None
  {
    if start + k < middle {
      RunsOfChange(lines, start, middle, end, k);
    }
    if middle + k < end {
      RunStartIs(lines, middle, middle + k);
      RunStartIs(lines, start, middle - 1);
    }
  }

  /** An unchanged line has no partner, and neither has an added one whose run follows no removed line. */
  lemma OthersAreNotPaired(lines: seq<Line>, start: nat, i: nat)
    requires start <= i < |lines|
    ensures lines[i].kind == Context ==> PairedAt(lines, i).pairedCode == None
    ensures (forall k :: start <= k <= i ==> lines[k].kind == Add)
            && (start == 0 || lines[start - 1].kind == Context) ==>
              PairedAt(lines, i).pairedCode == None
  {
    if (forall k :: start <= k <= i ==> lines[k].kind == Add) && (start == 0 || lines[start - 1].kind == Context) {
      RunStartIs(lines, start, i);
    }
  }

  // ----- headers -----

  /** A range as it may be written: a count of one may be left out. */
  function RangeText(start: nat, count: nat, short: bool): string {
    if short && count == 1 then DecimalText(start) else DecimalText(start) + ("," + DecimalText(count))
  }

  function ShortHeaderText(h: DiffHunks.Hunk, short: bool, rest: string): string {
    "@@ -" + (RangeText(h.oldStart, h.oldLines, short) + (" +" + (RangeText(h.newStart, h.newLines, short)
                                                                  + (" @@" + rest))))
  }

  lemma Regrouped(a: string, b: string, c: string, rest: string)
    ensures a + (b + c) + rest == a + (b + (c + rest))
  {
  }

  lemma RangeIsRead(start: nat, count: nat, short: bool, rest: string)
    requires rest != "" && rest[0] == ' '
    ensures DiffHunks.TakeRange(RangeText(start, count, short) + rest) == Some((start, count, rest))
  {
    if short && count == 1 {
      DiffHunks.NumberReadsBack(start, rest);
    } else {
      DiffHunks.RangeReadsBack(start, count, rest);
      Regrouped(DecimalText(start), ",", DecimalText(count), rest);
    }
  }

  /** A header is read with counts left out where they are one, and with anything behind it. */
  lemma ShortHeaderReadsBack(h: DiffHunks.Hunk, short: bool, rest: string)
    ensures DiffHunks.KindOf(ShortHeaderText(h, short, rest)) == DiffHunks.HeaderLine(h.(lines := []))
  {
    var newRest := " @@" + rest;
    var newPart := RangeText(h.newStart, h.newLines, short) + newRest;
    var oldRest := " +" + newPart;
    RangeIsRead(h.newStart, h.newLines, short, newRest);
    RangeIsRead(h.oldStart, h.oldLines, short, oldRest);
    HeaderIsRead(h, RangeText(h.oldStart, h.oldLines, short) + oldRest, newPart, newRest);
  }

  lemma HeaderIsRead(h: DiffHunks.Hunk, oldPart: string, newPart: string, newRest: string)
    requires DiffHunks.TakeRange(oldPart) == Some((h.oldStart, h.oldLines, " +" + newPart))
    requires DiffHunks.TakeRange(newPart) == Some((h.newStart, h.newLines, newRest)) && " @@" <= newRest
    ensures DiffHunks.KindOf("@@ -" + oldPart) == DiffHunks.HeaderLine(h.(lines := []))
  {
    DiffHunks.AfterPrefix("@@ -", oldPart);
    DiffHunks.AfterPrefix(" +", newPart);
  }

  /** A line that starts a file of the diff ends the hunk before it. */
  lemma FileLinesAreSeen(rest: string)
    ensures DiffHunks.KindOf("diff " + rest).FileLine? && DiffHunks.KindOf("Index:" + rest).FileLine?
  {
    assert ("diff " + rest)[0] != "@@ -"[0] && ("Index:" + rest)[0] != "@@ -"[0];
  }
}
