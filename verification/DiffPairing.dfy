/**
 Diff lines: pairing removed with added lines, and numbering them.
 */
module DiffPairing {
  import opened Options
  import opened Strings

  datatype Kind = Add | Remove | Context

  datatype Line = Line(kind: Kind, code: string)

  datatype PairedLine = PairedLine(line: Line, pairedCode: Option<string>)

  datatype DiffLine = DiffLine(line: Line, lineNum: nat, pairedCode: Option<string>)

  // ----- runs of one kind -----

  /** Where the run of lines of one kind around `i` starts. */
  function RunStart(lines: seq<Line>, i: nat): (s: nat)
    requires i < |lines|
    ensures s <= i && forall k :: s <= k <= i ==> lines[k].kind == lines[i].kind
    ensures 0 < s ==> lines[s - 1].kind != lines[i].kind
  {
    if 0 < i && lines[i - 1].kind == lines[i].kind then RunStart(lines, i - 1) else i
  }

  /** Where it ends. */
  function RunEnd(lines: seq<Line>, i: nat): (e: nat)
    requires i < |lines|
    ensures i < e <= |lines| && forall k :: i <= k < e ==> lines[k].kind == lines[i].kind
    ensures e < |lines| ==> lines[e].kind != lines[i].kind
    decreases |lines| - i
  {
    if i + 1 < |lines| && lines[i + 1].kind == lines[i].kind then RunEnd(lines, i + 1) else i + 1
  }

  /** The k-th removed line of a run is partner to the k-th added line of the run that follows at once. */
  function Partner(lines: seq<Line>, i: nat): (j: Option<nat>)
    requires i < |lines|
    ensures j.Some? ==> j.value < |lines|
  {
    var start := RunStart(lines, i);
    match lines[i].kind
    case Context => None
    case Remove =>
      var adds := RunEnd(lines, i);
      if adds < |lines| && lines[adds].kind == Add && adds + (i - start) < RunEnd(lines, adds)
      then Some(adds + (i - start)) else None
    case Add =>
      if 0 < start && lines[start - 1].kind == Remove && RunStart(lines, start - 1) + (i - start) < start
      then Some(RunStart(lines, start - 1) + (i - start)) else None
  }

  function PairedAt(lines: seq<Line>, i: nat): PairedLine
    requires i < |lines|
  {
    var partner := Partner(lines, i);
    PairedLine(lines[i], if partner.Some? then Some(lines[partner.value].code) else None)
  }

  lemma {:induction false} RunStartIs(lines: seq<Line>, s: nat, i: nat)
    requires s <= i < |lines| && forall k :: s <= k < i ==> lines[k].kind == lines[i].kind
    requires 0 < s ==> lines[s - 1].kind != lines[i].kind
    ensures RunStart(lines, i) == s
  {
    if s < i {
      RunStartIs(lines, s, i - 1);
    }
  }

  lemma {:induction false} RunEndIs(lines: seq<Line>, i: nat, e: nat)
    requires i < e <= |lines| && forall k :: i <= k < e ==> lines[k].kind == lines[i].kind
    requires e < |lines| ==> lines[e].kind != lines[i].kind
    ensures RunEnd(lines, i) == e
    decreases e - i
  {
    if i + 1 < e {
      RunEndIs(lines, i + 1, e);
    }
  }

  /** Partners are mutual, of opposite kinds, the removed line first. */
  lemma PartnersAreMutual(lines: seq<Line>, i: nat)
    requires i < |lines| && Partner(lines, i).Some?
    ensures var j := Partner(lines, i).value;
            && Partner(lines, j) == Some(i)
            && (if lines[i].kind == Remove then i < j && lines[j].kind == Add
                else j < i && lines[i].kind == Add && lines[j].kind == Remove)
  {
    if lines[i].kind == Remove {
      AddedPartner(lines, i);
    } else {
      RemovedPartner(lines, i);
    }
  }

  lemma AddedPartner(lines: seq<Line>, i: nat)
    requires i < |lines| && Partner(lines, i).Some? && lines[i].kind == Remove
    ensures var j := Partner(lines, i).value; i < j && lines[j].kind == Add && Partner(lines, j) == Some(i)
  {
    var start, end := RunStart(lines, i), RunEnd(lines, i);
    RunStartIs(lines, end, Partner(lines, i).value);
    RunStartIs(lines, start, end - 1);
  }

  lemma RemovedPartner(lines: seq<Line>, i: nat)
    requires i < |lines| && Partner(lines, i).Some? && lines[i].kind != Remove
    ensures var j := Partner(lines, i).value;
            j < i && lines[i].kind == Add && lines[j].kind == Remove && Partner(lines, j) == Some(i)
  {
    var start, end, j := RunStart(lines, i), RunEnd(lines, i), Partner(lines, i).value;
    RunStartIs(lines, RunStart(lines, start - 1), j);
    RunEndIs(lines, j, start);
    RunEndIs(lines, start, end);
  }

  /** Removed lines from `start`, added ones from `middle`, and neither before nor after. */
  ghost predicate IsChange(lines: seq<Line>, start: nat, middle: nat, end: nat) {
    && start < middle <= end <= |lines|
    && (forall k :: start <= k < middle ==> lines[k].kind == Remove)
    && (forall k :: middle <= k < end ==> lines[k].kind == Add)
    && (0 < start ==> lines[start - 1].kind != Remove)
    && (middle < |lines| ==> lines[middle].kind != Remove)
    && (end < |lines| ==> lines[end].kind != Add)
  }

  /** No change goes on across `i`. */
  ghost predicate IsBetween(lines: seq<Line>, i: nat) {
    && i <= |lines|
    && (i < |lines| && lines[i].kind == Remove && 0 < i ==> lines[i - 1].kind != Remove)
    && (i < |lines| && lines[i].kind == Add && 0 < RunStart(lines, i) ==> lines[RunStart(lines, i) - 1].kind != Remove)
  }

  lemma AfterUnpairedLine(lines: seq<Line>, i: nat)
    requires i < |lines| && lines[i].kind != Remove && IsBetween(lines, i)
    ensures PairedAt(lines, i) == PairedLine(lines[i], None) && IsBetween(lines, i + 1)
  {
  }

  lemma AfterChange(lines: seq<Line>, start: nat, middle: nat, end: nat)
    requires IsChange(lines, start, middle, end)
    ensures IsBetween(lines, end)
  {
  }

  ghost predicate PairedUpTo(lines: seq<Line>, out: seq<PairedLine>) {
    |out| <= |lines| && forall k :: 0 <= k < |out| ==> out[k] == PairedAt(lines, k)
  }

  method PairChanges(lines: seq<Line>) returns (out: seq<PairedLine>)
    ensures |out| == |lines|
    ensures forall k :: 0 <= k < |out| ==> out[k] == PairedAt(lines, k)
  {
    out := [];
    var i := 0;
    while i < |lines|
      invariant |out| == i && PairedUpTo(lines, out) && IsBetween(lines, i)
    {
      if lines[i].kind != Remove {
        AfterUnpairedLine(lines, i);
        out := out + [PairedLine(lines[i], None)];
        i := i + 1;
        continue;
      }
      ghost var start := i;
      var removes := [];
      while i < |lines| && lines[i].kind == Remove
        invariant start <= i <= |lines| && removes == lines[start..i]
        invariant forall k :: start <= k < i ==> lines[k].kind == Remove
      {
        removes := removes + [lines[i]];
        i := i + 1;
      }
      ghost var middle := i;
      var adds := [];
      while i < |lines| && lines[i].kind == Add
        invariant middle <= i <= |lines| && adds == lines[middle..i]
        invariant forall k :: middle <= k < i ==> lines[k].kind == Add
      {
        adds := adds + [lines[i]];
        i := i + 1;
      }
      var block := PairRuns(removes, adds);
      BlockIsPaired(lines, start, middle, i, out, block);
      AfterChange(lines, start, middle, i);
      out := out + block;
    }
  }

  method PairRuns(removes: seq<Line>, adds: seq<Line>) returns (out: seq<PairedLine>)
    ensures IsBlock(removes, adds, out)
  {
    out := [];
    var n := if |removes| <= |adds| then |removes| else |adds|;
    for k := 0 to n
      invariant |out| == k && forall j :: 0 <= j < k ==> out[j] == BlockAt(removes, adds, j)
    {
      out := out + [PairedLine(removes[k], Some(adds[k].code))];
    }
    for k := n to |removes|
      invariant |out| == k && forall j :: 0 <= j < k ==> out[j] == BlockAt(removes, adds, j)
    {
      out := out + [PairedLine(removes[k], None)];
    }
    for k := 0 to n
      invariant |out| == |removes| + k && forall j :: 0 <= j < |removes| + k ==> out[j] == BlockAt(removes, adds, j)
    {
      out := out + [PairedLine(adds[k], Some(removes[k].code))];
    }
    for k := n to |adds|
      invariant |out| == |removes| + k && forall j :: 0 <= j < |removes| + k ==> out[j] == BlockAt(removes, adds, j)
    {
      out := out + [PairedLine(adds[k], None)];
    }
  }

  function CodeAt(lines: seq<Line>, k: nat): Option<string> { if k < |lines| then Some(lines[k].code) else None }

  function BlockAt(removes: seq<Line>, adds: seq<Line>, k: nat): PairedLine
    requires k < |removes| + |adds|
  {
    if k < |removes| then PairedLine(removes[k], CodeAt(adds, k))
    else PairedLine(adds[k - |removes|], CodeAt(removes, k - |removes|))
  }

  /** Removed lines and the added lines that follow them, the k-th paired with the k-th. */
  ghost predicate IsBlock(removes: seq<Line>, adds: seq<Line>, block: seq<PairedLine>) {
    |block| == |removes| + |adds| && forall k :: 0 <= k < |block| ==> block[k] == BlockAt(removes, adds, k)
  }

  lemma BlockLineIsPaired(lines: seq<Line>, start: nat, middle: nat, end: nat, k: nat)
    requires IsChange(lines, start, middle, end) && start + k < end
    ensures BlockAt(lines[start..middle], lines[middle..end], k) == PairedAt(lines, start + k)
  {
    if start + k < middle {
      RemoveIsPaired(lines, start, middle, end, k);
    } else {
      AddIsPaired(lines, start, middle, end, start + k - middle);
    }
  }

  lemma BlockIsPaired(lines: seq<Line>, start: nat, middle: nat, end: nat, out: seq<PairedLine>, block: seq<PairedLine>)
    requires IsChange(lines, start, middle, end) && |out| == start && PairedUpTo(lines, out)
    requires IsBlock(lines[start..middle], lines[middle..end], block)
    ensures PairedUpTo(lines, out + block) && |out + block| == end
  {
    forall k | 0 <= k < |block| ensures block[k] == PairedAt(lines, |out| + k) {
      BlockLineIsPaired(lines, start, middle, end, k);
    }
    BothPaired(lines, out, block);
  }

  lemma BothPaired(lines: seq<Line>, out: seq<PairedLine>, block: seq<PairedLine>)
    requires PairedUpTo(lines, out) && |out| + |block| <= |lines|
    requires forall k :: 0 <= k < |block| ==> block[k] == PairedAt(lines, |out| + k)
    ensures PairedUpTo(lines, out + block)
  {
  }

  lemma RunsOfChange(lines: seq<Line>, start: nat, middle: nat, end: nat, k: nat)
    requires IsChange(lines, start, middle, end) && start + k < middle
    ensures RunStart(lines, start + k) == start && RunEnd(lines, start + k) == middle
    ensures middle < end ==> RunEnd(lines, middle) == end
  {
    RunStartIs(lines, start, start + k);
    RunEndIs(lines, start + k, middle);
    if middle < end {
      RunEndIs(lines, middle, end);
    }
  }

  lemma RemoveIsPaired(lines: seq<Line>, start: nat, middle: nat, end: nat, k: nat)
    requires IsChange(lines, start, middle, end) && start + k < middle
    ensures PairedAt(lines, start + k) == PairedLine(lines[start + k], CodeAt(lines[middle..end], k))
  {
    RunsOfChange(lines, start, middle, end, k);
  }

  lemma AddIsPaired(lines: seq<Line>, start: nat, middle: nat, end: nat, k: nat)
    requires IsChange(lines, start, middle, end) && middle + k < end
    ensures PairedAt(lines, middle + k) == PairedLine(lines[middle + k], CodeAt(lines[start..middle], k))
  {
    RunStartIs(lines, middle, middle + k);
    RunStartIs(lines, start, middle - 1);
  }

  // ----- line numbers -----

  /** How many of the first `n` lines stand on a side of the diff. */
  function Before(lines: seq<Line>, absent: Kind, n: nat): nat
    requires n <= |lines|
  {
    if n == 0 then 0 else Before(lines, absent, n - 1) + if lines[n - 1].kind == absent then 0 else 1
  }

  /** The number of a line: on the new side for an added one, on the old side otherwise. */
  function NumberAt(lines: seq<Line>, oldStart: nat, newStart: nat, i: nat): nat
    requires i < |lines|
  {
    if lines[i].kind == Add then newStart + Before(lines, Remove, i) else oldStart + Before(lines, Add, i)
  }

  function Erased(paired: seq<PairedLine>): (lines: seq<Line>)
    ensures |lines| == |paired| && forall k :: 0 <= k < |lines| ==> lines[k] == paired[k].line
  {
    seq(|paired|, k requires 0 <= k < |paired| => paired[k].line)
  }

  function NumberedAt(paired: seq<PairedLine>, lines: seq<Line>, oldStart: nat, newStart: nat, i: nat): DiffLine
    requires i < |paired| == |lines|
  {
    DiffLine(paired[i].line, NumberAt(lines, oldStart, newStart, i), paired[i].pairedCode)
  }

  method AssignLineNumbers(paired: seq<PairedLine>, startLine: nat, newStartLine: nat) returns (dls: seq<DiffLine>)
    ensures |dls| == |paired|
    ensures forall k :: 0 <= k < |dls| ==> dls[k] == NumberedAt(paired, Erased(paired), startLine, newStartLine, k)
  {
    ghost var lines := Erased(paired);
    dls := [];
    var oldNum, newNum := startLine, newStartLine;
    for i := 0 to |paired|
      invariant |dls| == i
      invariant oldNum == startLine + Before(lines, Add, i) && newNum == newStartLine + Before(lines, Remove, i)
      invariant forall k :: 0 <= k < i ==> dls[k] == NumberedAt(paired, lines, startLine, newStartLine, k)
    {
      var dl := paired[i];
      assert lines[i] == dl.line;
      var lineNum := if dl.line.kind == Add then newNum else oldNum;
      assert DiffLine(dl.line, lineNum, dl.pairedCode) == NumberedAt(paired, lines, startLine, newStartLine, i);
      dls := dls + [DiffLine(dl.line, lineNum, dl.pairedCode)];
      if dl.line.kind != Add {
        oldNum := oldNum + 1;
      }
      if dl.line.kind != Remove {
        newNum := newNum + 1;
      }
    }
  }

  function ParsedLine(raw: string): Line {
    if raw != "" && raw[0] == '+' then Line(Add, raw[1..])
    else if raw != "" && raw[0] == '-' then Line(Remove, raw[1..])
    else Line(Context, if raw != "" && raw[0] == ' ' then raw[1..] else raw)
  }

  function ParsedLines(raw: seq<string>): (lines: seq<Line>)
    ensures |lines| == |raw| && forall k :: 0 <= k < |lines| ==> lines[k] == ParsedLine(raw[k])
  {
    seq(|raw|, k requires 0 <= k < |raw| => ParsedLine(raw[k]))
  }

  /** The lines in order, each with its number. */
  ghost predicate IsNumbered(lines: seq<Line>, oldStart: nat, newStart: nat, dls: seq<DiffLine>) {
    && |dls| == |lines|
    && forall k {:trigger dls[k]} :: 0 <= k < |dls| ==>
       dls[k].line == lines[k] && dls[k].lineNum == NumberAt(lines, oldStart, newStart, k)
  }

  method BuildDiffLines(rawLines: seq<string>, startLine: nat, newStartLine: nat) returns (dls: seq<DiffLine>)
    ensures IsNumbered(ParsedLines(rawLines), startLine, newStartLine, dls)
    ensures forall k :: 0 <= k < |dls| ==> dls[k].pairedCode == PairedAt(ParsedLines(rawLines), k).pairedCode
  {
    var paired := PairChanges(ParsedLines(rawLines));
    assert Erased(paired) == ParsedLines(rawLines);
    dls := AssignLineNumbers(paired, startLine, newStartLine);
  }

  // ----- what the numbers mean -----

  /** The numbers shown on the old side, in order. */
  function OldNumbers(dls: seq<DiffLine>): seq<nat> {
    if dls == [] then []
    else OldNumbers(dls[..|dls| - 1]) + if dls[|dls| - 1].line.kind == Add then [] else [dls[|dls| - 1].lineNum]
  }

  ghost predicate CountsFrom(numbers: seq<nat>, from: nat) { forall k :: 0 <= k < |numbers| ==> numbers[k] == from + k }

  lemma OneMoreNumber(numbers: seq<nat>, from: nat)
    requires CountsFrom(numbers, from)
    ensures CountsFrom(numbers + [from + |numbers|], from)
  {
  }

  /** Lines of the old side are numbered one after the other from the old start. */
  lemma {:induction false} OldSideIsConsecutive(lines: seq<Line>, oldStart: nat, newStart: nat, dls: seq<DiffLine>,
                                                n: nat)
    requires IsNumbered(lines, oldStart, newStart, dls) && n <= |dls|
    ensures |OldNumbers(dls[..n])| == Before(lines, Add, n) && CountsFrom(OldNumbers(dls[..n]), oldStart)
  {
    if n != 0 {
      var before, last := dls[..n - 1], dls[n - 1];
      OldSideIsConsecutive(lines, oldStart, newStart, dls, n - 1);
      assert dls[..n][..n - 1] == before;
      assert last.line == lines[n - 1] && last.lineNum == NumberAt(lines, oldStart, newStart, n - 1);
      OneMoreNumber(OldNumbers(before), oldStart);
    }
  }

  lemma NumberOf(lines: seq<Line>, oldStart: nat, newStart: nat, dls: seq<DiffLine>, i: nat)
    requires IsNumbered(lines, oldStart, newStart, dls) && i < |dls| && lines[i].kind == Add
    ensures dls[i].lineNum == newStart + Before(lines, Remove, i)
  {
    assert dls[i].lineNum == NumberAt(lines, oldStart, newStart, i);
  }

  /** Added lines are numbered upwards, no number twice. */
  lemma AddedLinesCountUp(lines: seq<Line>, oldStart: nat, newStart: nat, dls: seq<DiffLine>, i: nat, j: nat)
    requires IsNumbered(lines, oldStart, newStart, dls) && i < j < |dls| && lines[i].kind == Add && lines[j].kind == Add
    ensures dls[i].lineNum < dls[j].lineNum
  {
    NumberOf(lines, oldStart, newStart, dls, i);
    NumberOf(lines, oldStart, newStart, dls, j);
    BeforeGrows(lines, Remove, i + 1, j);
  }

  /** They leave room for context only: with nothing but removed lines between, the next one follows at once. */
  lemma AddedLinesSkipOnlyContext(lines: seq<Line>, oldStart: nat, newStart: nat, dls: seq<DiffLine>, i: nat, j: nat)
    requires IsNumbered(lines, oldStart, newStart, dls) && i < j < |dls| && lines[i].kind == Add && lines[j].kind == Add
    requires forall k :: i < k < j ==> lines[k].kind == Remove
    ensures dls[j].lineNum == dls[i].lineNum + 1
  {
    NumberOf(lines, oldStart, newStart, dls, i);
    NumberOf(lines, oldStart, newStart, dls, j);
    BeforeStays(lines, Remove, i + 1, j);
  }

  lemma {:induction false} BeforeGrows(lines: seq<Line>, absent: Kind, i: nat, j: nat)
    requires i <= j <= |lines|
    ensures Before(lines, absent, i) <= Before(lines, absent, j)
    decreases j
  {
    if i < j {
      BeforeGrows(lines, absent, i, j - 1);
    }
  }

  lemma {:induction false} BeforeStays(lines: seq<Line>, absent: Kind, i: nat, j: nat)
    requires i <= j <= |lines| && forall k :: i <= k < j ==> lines[k].kind == absent
    ensures Before(lines, absent, i) == Before(lines, absent, j)
    decreases j
  {
    if i < j {
      BeforeStays(lines, absent, i, j - 1);
    }
  }

  // ----- the gutter -----

  method GutterWidth(lines: seq<DiffLine>, minGutter: nat) returns (width: nat)
    ensures minGutter <= width && 1 <= width
    ensures forall dl <- lines :: |DecimalText(dl.lineNum)| <= width
    ensures width == minGutter || width == 1 || exists dl <- lines :: |DecimalText(dl.lineNum)| == width
  {
    var maxNum := 0;
    for i := 0 to |lines|
      invariant forall k :: 0 <= k < i ==> lines[k].lineNum <= maxNum
      invariant maxNum == 0 || exists k :: 0 <= k < i && lines[k].lineNum == maxNum
    {
      if maxNum < lines[i].lineNum {
        maxNum := lines[i].lineNum;
      }
    }
    var digits := |DecimalText(maxNum)|;
    forall dl | dl in lines ensures |DecimalText(dl.lineNum)| <= digits {
      LargerIsLonger(dl.lineNum, maxNum);
    }
    width := if digits < minGutter then minGutter else digits;
  }

  lemma {:induction false} LargerIsLonger(a: nat, b: nat)
    requires a <= b
    ensures |DecimalText(a)| <= |DecimalText(b)|
    decreases b
  {
    if 10 <= a {
      LargerIsLonger(a / 10, b / 10);
    }
  }
}
