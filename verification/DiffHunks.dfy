/**
 Reading the hunks of a unified diff, complete or still being written.
 */
module DiffHunks {
  import opened Options
  import opened Strings

  datatype Hunk = Hunk(oldStart: nat, oldLines: nat, newStart: nat, newLines: nat, lines: seq<string>)

  // ----- hunk headers -----

  function After(text: string, prefix: string): Option<string> {
    if prefix <= text then Some(text[|prefix|..]) else None
  }

  /** A number at the start of a text, and what follows it. */
  function TakeNumber(text: string): (r: Option<(nat, string)>)
    ensures r.Some? ==> |r.value.1| < |text|
  {
    var n := DigitCount(text);
    if n == 0 then None else Some((Decimal(text[..n]), text[n..]))
  }

  /** A start and a count, which is one where it is left out. */
  function TakeRange(text: string): Option<(nat, nat, string)> {
    var start := TakeNumber(text);
    if start.None? then None
    else
      var rest := start.value.1;
      var count := if rest != "" && rest[0] == ',' then TakeNumber(rest[1..]) else None;
      if count.Some? then Some((start.value.0, count.value.0, count.value.1)) else Some((start.value.0, 1, rest))
  }

  function ParseHeader(text: string): Option<Hunk> {
    var fromOld := After(text, "@@ -");
    var oldRange := if fromOld.None? then None else TakeRange(fromOld.value);
    var fromNew := if oldRange.None? then None else After(oldRange.value.2, " +");
    var newRange := if fromNew.None? then None else TakeRange(fromNew.value);
    if newRange.None? || !(" @@" <= newRange.value.2) then None
    else Some(Hunk(oldRange.value.0, oldRange.value.1, newRange.value.0, newRange.value.1, []))
  }

  predicate EndsFile(text: string) { "diff " <= text || "Index:" <= text }

  predicate IsBody(text: string) {
    text != "" && (text[0] == ' ' || text[0] == '+' || text[0] == '-' || text[0] == '\\')
  }

  // ----- a diff line by line -----

  datatype LineKind = HeaderLine(hunk: Hunk) | FileLine | BodyLine(text: string) | OtherLine

  function KindOf(text: string): LineKind {
    var header := ParseHeader(text);
    if header.Some? then HeaderLine(header.value)
    else if EndsFile(text) then FileLine
    else if IsBody(text) then BodyLine(text)
    else OtherLine
  }

  /** The hunks so far and whether the last one still takes lines. */
  datatype Reading = Reading(hunks: seq<Hunk>, current: bool)

  function Extended(hunks: seq<Hunk>, text: string): seq<Hunk>
    requires hunks != []
  {
    var last := hunks[|hunks| - 1];
    hunks[..|hunks| - 1] + [last.(lines := last.lines + [text])]
  }

  function Step(r: Reading, line: LineKind): Reading {
    match line
    case HeaderLine(hunk) => Reading(r.hunks + [hunk], true)
    case FileLine => r.(current := false)
    case BodyLine(text) => if r.current && r.hunks != [] then r.(hunks := Extended(r.hunks, text)) else r
    case OtherLine => r
  }

  function Read(r: Reading, lines: seq<LineKind>): Reading {
    if |lines| == 0 then r else Step(Read(r, lines[..|lines| - 1]), lines[|lines| - 1])
  }

  function Kinds(texts: seq<string>, kindOf: string -> LineKind): seq<LineKind> {
    seq(|texts|, k requires 0 <= k < |texts| => kindOf(texts[k]))
  }

  const NOTHING := Reading([], false)

  /** The hunks of a diff. */
  function Hunks(diff: string): seq<Hunk> { Read(NOTHING, Kinds(Split(diff, '\n'), KindOf)).hunks }

  method ParseDiffHunks(diff: string) returns (hunks: seq<Hunk>)
    ensures hunks == Hunks(diff)
  {
    var texts := Split(diff, '\n');
    ghost var kinds := Kinds(texts, KindOf);
    hunks := [];
    var current := false;
    for i := 0 to |texts|
      invariant Read(NOTHING, kinds[..i]) == Reading(hunks, current)
    {
      var text := texts[i];
      assert kinds[..i + 1][..i] == kinds[..i];
      assert kinds[i] == KindOf(text);
      var header := ParseHeader(text);
      if header.Some? {
        hunks, current := hunks + [header.value], true;
      } else if EndsFile(text) {
        current := false;
      } else if current && hunks != [] && IsBody(text) {
        var last := hunks[|hunks| - 1];
        hunks := hunks[..|hunks| - 1] + [last.(lines := last.lines + [text])];
      }
    }
    assert kinds[..|texts|] == kinds;
  }

  // ----- a diff as it is written -----

  predicate WellFormed(h: Hunk) { forall text <- h.lines :: IsBody(text) && '\n' !in text }

  lemma {:induction false} DigitsAreCounted(digits: string, rest: string)
    requires AllDigits(digits) && (rest != "" ==> !IsDigit(rest[0]))
    ensures DigitCount(digits + rest) == |digits|
    decreases |digits|
  {
    var text := digits + rest;
    if digits != "" {
      assert text[1..] == digits[1..] + rest;
      DigitsAreCounted(digits[1..], rest);
    } else {
      assert text == rest;
    }
  }

  lemma NumberReadsBack(n: nat, rest: string)
    requires rest != "" ==> !IsDigit(rest[0])
    ensures TakeNumber(DecimalText(n) + rest) == Some((n, rest))
  {
    var digits := DecimalText(n);
    DigitsAreCounted(digits, rest);
    DecimalReadsBack(n);
    assert (digits + rest)[..|digits|] == digits && (digits + rest)[|digits|..] == rest;
  }

  lemma RangeReadsBack(start: nat, count: nat, rest: string)
    requires rest != "" ==> !IsDigit(rest[0])
    ensures TakeRange(DecimalText(start) + ("," + (DecimalText(count) + rest))) == Some((start, count, rest))
  {
    var counted := DecimalText(count) + rest;
    NumberReadsBack(start, "," + counted);
    NumberReadsBack(count, rest);
    assert ("," + counted)[1..] == counted;
  }

  lemma AfterPrefix(prefix: string, rest: string)
    ensures After(prefix + rest, prefix) == Some(rest)
  {
    assert (prefix + rest)[|prefix|..] == rest;
  }

  function NewPart(h: Hunk): string { DecimalText(h.newStart) + ("," + (DecimalText(h.newLines) + " @@")) }

  function OldPart(h: Hunk): string {
    DecimalText(h.oldStart) + ("," + (DecimalText(h.oldLines) + (" +" + NewPart(h))))
  }

  lemma PartsReadBack(h: Hunk)
    ensures TakeRange(OldPart(h)) == Some((h.oldStart, h.oldLines, " +" + NewPart(h)))
    ensures TakeRange(NewPart(h)) == Some((h.newStart, h.newLines, " @@"))
  {
    RangeReadsBack(h.newStart, h.newLines, " @@");
    RangeReadsBack(h.oldStart, h.oldLines, " +" + NewPart(h));
  }

  function HeaderText(h: Hunk): string { "@@ -" + OldPart(h) }

  lemma HeaderReadsBack(h: Hunk)
    ensures KindOf(HeaderText(h)) == HeaderLine(h.(lines := []))
  {
    var oldPart, newPart := OldPart(h), NewPart(h);
    PartsReadBack(h);
    AfterPrefix("@@ -", oldPart);
    AfterPrefix(" +", newPart);
  }

  // ----- reading back -----

  lemma {:induction false} ReadSum(r: Reading, a: seq<LineKind>, b: seq<LineKind>)
    ensures Read(r, a + b) == Read(Read(r, a), b)
    decreases |b|
  {
    var all := a + b;
    if |b| == 0 {
      assert all == a;
    } else {
      ReadSum(r, a, b[..|b| - 1]);
      assert all[..|all| - 1] == a + b[..|b| - 1];
    }
  }

  lemma BodyIsNoHeader(text: string)
    requires IsBody(text)
    ensures KindOf(text) == BodyLine(text)
  {
    assert text[0] != "@@ -"[0] && text[0] != "diff "[0] && text[0] != "Index:"[0];
  }

  lemma ExtendLast(hunks: seq<Hunk>, h: Hunk, text: string)
    ensures Extended(hunks + [h], text) == hunks + [h.(lines := h.lines + [text])]
  {
  }

  /** A way to tell lines apart that knows every header and every body line. */
  ghost predicate Recognizes(kindOf: string -> LineKind) {
    && (forall h :: kindOf(HeaderText(h)) == HeaderLine(h.(lines := [])))
    && (forall text :: IsBody(text) ==> kindOf(text) == BodyLine(text))
  }

  lemma KindOfRecognizes()
    ensures Recognizes(KindOf)
  {
    forall h ensures KindOf(HeaderText(h)) == HeaderLine(h.(lines := [])) {
      HeaderReadsBack(h);
    }
    forall text | IsBody(text) ensures KindOf(text) == BodyLine(text) {
      BodyIsNoHeader(text);
    }
  }

  lemma {:induction false} BodyIsTaken(hunks: seq<Hunk>, h: Hunk, texts: seq<string>, kindOf: string -> LineKind)
    requires Recognizes(kindOf) && forall text <- texts :: IsBody(text)
    ensures Read(Reading(hunks + [h], true), Kinds(texts, kindOf))
            == Reading(hunks + [h.(lines := h.lines + texts)], true)
    decreases |texts|
  {
    if |texts| == 0 {
      assert h.lines + texts == h.lines;
    } else {
      var init, last := texts[..|texts| - 1], texts[|texts| - 1];
      BodyIsTaken(hunks, h, init, kindOf);
      ExtendLast(hunks, h.(lines := h.lines + init), last);
      assert Kinds(texts, kindOf)[..|texts| - 1] == Kinds(init, kindOf);
      assert h.lines + texts == h.lines + init + [last];
    }
  }

  /** A hunk as it is written: its header and its lines. */
  function HunkText(h: Hunk): seq<string> { [HeaderText(h)] + h.lines }

  lemma HunkReadsBack(r: Reading, h: Hunk, kindOf: string -> LineKind)
    requires Recognizes(kindOf) && WellFormed(h)
    ensures Read(r, Kinds(HunkText(h), kindOf)) == Reading(r.hunks + [h], true)
  {
    var header := [HeaderText(h)];
    var kind := Kinds(header, kindOf);
    KindsSum(header, h.lines, kindOf);
    ReadSum(r, kind, Kinds(h.lines, kindOf));
    assert kind == [HeaderLine(h.(lines := []))] && kind[..|kind| - 1] == [];
    BodyIsTaken(r.hunks, h.(lines := []), h.lines, kindOf);
    assert [] + h.lines == h.lines;
  }

  lemma KindsSum(a: seq<string>, b: seq<string>, kindOf: string -> LineKind)
    ensures Kinds(a + b, kindOf) == Kinds(a, kindOf) + Kinds(b, kindOf)
  {
  }

  function HunkTexts(hunks: seq<Hunk>): seq<string> {
    if hunks == [] then [] else HunkTexts(hunks[..|hunks| - 1]) + HunkText(hunks[|hunks| - 1])
  }

  ghost predicate AllWellFormed(hunks: seq<Hunk>) { forall h <- hunks :: WellFormed(h) }

  lemma OneMoreHunk(r: Reading, texts: seq<string>, h: Hunk, kindOf: string -> LineKind)
    requires Recognizes(kindOf) && WellFormed(h)
    ensures Read(r, Kinds(texts + HunkText(h), kindOf)).hunks == Read(r, Kinds(texts, kindOf)).hunks + [h]
  {
    KindsSum(texts, HunkText(h), kindOf);
    ReadSum(r, Kinds(texts, kindOf), Kinds(HunkText(h), kindOf));
    HunkReadsBack(Read(r, Kinds(texts, kindOf)), h, kindOf);
  }

  lemma LastLast(before: seq<Hunk>, hunks: seq<Hunk>)
    requires hunks != []
    ensures before + hunks == before + hunks[..|hunks| - 1] + [hunks[|hunks| - 1]]
  {
  }

  lemma {:induction false} HunksReadBack(r: Reading, hunks: seq<Hunk>, kindOf: string -> LineKind)
    requires Recognizes(kindOf) && AllWellFormed(hunks)
    ensures Read(r, Kinds(HunkTexts(hunks), kindOf)).hunks == r.hunks + hunks
    decreases |hunks|
  {
    if hunks != [] {
      var init, last := hunks[..|hunks| - 1], hunks[|hunks| - 1];
      HunksReadBack(r, init, kindOf);
      OneMoreHunk(r, HunkTexts(init), last, kindOf);
      LastLast(r.hunks, hunks);
    }
  }

  /** One file of a diff: what names it, starting with a `diff` or `Index:` line, and its hunks. */
  datatype FileDiff = FileDiff(names: seq<string>, hunks: seq<Hunk>)

  ghost predicate AreNames(names: seq<string>, kindOf: string -> LineKind) {
    && names != [] && kindOf(names[0]) == FileLine
    && forall text <- names :: !kindOf(text).HeaderLine? && '\n' !in text
  }

  ghost predicate WellFormedFile(f: FileDiff, kindOf: string -> LineKind) {
    AreNames(f.names, kindOf) && AllWellFormed(f.hunks)
  }

  /** Nothing that names a file gets into a hunk, though it may start with a plus or a minus. */
  lemma {:induction false} NamesAreSkipped(r: Reading, names: seq<LineKind>)
    requires names != [] && names[0] == FileLine && forall line <- names :: !line.HeaderLine?
    ensures Read(r, names) == r.(current := false)
    decreases |names|
  {
    if |names| == 1 {
      assert names[..0] == [];
    } else {
      NamesAreSkipped(r, names[..|names| - 1]);
      assert names[|names| - 1] in names;
    }
  }

  function FileText(f: FileDiff): seq<string> { f.names + HunkTexts(f.hunks) }

  function FileTexts(files: seq<FileDiff>): seq<string> {
    if files == [] then [] else FileTexts(files[..|files| - 1]) + FileText(files[|files| - 1])
  }

  function AllHunks(files: seq<FileDiff>): seq<Hunk> {
    if files == [] then [] else AllHunks(files[..|files| - 1]) + files[|files| - 1].hunks
  }

  lemma FileReadsBack(r: Reading, f: FileDiff, kindOf: string -> LineKind)
    requires Recognizes(kindOf) && WellFormedFile(f, kindOf)
    ensures Read(r, Kinds(FileText(f), kindOf)).hunks == r.hunks + f.hunks
  {
    var names, texts := f.names, HunkTexts(f.hunks);
    KindsSum(names, texts, kindOf);
    ReadSum(r, Kinds(names, kindOf), Kinds(texts, kindOf));
    forall line | line in Kinds(names, kindOf) ensures !line.HeaderLine? {
      var k :| 0 <= k < |names| && Kinds(names, kindOf)[k] == line;
      assert names[k] in names;
    }
    NamesAreSkipped(r, Kinds(names, kindOf));
    HunksReadBack(r.(current := false), f.hunks, kindOf);
  }

  ghost predicate AllWellFormedFiles(files: seq<FileDiff>, kindOf: string -> LineKind) {
    forall f <- files :: WellFormedFile(f, kindOf)
  }

  lemma {:induction false} FilesReadBack(files: seq<FileDiff>, kindOf: string -> LineKind)
    requires Recognizes(kindOf) && AllWellFormedFiles(files, kindOf)
    ensures Read(NOTHING, Kinds(FileTexts(files), kindOf)).hunks == AllHunks(files)
    decreases |files|
  {
    if files != [] {
      var init, last := files[..|files| - 1], files[|files| - 1];
      FilesReadBack(init, kindOf);
      KindsSum(FileTexts(init), FileText(last), kindOf);
      ReadSum(NOTHING, Kinds(FileTexts(init), kindOf), Kinds(FileText(last), kindOf));
      FileReadsBack(Read(NOTHING, Kinds(FileTexts(init), kindOf)), last, kindOf);
    }
  }

  // ----- lines hold no line feed -----

  ghost predicate AreLines(texts: seq<string>) { forall text <- texts :: '\n' !in text }

  lemma LinesSum(a: seq<string>, b: seq<string>)
    requires AreLines(a) && AreLines(b)
    ensures AreLines(a + b)
  {
  }

  lemma DigitsHoldNoLineFeed(n: nat)
    ensures '\n' !in DecimalText(n)
  {
    assert AllDigits(DecimalText(n));
  }

  lemma HunkTextIsLines(h: Hunk)
    requires WellFormed(h)
    ensures AreLines(HunkText(h))
  {
    DigitsHoldNoLineFeed(h.oldStart);
    DigitsHoldNoLineFeed(h.oldLines);
    DigitsHoldNoLineFeed(h.newStart);
    DigitsHoldNoLineFeed(h.newLines);
    assert '\n' !in NewPart(h);
    assert '\n' !in OldPart(h);
    LinesSum([HeaderText(h)], h.lines);
  }

  lemma {:induction false} HunkTextsAreLines(hunks: seq<Hunk>)
    requires AllWellFormed(hunks)
    ensures AreLines(HunkTexts(hunks))
    decreases |hunks|
  {
    if hunks != [] {
      var init, last := hunks[..|hunks| - 1], hunks[|hunks| - 1];
      HunkTextsAreLines(init);
      HunkTextIsLines(last);
      LinesSum(HunkTexts(init), HunkText(last));
    }
  }

  lemma {:induction false} FileTextsAreLines(files: seq<FileDiff>, kindOf: string -> LineKind)
    requires AllWellFormedFiles(files, kindOf)
    ensures AreLines(FileTexts(files)) && (files != [] ==> FileTexts(files) != [])
    decreases |files|
  {
    if files != [] {
      var init, last := files[..|files| - 1], files[|files| - 1];
      FileTextsAreLines(init, kindOf);
      assert WellFormedFile(last, kindOf);
      HunkTextsAreLines(last.hunks);
      LinesSum(last.names, HunkTexts(last.hunks));
      LinesSum(FileTexts(init), FileText(last));
    }
  }

  /** A diff of any number of files reads back as its hunks, in order. */
  lemma DiffReadsBack(files: seq<FileDiff>)
    requires files != [] && AllWellFormedFiles(files, KindOf)
    ensures Hunks(Joined(FileTexts(files), '\n')) == AllHunks(files)
  {
    KindOfRecognizes();
    FileTextsAreLines(files, KindOf);
    SplitJoined(FileTexts(files), '\n');
    FilesReadBack(files, KindOf);
  }
}
