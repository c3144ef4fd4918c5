/**
 The parser reads back every version as it is written, with or without a leading `v` and build metadata.
 */
module VersionText {
  import opened Options
  import opened Strings
  import opened Version

  /** The segments of a release as they may be written: decimal numbers, with leading zeros or without. */
  predicate Writes(numerals: seq<string>, release: seq<nat>) {
    && |numerals| == |release|
    && forall k :: 0 <= k < |numerals| ==> IsNumeric(numerals[k]) && Decimal(numerals[k]) == release[k]
  }

  function ReleaseText(numerals: seq<string>): string { Joined(numerals, '.') }

  function PrereleaseText(prerelease: seq<string>): string {
    if prerelease == [] then "" else "-" + Joined(prerelease, '.')
  }

  lemma {:induction false} NumbersReadBack(numerals: seq<string>, release: seq<nat>)
    requires Writes(numerals, release)
    ensures Numbers(numerals) == Some(release)
    decreases |release|
  {
    if release != [] {
      var n := |release| - 1;
      NumbersReadBack(numerals[..n], release[..n]);
      assert release[..n] + [release[n]] == release;
    }
  }

  lemma {:induction false} NumbersAreWritten(numerals: seq<string>)
    requires Numbers(numerals).Some?
    ensures Writes(numerals, Numbers(numerals).value)
    decreases |numerals|
  {
    if numerals != [] {
      NumbersAreWritten(numerals[..|numerals| - 1]);
    }
  }

  predicate Without(s: string, c: char) { forall k :: 0 <= k < |s| ==> s[k] != c }

  lemma {:induction false} JoinedWithout(pieces: seq<string>, separator: char, c: char)
    requires separator != c && forall k :: 0 <= k < |pieces| ==> Without(pieces[k], c)
    ensures Without(Joined(pieces, separator), c)
    decreases |pieces|
  {
    if 1 < |pieces| {
      JoinedWithout(pieces[1..], separator, c);
    }
  }

  lemma {:induction false} JoinedEnds(pieces: seq<string>, separator: char)
    requires pieces != [] && forall k :: 0 <= k < |pieces| ==> pieces[k] != ""
    ensures var s := Joined(pieces, separator);
            s != "" && s[0] == pieces[0][0] && s[|s| - 1] == pieces[|pieces| - 1][|pieces[|pieces| - 1]| - 1]
    decreases |pieces|
  {
    if 1 < |pieces| {
      JoinedEnds(pieces[1..], separator);
    }
  }

  lemma {:induction false} IndexAfter(a: string, c: char, b: string, from: nat)
    requires Without(a, c) && from <= |a| && (b == "" || b[0] == c)
    ensures IndexOf(a + b, c, from) == |a|
    decreases |a| - from
  {
    if from < |a| {
      assert (a + b)[from] == a[from];
      IndexAfter(a, c, b, from + 1);
    }
  }

  lemma HeadOfSplit(a: string, c: char, b: string)
    requires Without(a, c) && (b == "" || b[0] == c)
    ensures Split(a + b, c)[0] == a
  {
    IndexAfter(a, c, b, 0);
    assert (a + b)[..|a|] == a;
  }

  lemma ReleaseTextShape(numerals: seq<string>)
    requires numerals != [] && forall k :: 0 <= k < |numerals| ==> IsNumeric(numerals[k])
    ensures var s := ReleaseText(numerals);
            && s != "" && IsDigit(s[0]) && IsDigit(s[|s| - 1]) && Without(s, '-') && Without(s, '+')
            && Split(s, '.') == numerals
  {
    forall k | 0 <= k < |numerals|
      ensures Without(numerals[k], '-') && Without(numerals[k], '+') && '.' !in numerals[k]
    {
      assert AllDigits(numerals[k]);
    }
    JoinedWithout(numerals, '.', '-');
    JoinedWithout(numerals, '.', '+');
    JoinedEnds(numerals, '.');
    SplitJoined(numerals, '.');
  }

  lemma PrereleaseTextShape(prerelease: seq<string>)
    requires prerelease != [] && forall k :: 0 <= k < |prerelease| ==> IsIdentifier(prerelease[k])
    ensures var s := Joined(prerelease, '.');
            && s != "" && IsIdentifierChar(s[|s| - 1]) && Without(s, '+') && Split(s, '.') == prerelease
  {
    forall k | 0 <= k < |prerelease| ensures Without(prerelease[k], '+') && '.' !in prerelease[k] {
      assert IsIdentifier(prerelease[k]);
    }
    JoinedWithout(prerelease, '.', '+');
    JoinedEnds(prerelease, '.');
    SplitJoined(prerelease, '.');
  }

  /** Build metadata, when written, is introduced by a plus sign and does not end in white space. */
  predicate IsBuild(s: string) { s == "" || (s[0] == '+' && !IsSpace(s[|s| - 1])) }

  function CoreText(numerals: seq<string>, prerelease: seq<string>): string {
    ReleaseText(numerals) + PrereleaseText(prerelease)
  }

  /** A core that splits into the parts of `v` at a dash is parsed as `v`. */
  lemma PartsReadBack(core: string, dash: nat, v: ParsedVersion)
    requires Valid(v) && v.prerelease != [] && dash < |core| && dash == IndexOf(core, '-', 0)
    requires Numbers(Split(core[..dash], '.')) == Some(v.release)
    requires core[dash + 1..] != "" && Split(core[dash + 1..], '.') == v.prerelease
    ensures ParseCore(core) == Some(v)
  {
  }

  lemma ReleaseReadsBack(core: string, v: ParsedVersion)
    requires Valid(v) && v.prerelease == [] && IndexOf(core, '-', 0) == |core|
             && Numbers(Split(core, '.')) == Some(v.release)
    ensures ParseCore(core) == Some(v)
  {
    assert core[..|core|] == core;
  }

  lemma DashIsFound(release: string, prerelease: string)
    requires Without(release, '-') && (prerelease == "" || prerelease[0] == '-')
    ensures IndexOf(release + prerelease, '-', 0) == |release| && (release + prerelease)[..|release|] == release
  {
    IndexAfter(release, '-', prerelease, 0);
  }

  lemma AfterDash(release: string, prerelease: string)
    requires prerelease != ""
    ensures (release + prerelease)[|release| + 1..] == prerelease[1..]
  {
  }

  lemma CoreReadsBack(v: ParsedVersion, numerals: seq<string>)
    requires Valid(v) && Writes(numerals, v.release)
    ensures ParseCore(CoreText(numerals, v.prerelease)) == Some(v)
  {
    var release, prerelease := ReleaseText(numerals), PrereleaseText(v.prerelease);
    ReleaseTextShape(numerals);
    DashIsFound(release, prerelease);
    NumbersReadBack(numerals, v.release);
    if v.prerelease == [] {
      assert release + prerelease == release;
      ReleaseReadsBack(release, v);
    } else {
      PrereleaseTextShape(v.prerelease);
      AfterDash(release, prerelease);
      PartsReadBack(release + prerelease, |release|, v);
    }
  }

  lemma CoreTextShape(v: ParsedVersion, numerals: seq<string>)
    requires Valid(v) && Writes(numerals, v.release)
    ensures var s := CoreText(numerals, v.prerelease);
            s != "" && IsDigit(s[0]) && IsIdentifierChar(s[|s| - 1]) && Without(s, '+')
  {
    ReleaseTextShape(numerals);
    if v.prerelease != [] {
      PrereleaseTextShape(v.prerelease);
    }
  }

  function VersionText(prefixed: bool, numerals: seq<string>, prerelease: seq<string>, build: string): string {
    (if prefixed then "v" else "") + (CoreText(numerals, prerelease) + build)
  }

  /** `s` is `v` as it may be written: with a leading `v` or without, with build metadata or without, and white space
      around it. */
  ghost predicate Denotes(s: string, v: ParsedVersion) {
    exists before, prefixed, numerals, build, after :: DenotesAs(s, v, before, prefixed, numerals, build, after)
  }

  predicate DenotesAs(s: string, v: ParsedVersion, before: string, prefixed: bool, numerals: seq<string>, build: string,
                      after: string) {
    && AllSpace(before) && AllSpace(after) && Writes(numerals, v.release) && Valid(v) && IsBuild(build)
    && s == before + VersionText(prefixed, numerals, v.prerelease, build) + after
  }

  /** Every valid version is parsed from its own text, however that is written. */
  lemma ParseReadsBack(v: ParsedVersion, before: string, prefixed: bool, numerals: seq<string>, build: string,
                       after: string)
    requires Valid(v) && IsBuild(build) && Writes(numerals, v.release) && AllSpace(before) && AllSpace(after)
    ensures Parse(Some(before + VersionText(prefixed, numerals, v.prerelease, build) + after)) == Some(v)
  {
    var core := CoreText(numerals, v.prerelease);
    CoreTextShape(v, numerals);
    Undecorated(core, prefixed, build);
    TrimIs(before, VersionText(prefixed, numerals, v.prerelease, build), after);
    HeadOfSplit(core, '+', build);
    CoreReadsBack(v, numerals);
  }

  lemma Undecorated(core: string, prefixed: bool, build: string)
    requires core != "" && IsDigit(core[0]) && IsIdentifierChar(core[|core| - 1]) && IsBuild(build)
    ensures var text := (if prefixed then "v" else "") + (core + build);
            && text != "" && !IsSpace(text[0]) && !IsSpace(text[|text| - 1])
            && DropV(text) == core + build
  {
    var text := (if prefixed then "v" else "") + (core + build);
    assert text[|text| - 1] == if build == "" then core[|core| - 1] else build[|build| - 1];
    assert text[0] == if prefixed then 'v' else core[0];
    assert prefixed ==> text[1..] == core + build;
  }

  // ----- and nothing else -----

  lemma {:induction false} SplitJoins(s: string, c: char)
    ensures Joined(Split(s, c), c) == s
    decreases |s|
  {
    var k := IndexOf(s, c, 0);
    if k < |s| {
      SplitJoins(s[k + 1..], c);
      var rest := Split(s[k + 1..], c);
      assert Split(s, c) == [s[..k]] + rest && ([s[..k]] + rest)[1..] == rest;
      assert s == s[..k] + [c] + s[k + 1..];
    }
  }

  lemma {:induction false} TrimStartLeaves(s: string) returns (before: string)
    ensures AllSpace(before) && s == before + TrimStart(s)
    ensures TrimStart(s) != "" ==> !IsSpace(TrimStart(s)[0])
    decreases |s|
  {
    if s != "" && IsSpace(s[0]) {
      before := TrimStartLeaves(s[1..]);
      before := [s[0]] + before;
    } else {
      before := "";
    }
  }

  lemma {:induction false} TrimEndLeaves(s: string) returns (after: string)
    ensures AllSpace(after) && s == TrimEnd(s) + after
    ensures TrimEnd(s) != "" ==> !IsSpace(TrimEnd(s)[|TrimEnd(s)| - 1])
    decreases |s|
  {
    if s != "" && IsSpace(s[|s| - 1]) {
      after := TrimEndLeaves(s[..|s| - 1]);
      after := after + [s[|s| - 1]];
    } else {
      after := "";
    }
  }

  lemma TrimLeaves(s: string) returns (before: string, after: string)
    ensures AllSpace(before) && AllSpace(after) && s == before + Trim(s) + after
    ensures Trim(s) != "" ==> !IsSpace(Trim(s)[|Trim(s)| - 1])
  {
    before := TrimStartLeaves(s);
    after := TrimEndLeaves(TrimStart(s));
    assert before + (Trim(s) + after) == before + Trim(s) + after;
  }

  lemma Rejoined(core: string, dash: nat)
    requires dash < |core| && core[dash] == '-'
    ensures core[..dash] + ("-" + core[dash + 1..]) == core
  {
    var tail := "-" + core[dash + 1..];
    assert core[dash..] == tail;
    assert core[..dash] + core[dash..] == core;
  }

  lemma ReleaseIsWritten(core: string) returns (numerals: seq<string>)
    requires ParseCore(core).Some?
    ensures Writes(numerals, ParseCore(core).value.release)
    ensures ReleaseText(numerals) == core[..IndexOf(core, '-', 0)]
  {
    var dash := IndexOf(core, '-', 0);
    numerals := Split(core[..dash], '.');
    NumbersAreWritten(numerals);
    SplitJoins(core[..dash], '.');
  }

  lemma PrereleaseIsWritten(core: string)
    requires ParseCore(core).Some?
    ensures core[..IndexOf(core, '-', 0)] + PrereleaseText(ParseCore(core).value.prerelease) == core
  {
    var dash := IndexOf(core, '-', 0);
    if dash == |core| {
      assert core[..dash] == core && core + "" == core;
    } else {
      SplitJoins(core[dash + 1..], '.');
      Rejoined(core, dash);
    }
  }

  /** What is parsed is written as a version. */
  lemma CoreIsWritten(core: string) returns (numerals: seq<string>)
    requires ParseCore(core).Some?
    ensures var v := ParseCore(core).value; Writes(numerals, v.release) && core == CoreText(numerals, v.prerelease)
  {
    numerals := ReleaseIsWritten(core);
    PrereleaseIsWritten(core);
  }

  /** The part before the first plus sign, and the part from it on. */
  lemma HeadAndBuild(s: string) returns (build: string)
    ensures s == Split(s, '+')[0] + build && (build != "" ==> build[0] == '+' && build[|build| - 1] == s[|s| - 1])
  {
    var k := IndexOf(s, '+', 0);
    build := s[k..];
    assert s == s[..k] + s[k..];
  }

  lemma WithV(s: string)
    requires s != ""
    ensures s == (if s[0] == 'v' then "v" else "") + DropV(s)
  {
    if s[0] == 'v' {
      assert s == [s[0]] + s[1..];
    } else {
      assert "" + s == s;
    }
  }

  lemma Assembled(s: string, v: ParsedVersion, before: string, trimmed: string, prefixed: bool, plain: string,
                  core: string, numerals: seq<string>, build: string, after: string)
    requires AllSpace(before) && AllSpace(after) && s == before + trimmed + after
    requires trimmed == (if prefixed then "v" else "") + plain && plain == core + build && IsBuild(build)
    requires Valid(v) && Writes(numerals, v.release) && core == CoreText(numerals, v.prerelease)
    ensures Denotes(s, v)
  {
    assert DenotesAs(s, v, before, prefixed, numerals, build, after);
  }

  lemma LastOfV(s: string)
    requires DropV(s) != ""
    ensures s[|s| - 1] == DropV(s)[|DropV(s)| - 1]
  {
  }

  lemma AcceptedIsWritten(s: string, v: ParsedVersion)
    requires Parse(Some(s)) == Some(v)
    ensures Denotes(s, v)
  {
    var trimmed := Trim(s);
    var plain := DropV(trimmed);
    var core := Split(plain, '+')[0];
    var before, after := TrimLeaves(s);
    var build := HeadAndBuild(plain);
    var numerals := CoreIsWritten(core);
    WithV(trimmed);
    LastOfV(trimmed);
    Assembled(s, v, before, trimmed, trimmed[0] == 'v', plain, core, numerals, build, after);
  }

  /** The parser reads `v` from exactly the strings that denote it. */
  lemma ParsesIffDenotes(s: string, v: ParsedVersion)
    ensures Parse(Some(s)) == Some(v) <==> Denotes(s, v)
  {
    if Parse(Some(s)) == Some(v) {
      AcceptedIsWritten(s, v);
    }
    if Denotes(s, v) {
      var before, prefixed, numerals, build, after :| DenotesAs(s, v, before, prefixed, numerals, build, after);
      ParseReadsBack(v, before, prefixed, numerals, build, after);
    }
  }
}
