/**
 Version strings: CalVer with any number of numeric segments and SemVer prereleases.
 */
module Version {
  import opened Options
  import opened Strings

  datatype ParsedVersion = ParsedVersion(release: seq<nat>, prerelease: seq<string>)

  // ----- parsing -----

  predicate IsIdentifierChar(c: char) { IsDigit(c) || 'A' <= c <= 'Z' || 'a' <= c <= 'z' || c == '-' }

  predicate HasLeadingZero(s: string) { 1 < |s| && s[0] == '0' && AllDigits(s) }

  predicate IsIdentifier(s: string) {
    s != "" && (forall k :: 0 <= k < |s| ==> IsIdentifierChar(s[k])) && !HasLeadingZero(s)
  }

  function Numbers(segments: seq<string>): Option<seq<nat>> {
    if segments == [] then Some([])
    else if !IsNumeric(segments[|segments| - 1]) then None
    else
      match Numbers(segments[..|segments| - 1])
      case None => None
      case Some(before) => Some(before + [Decimal(segments[|segments| - 1])])
  }

  function DropV(s: string): string { if s != "" && s[0] == 'v' then s[1..] else s }

  /** The version a string denotes, or none when it cannot be ordered. */
  function Parse(version: Option<string>): (r: Option<ParsedVersion>)
    ensures r.Some? ==> Valid(r.value)
  {
    if version.None? then None
    else
      var trimmed := DropV(Trim(version.value));
      if trimmed == "" then None else ParseCore(Split(trimmed, '+')[0])
  }

  /** What is left of a version once white space, the `v` and build metadata are gone. */
  function ParseCore(core: string): (r: Option<ParsedVersion>)
    ensures r.Some? ==> Valid(r.value)
  {
    var dash := IndexOf(core, '-', 0);
    var tail := if dash == |core| then "" else core[dash + 1..];
    var release := Numbers(Split(core[..dash], '.'));
    var prerelease := if tail == "" then [] else Split(tail, '.');
    if release.None? || (dash != |core| && tail == "")
       || exists k :: 0 <= k < |prerelease| && !IsIdentifier(prerelease[k])
    then None
    else
      NumbersLength(Split(core[..dash], '.'));
      Some(ParsedVersion(release.value, prerelease))
  }

  predicate Valid(v: ParsedVersion) {
    v.release != [] && forall k :: 0 <= k < |v.prerelease| ==> IsIdentifier(v.prerelease[k])
  }

  lemma {:induction false} NumbersLength(segments: seq<string>)
    ensures Numbers(segments).Some? ==> |Numbers(segments).value| == |segments|
    decreases |segments|
  {
    if segments != [] {
      NumbersLength(segments[..|segments| - 1]);
    }
  }

  lemma {:induction false} NumbersFailAt(segments: seq<string>, k: nat)
    requires k < |segments| && !IsNumeric(segments[k])
    ensures Numbers(segments).None?
    decreases |segments|
  {
    if k < |segments| - 1 {
      NumbersFailAt(segments[..|segments| - 1], k);
    }
  }

  method ParseSegments(segments: seq<string>) returns (release: Option<seq<nat>>)
    ensures release == Numbers(segments)
  {
    var numbers := [];
    for i := 0 to |segments|
      invariant Numbers(segments[..i]) == Some(numbers)
    {
      if !IsNumeric(segments[i]) {
        NumbersFailAt(segments, i);
        return None;
      }
      assert segments[..i + 1][..i] == segments[..i];
      numbers := numbers + [Decimal(segments[i])];
    }
    assert segments[..|segments|] == segments;
    return Some(numbers);
  }

  method CheckIdentifiers(prerelease: seq<string>) returns (ok: bool)
    ensures ok <==> forall k :: 0 <= k < |prerelease| ==> IsIdentifier(prerelease[k])
  {
    for i := 0 to |prerelease|
      invariant forall k :: 0 <= k < i ==> IsIdentifier(prerelease[k])
    {
      var identifier := prerelease[i];
      if identifier == "" || !(forall k :: 0 <= k < |identifier| ==> IsIdentifierChar(identifier[k])) {
        return false;
      }
      if HasLeadingZero(identifier) {
        return false;
      }
    }
    return true;
  }

  method ParseVersion(version: Option<string>) returns (r: Option<ParsedVersion>)
    ensures r == Parse(version)
  {
    if version.None? {
      return None;
    }
    var trimmed := DropV(Trim(version.value));
    if trimmed == "" {
      return None;
    }
    var withoutBuild := Split(trimmed, '+')[0];
    var dashIndex := IndexOf(withoutBuild, '-', 0);
    var prereleasePart := if dashIndex == |withoutBuild| then "" else withoutBuild[dashIndex + 1..];
    var release := ParseSegments(Split(withoutBuild[..dashIndex], '.'));
    if release.None? || (dashIndex != |withoutBuild| && prereleasePart == "") {
      return None;
    }
    var prerelease := if prereleasePart != "" then Split(prereleasePart, '.') else [];
    var ok := CheckIdentifiers(prerelease);
    if !ok {
      return None;
    }
    return Some(ParsedVersion(release.value, prerelease));
  }

  // ----- comparing -----

  /** A missing trailing segment reads as zero. */
  function Segment(release: seq<nat>, k: nat): nat { if k < |release| then release[k] else 0 }

  function Sign(a: int, b: int): int { if a < b then -1 else if b < a then 1 else 0 }

  function CompareReleases(a: seq<nat>, b: seq<nat>, k: nat): int
    decreases |a| + |b| - k
  {
    if |a| <= k && |b| <= k then 0
    else if Segment(a, k) != Segment(b, k) then Sign(Segment(a, k), Segment(b, k))
    else CompareReleases(a, b, k + 1)
  }

  /** Character by character; a proper prefix comes first. */
  function CompareText(a: string, b: string): int {
    if a == "" && b == "" then 0
    else if a == "" then -1
    else if b == "" then 1
    else if a[0] != b[0] then (if a[0] < b[0] then -1 else 1)
    else CompareText(a[1..], b[1..])
  }

  function CompareIdentifiers(a: string, b: string): int {
    if a == b then 0
    else if IsNumeric(a) && IsNumeric(b) then (if Decimal(a) < Decimal(b) then -1 else 1)
    else if IsNumeric(a) != IsNumeric(b) then (if IsNumeric(a) then -1 else 1)
    else if CompareText(a, b) < 0 then -1 else 1
  }

  function ComparePrereleases(a: seq<string>, b: seq<string>): int {
    if a == [] && b == [] then 0
    else if a == [] then -1
    else if b == [] then 1
    else if a[0] == b[0] then ComparePrereleases(a[1..], b[1..])
    else CompareIdentifiers(a[0], b[0])
  }

  function Compare(a: ParsedVersion, b: ParsedVersion): int {
    var release := CompareReleases(a.release, b.release, 0);
    if release != 0 then release
    else if a.prerelease == [] || b.prerelease == []
    then Sign(if a.prerelease == [] then 1 else 0, if b.prerelease == [] then 1 else 0)
    else ComparePrereleases(a.prerelease, b.prerelease)
  }

  method CompareParsed(a: ParsedVersion, b: ParsedVersion) returns (r: int)
    ensures r == Compare(a, b)
  {
    var len := if |a.release| < |b.release| then |b.release| else |a.release|;
    for i := 0 to len
      invariant CompareReleases(a.release, b.release, 0) == CompareReleases(a.release, b.release, i)
    {
      var av := if i < |a.release| then a.release[i] else 0;
      var bv := if i < |b.release| then b.release[i] else 0;
      if av < bv {
        return -1;
      }
      if bv < av {
        return 1;
      }
    }
    if |a.prerelease| == 0 {
      return if |b.prerelease| == 0 then 0 else 1;
    }
    if |b.prerelease| == 0 {
      return -1;
    }
    var preLen := if |a.prerelease| < |b.prerelease| then |b.prerelease| else |a.prerelease|;
    for i := 0 to preLen
      invariant i <= |a.prerelease| && i <= |b.prerelease|
      invariant ComparePrereleases(a.prerelease, b.prerelease)
                == ComparePrereleases(a.prerelease[i..], b.prerelease[i..])
    {
      if i == |a.prerelease| {
        return -1;
      }
      if i == |b.prerelease| {
        return 1;
      }
      var ai, bi := a.prerelease[i], b.prerelease[i];
      assert a.prerelease[i..][1..] == a.prerelease[i + 1..] && b.prerelease[i..][1..] == b.prerelease[i + 1..];
      if ai == bi {
        continue;
      }
      var aNumeric, bNumeric := IsNumeric(ai), IsNumeric(bi);
      if aNumeric && bNumeric {
        return if Decimal(ai) < Decimal(bi) then -1 else 1;
      }
      if aNumeric != bNumeric {
        return if aNumeric then -1 else 1;
      }
      return if CompareText(ai, bi) < 0 then -1 else 1;
    }
    return 0;
  }

  function CompareVersions(v1: Option<string>, v2: Option<string>): int {
    var p1, p2 := Parse(v1), Parse(v2);
    if p1.None? && p2.None? then 0 else if p1.None? then -1 else if p2.None? then 1 else Compare(p1.value, p2.value)
  }

  predicate IsNewer(current: Option<string>, remote: Option<string>) {
    Parse(remote).Some? && CompareVersions(current, remote) < 0
  }

  // ----- precedence as SemVer 2.0.0 section 11 words it -----

  /** One release list precedes another at the first segment where they differ. */
  ghost predicate ReleaseBefore(a: seq<nat>, b: seq<nat>) {
    exists k: nat :: Segment(a, k) < Segment(b, k) && SameSegments(a, b, k)
  }

  ghost predicate SameSegments(a: seq<nat>, b: seq<nat>, n: nat) {
    forall i: nat :: i < n ==> Segment(a, i) == Segment(b, i)
  }

  ghost predicate SameRelease(a: seq<nat>, b: seq<nat>) { forall i: nat :: Segment(a, i) == Segment(b, i) }

  /** ASCII order. */
  ghost predicate TextBefore(a: string, b: string) { exists k: nat :: TextBeforeAt(a, b, k) }

  predicate TextBeforeAt(a: string, b: string, k: nat) {
    k <= |a| && k < |b| && a[..k] == b[..k] && (k == |a| || a[k] < b[k])
  }

  /** Numeric identifiers compare as numbers and come before all others, which compare as text. */
  ghost predicate IdentifierBefore(a: string, b: string) {
    if IsNumeric(a) then !IsNumeric(b) || Decimal(a) < Decimal(b) else !IsNumeric(b) && TextBefore(a, b)
  }

  /** The first identifier that differs decides; with none, the longer list comes after. */
  ghost predicate PrereleaseBefore(a: seq<string>, b: seq<string>) { exists k: nat :: PrereleaseBeforeAt(a, b, k) }

  ghost predicate PrereleaseBeforeAt(a: seq<string>, b: seq<string>, k: nat) {
    k <= |a| && k < |b| && a[..k] == b[..k] && (k == |a| || (a[k] != b[k] && IdentifierBefore(a[k], b[k])))
  }

  ghost predicate Precedes(a: ParsedVersion, b: ParsedVersion) {
    || ReleaseBefore(a.release, b.release)
    || (SameRelease(a.release, b.release) && a.prerelease != []
        && (b.prerelease == [] || PrereleaseBefore(a.prerelease, b.prerelease)))
  }
}
