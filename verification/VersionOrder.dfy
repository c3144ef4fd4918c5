/**
 Version comparison is a total preorder on all strings and agrees with SemVer precedence.
 */
module VersionOrder {
  import opened Options
  import opened Strings
  import opened Version

  // ----- identifiers -----

  lemma {:induction false} DecimalIsLarge(s: string)
    requires AllDigits(s) && 1 < |s| && s[0] != '0'
    ensures 10 <= Decimal(s)
    decreases |s|
  {
    var init := s[..|s| - 1];
    if |init| == 1 {
      assert Decimal(init) == 10 * Decimal(init[..0]) + (init[0] - '0') as nat;
    } else {
      DecimalIsLarge(init);
    }
  }

  /** Digit strings without leading zeros are equal when their values are. */
  lemma {:induction false} DecimalIsInjective(a: string, b: string)
    requires IsNumeric(a) && IsNumeric(b) && !HasLeadingZero(a) && !HasLeadingZero(b)
    requires Decimal(a) == Decimal(b)
    ensures a == b
    decreases |a|
  {
    if |a| == 1 || |b| == 1 {
      if 1 < |a| { DecimalIsLarge(a); }
      if 1 < |b| { DecimalIsLarge(b); }
      assert Decimal(a[..0]) == 0 && Decimal(b[..0]) == 0;
      assert a == [a[0]] && b == [b[0]];
    } else {
      var a', b' := a[..|a| - 1], b[..|b| - 1];
      assert a'[0] == a[0] && b'[0] == b[0];
      DecimalIsInjective(a', b');
      assert a == a' + [a[|a| - 1]] && b == b' + [b[|b| - 1]];
    }
  }

  lemma {:induction false} TextIsTotal(a: string, b: string)
    ensures CompareText(a, b) == -CompareText(b, a)
    ensures CompareText(a, b) == 0 <==> a == b
    decreases |a|
  {
    if a != "" && b != "" && a[0] == b[0] {
      TextIsTotal(a[1..], b[1..]);
      assert a == [a[0]] + a[1..] && b == [b[0]] + b[1..];
    }
  }

  lemma {:induction false} TextIsTransitive(a: string, b: string, c: string)
    requires CompareText(a, b) < 0 && CompareText(b, c) < 0
    ensures CompareText(a, c) < 0
    decreases |a|
  {
    if a != "" && b != "" && c != "" && a[0] == b[0] == c[0] {
      TextIsTransitive(a[1..], b[1..], c[1..]);
    }
  }

  lemma {:induction false} TextAgrees(a: string, b: string)
    ensures CompareText(a, b) < 0 <==> TextBefore(a, b)
    decreases |a|
  {
    if a != "" && b != "" && a[0] == b[0] {
      TextAgrees(a[1..], b[1..]);
      if TextBefore(a[1..], b[1..]) {
        var k: nat :| TextBeforeAt(a[1..], b[1..], k);
        assert a[..k + 1] == [a[0]] + a[1..][..k] && b[..k + 1] == [b[0]] + b[1..][..k];
        assert TextBeforeAt(a, b, k + 1);
      }
      if TextBefore(a, b) {
        var k: nat :| TextBeforeAt(a, b, k);
        assert k != 0;
        assert a[1..][..k - 1] == a[..k][1..] && b[1..][..k - 1] == b[..k][1..];
        assert TextBeforeAt(a[1..], b[1..], k - 1);
      }
    } else if TextBefore(a, b) {
      var k: nat :| TextBeforeAt(a, b, k);
      if k != 0 { assert a[..k][0] == b[..k][0]; }
    } else if CompareText(a, b) < 0 {
      assert TextBeforeAt(a, b, 0);
    }
  }

  lemma IdentifiersAreTotal(a: string, b: string)
    requires IsIdentifier(a) && IsIdentifier(b)
    ensures CompareIdentifiers(a, b) == -CompareIdentifiers(b, a)
    ensures CompareIdentifiers(a, b) == 0 <==> a == b
    ensures a != b ==> (CompareIdentifiers(a, b) < 0 <==> IdentifierBefore(a, b))
  {
    TextIsTotal(a, b);
    TextAgrees(a, b);
    if IsNumeric(a) && IsNumeric(b) && Decimal(a) == Decimal(b) {
      DecimalIsInjective(a, b);
    }
  }

  lemma IdentifiersAreTransitive(a: string, b: string, c: string)
    requires IsIdentifier(a) && IsIdentifier(b) && IsIdentifier(c)
    requires CompareIdentifiers(a, b) < 0 && CompareIdentifiers(b, c) < 0
    ensures CompareIdentifiers(a, c) < 0
  {
    IdentifiersAreTotal(a, c);
    if !IsNumeric(a) && !IsNumeric(b) && !IsNumeric(c) {
      TextIsTransitive(a, b, c);
      TextIsTotal(a, c);
    }
  }

  // ----- prerelease lists -----

  predicate AreIdentifiers(ids: seq<string>) { forall k :: 0 <= k < |ids| ==> IsIdentifier(ids[k]) }

  lemma {:induction false} PrereleasesAreTotal(a: seq<string>, b: seq<string>)
    requires AreIdentifiers(a) && AreIdentifiers(b)
    ensures ComparePrereleases(a, b) == -ComparePrereleases(b, a)
    ensures ComparePrereleases(a, b) == 0 <==> a == b
    decreases |a|
  {
    if a != [] && b != [] {
      IdentifiersAreTotal(a[0], b[0]);
      PrereleasesAreTotal(a[1..], b[1..]);
      assert a == [a[0]] + a[1..] && b == [b[0]] + b[1..];
    }
  }

  lemma {:induction false} PrereleasesAreTransitive(a: seq<string>, b: seq<string>, c: seq<string>)
    requires AreIdentifiers(a) && AreIdentifiers(b) && AreIdentifiers(c)
    requires ComparePrereleases(a, b) < 0 && ComparePrereleases(b, c) < 0
    ensures ComparePrereleases(a, c) < 0
    decreases |a|
  {
    if a != [] && b != [] && c != [] {
      if a[0] == b[0] == c[0] {
        PrereleasesAreTransitive(a[1..], b[1..], c[1..]);
      } else if a[0] != b[0] && b[0] != c[0] {
        IdentifiersAreTransitive(a[0], b[0], c[0]);
        IdentifiersAreTotal(a[0], c[0]);
      }
    }
  }

  lemma {:induction false} PrereleasesAgree(a: seq<string>, b: seq<string>)
    requires AreIdentifiers(a) && AreIdentifiers(b)
    ensures ComparePrereleases(a, b) < 0 <==> PrereleaseBefore(a, b)
    decreases |a|
  {
    if a != [] && b != [] && a[0] == b[0] {
      PrereleasesAgree(a[1..], b[1..]);
      if PrereleaseBefore(a[1..], b[1..]) {
        var k: nat :| PrereleaseBeforeAt(a[1..], b[1..], k);
        assert a[..k + 1] == [a[0]] + a[1..][..k] && b[..k + 1] == [b[0]] + b[1..][..k];
        assert PrereleaseBeforeAt(a, b, k + 1);
      }
      if PrereleaseBefore(a, b) {
        var k: nat :| PrereleaseBeforeAt(a, b, k);
        assert k != 0;
        assert a[1..][..k - 1] == a[..k][1..] && b[1..][..k - 1] == b[..k][1..];
        assert PrereleaseBeforeAt(a[1..], b[1..], k - 1);
      }
    } else {
      if a != [] && b != [] {
        IdentifiersAreTotal(a[0], b[0]);
      }
      if PrereleaseBefore(a, b) {
        var k: nat :| PrereleaseBeforeAt(a, b, k);
        if k != 0 { assert a[..k][0] == b[..k][0]; }
      }
      if ComparePrereleases(a, b) < 0 {
        assert PrereleaseBeforeAt(a, b, 0);
      }
    }
  }

  // ----- release lists -----

  lemma {:induction false} ReleasesAgree(a: seq<nat>, b: seq<nat>, k: nat)
    requires SameSegments(a, b, k)
    ensures CompareReleases(a, b, k) == -CompareReleases(b, a, k)
    ensures CompareReleases(a, b, k) < 0 <==> ReleaseBefore(a, b)
    ensures CompareReleases(a, b, k) == 0 <==> SameRelease(a, b)
    decreases |a| + |b| - k
  {
    if |a| <= k && |b| <= k {
      assert forall i: nat :: k <= i ==> Segment(a, i) == Segment(b, i);
    } else if Segment(a, k) == Segment(b, k) {
      ReleasesAgree(a, b, k + 1);
    } else {
      forall i: nat | Segment(a, i) < Segment(b, i) && SameSegments(a, b, i) ensures i == k {
        assert i < k ==> Segment(a, i) == Segment(b, i);
        assert k < i ==> Segment(a, k) == Segment(b, k);
      }
    }
  }

  lemma ReleasesAreTransitive(a: seq<nat>, b: seq<nat>, c: seq<nat>)
    ensures ReleaseBefore(a, b) && ReleaseBefore(b, c) ==> ReleaseBefore(a, c)
    ensures ReleaseBefore(a, b) && SameRelease(b, c) ==> ReleaseBefore(a, c)
    ensures SameRelease(a, b) && ReleaseBefore(b, c) ==> ReleaseBefore(a, c)
    ensures SameRelease(a, b) && SameRelease(b, c) ==> SameRelease(a, c)
  {
    if ReleaseBefore(a, b) && ReleaseBefore(b, c) {
      var k: nat :| Segment(a, k) < Segment(b, k) && SameSegments(a, b, k);
      var l: nat :| Segment(b, l) < Segment(c, l) && SameSegments(b, c, l);
      var m := if k < l then k else l;
      assert Segment(a, m) < Segment(c, m) && SameSegments(a, c, m);
    }
    if ReleaseBefore(a, b) && SameRelease(b, c) {
      var k: nat :| Segment(a, k) < Segment(b, k) && SameSegments(a, b, k);
      assert Segment(a, k) < Segment(c, k) && SameSegments(a, c, k);
    }
    if SameRelease(a, b) && ReleaseBefore(b, c) {
      var k: nat :| Segment(b, k) < Segment(c, k) && SameSegments(b, c, k);
      assert Segment(a, k) < Segment(c, k) && SameSegments(a, c, k);
    }
  }

  // ----- versions -----

  /** Comparison puts a version first exactly when SemVer precedence does, and ties exactly when the
      releases agree up to trailing zeros and the prerelease lists are equal. */
  lemma ComparisonIsPrecedence(a: ParsedVersion, b: ParsedVersion)
    requires Valid(a) && Valid(b)
    ensures Compare(a, b) == -Compare(b, a)
    ensures Compare(a, b) < 0 <==> Precedes(a, b)
    ensures Compare(a, b) == 0 <==> SameRelease(a.release, b.release) && a.prerelease == b.prerelease
  {
    ReleasesAgree(a.release, b.release, 0);
    PrereleasesAreTotal(a.prerelease, b.prerelease);
    PrereleasesAgree(a.prerelease, b.prerelease);
  }

  lemma ComparisonIsTransitive(a: ParsedVersion, b: ParsedVersion, c: ParsedVersion)
    requires Valid(a) && Valid(b) && Valid(c)
    requires Compare(a, b) <= 0 && Compare(b, c) <= 0
    ensures Compare(a, c) <= 0
    ensures Compare(a, b) < 0 || Compare(b, c) < 0 ==> Compare(a, c) < 0
  {
    ReleasesAgree(a.release, b.release, 0);
    ReleasesAgree(b.release, c.release, 0);
    ReleasesAgree(a.release, c.release, 0);
    ReleasesAreTransitive(a.release, b.release, c.release);
    PrereleasesAreTotal(a.prerelease, b.prerelease);
    PrereleasesAreTotal(b.prerelease, c.prerelease);
    if ComparePrereleases(a.prerelease, b.prerelease) < 0 && ComparePrereleases(b.prerelease, c.prerelease) < 0 {
      PrereleasesAreTransitive(a.prerelease, b.prerelease, c.prerelease);
    }
  }

  /** On all strings: reflexive, sign-antisymmetric and transitive. */
  lemma VersionsArePreordered(a: Option<string>, b: Option<string>, c: Option<string>)
    ensures CompareVersions(a, a) == 0
    ensures CompareVersions(a, b) == -CompareVersions(b, a)
    ensures CompareVersions(a, b) <= 0 && CompareVersions(b, c) <= 0 ==> CompareVersions(a, c) <= 0
    ensures CompareVersions(a, b) < 0 && CompareVersions(b, c) <= 0 ==> CompareVersions(a, c) < 0
    ensures CompareVersions(a, b) <= 0 && CompareVersions(b, c) < 0 ==> CompareVersions(a, c) < 0
  {
    var p, q, r := Parse(a), Parse(b), Parse(c);
    if p.Some? {
      ComparisonIsPrecedence(p.value, p.value);
    }
    if p.Some? && q.Some? {
      ComparisonIsPrecedence(p.value, q.value);
      if r.Some? && Compare(p.value, q.value) <= 0 && Compare(q.value, r.value) <= 0 {
        ComparisonIsTransitive(p.value, q.value, r.value);
      }
    }
  }

  /** Two strings tie exactly when neither is a version, or both are and differ in trailing zeros only. */
  lemma VersionsTie(a: Option<string>, b: Option<string>)
    ensures CompareVersions(a, b) == 0 <==>
            match (Parse(a), Parse(b))
            case (None, None) => true
            case (Some(p), Some(q)) => SameRelease(p.release, q.release) && p.prerelease == q.prerelease
            case _ => false
  {
    if Parse(a).Some? && Parse(b).Some? {
      ComparisonIsPrecedence(Parse(a).value, Parse(b).value);
    }
  }

  /** An update is never offered both ways, never to an unreadable version, and chains of updates add up. */
  lemma NewerIsStrict(a: Option<string>, b: Option<string>, c: Option<string>)
    ensures !(IsNewer(a, b) && IsNewer(b, a))
    ensures IsNewer(a, b) && IsNewer(b, c) ==> IsNewer(a, c)
    ensures IsNewer(a, b) <==> Parse(b).Some? && (Parse(a).None? || Precedes(Parse(a).value, Parse(b).value))
  {
    VersionsArePreordered(a, b, c);
    if Parse(a).Some? && Parse(b).Some? {
      ComparisonIsPrecedence(Parse(a).value, Parse(b).value);
    }
  }

  // ----- choosing a release -----

  datatype Release = Release(tag: string, version: string, prerelease: bool)

  predicate Eligible(r: Release, includePrerelease: bool) { includePrerelease || !r.prerelease }

  /** A sign that orders releases: antisymmetric and transitive. */
  ghost predicate Orders(order: (Release, Release) -> int) {
    && (forall a, b :: order(a, b) == -order(b, a))
    && (forall a, b, c :: order(a, b) <= 0 && order(b, c) < 0 ==> order(a, c) < 0)
  }

  /** `releases[at]` is the first of the greatest eligible releases before `n`. */
  ghost predicate FirstGreatest(releases: seq<Release>, order: (Release, Release) -> int, eligible: Release -> bool,
                                n: nat, at: nat) {
    && at < n <= |releases| && eligible(releases[at])
    && (forall k :: 0 <= k < n && eligible(releases[k]) ==> order(releases[k], releases[at]) <= 0)
    && (forall k :: 0 <= k < at && eligible(releases[k]) ==> order(releases[k], releases[at]) < 0)
  }

  method PickGreatest(releases: seq<Release>, order: (Release, Release) -> int, eligible: Release -> bool)
    returns (best: Option<Release>, ghost at: nat)
    requires Orders(order)
    ensures best.None? <==> forall k :: 0 <= k < |releases| ==> !eligible(releases[k])
    ensures best.Some? ==> FirstGreatest(releases, order, eligible, |releases|, at) && best.value == releases[at]
  {
    best, at := None, 0;
    for i := 0 to |releases|
      invariant best.None? <==> forall k :: 0 <= k < i ==> !eligible(releases[k])
      invariant best.Some? ==> FirstGreatest(releases, order, eligible, i, at) && best.value == releases[at]
    {
      var candidate := releases[i];
      if !eligible(candidate) {
        continue;
      }
      if best.None? || order(best.value, candidate) < 0 {
        best, at := Some(candidate), i;
      }
    }
  }

  lemma VersionsOrder()
    ensures Orders((a: Release, b: Release) => CompareVersions(Some(a.version), Some(b.version)))
  {
    var order := (a: Release, b: Release) => CompareVersions(Some(a.version), Some(b.version));
    forall a, b ensures order(a, b) == -order(b, a) {
      VersionsArePreordered(Some(a.version), Some(b.version), None);
    }
    forall a, b, c ensures order(a, b) <= 0 && order(b, c) < 0 ==> order(a, c) < 0 {
      VersionsArePreordered(Some(a.version), Some(b.version), Some(c.version));
    }
  }

  /** The newest release a channel may install: none only when there is none, and the earliest of equals. */
  method SelectRelease(releases: seq<Release>, includePrerelease: bool) returns (best: Option<Release>, ghost at: nat)
    ensures best.None? <==> forall k :: 0 <= k < |releases| ==> !Eligible(releases[k], includePrerelease)
    ensures best.Some? ==> at < |releases| && releases[at] == best.value && Eligible(best.value, includePrerelease)
    ensures best.Some? ==> forall k :: 0 <= k < |releases| && Eligible(releases[k], includePrerelease) ==>
              CompareVersions(Some(releases[k].version), Some(best.value.version)) <= 0
    ensures best.Some? ==> forall k :: 0 <= k < at && Eligible(releases[k], includePrerelease) ==>
              CompareVersions(Some(releases[k].version), Some(best.value.version)) < 0
  {
    VersionsOrder();
    best, at := PickGreatest(releases, (a: Release, b: Release) => CompareVersions(Some(a.version), Some(b.version)),
                             (r: Release) => Eligible(r, includePrerelease));
  }
}
