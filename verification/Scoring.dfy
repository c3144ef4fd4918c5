/**
 What a fuzzy score is worth: the score of one particular match, written down without scanning.
 */
module Scoring {
  import opened Options
  import opened Matching

  function Before(positions: seq<nat>, k: nat): int
    requires k < |positions|
  {
    if k == 0 then -1 else positions[k - 1]
  }

  predicate Adjacent(positions: seq<nat>, k: nat)
    requires k < |positions|
  {
    positions[k] == Before(positions, k) + 1
  }

  /** How many matched characters in a row stand directly before the `k`-th; the start of the text counts as one. */
  function RunAt(positions: seq<nat>, k: nat): nat
    requires k < |positions|
  {
    if !Adjacent(positions, k) then 0 else if k == 0 then 1 else RunAt(positions, k - 1) + 1
  }

  /** What the `k`-th matched character adds: 5 off for each one in a row, or 2 on for each character skipped
      since the last; 10 off where a word starts; and a tenth for each character before it. */
  function Part(text: string, positions: seq<nat>, k: nat): real
    requires k < |positions| && positions[k] < |text|
  {
    var skipped: int := positions[k] - Before(positions, k) - 1;
    (if Adjacent(positions, k) then RunAt(positions, k) as real * -5.0
     else if k == 0 then 0.0 else skipped as real * 2.0)
    - (if positions[k] == 0 || IsBoundary(text[positions[k] - 1]) then 10.0 else 0.0)
    + positions[k] as real / 10.0
  }

  function Worth(text: string, positions: seq<nat>, n: nat): real
    requires n <= |positions| && forall k :: 0 <= k < |positions| ==> positions[k] < |text|
  {
    if n == 0 then 0.0 else Worth(text, positions, n - 1) + Part(text, positions, n - 1)
  }

  /** Character `k` of the query stands at its place, which is the first one for it behind the place before. */
  predicate FirstPlace(text: string, query: string, positions: seq<nat>, k: nat)
    requires k < |positions|
  {
    && k < |query| && Before(positions, k) < positions[k] < |text| && text[positions[k]] == query[k]
    && Skips(text, query[k], Before(positions, k), positions[k])
  }

  /** The character is not between the two places. */
  predicate Skips(text: string, c: char, from: int, to: nat) {
    forall j :: 0 <= j < |text| && from < j < to ==> text[j] != c
  }

  ghost predicate FirstPlaces(text: string, query: string, positions: seq<nat>) {
    forall k :: 0 <= k < |positions| ==> FirstPlace(text, query, positions, k)
  }

  // ----- the scan -----

  function Last(positions: seq<nat>): int { if positions == [] then -1 else positions[|positions| - 1] }

  /** The places a scan has taken that has come to `index`. */
  ghost predicate Placed(text: string, query: string, index: nat, positions: seq<nat>) {
    && |positions| <= |query| && index <= |text| && FirstPlaces(text, query, positions) && Last(positions) < index
    && (|positions| < |query| ==> Skips(text, query[|positions|], Last(positions), index))
  }

  /** What the scan remembers of them. */
  ghost predicate Remembered(text: string, positions: seq<nat>, s: Scan) {
    && (forall k :: 0 <= k < |positions| ==> positions[k] < |text|)
    && s == Scan(|positions|, Worth(text, positions, |positions|), Last(positions),
                 if positions == [] then 0 else RunAt(positions, |positions| - 1))
  }

  lemma {:induction false} PrefixesAgree(text: string, positions: seq<nat>, more: nat, n: nat)
    requires n <= |positions| && more < |text| && forall k :: 0 <= k < |positions| ==> positions[k] < |text|
    ensures Worth(text, positions + [more], n) == Worth(text, positions, n)
    ensures 0 < n ==> RunAt(positions + [more], n - 1) == RunAt(positions, n - 1)
    decreases n
  {
    if 0 < n {
      PrefixesAgree(text, positions, more, n - 1);
      assert Before(positions + [more], n - 1) == Before(positions, n - 1);
    }
  }

  lemma RemembersNext(text: string, index: nat, positions: seq<nat>, s: Scan)
    requires Remembered(text, positions, s) && index < |text|
    ensures Remembered(text, positions + [index], TakeAt(text, index, s))
  {
    var n, all := |positions|, positions + [index];
    PrefixesAgree(text, positions, index, n);
    assert Before(all, n) == s.last && Last(all) == index;
    assert Adjacent(all, n) <==> s.last == index - 1;
    assert RunAt(all, n) == TakeAt(text, index, s).run;
    assert Worth(text, all, n + 1) == Worth(text, positions, n) + Part(text, all, n);
  }

  lemma PlacesNext(text: string, query: string, index: nat, positions: seq<nat>)
    requires Placed(text, query, index, positions) && index < |text| && |positions| < |query|
    requires text[index] == query[|positions|]
    ensures Placed(text, query, index + 1, positions + [index])
  {
    var all := positions + [index];
    forall k | 0 <= k < |all| ensures FirstPlace(text, query, all, k) {
      assert Before(all, k) == if k < |positions| then Before(positions, k) else Last(positions);
      assert k < |positions| ==> FirstPlace(text, query, positions, k);
    }
  }

  lemma PassesOn(text: string, query: string, index: nat, positions: seq<nat>)
    requires Placed(text, query, index, positions) && index < |text| && |positions| < |query|
    requires text[index] != query[|positions|]
    ensures Placed(text, query, index + 1, positions)
  {
  }

  lemma {:induction false} ScanStands(text: string, query: string, index: nat, positions: seq<nat>, s: Scan)
    returns (end: nat, all: seq<nat>)
    requires Placed(text, query, index, positions) && Remembered(text, positions, s)
    ensures Placed(text, query, end, all) && Remembered(text, all, ScanFrom(text, query, index, s))
    decreases |text| - index
  {
    end, all := index, positions;
    if index < |text| && |positions| < |query| {
      if text[index] == query[|positions|] {
        PlacesNext(text, query, index, positions);
        RemembersNext(text, index, positions, s);
        end, all := ScanStands(text, query, index + 1, positions + [index], TakeAt(text, index, s));
      } else {
        PassesOn(text, query, index, positions);
        end, all := ScanStands(text, query, index + 1, positions, s);
      }
    }
  }

  /** The score of a query in a text, where it has one: the worth of taking each character where it first occurs
      behind the one before, letter case aside, and 100 less where query and text are the same. */
  lemma ScoreIsWorth(query: string, text: string) returns (positions: seq<nat>)
    requires FuzzyScore(query, text).Some?
    ensures |positions| == |query| && FirstPlaces(Lower(text), Lower(query), positions)
    ensures forall k :: 0 <= k < |positions| ==> positions[k] < |Lower(text)|
    ensures FuzzyScore(query, text).value
            == Worth(Lower(text), positions, |positions|)
               - if query != "" && Lower(query) == Lower(text) then 100.0 else 0.0
  {
    var q, t := Lower(query), Lower(text);
    positions := [];
    if |q| != 0 {
      var end;
      end, positions := ScanStands(t, q, 0, [], Scan(0, 0.0, -1, 0));
    }
  }
}
