/**
 The two greedy matchers behind the selector's filter.
 */
module Matching {
  import opened Options
  import opened Strings

  function Lower(s: string): (r: string)
    ensures |r| == |s|
  {
    seq(|s|, k requires 0 <= k < |s| => if 'A' <= s[k] <= 'Z' then s[k] - 'A' + 'a' else s[k])
  }

  // ----- what it means to match -----

  /** `positions` picks the characters of `query` out of `text`, left to right. */
  ghost predicate PicksOut(text: string, query: string, positions: seq<nat>) {
    && |positions| == |query|
    && (forall k :: 0 <= k < |positions| ==> positions[k] < |text| && text[positions[k]] == query[k])
    && (forall j, k :: 0 <= j < k < |positions| ==> positions[j] < positions[k])
  }

  ghost predicate Embeds(text: string, query: string) { exists positions :: PicksOut(text, query, positions) }

  /** Greedy matching: every character of the query is taken where it first occurs. */
  predicate Greedy(text: string, query: string) {
    if query == "" then true
    else if text == "" then false
    else if text[0] == query[0] then Greedy(text[1..], query[1..])
    else Greedy(text[1..], query)
  }

  /** Greedy matching succeeds exactly when some match exists. */
  lemma {:induction false} GreedyIsComplete(text: string, query: string)
    ensures Greedy(text, query) <==> Embeds(text, query)
    decreases |text|
  {
    if query == "" {
      assert PicksOut(text, query, []);
    } else if text == "" {
      forall positions ensures !PicksOut(text, query, positions) {
        var first := if positions == [] then 0 else positions[0];
      }
    } else {
      var rest := if text[0] == query[0] then query[1..] else query;
      GreedyIsComplete(text[1..], rest);
      if Embeds(text[1..], rest) {
        var positions :| PicksOut(text[1..], rest, positions);
        LongerMatch(text, query, positions);
      }
      if Embeds(text, query) {
        var positions :| PicksOut(text, query, positions);
        LaterMatch(text, query, positions);
      }
    }
  }

  function MovedBy(positions: seq<nat>): (r: seq<nat>)
    ensures |r| == |positions| && forall k :: 0 <= k < |r| ==> r[k] == positions[k] + 1
  {
    seq(|positions|, k requires 0 <= k < |positions| => positions[k] + 1)
  }

  lemma MovedMatch(text: string, query: string, positions: seq<nat>)
    requires text != "" && PicksOut(text[1..], query, positions)
    ensures PicksOut(text, query, MovedBy(positions))
  {
  }

  lemma PrependedMatch(text: string, query: string, positions: seq<nat>)
    requires text != "" && query != "" && text[0] == query[0] && PicksOut(text, query[1..], positions)
    requires forall k :: 0 <= k < |positions| ==> 0 < positions[k]
    ensures PicksOut(text, query, [0] + positions)
  {
    var all := [0] + positions;
    assert forall k :: 1 <= k < |all| ==> all[k] == positions[k - 1] && query[k] == query[1..][k - 1];
  }

  lemma LongerMatch(text: string, query: string, positions: seq<nat>)
    requires text != "" && query != ""
    requires PicksOut(text[1..], if text[0] == query[0] then query[1..] else query, positions)
    ensures Embeds(text, query)
  {
    if text[0] == query[0] {
      MovedMatch(text, query[1..], positions);
      PrependedMatch(text, query, MovedBy(positions));
    } else {
      MovedMatch(text, query, positions);
    }
  }

  /** A match can always be moved so that it leaves the first character of the text to a greedy start. */
  lemma LaterMatch(text: string, query: string, positions: seq<nat>)
    requires text != "" && query != "" && PicksOut(text, query, positions)
    ensures Embeds(text[1..], if text[0] == query[0] then query[1..] else query)
  {
    if text[0] == query[0] {
      var tail := seq(|positions| - 1, k requires 0 <= k < |positions| - 1 => positions[k + 1] - 1);
      assert PicksOut(text[1..], query[1..], tail);
    } else {
      var earlier := seq(|positions|, k requires 0 <= k < |positions| => positions[k] - 1);
      assert PicksOut(text[1..], query, earlier);
    }
  }

  method IsSubsequence(text: string, query: string) returns (found: bool)
    ensures found <==> Embeds(text, query)
  {
    var j, i := 0, 0;
    while i < |text| && j < |query|
      invariant 0 <= i <= |text| && 0 <= j <= |query|
      invariant Greedy(text, query) <==> Greedy(text[i..], query[j..])
    {
      assert text[i..][1..] == text[i + 1..] && query[j..][1..] == query[j + 1..];
      if text[i] == query[j] {
        j := j + 1;
      }
      i := i + 1;
    }
    GreedyIsComplete(text, query);
    found := j == |query|;
  }

  // ----- scoring -----

  predicate IsBoundary(c: char) { IsSpace(c) || c == '-' || c == '_' || c == '.' || c == '/' || c == ':' }

  /** Where a fuzzy scan stands: the query characters taken, the score so far, the last position
      taken or -1, and the length of the current run. */
  datatype Scan = Scan(taken: nat, score: real, last: int, run: nat)

  function TakeAt(text: string, index: nat, s: Scan): Scan
    requires index < |text|
  {
    var run := if s.last == index - 1 then s.run + 1 else 0;
    var gap := if s.last == index - 1 then -(run as real) * 5.0
               else if 0 <= s.last then (index - s.last - 1) as real * 2.0 else 0.0;
    var bonus := if index == 0 || IsBoundary(text[index - 1]) then 10.0 else 0.0;
    Scan(s.taken + 1, s.score + gap - bonus + index as real * 0.1, index, run)
  }

  function ScanFrom(text: string, query: string, index: nat, s: Scan): Scan
    decreases |text| - index
  {
    if |text| <= index || |query| <= s.taken then s
    else ScanFrom(text, query, index + 1, if text[index] == query[s.taken] then TakeAt(text, index, s) else s)
  }

  /** Lower is better; none when the query does not match. */
  function FuzzyScore(query: string, text: string): Option<real> {
    var q, t := Lower(query), Lower(text);
    if |q| == 0 then Some(0.0)
    else if |t| < |q| then None
    else
      var s := ScanFrom(t, q, 0, Scan(0, 0.0, -1, 0));
      if s.taken < |q| then None else Some(if q == t then s.score - 100.0 else s.score)
  }

  lemma {:induction false} ScanTakesGreedily(text: string, query: string, index: nat, s: Scan)
    requires index <= |text| && s.taken <= |query|
    ensures |query| <= ScanFrom(text, query, index, s).taken <==> Greedy(text[index..], query[s.taken..])
    decreases |text| - index
  {
    if index < |text| && s.taken < |query| {
      assert text[index..][1..] == text[index + 1..] && query[s.taken..][1..] == query[s.taken + 1..];
      ScanTakesGreedily(text, query, index + 1, if text[index] == query[s.taken] then TakeAt(text, index, s) else s);
    }
  }

  lemma {:induction false} EmbeddingFits(text: string, query: string)
    requires Greedy(text, query)
    ensures |query| <= |text|
    decreases |text|
  {
    if query != "" {
      EmbeddingFits(text[1..], if text[0] == query[0] then query[1..] else query);
    }
  }

  /** A score exists exactly when the query embeds in the text, letter case aside. */
  lemma FuzzyScoreIsExact(query: string, text: string)
    ensures FuzzyScore(query, text).Some? <==> Embeds(Lower(text), Lower(query))
  {
    var q, t := Lower(query), Lower(text);
    GreedyIsComplete(t, q);
    if Greedy(t, q) {
      EmbeddingFits(t, q);
    }
    ScanTakesGreedily(t, q, 0, Scan(0, 0.0, -1, 0));
    assert t[0..] == t && q[0..] == q;
  }

  const FIRST := Scan(0, 0.0, -1, 0)

  /** A scan that has come to `index` in state `s`. */
  ghost predicate Reaches(text: string, query: string, index: nat, s: Scan) {
    ScanFrom(text, query, 0, FIRST) == ScanFrom(text, query, index, s)
  }

  lemma ReachesNext(text: string, query: string, index: nat, s: Scan)
    requires index < |text| && s.taken < |query| && Reaches(text, query, index, s)
    ensures Reaches(text, query, index + 1, if text[index] == query[s.taken] then TakeAt(text, index, s) else s)
  {
  }

  method FuzzyMatchScore(query: string, text: string) returns (r: Option<real>)
    ensures r == FuzzyScore(query, text)
  {
    var normalizedQuery, normalizedText := Lower(query), Lower(text);
    if |normalizedQuery| == 0 {
      return Some(0.0);
    }
    if |normalizedText| < |normalizedQuery| {
      return None;
    }
    var queryIndex, score, lastMatchIndex, consecutiveMatches := 0, 0.0, -1, 0;
    var index := 0;
    while index < |normalizedText| && queryIndex < |normalizedQuery|
      invariant 0 <= index <= |normalizedText| && 0 <= queryIndex <= |normalizedQuery| && 0 <= consecutiveMatches
      invariant Reaches(normalizedText, normalizedQuery, index,
                Scan(queryIndex, score, lastMatchIndex, consecutiveMatches))
    {
      ghost var scan := Scan(queryIndex, score, lastMatchIndex, consecutiveMatches);
      ReachesNext(normalizedText, normalizedQuery, index, scan);
      if normalizedText[index] == normalizedQuery[queryIndex] {
        var atWordBoundary := index == 0 || IsBoundary(normalizedText[index - 1]);
        if lastMatchIndex == index - 1 {
          consecutiveMatches := consecutiveMatches + 1;
          score := score - consecutiveMatches as real * 5.0;
        } else {
          consecutiveMatches := 0;
          if 0 <= lastMatchIndex {
            score := score + (index - lastMatchIndex - 1) as real * 2.0;
          }
        }
        if atWordBoundary {
          score := score - 10.0;
        }
        score := score + index as real * 0.1;
        lastMatchIndex := index;
        queryIndex := queryIndex + 1;
        assert Scan(queryIndex, score, lastMatchIndex, consecutiveMatches) == TakeAt(normalizedText, index, scan);
      }
      index := index + 1;
    }
    if queryIndex < |normalizedQuery| {
      return None;
    }
    if normalizedQuery == normalizedText {
      score := score - 100.0;
    }
    return Some(score);
  }
}
