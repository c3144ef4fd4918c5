/**
 The words of a query, and what a word with letters and digits exchanged is.
 */
module QueryWords {
  import opened Options
  import opened Strings
  import opened Matching
  import opened Filter

  predicate AllOf(s: string, separator: char -> bool) { forall k :: 0 <= k < |s| ==> separator(s[k]) }

  predicate NoneOf(s: string, separator: char -> bool) { forall k :: 0 <= k < |s| ==> !separator(s[k]) }

  /** Words with gaps around them. */
  function Spaced(words: seq<string>, gaps: seq<string>): string
    requires |gaps| == |words| + 1
  {
    if words == [] then gaps[0] else gaps[0] + (words[0] + Spaced(words[1..], gaps[1..]))
  }

  /** Proper words, and gaps of separators that keep them apart. */
  predicate Apart(words: seq<string>, gaps: seq<string>, separator: char -> bool) {
    && |gaps| == |words| + 1
    && (forall k :: 0 <= k < |words| ==> words[k] != "" && NoneOf(words[k], separator))
    && (forall k :: 0 <= k < |gaps| ==> AllOf(gaps[k], separator))
    && (forall k :: 0 < k < |words| ==> gaps[k] != "")
  }

  lemma {:induction false} GapIsSkipped(gap: string, rest: string, separator: char -> bool)
    requires AllOf(gap, separator)
    ensures Words(gap + rest, separator) == Words(rest, separator)
    decreases |gap|
  {
    if gap == "" {
      assert gap + rest == rest;
    } else {
      assert (gap + rest)[1..] == gap[1..] + rest;
      GapIsSkipped(gap[1..], rest, separator);
    }
  }

  lemma {:induction false} RunEnds(word: string, rest: string, separator: char -> bool)
    requires NoneOf(word, separator) && (rest != "" ==> separator(rest[0]))
    ensures RunLength(word + rest, separator) == |word|
    decreases |word|
  {
    if word == "" {
      assert word + rest == rest;
    } else {
      assert (word + rest)[1..] == word[1..] + rest;
      RunEnds(word[1..], rest, separator);
    }
  }

  /** Whatever stands between them, the words are read back: all of them, whole, and in order. */
  lemma {:induction false} WordsReadBack(words: seq<string>, gaps: seq<string>, separator: char -> bool)
    requires Apart(words, gaps, separator)
    ensures Words(Spaced(words, gaps), separator) == words
    decreases |words|
  {
    if words == [] {
      GapIsSkipped(gaps[0], "", separator);
      assert gaps[0] + "" == gaps[0];
    } else {
      var rest := Spaced(words[1..], gaps[1..]);
      var text := words[0] + rest;
      GapIsSkipped(gaps[0], text, separator);
      RestStartsApart(words, gaps, separator);
      RunEnds(words[0], rest, separator);
      assert text[..|words[0]|] == words[0] && text[|words[0]|..] == rest && text[0] == words[0][0];
      WordsReadBack(words[1..], gaps[1..], separator);
      assert words == [words[0]] + words[1..];
    }
  }

  lemma RestStartsApart(words: seq<string>, gaps: seq<string>, separator: char -> bool)
    requires Apart(words, gaps, separator) && words != []
    ensures Apart(words[1..], gaps[1..], separator)
    ensures var rest := Spaced(words[1..], gaps[1..]); rest != "" ==> separator(rest[0])
  {
    if 1 < |words| {
      assert gaps[1] != "" && gaps[1..][0] == gaps[1];
    }
  }

  /** Letters before digits, or digits before letters: at least one of each. */
  predicate Mixed(token: string, n: nat) {
    && 0 < n < |token|
    && ((forall k :: 0 <= k < |token| ==> if k < n then IsLetter(token[k]) else IsDigit(token[k]))
        || (forall k :: 0 <= k < |token| ==> if k < n then IsDigit(token[k]) else IsLetter(token[k])))
  }

  lemma {:induction false} RunIs(s: string, separator: char -> bool, n: nat)
    requires n <= |s| && (forall k :: 0 <= k < n ==> !separator(s[k])) && (n < |s| ==> separator(s[n]))
    ensures RunLength(s, separator) == n
    decreases |s|
  {
    if 0 < n {
      RunIs(s[1..], separator, n - 1);
    }
  }

  lemma {:induction false} RunMeans(s: string, separator: char -> bool)
    ensures forall k :: 0 <= k < RunLength(s, separator) ==> !separator(s[k])
    decreases |s|
  {
    if s != "" && !separator(s[0]) {
      RunMeans(s[1..], separator);
      forall k | 0 <= k < RunLength(s, separator) ensures !separator(s[k]) {
        assert 0 < k ==> s[k] == s[1..][k - 1];
      }
    }
  }

  /** Such a word has its two halves exchanged. */
  lemma MixedIsSwapped(token: string, n: nat)
    requires Mixed(token, n)
    ensures Swapped(token) == token[n..] + token[..n]
  {
    if IsLetter(token[0]) {
      RunIs(token, c => !IsLetter(c), n);
      RunIs(token[n..], c => !IsDigit(c), |token| - n);
    } else {
      RunIs(token, c => !IsLetter(c), 0);
      RunIs(token, c => !IsDigit(c), n);
      RunIs(token[n..], c => !IsLetter(c), |token| - n);
    }
  }

  /** And no other word has anything to exchange. */
  lemma OnlyMixedIsSwapped(token: string)
    ensures Swapped(token) != "" ==> exists n :: Mixed(token, n)
  {
    if Swapped(token) != "" {
      var letters, digits := RunLength(token, c => !IsLetter(c)), RunLength(token, c => !IsDigit(c));
      RunMeans(token, c => !IsLetter(c));
      RunMeans(token, c => !IsDigit(c));
      if 0 < letters < |token| && RunLength(token[letters..], c => !IsDigit(c)) == |token| - letters {
        RunMeans(token[letters..], c => !IsDigit(c));
        assert forall k :: letters <= k < |token| ==> token[k] == token[letters..][k - letters];
        assert Mixed(token, letters);
      } else {
        RunMeans(token[digits..], c => !IsLetter(c));
        assert forall k :: digits <= k < |token| ==> token[k] == token[digits..][k - digits];
        assert Mixed(token, digits);
      }
    }
  }

  // ----- the score of a row -----

  /** A word counts as typed where it embeds so, and with five points on top where only its exchange does. */
  lemma WordScores(token: string, text: string)
    requires TokenMatches(token, text)
    ensures Embeds(Lower(text), Lower(token)) ==> TokenScore(token, text) == FuzzyScore(token, text)
    ensures !Embeds(Lower(text), Lower(token)) ==>
              && FuzzyScore(Swapped(token), text).Some?
              && TokenScore(token, text) == Some(FuzzyScore(Swapped(token), text).value + 5.0)
  {
    FuzzyScoreIsExact(token, text);
    FuzzyScoreIsExact(Swapped(token), text);
  }

  /** The score of a row is the sum over the words, in whatever portions they are taken. */
  lemma {:induction false} ScoresAdd(a: seq<string>, b: seq<string>, text: string)
    ensures TotalScore(a + b, text) ==
              match (TotalScore(a, text), TotalScore(b, text))
              case (Some(x), Some(y)) => Some(x + y)
              case _ => None
    decreases |b|
  {
    if b == [] {
      assert a + b == a;
    } else {
      ScoresAdd(a, b[..|b| - 1], text);
      assert (a + b)[..|a + b| - 1] == a + b[..|b| - 1];
    }
  }
}
