/** The few string operations the modelled code takes from its host language. */
module Strings {

  /** White space as trimming sees it, line terminators and byte order mark included. */
  predicate IsSpace(c: char) {
    || '\t' <= c <= '\r' || c == ' ' || c == '\U{A0}' || c == '\U{1680}' || '\U{2000}' <= c <= '\U{200A}'
    || c == '\U{2028}' || c == '\U{2029}' || c == '\U{202F}' || c == '\U{205F}' || c == '\U{3000}' || c == '\U{FEFF}'
  }

  predicate IsDigit(c: char) { '0' <= c <= '9' }

  predicate IsLetter(c: char) { 'a' <= c <= 'z' || 'A' <= c <= 'Z' }

  predicate AllDigits(s: string) { forall k :: 0 <= k < |s| ==> IsDigit(s[k]) }

  predicate IsNumeric(s: string) { s != "" && AllDigits(s) }

  function Decimal(s: string): nat
    requires AllDigits(s)
  {
    if s == "" then 0 else 10 * Decimal(s[..|s| - 1]) + (s[|s| - 1] - '0') as nat
  }

  function DecimalText(n: nat): (s: string)
    ensures IsNumeric(s)
  {
    var last := ['0' + (n % 10) as char];
    if n < 10 then last else DecimalText(n / 10) + last
  }

  lemma {:induction false} DecimalReadsBack(n: nat)
    ensures Decimal(DecimalText(n)) == n
    decreases n
  {
    var s := DecimalText(n);
    var last := '0' + (n % 10) as char;
    assert s[|s| - 1] == last;
    if n < 10 {
      assert s[..0] == "" && Decimal(s[..0]) == 0;
    } else {
      DecimalReadsBack(n / 10);
      assert s[..|s| - 1] == DecimalText(n / 10);
    }
  }

  /** How many digits a text starts with. */
  function DigitCount(s: string): (n: nat)
    ensures n <= |s| && AllDigits(s[..n]) && (n < |s| ==> !IsDigit(s[n]))
  {
    if s == "" || !IsDigit(s[0]) then 0 else 1 + DigitCount(s[1..])
  }

  function TrimStart(s: string): string { if s != "" && IsSpace(s[0]) then TrimStart(s[1..]) else s }

  function TrimEnd(s: string): string { if s != "" && IsSpace(s[|s| - 1]) then TrimEnd(s[..|s| - 1]) else s }

  function Trim(s: string): string { TrimEnd(TrimStart(s)) }

  predicate AllSpace(s: string) { forall k :: 0 <= k < |s| ==> IsSpace(s[k]) }

  lemma {:induction false} TrimStartIs(before: string, rest: string)
    requires AllSpace(before) && (rest != "" ==> !IsSpace(rest[0]))
    ensures TrimStart(before + rest) == rest
    decreases |before|
  {
    if before == "" {
      assert before + rest == rest;
    } else {
      assert (before + rest)[1..] == before[1..] + rest;
      TrimStartIs(before[1..], rest);
    }
  }

  lemma {:induction false} TrimEndIs(rest: string, after: string)
    requires AllSpace(after) && (rest != "" ==> !IsSpace(rest[|rest| - 1]))
    ensures TrimEnd(rest + after) == rest
    decreases |after|
  {
    var s := rest + after;
    if after == "" {
      assert s == rest;
    } else {
      assert s[..|s| - 1] == rest + after[..|after| - 1];
      TrimEndIs(rest, after[..|after| - 1]);
    }
  }

  /** Trimming leaves what stands between the white space at both ends. */
  lemma TrimIs(before: string, kept: string, after: string)
    requires AllSpace(before) && AllSpace(after)
    requires kept != "" ==> !IsSpace(kept[0]) && !IsSpace(kept[|kept| - 1])
    ensures Trim(before + kept + after) == kept
  {
    if kept == "" {
      TrimStartIs(before + after, "");
      assert before + kept + after == before + after + "";
    } else {
      TrimStartIs(before, kept + after);
      assert before + kept + after == before + (kept + after);
      TrimEndIs(kept, after);
    }
  }

  /** The first place at or after `from` where `c` occurs, or the length of `s`. */
  function IndexOf(s: string, c: char, from: nat): (k: nat)
    requires from <= |s|
    ensures from <= k <= |s|
    ensures forall i :: from <= i < k ==> s[i] != c
    ensures k < |s| ==> s[k] == c
    decreases |s| - from
  {
    if from == |s| || s[from] == c then from else IndexOf(s, c, from + 1)
  }

  /** The pieces of `s` between the occurrences of `c`. */
  function Split(s: string, c: char): (pieces: seq<string>)
    ensures pieces != []
    decreases |s|
  {
    var k := IndexOf(s, c, 0);
    if k == |s| then [s] else [s[..k]] + Split(s[k + 1..], c)
  }

  function Joined(pieces: seq<string>, c: char): string {
    if pieces == [] then "" else if |pieces| == 1 then pieces[0] else pieces[0] + [c] + Joined(pieces[1..], c)
  }

  /** Splitting undoes joining when no piece holds the separator. */
  lemma {:induction false} SplitJoined(pieces: seq<string>, c: char)
    requires pieces != []
    requires forall k :: 0 <= k < |pieces| ==> c !in pieces[k]
    ensures Split(Joined(pieces, c), c) == pieces
    decreases |pieces|
  {
    var s := Joined(pieces, c);
    var k := IndexOf(s, c, 0);
    if |pieces| == 1 {
    } else {
      var rest := Joined(pieces[1..], c);
      assert s == pieces[0] + [c] + rest;
      assert s[|pieces[0]|] == c;
      assert forall i :: 0 <= i < |pieces[0]| ==> s[i] == pieces[0][i];
      assert k == |pieces[0]|;
      assert s[..k] == pieces[0] && s[k + 1..] == rest;
      SplitJoined(pieces[1..], c);
    }
  }

  function Concat(pieces: seq<string>): string {
    if pieces == [] then "" else Concat(pieces[..|pieces| - 1]) + pieces[|pieces| - 1]
  }

  lemma ConcatOne(pieces: seq<string>, piece: string)
    ensures Concat(pieces + [piece]) == Concat(pieces) + piece
  {
    assert (pieces + [piece])[..|pieces|] == pieces;
  }
}
