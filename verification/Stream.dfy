/**
 The buffer for streamed Markdown: completed text is released as early as possible, but never so
 that a fenced code block is cut in two.
 */
module Stream {
  import opened Strings

  // ----- fences -----

  /** Three backticks stand at `k`. */
  predicate FenceAt(s: string, k: nat) { k + 3 <= |s| && s[k] == '`' && s[k + 1] == '`' && s[k + 2] == '`' }

  /** The fences met reading left to right from `from`, not counting any that starts at or after `to`. */
  function FencesFrom(s: string, from: nat, to: nat): nat
    decreases |s| - from
  {
    if |s| <= from || to <= from then 0
    else if FenceAt(s, from) then 1 + FencesFrom(s, from + 3, to)
    else FencesFrom(s, from + 1, to)
  }

  /** The fences of a whole text. */
  function Fences(s: string): nat { FencesFrom(s, 0, |s|) }

  predicate InsideFence(s: string, k: nat) { FencesFrom(s, 0, k) % 2 == 1 }

  lemma {:induction false} NoFenceBetween(s: string, from: nat, k: nat, to: nat)
    requires from <= k <= |s|
    requires forall i :: from <= i < k ==> !FenceAt(s, i)
    ensures FencesFrom(s, from, to) == if to <= k then 0 else FencesFrom(s, k, to)
    decreases k - from
  {
    if from != k {
      NoFenceBetween(s, from + 1, k, to);
    }
  }

  /** Where the next fence starts, or the length of the text. */
  function NextFence(s: string, from: nat): (k: nat)
    requires from <= |s|
    ensures from <= k <= |s|
    ensures forall i :: from <= i < k ==> !FenceAt(s, i)
    ensures k < |s| ==> FenceAt(s, k)
    decreases |s| - from
  {
    if from == |s| || FenceAt(s, from) then from else NextFence(s, from + 1)
  }

  method IsInsideCodeBlock(content: string, index: nat) returns (inside: bool)
    ensures inside == InsideFence(content, index)
  {
    var fenceCount, pos := 0, 0;
    while pos < |content|
      invariant pos <= |content|
      invariant fenceCount + FencesFrom(content, pos, index) == FencesFrom(content, 0, index)
      decreases |content| - pos
    {
      var next := NextFence(content, pos);
      NoFenceBetween(content, pos, next, index);
      if next == |content| || index <= next {
        break;
      }
      fenceCount := fenceCount + 1;
      pos := next + 3;
    }
    inside := fenceCount % 2 == 1;
  }

  /** A newline at the end of `a` keeps any fence from straddling the seam. */
  lemma {:induction false} FencesAcross(a: string, b: string, from: nat, to: nat)
    requires from <= |a| && |a| <= to && (a == "" || a[|a| - 1] != '`')
    ensures FencesFrom(a + b, from, to) == FencesFrom(a, from, |a|) + FencesFrom(b, 0, to - |a|)
    decreases |a| - from
  {
    var s := a + b;
    if from == |a| {
      Shifted(a, b, 0, to);
    } else {
      assert s[|a| - 1] == a[|a| - 1];
      assert FenceAt(s, from) <==> FenceAt(a, from);
      FencesAcross(a, b, if FenceAt(a, from) then from + 3 else from + 1, to);
    }
  }

  lemma {:induction false} Shifted(a: string, b: string, from: nat, to: nat)
    requires from <= |b| && |a| <= to
    ensures FencesFrom(a + b, |a| + from, to) == FencesFrom(b, from, to - |a|)
    decreases |b| - from
  {
    var s := a + b;
    if from < |b| {
      assert FenceAt(s, |a| + from) <==> FenceAt(b, from);
      if FenceAt(b, from) {
        Shifted(a, b, from + 3, to);
      } else {
        Shifted(a, b, from + 1, to);
      }
    }
  }

  // ----- the split point -----

  predicate ParagraphEnd(s: string, k: nat) { 2 <= k <= |s| && s[k - 2] == '\n' && s[k - 1] == '\n' }

  /** The last paragraph end at or before `k` that is outside every code block, or zero. */
  function LastSafeParagraph(s: string, k: nat): (r: nat)
    requires k <= |s|
    ensures r <= k && (r != 0 ==> ParagraphEnd(s, r) && !InsideFence(s, r))
    ensures forall i :: r < i <= k ==> !(ParagraphEnd(s, i) && !InsideFence(s, i))
  {
    if k == 0 then 0 else if ParagraphEnd(s, k) && !InsideFence(s, k) then k else LastSafeParagraph(s, k - 1)
  }

  /** The end of the last line at or before `k`, or zero. */
  function LastLineEnd(s: string, k: nat): (r: nat)
    requires k <= |s|
    ensures r <= k && (r != 0 ==> s[r - 1] == '\n')
    ensures forall i :: r <= i < k ==> s[i] != '\n'
  {
    if k == 0 || s[k - 1] == '\n' then k else LastLineEnd(s, k - 1)
  }

  function SplitPoint(s: string): (r: nat)
    ensures r <= |s|
  {
    var paragraph, line := LastSafeParagraph(s, |s|), LastLineEnd(s, |s|);
    if InsideFence(s, |s|) then |s|
    else if paragraph != 0 then paragraph
    else if 1 < line && !InsideFence(s, line) then line
    else |s|
  }

  /** Outside every code block, right behind a blank line. */
  predicate SafeParagraph(s: string, k: nat) {
    2 <= k <= |s| && s[k - 2] == '\n' && s[k - 1] == '\n' && !InsideFence(s, k)
  }

  predicate LastParagraph(s: string, k: nat) {
    SafeParagraph(s, k) && forall i :: k < i <= |s| ==> !SafeParagraph(s, i)
  }

  predicate LastLine(s: string, k: nat) {
    0 < k <= |s| && s[k - 1] == '\n' && forall i :: k <= i < |s| ==> s[i] != '\n'
  }

  /** What is released of a text: all up to its last paragraph outside code, or, where it has none, all up to
      its last line end, if that is past the first character and outside code; and never the whole of it. */
  ghost predicate Releases(s: string, piece: string) {
    && (InsideFence(s, |s|) ==> piece == "")
    && (!InsideFence(s, |s|) ==>
         && (forall k: nat :: LastParagraph(s, k) ==> piece == if k < |s| then s[..k] else "")
         && ((forall k :: 0 <= k <= |s| ==> !SafeParagraph(s, k)) ==>
              && ('\n' !in s ==> piece == "")
              && forall k: nat :: LastLine(s, k) ==>
                   piece == if 1 < k < |s| && !InsideFence(s, k) then s[..k] else ""))
  }

  /** The split point is where that rule cuts. */
  lemma SplitReleases(s: string)
    ensures Releases(s, if SplitPoint(s) == |s| then "" else s[..SplitPoint(s)])
  {
    assert forall k: nat :: SafeParagraph(s, k) <==> ParagraphEnd(s, k) && !InsideFence(s, k);
    assert forall k: nat :: LastLine(s, k) ==> k == LastLineEnd(s, |s|);
  }

  /** The last paragraph end at or before `k`, or zero. */
  function LastParagraphEnd(s: string, k: nat): (r: nat)
    requires k <= |s|
    ensures r <= k && (r != 0 ==> ParagraphEnd(s, r))
    ensures forall i :: r < i <= k ==> !ParagraphEnd(s, i)
  {
    if k == 0 || ParagraphEnd(s, k) then k else LastParagraphEnd(s, k - 1)
  }

  function Min(a: int, b: int): int { if a < b then a else b }

  lemma {:induction false} ParagraphIs(s: string, k: nat, r: nat)
    requires r <= k <= |s|
    requires ParagraphEnd(s, r) && !InsideFence(s, r)
    requires forall i :: r < i <= k ==> !(ParagraphEnd(s, i) && !InsideFence(s, i))
    ensures LastSafeParagraph(s, k) == r
    decreases k
  {
    if r != k {
      ParagraphIs(s, k - 1, r);
    }
  }

  method FindSafeSplitPoint(content: string) returns (r: nat)
    ensures r == SplitPoint(content)
    ensures Releases(content, if r == |content| then "" else content[..r])
  {
    SplitReleases(content);
    var unclosed := IsInsideCodeBlock(content, |content|);
    if unclosed {
      return |content|;
    }
    var search: int := |content|;
    while 0 <= search
      invariant -3 <= search <= |content|
      invariant forall i :: 0 <= i <= |content| && search + 2 < i ==>
                !(ParagraphEnd(content, i) && !InsideFence(content, i))
    {
      var splitAt: int := LastParagraphEnd(content, Min(search + 2, |content|));
      if splitAt == 0 {
        break;
      }
      var inside := IsInsideCodeBlock(content, splitAt);
      if !inside {
        ParagraphIs(content, |content|, splitAt);
        return splitAt;
      }
      search := splitAt - 3;
    }
    assert LastSafeParagraph(content, |content|) == 0;
    var line := LastLineEnd(content, |content|);
    if 1 < line {
      var inside := IsInsideCodeBlock(content, line);
      if !inside {
        return line;
      }
    }
    return |content|;
  }

  /** A cut short of the end follows a newline and leaves an even number of fences behind it. */
  lemma SplitPointIsSafe(s: string)
    ensures 0 < SplitPoint(s) < |s| ==> s[SplitPoint(s) - 1] == '\n' && Fences(s[..SplitPoint(s)]) % 2 == 0
  {
    var k := SplitPoint(s);
    if 0 < k < |s| {
      FencesAcross(s[..k], s[k..], 0, k);
      assert s[..k] + s[k..] == s;
    }
  }

  // ----- the buffer -----

  predicate IsBreak(c: char) { c == '\n' || c == '\r' }

  /** What is left of a text once its leading line breaks are gone. */
  function StripBreaks(s: string): string {
    if s != "" && IsBreak(s[0]) then StripBreaks(s[1..]) else s
  }

  /** They alone are gone, and all of them. */
  lemma {:induction false} StripBreaksStrips(breaks: string, rest: string)
    requires forall k :: 0 <= k < |breaks| ==> breaks[k] == '\n' || breaks[k] == '\r'
    requires rest != "" ==> rest[0] != '\n' && rest[0] != '\r'
    ensures StripBreaks(breaks + rest) == rest
    decreases |breaks|
  {
    if breaks == "" {
      assert breaks + rest == rest;
    } else {
      assert (breaks + rest)[1..] == breaks[1..] + rest;
      StripBreaksStrips(breaks[1..], rest);
    }
  }

  datatype Pending = Pending(buffer: string, started: bool)

  const EMPTY := Pending("", false)

  /** What a push leaves in the buffer and what it releases. */
  function Pushed(p: Pending, token: string): (Pending, string) {
    if token == "" then (p, "")
    else
      var buffer := if p.started then p.buffer + token else StripBreaks(p.buffer + token);
      if buffer == "" then (Pending("", p.started), "")
      else
        var cut := if '\n' in buffer then SplitPoint(buffer) else 0;
        if cut == |buffer| || cut == 0
        then (Pending(buffer, true), "") else (Pending(buffer[cut..], true), buffer[..cut])
  }

  /** The text a push has before it: what was pending and the token, or, as long as the message has not
      started, the token without its leading line breaks. */
  function Gathered(p: Pending, token: string): string {
    if p.started then p.buffer + token else StripBreaks(p.buffer + token)
  }

  /** What a push releases, and that the rest stays. An empty token releases nothing. */
  lemma PushReleases(p: Pending, token: string)
    ensures var (p', piece) := Pushed(p, token);
            if token == "" then p' == p && piece == ""
            else Releases(Gathered(p, token), piece) && Gathered(p, token) == piece + p'.buffer
  {
    var buffer := Gathered(p, token);
    if token != "" {
      SplitReleases(buffer);
      var cut := if '\n' in buffer then SplitPoint(buffer) else 0;
      assert buffer == buffer[..cut] + buffer[cut..];
      if cut == 0 || cut == |buffer| {
        assert buffer[..0] == "" && buffer == "" + buffer;
      }
    }
  }

  class AssistantStreamBuffer {
    var buffer: string
    var started: bool

    function State(): Pending
      reads this
    {
      Pending(buffer, started)
    }

    constructor ()
      ensures State() == EMPTY
    {
      buffer, started := "", false;
    }

    method Push(token: string) returns (released: string)
      modifies this
      ensures (State(), released) == Pushed(old(State()), token)
      ensures token != "" ==> Releases(Gathered(old(State()), token), released)
    {
      PushReleases(State(), token);
      if token == "" {
        return "";
      }
      buffer := buffer + token;
      if !started {
        buffer := StripBreaks(buffer);
        if |buffer| == 0 {
          return "";
        }
        started := true;
      }
      released := FlushSafe();
    }

    method FlushSafe() returns (released: string)
      modifies this`buffer
      ensures var cut := if '\n' in old(buffer) then SplitPoint(old(buffer)) else 0;
              if cut == |old(buffer)| || cut == 0 then buffer == old(buffer) && released == ""
              else buffer == old(buffer)[cut..] && released == old(buffer)[..cut]
      ensures Releases(old(buffer), released) && released + buffer == old(buffer)
    {
      SplitReleases(buffer);
      if '\n' !in buffer {
        return "";
      }
      var splitAt := FindSafeSplitPoint(buffer);
      if splitAt == |buffer| || splitAt == 0 {
        return "";
      }
      released := buffer[..splitAt];
      buffer := buffer[splitAt..];
    }

    /** The rest of the message, dropped when it is blank. */
    method Finish() returns (released: string)
      modifies this
      ensures old(started) ==> State() == EMPTY && released == if Trim(old(buffer)) == "" then "" else old(buffer)
      ensures !old(started) ==> State() == old(State()) && released == ""
    {
      if !started {
        return "";
      }
      released := if |Trim(buffer)| > 0 then buffer else "";
      buffer, started := "", false;
    }
  }

  // ----- whole messages -----

  /** The buffer after a sequence of tokens, and the text released by each of them. */
  function Streamed(tokens: seq<string>): (r: (Pending, seq<string>))
    ensures |r.1| == |tokens|
  {
    if tokens == [] then (EMPTY, [])
    else
      var (before, released) := Streamed(tokens[..|tokens| - 1]);
      var (after, piece) := Pushed(before, tokens[|tokens| - 1]);
      (after, released + [piece])
  }

  /** A text that is empty, or ends in a newline after an even number of fences. */
  predicate CleanCut(s: string) { s == "" || (s[|s| - 1] == '\n' && Fences(s) % 2 == 0) }

  lemma {:induction false} StripBreaksAppend(a: string, b: string)
    ensures StripBreaks(a + b) == if StripBreaks(a) == "" then StripBreaks(b) else StripBreaks(a) + b
    decreases |a|
  {
    if a == "" {
      assert a + b == b;
    } else if IsBreak(a[0]) {
      StripBreaksAppend(a[1..], b);
      assert (a + b)[1..] == a[1..] + b;
    }
  }

  lemma CleanCutsJoin(a: string, b: string)
    requires CleanCut(a) && CleanCut(b)
    ensures CleanCut(a + b)
  {
    FencesAcross(a, b, 0, |a + b|);
    if b != "" {
      assert (a + b)[|a + b| - 1] == b[|b| - 1];
    } else {
      assert a + b == a;
    }
  }

  /** One push moves text from the token to the buffer and from the buffer out, and cuts cleanly. */
  lemma PushKeeps(p: Pending, token: string)
    requires p.started || p.buffer == ""
    ensures var (p', piece) := Pushed(p, token);
            && piece + p'.buffer == (if p.started then p.buffer + token else StripBreaks(token))
            && (p'.started <==> p.started || StripBreaks(token) != "")
            && (p'.started || p'.buffer == "") && CleanCut(piece)
  {
    var buffer := if p.started then p.buffer + token else StripBreaks(p.buffer + token);
    assert p.buffer == "" ==> p.buffer + token == token;
    if token == "" {
      assert "" + p.buffer == p.buffer && p.buffer + "" == p.buffer;
    } else if buffer != "" {
      ReleaseKeeps(buffer);
    }
  }

  /** What one non-empty buffer keeps and what it releases. */
  lemma ReleaseKeeps(buffer: string)
    requires buffer != ""
    ensures var cut := if '\n' in buffer then SplitPoint(buffer) else 0;
            if cut == |buffer| || cut == 0 then "" + buffer == buffer
            else buffer[..cut] + buffer[cut..] == buffer && CleanCut(buffer[..cut])
  {
    SplitPointIsSafe(buffer);
    var cut := if '\n' in buffer then SplitPoint(buffer) else 0;
    assert buffer[..cut] + buffer[cut..] == buffer && "" + buffer == buffer;
    assert 0 < cut < |buffer| ==> buffer[..cut][cut - 1] == buffer[cut - 1];
  }

  /** Every token of every message. */
  lemma EveryPushReleases(tokens: seq<string>, n: nat)
    requires n < |tokens| && tokens[n] != ""
    ensures var (before, _) := Streamed(tokens[..n]);
            var (after, released) := Streamed(tokens[..n + 1]);
            && Releases(Gathered(before, tokens[n]), released[n])
            && Gathered(before, tokens[n]) == released[n] + after.buffer
  {
    assert tokens[..n + 1][..n] == tokens[..n];
    PushReleases(Streamed(tokens[..n]).0, tokens[n]);
  }

  /** However a message is chopped into tokens: nothing is lost but its leading line breaks, and every
      point where text was released follows a newline with an even number of fences before it. */
  lemma {:induction false} StreamIsConserved(tokens: seq<string>)
    ensures var (p, released) := Streamed(tokens);
            && Concat(released) + p.buffer == StripBreaks(Concat(tokens))
            && (p.started <==> StripBreaks(Concat(tokens)) != "") && (p.started || p.buffer == "")
            && forall n :: 0 <= n <= |released| ==> CleanCut(Concat(released[..n]))
    decreases |tokens|
  {
    if tokens != [] {
      var init, token := tokens[..|tokens| - 1], tokens[|tokens| - 1];
      StreamIsConserved(init);
      var (before, released) := Streamed(init);
      var (after, piece) := Pushed(before, token);
      PushKeeps(before, token);
      ConservedOnce(before, after, piece, Concat(released), Concat(init), token);
      StripBreaksAppend(Concat(init), token);
      ConcatOne(released, piece);
      CutsStayClean(released, piece);
    }
  }

  lemma ConservedOnce(p: Pending, p': Pending, piece: string, released: string, stream: string, token: string)
    requires released + p.buffer == StripBreaks(stream)
    requires (p.started <==> StripBreaks(stream) != "") && (p.started || p.buffer == "")
    requires piece + p'.buffer == if p.started then p.buffer + token else StripBreaks(token)
    ensures released + piece + p'.buffer == StripBreaks(stream + token)
  {
    StripBreaksAppend(stream, token);
    var moved := piece + p'.buffer;
    assert released + piece + p'.buffer == released + moved;
    if p.started {
      assert released + (p.buffer + token) == released + p.buffer + token;
    } else {
      assert released + moved == moved;
    }
  }

  lemma CutsStayClean(released: seq<string>, piece: string)
    requires forall n :: 0 <= n <= |released| ==> CleanCut(Concat(released[..n]))
    requires CleanCut(piece)
    ensures forall n :: 0 <= n <= |released + [piece]| ==> CleanCut(Concat((released + [piece])[..n]))
  {
    ConcatOne(released, piece);
    assert released[..|released|] == released;
    CleanCutsJoin(Concat(released), piece);
    forall n | 0 <= n <= |released + [piece]| ensures CleanCut(Concat((released + [piece])[..n])) {
      if n <= |released| {
        assert (released + [piece])[..n] == released[..n];
      } else {
        assert (released + [piece])[..n] == released + [piece];
      }
    }
  }

  lemma {:induction false} ConcatPrefix(pieces: seq<string>, n: nat)
    requires n <= |pieces|
    ensures Concat(pieces[..n]) <= Concat(pieces)
    decreases |pieces| - n
  {
    if n == |pieces| {
      assert pieces[..n] == pieces;
    } else {
      assert pieces[..n + 1] == pieces[..n] + [pieces[n]];
      ConcatOne(pieces[..n], pieces[n]);
      ConcatPrefix(pieces, n + 1);
    }
  }

  lemma CleanHead(head: string, message: string)
    requires head <= message && CleanCut(head)
    ensures (head != "" ==> message[|head| - 1] == '\n') && !InsideFence(message, |head|)
  {
    FencesAcross(head, message[|head|..], 0, |head|);
    assert head + message[|head|..] == message;
  }

  /** Every release point of every chopping, seen in the whole message: it follows a newline, and the
      number of the message's fences before it is even. */
  lemma EveryCutIsSafe(tokens: seq<string>, n: nat)
    requires n <= |tokens|
    ensures var message := StripBreaks(Concat(tokens));
            var cut := |Concat(Streamed(tokens).1[..n])|;
            cut <= |message| && (0 < cut ==> message[cut - 1] == '\n') && !InsideFence(message, cut)
  {
    StreamIsConserved(tokens);
    var (p, released) := Streamed(tokens);
    var message, head := StripBreaks(Concat(tokens)), Concat(released[..n]);
    ConcatPrefix(released, n);
    CleanHead(head, message);
  }

  lemma LastParagraphExists(s: string, i: nat) returns (k: nat)
    requires SafeParagraph(s, i)
    ensures LastParagraph(s, k) && i <= k
  {
    k := LastSafeParagraph(s, |s|);
    assert forall i: nat :: SafeParagraph(s, i) <==> ParagraphEnd(s, i) && !InsideFence(s, i);
  }

  predicate EndsBlank(s: string) { 2 <= |s| && s[|s| - 2] == '\n' && s[|s| - 1] == '\n' }

  /** A text that could be cut at `k` short of its end. */
  predicate Cuttable(s: string, k: nat) {
    SafeParagraph(s, k) && k < |s| && !InsideFence(s, |s|) && !EndsBlank(s)
  }

  /** Text before a clean cut makes no difference behind it. */
  lemma CuttableBehind(a: string, b: string, k: nat)
    requires CleanCut(a) && 2 <= k < |b|
    ensures Cuttable(a + b, |a| + k) <==> Cuttable(b, k)
  {
    FencesAcross(a, b, 0, |a| + k);
    FencesAcross(a, b, 0, |a| + |b|);
    var s := a + b;
    assert s[|a| + k - 2] == b[k - 2] && s[|a| + k - 1] == b[k - 1];
    assert s[|s| - 2] == b[|b| - 2] && s[|s| - 1] == b[|b| - 1];
  }

  /** What a push leaves could not be cut. */
  lemma LeftIsNotCuttable(piece: string, rest: string, k: nat)
    requires Releases(piece + rest, piece) && CleanCut(piece)
    ensures !Cuttable(rest, k)
  {
    if Cuttable(rest, k) {
      CuttableBehind(piece, rest, k);
      var last := LastParagraphExists(piece + rest, |piece| + k);
    }
  }

  lemma {:induction false} PendingIsNotCuttable(tokens: seq<string>, k: nat)
    ensures !Cuttable(Streamed(tokens).0.buffer, k)
    decreases |tokens|
  {
    if tokens != [] {
      var init, token := tokens[..|tokens| - 1], tokens[|tokens| - 1];
      PendingIsNotCuttable(init, k);
      StreamIsConserved(init);
      var (before, released) := Streamed(init);
      var (after, piece) := Pushed(before, token);
      PushReleases(before, token);
      PushKeeps(before, token);
      if token != "" {
        LeftIsNotCuttable(piece, after.buffer, k);
      }
    }
  }

  lemma ReleasedAndPending(tokens: seq<string>)
    ensures var (p, released) := Streamed(tokens);
            CleanCut(Concat(released)) && Concat(released) + p.buffer == StripBreaks(Concat(tokens))
  {
    StreamIsConserved(tokens);
    var released := Streamed(tokens).1;
    assert released[..|released|] == released;
  }

  /** After every push of every chopping, a paragraph that is complete and outside code is no longer pending:
      unless the message so far ends inside code, or right behind a blank line. */
  lemma NoParagraphIsHeldBack(tokens: seq<string>, k: nat)
    ensures var message := StripBreaks(Concat(tokens));
            |Concat(Streamed(tokens).1)| + 2 <= k < |message| && SafeParagraph(message, k) ==>
              InsideFence(message, |message|) || EndsBlank(message)
  {
    ReleasedAndPending(tokens);
    var head, pending := Concat(Streamed(tokens).1), Streamed(tokens).0.buffer;
    if |head| + 2 <= k < |head + pending| {
      PendingIsNotCuttable(tokens, k - |head|);
      CuttableBehind(head, pending, k - |head|);
    }
  }
}
