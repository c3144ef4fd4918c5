/**
 The argument list an in-place restart leaves for the next process, and how the command line reads it.
 */
module RestartArgv {
  import opened Options
  import opened Cli

  /** The rewriter's own list of flags that take a value. */
  const VALUE_FLAGS: set<string> := {
    "-p", "--prompt", "-f", "--file", "--model", "--env-file", "--port", "-r", "--resume", "--output-format",
    "--max-turns", "--max-tokens", "--max-duration", "--append-system-prompt", "--skills", "--skill"}

  /** It is the list the reader has. */
  lemma ValueFlagsAgree(arg: string)
    ensures arg in VALUE_FLAGS <==> TokenOf(arg).ValueFlag?
  {
  }

  /** What an argument is to the rewriter: a wish to continue, the name of a session to go on with, a
      flag that takes a value, or anything else. */
  datatype Role = Continuing | Naming | Valued | Plain

  function RoleOf(arg: string): Role {
    if arg == "-c" || arg == "--continue" then Continuing
    else if arg == "--fork" || arg == "-r" || arg == "--resume" then Naming
    else if arg in VALUE_FLAGS then Valued
    else Plain
  }

  predicate OwnWordAt(argv: seq<string>, i: nat) { i + 1 < |argv| && argv[i + 1] != "" && !Dashed(argv[i + 1]) }

  predicate HasOwnWord(args: seq<string>) { OwnWordAt(args, 0) }

  /** The arguments a restart keeps. */
  function Stripped(args: seq<string>): seq<string>
    decreases |args|
  {
    if |args| == 0 then []
    else
      match RoleOf(args[0])
      case Continuing => Stripped(args[1..])
      case Naming => Stripped(if HasOwnWord(args) then args[2..] else args[1..])
      case Valued => if HasOwnWord(args) then args[..2] + Stripped(args[2..]) else args[..1] + Stripped(args[1..])
      case Plain => args[..1] + Stripped(args[1..])
  }

  function Pinned(id: Option<string>): seq<string> { if Given(id) then ["--resume", id.value] else [] }

  function ForRestart(argv: seq<string>, id: Option<string>): seq<string> { Stripped(argv) + Pinned(id) }

  method ArgvForRestart(argv: seq<string>, sessionId: Option<string>) returns (next: seq<string>)
    ensures next == ForRestart(argv, sessionId)
  {
    next := [];
    var i := 0;
    while i < |argv|
      invariant 0 <= i <= |argv| && KeptSoFar(argv, i, next)
    {
      var arg, ownWord := argv[i], OwnWordAt(argv, i);
      var role := RoleOf(arg);
      ghost var before, kept, end := next, KeptAt(argv, i), EndAt(argv, i);
      KeptStep(argv, i, next);
      i := i + 1;
      if role == Continuing {
      } else if role == Naming {
        if ownWord {
          i := i + 1;
        }
      } else {
        next := next + [arg];
        if role == Valued && ownWord {
          next := next + [argv[i]];
          i := i + 1;
        }
      }
      assert next == before + kept && i == end;
    }
    if Given(sessionId) {
      next := next + ["--resume", sessionId.value];
    }
  }

  function EndAt(argv: seq<string>, i: nat): nat {
    if i < |argv| && (RoleOf(argv[i]) == Naming || RoleOf(argv[i]) == Valued) && OwnWordAt(argv, i)
    then i + 2 else i + 1
  }

  function KeptAt(argv: seq<string>, i: nat): seq<string>
    requires i < |argv|
  {
    if Dropped(argv[i]) then [] else if EndAt(argv, i) == i + 2 then [argv[i], argv[i + 1]] else [argv[i]]
  }

  ghost predicate KeptSoFar(argv: seq<string>, i: nat, next: seq<string>) {
    i <= |argv| && Stripped(argv) == next + Stripped(argv[i..])
  }

  lemma KeptStep(argv: seq<string>, i: nat, next: seq<string>)
    requires i < |argv| && KeptSoFar(argv, i, next)
    ensures KeptSoFar(argv, EndAt(argv, i), next + KeptAt(argv, i))
  {
    StrippedFrom(argv, i);
    assert next + (KeptAt(argv, i) + Stripped(argv[EndAt(argv, i)..]))
           == next + KeptAt(argv, i) + Stripped(argv[EndAt(argv, i)..]);
  }

  lemma StrippedFrom(argv: seq<string>, i: nat)
    requires i < |argv|
    ensures EndAt(argv, i) <= |argv| && Stripped(argv[i..]) == KeptAt(argv, i) + Stripped(argv[EndAt(argv, i)..])
  {
    var args := argv[i..];
    assert args[1..] == argv[i + 1..] && args[..1] == [argv[i]];
    if i + 1 < |argv| {
      assert args[2..] == argv[i + 2..] && args[..2] == [argv[i], argv[i + 1]];
    }
  }

  // ----- rewriting twice -----

  predicate Dropped(arg: string) { RoleOf(arg) == Continuing || RoleOf(arg) == Naming }

  /** Keeping the value of a value flag together with it changes nothing: a word that follows is kept anyway. */
  lemma {:induction false} KeptArgumentsAreOneByOne(args: seq<string>)
    requires |args| != 0 && !Dropped(args[0])
    ensures Stripped(args) == [args[0]] + Stripped(args[1..])
    decreases |args|
  {
    assert args[..1] == [args[0]];
    if RoleOf(args[0]) == Valued && HasOwnWord(args) {
      KeptArgumentsAreOneByOne(args[1..]);
      assert args[1..][1..] == args[2..];
      assert args[..2] + Stripped(args[2..]) == [args[0]] + ([args[1]] + Stripped(args[2..]));
    }
  }

  lemma {:induction false} StrippedHoldsNoSession(args: seq<string>)
    ensures forall arg <- Stripped(args) :: !Dropped(arg)
    decreases |args|
  {
    if |args| == 0 {
    } else if RoleOf(args[0]) == Continuing {
      StrippedHoldsNoSession(args[1..]);
    } else if RoleOf(args[0]) == Naming {
      StrippedHoldsNoSession(if HasOwnWord(args) then args[2..] else args[1..]);
    } else {
      StrippedHoldsNoSession(args[1..]);
      KeptArgumentsAreOneByOne(args);
    }
  }

  lemma Headed(words: seq<string>, rest: seq<string>)
    requires |words| != 0
    ensures words + rest == [words[0]] + (words[1..] + rest)
  {
  }

  /** Arguments with no session among them are all kept, up to a session that follows them. */
  lemma {:induction false} KeepsTheRest(kept: seq<string>, more: seq<string>)
    requires forall arg <- kept :: !Dropped(arg)
    ensures Stripped(kept + more) == kept + Stripped(more)
    decreases |kept|
  {
    var all := kept + more;
    if |kept| == 0 {
      assert all == more;
    } else {
      assert all[1..] == kept[1..] + more;
      KeepsTheRest(kept[1..], more);
      KeptArgumentsAreOneByOne(all);
      Headed(kept, Stripped(more));
    }
  }

  /** Rewriting twice is rewriting once with the later id, exactly when the earlier id is not a dashed
      word of its own. */
  lemma RewritingTwice(argv: seq<string>, first: Option<string>, second: Option<string>)
    ensures ForRestart(ForRestart(argv, first), second) == ForRestart(argv, second)
            <==> !Given(first) || !Dashed(first.value) || Dropped(first.value)
  {
    StrippedHoldsNoSession(argv);
    var kept := Stripped(argv);
    KeepsTheRest(kept, Pinned(first));
    PinIsStripped(first);
    var left := Stripped(Pinned(first));
    assert ForRestart(ForRestart(argv, first), second) == kept + left + Pinned(second);
    assert |kept + left + Pinned(second)| == |kept + Pinned(second)| + |left|;
    if left == [] {
      assert kept + left == kept;
    }
  }

  lemma PinIsStripped(id: Option<string>)
    ensures Stripped(Pinned(id)) == [] <==> !Given(id) || !Dashed(id.value) || Dropped(id.value)
  {
    if Given(id) {
      var pin := Pinned(id);
      assert pin[1..] == [id.value] && pin[2..] == [];
      if !Dropped(id.value) {
        KeptArgumentsAreOneByOne([id.value]);
      } else {
        assert [id.value][1..] == [];
      }
    }
  }

  // ----- reading what was rewritten -----

  /** What rewriter and reader make of an argument fits together. */
  lemma RoleOfToken(arg: string)
    ensures RoleOf(arg) == match TokenOf(arg)
                           case ContinueFlag => Continuing
                           case ForkFlag => Naming
                           case ValueFlag(flag) => if flag == ResumeFlag then Naming else Valued
                           case _ => Plain
  {
  }

  /** The options without any choice of session. */
  function Sessionless(o: CliOptions): CliOptions { o.(resume := None, continueLatest := false, fork := None) }

  /** The same reading, with only the session to resume set to `id`. */
  function Resuming(p: Parsed, id: Option<string>): Parsed {
    if p.Parsed? then Parsed(Sessionless(p.options).(resume := if Given(id) then id else None)) else p
  }

  predicate ChoosesSession(token: Token) { token.ContinueFlag? || token.ForkFlag? || token == ValueFlag(ResumeFlag) }

  function WithoutSession(r: Reading): Reading { if r.Stop? then r else r.(options := Sessionless(r.options)) }

  lemma ValuesIgnoreTheSession(o: CliOptions, flag: Flag, value: string)
    requires flag != ResumeFlag
    ensures TakeValue(Sessionless(o), flag, value) == WithoutSession(TakeValue(o, flag, value))
  {
    match flag
    case PortFlag =>
    case MaxTurnsFlag =>
    case MaxTokensFlag =>
    case MaxDurationFlag =>
    case OutputFormatFlag =>
    case _ =>
  }

  lemma OtherFlagsIgnoreTheSession(o: CliOptions, token: Token, next: Option<string>)
    requires !ChoosesSession(token)
    ensures Take(Sessionless(o), token, next) == WithoutSession(Take(o, token, next))
  {
    if token.ValueFlag? && Given(next) {
      ValuesIgnoreTheSession(o, token.flag, next.value);
    }
  }

  lemma SessionFlagsSetNothingElse(o: CliOptions, token: Token, next: Option<string>)
    requires ChoosesSession(token)
    ensures Take(o, token, next).Go? && Sessionless(Take(o, token, next).options) == Sessionless(o)
  {
  }

  // ----- the arguments as the reader takes them -----

  /** A word and the next word, where the reader takes it as the value. */
  datatype Argument = Argument(word: string, value: Option<string>)

  predicate TakesNext(args: seq<string>)
    requires |args| != 0
  {
    (TokenOf(args[0]).ValueFlag? && Given(NextOf(args))) || (TokenOf(args[0]).ForkFlag? && HasOwnWord(args))
  }

  function FirstArgument(args: seq<string>): Argument
    requires |args| != 0
  {
    Argument(args[0], if TakesNext(args) then Some(args[1]) else None)
  }

  function Following(args: seq<string>): (rest: seq<string>)
    requires |args| != 0
    ensures |rest| < |args|
  {
    if TakesNext(args) then args[2..] else args[1..]
  }

  function Arguments(args: seq<string>): seq<Argument>
    decreases |args|
  {
    if |args| == 0 then [] else [FirstArgument(args)] + Arguments(Following(args))
  }

  function WordsOf(a: Argument): seq<string> { if a.value.Some? then [a.word, a.value.value] else [a.word] }

  function Words(arguments: seq<Argument>): seq<string> {
    if arguments == [] then [] else WordsOf(arguments[0]) + Words(arguments[1..])
  }

  /** The arguments that choose no session. */
  function Others(arguments: seq<Argument>): seq<Argument> {
    if arguments == [] then []
    else (if ChoosesSession(TokenOf(arguments[0].word)) then [] else [arguments[0]]) + Others(arguments[1..])
  }

  lemma OthersCons(a: Argument, tail: seq<Argument>)
    ensures Others([a] + tail) == (if ChoosesSession(TokenOf(a.word)) then [] else [a]) + Others(tail)
  {
    assert ([a] + tail)[1..] == tail;
  }

  lemma WordsCons(a: Argument, tail: seq<Argument>)
    ensures Words([a] + tail) == WordsOf(a) + Words(tail)
  {
    assert ([a] + tail)[1..] == tail;
  }

  function Fold(arguments: seq<Argument>, o: CliOptions): Parsed {
    if arguments == [] then Parsed(o)
    else
      var r := Take(o, TokenOf(arguments[0].word), arguments[0].value);
      if r.Stop? then r.parsed else Fold(arguments[1..], r.options)
  }

  lemma TakenAlike(o: CliOptions, args: seq<string>)
    requires |args| != 0
    ensures var r := Take(o, TokenOf(args[0]), NextOf(args));
            && Take(o, TokenOf(args[0]), if TakesNext(args) then Some(args[1]) else None) == r
            && (r.Go? ==> r.both == TakesNext(args))
  {
  }

  /** Reading a list is taking its arguments one after the other. */
  lemma {:induction false} ReadingFolds(args: seq<string>, o: CliOptions)
    ensures Parse(args, o) == Fold(Arguments(args), o)
    decreases |args|
  {
    if |args| != 0 {
      TakenAlike(o, args);
      var r := Take(o, TokenOf(args[0]), NextOf(args));
      if r.Go? {
        ReadingFolds(Following(args), r.options);
      }
    }
  }

  lemma {:induction false} WordsOfArguments(args: seq<string>)
    ensures Words(Arguments(args)) == args
    decreases |args|
  {
    if |args| != 0 {
      WordsOfArguments(Following(args));
    }
  }

  lemma Regrouped<T>(a: seq<T>, b: seq<T>, c: seq<T>)
    ensures a + (b + c) == a + b + c
  {
  }

  lemma {:induction false} WordsSum(a: seq<Argument>, b: seq<Argument>)
    ensures Words(a + b) == Words(a) + Words(b)
  {
    if a == [] {
      assert a + b == b;
    } else {
      var first, rest := a[0], a[1..];
      WordsSum(rest, b);
      assert (a + b)[1..] == rest + b;
      Regrouped(WordsOf(first), Words(rest), Words(b));
    }
  }

  // ----- when the arguments survive a rewrite -----

  function FirstOf(words: seq<string>): Option<string> { if |words| == 0 then None else Some(words[0]) }

  /** Arguments the reader could have taken: values for value flags only. */
  predicate Taken(a: Argument) {
    if a.value.Some? then TokenOf(a.word).ValueFlag? && a.value.value != "" else !TokenOf(a.word).ForkFlag?
  }

  /** A value flag without a value that would take the first of `words` for it. */
  predicate Reaches(a: Argument, words: seq<string>) {
    a.value.None? && TokenOf(a.word).ValueFlag? && Given(FirstOf(words))
  }

  /** Followed by `rest`, no argument would take the next word for a value it did not have. */
  predicate Standing(arguments: seq<Argument>, rest: seq<string>) {
    arguments == [] || (!Reaches(arguments[0], Words(arguments[1..]) + rest) && Standing(arguments[1..], rest))
  }

  /** Arguments written out before `rest` are read as themselves exactly when they stand before it. */
  lemma {:induction false} StandingArgumentsReadBack(arguments: seq<Argument>, rest: seq<string>)
    requires forall a <- arguments :: Taken(a)
    ensures Arguments(Words(arguments) + rest) == arguments + Arguments(rest) <==> Standing(arguments, rest)
  {
    if arguments == [] {
      assert [] + rest == rest && [] + Arguments(rest) == Arguments(rest);
    } else {
      var first, others := arguments[0], arguments[1..];
      StandingArgumentsReadBack(others, rest);
      OneMoreReadsBack(first, others, rest);
      assert arguments == [first] + others;
    }
  }

  lemma OneMoreReadsBack(first: Argument, others: seq<Argument>, rest: seq<string>)
    requires Taken(first)
    ensures Arguments(Words([first] + others) + rest) == [first] + others + Arguments(rest)
            <==> !Reaches(first, Words(others) + rest) && Arguments(Words(others) + rest) == others + Arguments(rest)
  {
    var tail := Words(others) + rest;
    WordsCons(first, others);
    Regrouped(WordsOf(first), Words(others), rest);
    Regrouped([first], others, Arguments(rest));
    FirstReadsBack(first, tail);
    OneAhead(first, others + Arguments(rest), Arguments(WordsOf(first) + tail));
  }

  lemma OneAhead(first: Argument, tail: seq<Argument>, all: seq<Argument>)
    ensures all == [first] + tail <==> all != [] && all[0] == first && all[1..] == tail
  {
  }

  lemma FirstReadsBack(a: Argument, tail: seq<string>)
    requires Taken(a)
    ensures var all := Arguments(WordsOf(a) + tail);
            && all != []
            && (if Reaches(a, tail) then all[0] != a else all[0] == a && all[1..] == Arguments(tail))
  {
    var words := WordsOf(a) + tail;
    if a.value.Some? {
      assert NextOf(words) == a.value && words[2..] == tail;
    } else {
      assert NextOf(words) == FirstOf(tail) && words[1..] == tail;
    }
  }

  /** The list ends in a value flag without a value. */
  predicate EndsOpen(arguments: seq<Argument>) {
    && arguments != []
    && var last := arguments[|arguments| - 1];
       last.value.None? && TokenOf(last.word).ValueFlag? && TokenOf(last.word) != ValueFlag(ResumeFlag)
  }

  lemma {:induction false} OtherArgumentsAreTaken(args: seq<string>)
    ensures forall a <- Others(Arguments(args)) :: Taken(a)
    decreases |args|
  {
    if |args| != 0 {
      OtherArgumentsAreTaken(Following(args));
      OthersCons(FirstArgument(args), Arguments(Following(args)));
    }
  }

  /** What is read from a list stands before any `rest` unless it ends open and `rest` offers a value. */
  lemma {:induction false} OtherArgumentsStand(args: seq<string>, rest: seq<string>)
    ensures Standing(Others(Arguments(args)), rest) <==> !(EndsOpen(Arguments(args)) && Given(FirstOf(rest)))
    decreases |args|
  {
    if |args| != 0 {
      var first, after := FirstArgument(args), Following(args);
      var tail := Arguments(after);
      OtherArgumentsStand(after, rest);
      OthersCons(first, tail);
      EndOfCons(first, tail);
      if ChoosesSession(TokenOf(args[0])) {
        assert [] + Others(tail) == Others(tail);
      } else {
        var all := [first] + Others(tail);
        assert all[1..] == Others(tail);
        if first.value.None? && TokenOf(first.word).ValueFlag? {
          NothingIsReached(args, rest);
        }
      }
    }
  }

  lemma EndOfCons(a: Argument, tail: seq<Argument>)
    ensures EndsOpen([a] + tail) == EndsOpen(if tail == [] then [a] else tail)
  {
    assert tail != [] ==> ([a] + tail)[|tail|] == tail[|tail| - 1];
  }

  /** A value flag was left without a value by an empty word, which stays behind it, or by the end. */
  lemma NothingIsReached(args: seq<string>, rest: seq<string>)
    requires |args| != 0 && TokenOf(args[0]).ValueFlag? && !TakesNext(args)
    ensures var tail := Arguments(Following(args));
            Given(FirstOf(Words(Others(tail)) + rest)) <==> tail == [] && Given(FirstOf(rest))
  {
    var after := Following(args);
    if |after| == 0 {
      assert [] + rest == rest;
    } else {
      EmptyWordStays(after);
      assert Arguments(after) != [];
    }
  }

  lemma EmptyWordIsOther(word: string)
    requires |word| == 0
    ensures TokenOf(word) == OtherWord
  {
  }

  lemma EmptyWordStays(args: seq<string>)
    requires |args| != 0 && |args[0]| == 0
    ensures Words(Others(Arguments(args))) != [] && |Words(Others(Arguments(args)))[0]| == 0
  {
    var first, tail := FirstArgument(args), Arguments(Following(args));
    EmptyWordIsOther(args[0]);
    OthersCons(first, tail);
    WordsCons(first, Others(tail));
    assert Others(Arguments(args)) == [first] + Others(tail);
  }

  // ----- when rewriter and reader drop the same words -----

  /** The words that should be left: those of the arguments that choose no session. */
  function Wanted(args: seq<string>): seq<string> { Words(Others(Arguments(args))) }

  /** The reader takes any next word for a value, the rewriter none that starts with a dash. That makes no
      difference behind a session flag when the rewriter drops the dashed word too, and no word after it,
      and behind any other flag when it keeps the dashed word. */
  predicate FirstFits(args: seq<string>)
    requires |args| != 0
  {
    TakesNext(args) && Dashed(args[1]) ==>
      if ChoosesSession(TokenOf(args[0])) then Dropped(args[1]) && !(RoleOf(args[1]) == Naming && OwnWordAt(args, 1))
      else !Dropped(args[1])
  }

  /** No value in the list starts with a dash in a way that sets rewriter and reader apart. */
  predicate DashesFit(args: seq<string>)
    decreases |args|
  {
    |args| == 0 || (FirstFits(args) && DashesFit(Following(args)))
  }

  function FirstWanted(args: seq<string>): seq<string>
    requires |args| != 0
  {
    if ChoosesSession(TokenOf(args[0])) then [] else WordsOf(FirstArgument(args))
  }

  lemma WantedFirst(args: seq<string>)
    requires |args| != 0
    ensures Wanted(args) == FirstWanted(args) + Wanted(Following(args))
  {
    var first, tail := FirstArgument(args), Arguments(Following(args));
    OthersCons(first, tail);
    if ChoosesSession(TokenOf(args[0])) {
      assert [] + Others(tail) == Others(tail);
    } else {
      WordsCons(first, Others(tail));
    }
  }

  lemma OwnWordIsWanted(args: seq<string>)
    requires |args| != 0 && args[0] != "" && !Dashed(args[0])
    ensures Wanted(args) == [args[0]] + Wanted(args[1..])
  {
    KnownFlagsAreDashed(args[0]);
    WantedFirst(args);
  }

  /** What the rewriter does at a dashed word. */
  lemma StrippedAtDash(args: seq<string>)
    requires |args| != 0
    ensures !Dropped(args[0]) ==> Stripped(args) == [args[0]] + Stripped(args[1..])
    ensures Dropped(args[0]) && !(RoleOf(args[0]) == Naming && HasOwnWord(args)) ==>
            Stripped(args) == Stripped(args[1..])
    ensures RoleOf(args[0]) == Naming && HasOwnWord(args) ==> Stripped(args) == Stripped(args[2..])
  {
    if !Dropped(args[0]) {
      KeptArgumentsAreOneByOne(args);
    }
  }

  lemma DroppedIsDashed(word: string)
    ensures Dropped(word) ==> Dashed(word)
  {
  }

  lemma SessionIsDropped(args: seq<string>)
    requires |args| != 0 && FirstFits(args) && ChoosesSession(TokenOf(args[0]))
    ensures Stripped(args) == Stripped(Following(args))
  {
    RoleOfToken(args[0]);
    StrippedAtDash(args);
    if TakesNext(args) && Dashed(args[1]) {
      StrippedAtDash(args[1..]);
      assert args[1..][1..] == args[2..];
    }
  }

  lemma PairIsKept(args: seq<string>)
    requires 1 < |args| && !Dropped(args[0]) && !Dropped(args[1])
    ensures Stripped(args) == [args[0], args[1]] + Stripped(args[2..])
  {
    KeptArgumentsAreOneByOne(args);
    KeptArgumentsAreOneByOne(args[1..]);
    assert args[1..][1..] == args[2..];
  }

  lemma KeptAsTaken(args: seq<string>, both: bool)
    requires |args| != 0 && !Dropped(args[0]) && (both ==> 1 < |args| && !Dropped(args[1]))
    ensures Stripped(args) == if both then [args[0], args[1]] + Stripped(args[2..]) else [args[0]] + Stripped(args[1..])
  {
    if both {
      PairIsKept(args);
    } else {
      KeptArgumentsAreOneByOne(args);
    }
  }

  /** What the reader takes for a session choice the rewriter drops. */
  lemma SessionChoicesAreDropped(word: string)
    ensures ChoosesSession(TokenOf(word)) <==> Dropped(word)
  {
    RoleOfToken(word);
  }

  lemma PlainValueIsKept(args: seq<string>)
    requires |args| != 0 && FirstFits(args) && !ChoosesSession(TokenOf(args[0])) && TakesNext(args)
    ensures !Dropped(args[1])
  {
    DroppedIsDashed(args[1]);
  }

  lemma OthersAreKept(args: seq<string>)
    requires |args| != 0 && FirstFits(args) && !ChoosesSession(TokenOf(args[0]))
    ensures Stripped(args) == WordsOf(FirstArgument(args)) + Stripped(Following(args))
  {
    var both := TakesNext(args);
    if both {
      PlainValueIsKept(args);
    }
    SessionChoicesAreDropped(args[0]);
    KeptAsTaken(args, both);
  }

  lemma StrippedFirst(args: seq<string>)
    requires |args| != 0 && FirstFits(args)
    ensures Stripped(args) == FirstWanted(args) + Stripped(Following(args))
  {
    if ChoosesSession(TokenOf(args[0])) {
      SessionIsDropped(args);
    } else {
      OthersAreKept(args);
    }
  }

  function Count(words: seq<string>, dashed: bool): nat {
    if words == [] then 0 else (if Dashed(words[0]) == dashed then 1 else 0) + Count(words[1..], dashed)
  }

  lemma {:induction false} CountSum(a: seq<string>, b: seq<string>, dashed: bool)
    ensures Count(a + b, dashed) == Count(a, dashed) + Count(b, dashed)
  {
    if a == [] {
      assert a + b == b;
    } else {
      assert (a + b)[1..] == a[1..] + b;
      CountSum(a[1..], b, dashed);
    }
  }

  lemma CountFirst(word: string, rest: seq<string>, dashed: bool)
    ensures Count([word] + rest, dashed) == (if Dashed(word) == dashed then 1 else 0) + Count(rest, dashed)
  {
    assert ([word] + rest)[1..] == rest;
  }

  /** The three ways the first argument can set rewriter and reader apart. */
  predicate KeepsTooFew(args: seq<string>)
    requires |args| != 0
  {
    !ChoosesSession(TokenOf(args[0])) && TakesNext(args) && Dropped(args[1])
  }

  predicate KeepsTooMany(args: seq<string>)
    requires |args| != 0
  {
    ChoosesSession(TokenOf(args[0])) && TakesNext(args) && Dashed(args[1]) && !Dropped(args[1])
  }

  predicate DropsAWord(args: seq<string>)
    requires |args| != 0
  {
    ChoosesSession(TokenOf(args[0])) && TakesNext(args) && RoleOf(args[1]) == Naming && OwnWordAt(args, 1)
  }

  lemma ThreeWays(args: seq<string>)
    requires |args| != 0
    ensures !FirstFits(args) <==> KeepsTooFew(args) || KeepsTooMany(args) || DropsAWord(args)
  {
    if TakesNext(args) {
      DroppedIsDashed(args[1]);
    }
  }

  lemma TooManyKept(args: seq<string>)
    requires |args| != 0 && KeepsTooMany(args)
    ensures Stripped(args) == [args[1]] + Stripped(Following(args)) && Wanted(args) == Wanted(Following(args))
  {
    RoleOfToken(args[0]);
    StrippedAtDash(args);
    StrippedAtDash(args[1..]);
    assert args[1..][1..] == args[2..];
    WantedFirst(args);
    assert [] + Wanted(Following(args)) == Wanted(Following(args));
  }

  /** At a dropped word that names a session, an own word after it goes too. */
  lemma StrippedAtName(args: seq<string>)
    requires 1 < |args| && RoleOf(args[1]) == Naming && OwnWordAt(args, 1)
    ensures Stripped(args[1..]) == Stripped(args[3..]) && Wanted(args[2..]) == [args[2]] + Wanted(args[3..])
  {
    StrippedAtDash(args[1..]);
    OwnWordIsWanted(args[2..]);
    assert args[1..][2..] == args[3..] && args[2..][1..] == args[3..];
  }

  lemma AWordDropped(args: seq<string>)
    requires |args| != 0 && DropsAWord(args)
    ensures Stripped(args) == Stripped(args[3..]) && Wanted(args) == [args[2]] + Wanted(args[3..])
  {
    RoleOfToken(args[0]);
    DroppedIsDashed(args[1]);
    StrippedAtDash(args);
    StrippedAtName(args);
    WantedFirst(args);
    assert [] + Wanted(args[2..]) == Wanted(args[2..]);
  }

  lemma TooFewWanted(args: seq<string>)
    requires |args| != 0 && KeepsTooFew(args)
    ensures Wanted(args) == [args[0]] + ([args[1]] + Wanted(args[2..]))
  {
    WantedFirst(args);
    assert [args[0], args[1]] + Wanted(args[2..]) == [args[0]] + ([args[1]] + Wanted(args[2..]));
  }

  lemma TooFewKept(args: seq<string>)
    requires |args| != 0 && KeepsTooFew(args)
    ensures Stripped(args) == [args[0]] + Stripped(args[1..])
            && Wanted(args) == [args[0]] + ([args[1]] + Wanted(args[2..]))
  {
    TooFewWanted(args);
    SessionChoicesAreDropped(args[0]);
    KeptArgumentsAreOneByOne(args);
  }

  /** The rewriter never keeps more words without a dash than are wanted. */
  lemma {:induction false} NoMorePlainWords(args: seq<string>)
    ensures Count(Stripped(args), false) <= Count(Wanted(args), false)
    decreases |args|
  {
    if |args| != 0 {
      ThreeWays(args);
      if FirstFits(args) {
        NoMorePlainWords(Following(args));
        StrippedFirst(args);
        WantedFirst(args);
        CountSum(FirstWanted(args), Stripped(Following(args)), false);
        CountSum(FirstWanted(args), Wanted(Following(args)), false);
      } else if KeepsTooMany(args) {
        NoMorePlainWords(Following(args));
        TooManyKept(args);
        CountFirst(args[1], Stripped(Following(args)), false);
      } else if DropsAWord(args) {
        NoMorePlainWords(args[3..]);
        AWordDropped(args);
        CountFirst(args[2], Wanted(args[3..]), false);
      } else {
        PlainWordsOfTooFew(args);
      }
    }
  }

  lemma PlainWordsOfTooFew(args: seq<string>)
    requires |args| != 0 && KeepsTooFew(args)
    ensures Count(Stripped(args), false) <= Count(Wanted(args), false)
    decreases |args|, 0
  {
    TooFewKept(args);
    CountFirst(args[0], Stripped(args[1..]), false);
    CountFirst(args[0], [args[1]] + Wanted(args[2..]), false);
    CountFirst(args[1], Wanted(args[2..]), false);
    if RoleOf(args[1]) == Naming && OwnWordAt(args, 1) {
      StrippedAtName(args);
      NoMorePlainWords(args[3..]);
      CountFirst(args[2], Wanted(args[3..]), false);
    } else {
      StrippedAtDash(args[1..]);
      assert args[1..][1..] == args[2..];
      NoMorePlainWords(args[2..]);
    }
  }

  ghost predicate HoldsDropped(words: seq<string>) { exists word <- words :: Dropped(word) }

  /** Where no dropped word is wanted, the rewriter keeps every dashed word that is. */
  lemma {:induction false} NoFewerDashedWords(args: seq<string>)
    requires !HoldsDropped(Wanted(args))
    ensures Count(Wanted(args), true) <= Count(Stripped(args), true)
    decreases |args|
  {
    if |args| != 0 {
      ThreeWays(args);
      if FirstFits(args) {
        WantedFirst(args);
        NoFewerDashedWords(Following(args));
        StrippedFirst(args);
        CountSum(FirstWanted(args), Stripped(Following(args)), true);
        CountSum(FirstWanted(args), Wanted(Following(args)), true);
      } else if KeepsTooMany(args) {
        TooManyKept(args);
        NoFewerDashedWords(Following(args));
        CountFirst(args[1], Stripped(Following(args)), true);
      } else if DropsAWord(args) {
        AWordDropped(args);
        NoFewerDashedWords(args[3..]);
        CountFirst(args[2], Wanted(args[3..]), true);
      } else {
        TooFewKept(args);
        assert false;
      }
    }
  }

  lemma ApartAtTheFirst(args: seq<string>)
    requires |args| != 0 && !FirstFits(args)
    ensures Stripped(args) != Wanted(args)
  {
    ThreeWays(args);
    StrippedHoldsNoSession(args);
    if KeepsTooFew(args) {
      TooFewKept(args);
      assert args[1] in Wanted(args);
    } else if DropsAWord(args) {
      AWordDropped(args);
      NoMorePlainWords(args[3..]);
      CountFirst(args[2], Wanted(args[3..]), false);
    } else {
      TooManyKept(args);
      CountFirst(args[1], Stripped(Following(args)), true);
      if !HoldsDropped(Wanted(args)) {
        NoFewerDashedWords(Following(args));
      }
    }
  }

  lemma SameEnd(front: seq<string>, a: seq<string>, b: seq<string>)
    ensures front + a == front + b <==> a == b
  {
    if front + a == front + b {
      assert a == (front + a)[|front|..] && b == (front + b)[|front|..];
    }
  }

  /** The rewriter leaves exactly the wanted words if and only if the dashes in the list fit. */
  lemma {:induction false} StrippedIsWantedIffDashesFit(args: seq<string>)
    ensures Stripped(args) == Wanted(args) <==> DashesFit(args)
    decreases |args|
  {
    if |args| != 0 {
      if FirstFits(args) {
        StrippedIsWantedIffDashesFit(Following(args));
        StrippedFirst(args);
        WantedFirst(args);
        SameEnd(FirstWanted(args), Stripped(Following(args)), Wanted(Following(args)));
      } else {
        ApartAtTheFirst(args);
      }
    }
  }

  /** The rewritten list is read as the original arguments without session choices, and then the pin,
      exactly when the dashes in the list fit and no value flag is left open for the pinned `--resume`. */
  lemma ArgumentsSurviveExactly(argv: seq<string>, id: Option<string>)
    ensures Arguments(ForRestart(argv, id)) == Others(Arguments(argv)) + Arguments(Pinned(id))
            <==> DashesFit(argv) && !(EndsOpen(Arguments(argv)) && Given(id))
  {
    var others, pin := Others(Arguments(argv)), Pinned(id);
    StrippedIsWantedIffDashesFit(argv);
    OtherArgumentsAreTaken(argv);
    OtherArgumentsStand(argv, pin);
    StandingArgumentsReadBack(others, pin);
    if Arguments(ForRestart(argv, id)) == others + Arguments(pin) {
      WordsSum(others, Arguments(pin));
      WordsOfArguments(ForRestart(argv, id));
      WordsOfArguments(pin);
      SameFront(Stripped(argv), Words(others), pin);
    }
  }

  lemma SameFront(a: seq<string>, b: seq<string>, end: seq<string>)
    requires a + end == b + end
    ensures a == b
  {
    assert |a| == |b|;
    assert a == (a + end)[..|a|] && b == (b + end)[..|b|];
  }

  // ----- the options -----

  lemma {:induction false} FoldSum(a: seq<Argument>, b: seq<Argument>, o: CliOptions)
    ensures Fold(a + b, o) == if Fold(a, o).Parsed? then Fold(b, Fold(a, o).options) else Fold(a, o)
    decreases |a|
  {
    if a == [] {
      assert a + b == b;
    } else {
      assert (a + b)[1..] == a[1..] + b;
      var r := Take(o, TokenOf(a[0].word), a[0].value);
      if r.Go? {
        FoldSum(a[1..], b, r.options);
      }
    }
  }

  /** Leaving out the session choices changes nothing but the session. */
  lemma {:induction false} OthersFold(arguments: seq<Argument>, o: CliOptions)
    ensures var p := Fold(arguments, o);
            Fold(Others(arguments), Sessionless(o)) == if p.Parsed? then Parsed(Sessionless(p.options)) else p
    decreases |arguments|
  {
    if arguments != [] {
      var token, value := TokenOf(arguments[0].word), arguments[0].value;
      var r := Take(o, token, value);
      if ChoosesSession(token) {
        SessionFlagsSetNothingElse(o, token, value);
        assert Others(arguments) == Others(arguments[1..]);
      } else {
        OtherFlagsIgnoreTheSession(o, token, value);
        assert Others(arguments)[0] == arguments[0] && Others(arguments)[1..] == Others(arguments[1..]);
      }
      if r.Go? {
        OthersFold(arguments[1..], r.options);
      }
    }
  }

  lemma PinFolds(o: CliOptions, id: Option<string>)
    ensures Fold(Arguments(Pinned(id)), o) == Parsed(if Given(id) then o.(resume := id) else o)
  {
    if Given(id) {
      var pin := Pinned(id);
      assert NextOf(pin) == id && pin[2..] == [];
      assert Arguments(pin) == [Argument("--resume", id)];
    }
  }

  /** A restart reads as the original start did, with only the session changed. */
  lemma RestartKeepsTheOptions(argv: seq<string>, id: Option<string>)
    requires DashesFit(argv) && !(EndsOpen(Arguments(argv)) && Given(id))
    ensures Parse(ForRestart(argv, id), DEFAULTS) == Resuming(Parse(argv, DEFAULTS), id)
  {
    var others, pin := Others(Arguments(argv)), Arguments(Pinned(id));
    ArgumentsSurviveExactly(argv, id);
    ReadingFolds(ForRestart(argv, id), DEFAULTS);
    ReadingFolds(argv, DEFAULTS);
    OthersFold(Arguments(argv), DEFAULTS);
    FoldSum(others, pin, DEFAULTS);
    var p := Fold(others, DEFAULTS);
    if p.Parsed? {
      PinFolds(p.options, id);
    }
  }

  /** Every value flag has a non-empty value of its own that does not start with a dash. */
  predicate OwnValues(args: seq<string>)
    decreases |args|
  {
    |args| == 0
    || if TokenOf(args[0]).ValueFlag? then HasOwnWord(args) && OwnValues(args[2..])
       else OwnValues(if TokenOf(args[0]).ForkFlag? && HasOwnWord(args) then args[2..] else args[1..])
  }

  /** Then the dashes fit and the list does not end open. */
  lemma {:induction false} OwnValuesFit(args: seq<string>)
    requires OwnValues(args)
    ensures DashesFit(args) && !EndsOpen(Arguments(args))
    decreases |args|
  {
    if |args| != 0 {
      OwnValuesFit(Following(args));
      EndOfCons(FirstArgument(args), Arguments(Following(args)));
    }
  }

  // ----- where they do not agree -----

  lemma {:induction false} StandingFront(front: seq<Argument>, last: Argument, rest: seq<string>)
    requires Standing(front + [last], rest)
    ensures Standing(front, WordsOf(last) + rest)
  {
    if front != [] {
      assert (front + [last])[1..] == front[1..] + [last];
      StandingFront(front[1..], last, rest);
      WordsSum(front[1..], [last]);
      WordsCons(last, []);
      assert [last] + [] == [last] && WordsOf(last) + [] == WordsOf(last);
      assert Words(front[1..]) + WordsOf(last) + rest == Words(front[1..]) + (WordsOf(last) + rest);
    }
  }

  predicate LastStays(arguments: seq<Argument>) {
    && Others(arguments) != [] && arguments != []
    && Others(arguments)[|Others(arguments)| - 1] == arguments[|arguments| - 1]
  }

  lemma LastOfMore(a: Argument, tail: seq<Argument>)
    requires EndsOpen([a] + tail) && (tail != [] ==> LastStays(tail))
    ensures LastStays([a] + tail)
  {
    OthersCons(a, tail);
  }

  lemma {:induction false} OpenEndIsKept(args: seq<string>)
    requires EndsOpen(Arguments(args))
    ensures LastStays(Arguments(args))
    decreases |args|
  {
    var first, tail := FirstArgument(args), Arguments(Following(args));
    EndOfCons(first, tail);
    if tail != [] {
      OpenEndIsKept(Following(args));
    }
    LastOfMore(first, tail);
  }

  /** A value flag that stands last takes the pinned `--resume` for its value, and the id is a word of its own. */
  lemma LastFlagTakesThePin(argv: seq<string>, id: string)
    requires DashesFit(argv) && EndsOpen(Arguments(argv)) && id != ""
    ensures var others := Others(Arguments(argv));
            && others != []
            && Arguments(ForRestart(argv, Some(id)))
               == others[..|others| - 1] + [Argument(others[|others| - 1].word, Some("--resume"))] + Arguments([id])
  {
    var others := Others(Arguments(argv));
    OpenEndIsKept(argv);
    StrippedIsWantedIffDashesFit(argv);
    OtherArgumentsAreTaken(argv);
    OtherArgumentsStand(argv, []);
    PinIsTaken(argv, others, id);
  }

  lemma PinIsTaken(argv: seq<string>, others: seq<Argument>, id: string)
    requires Stripped(argv) == Words(others) && id != "" && EndsOpen(others)
    requires (forall a <- others :: Taken(a)) && Standing(others, [])
    ensures Arguments(ForRestart(argv, Some(id)))
            == others[..|others| - 1] + [Argument(others[|others| - 1].word, Some("--resume"))] + Arguments([id])
  {
    var front, last := others[..|others| - 1], others[|others| - 1];
    assert others == front + [last];
    PinAtTheEnd(argv, front, last, id);
    OpenEndTakes(front, last, id);
  }

  lemma PinAtTheEnd(argv: seq<string>, front: seq<Argument>, last: Argument, id: string)
    requires Stripped(argv) == Words(front + [last]) && last.value.None? && id != ""
    ensures ForRestart(argv, Some(id)) == Words(front) + ([last.word] + ["--resume", id])
  {
    WordsSum(front, [last]);
    WordsCons(last, []);
    assert [last] + [] == [last] && WordsOf(last) + [] == [last.word];
    Regrouped(Words(front), [last.word], ["--resume", id]);
  }

  lemma OpenEndTakes(front: seq<Argument>, last: Argument, id: string)
    requires forall a <- front :: Taken(a)
    requires last.value.None? && TokenOf(last.word).ValueFlag? && Standing(front + [last], [])
    ensures Arguments(Words(front) + ([last.word] + ["--resume", id]))
            == front + [Argument(last.word, Some("--resume"))] + Arguments([id])
  {
    var taken := Argument(last.word, Some("--resume"));
    var end := WordsOf(taken) + [id];
    StandingFront(front, last, []);
    assert WordsOf(last) + [] == [last.word];
    StandsWhateverFollows(front, last.word, ["--resume", id]);
    assert [last.word] + ["--resume", id] == end;
    StandingArgumentsReadBack(front, end);
    FirstReadsBack(taken, [id]);
    OneAhead(taken, Arguments([id]), Arguments(end));
    assert front + ([taken] + Arguments([id])) == front + [taken] + Arguments([id]);
  }

  lemma {:induction false} StandsWhateverFollows(front: seq<Argument>, word: string, rest: seq<string>)
    requires Standing(front, [word])
    ensures Standing(front, [word] + rest)
  {
    if front != [] {
      StandsWhateverFollows(front[1..], word, rest);
      assert FirstOf(Words(front[1..]) + ([word] + rest)) == FirstOf(Words(front[1..]) + [word]);
    }
  }

  /** A value flag whose value the rewriter drops takes the next word that is left instead, if there is one. */
  lemma DroppedValueIsReplaced(flag: string, value: string, rest: seq<string>, id: Option<string>)
    requires TokenOf(flag).ValueFlag? && TokenOf(flag) != ValueFlag(ResumeFlag) && Dropped(value)
    ensures var left := Stripped([value] + rest) + Pinned(id);
            && Arguments([flag, value] + rest) == [Argument(flag, Some(value))] + Arguments(rest)
            && ForRestart([flag, value] + rest, id) == [flag] + left
            && FirstArgument([flag] + left) == Argument(flag, if Given(FirstOf(left)) then FirstOf(left) else None)
  {
    var argv := [flag, value] + rest;
    var left := Stripped([value] + rest) + Pinned(id);
    DroppedIsDashed(value);
    assert argv[1..] == [value] + rest && argv[2..] == rest;
    RoleOfToken(flag);
    StrippedAtDash(argv);
    assert [flag] + Stripped(argv[1..]) + Pinned(id) == [flag] + left;
    assert NextOf([flag] + left) == FirstOf(left);
  }
}
