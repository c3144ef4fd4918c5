/**
 Every set of options the command line can ask for, written out as arguments and read back.
 */
module CliText {
  import opened Options
  import opened Strings
  import opened Cli

  // ----- writing options out -----

  function Word(short: bool, brief: string, long: string): string { if short then brief else long }

  function Flagged(flag: string, value: Option<string>): seq<string> { if value.Some? then [flag, value.value] else [] }

  function Each(flag: string, values: seq<string>): seq<string> {
    if values == [] then [] else [flag, values[0]] + Each(flag, values[1..])
  }

  function CommandWords(command: Command, short: bool): seq<string> {
    match command
    case Serve => [Word(short, "serve", "server")]
    case Update => [Word(short, "update", "--update")]
    case Login => ["login"]
    case Logout => ["logout"]
    case Whoami => ["whoami"]
    case _ => []
  }

  function TaskWords(o: CliOptions, short: bool): seq<string> {
    Flagged(Word(short, "-p", "--prompt"), o.prompt) + CommandWords(o.command, short)
  }

  function SettingWords(o: CliOptions): seq<string> {
    Flagged("--model", o.model) + Flagged("--env-file", o.envFile)
    + Flagged("--append-system-prompt", o.appendSystemPrompt)
  }

  function ContinueWords(o: CliOptions, short: bool): seq<string> {
    if o.continueLatest then [Word(short, "-c", "--continue")] else []
  }

  function ForkWords(o: CliOptions): seq<string> {
    match o.fork
    case None => []
    case Some(None) => ["--fork"]
    case Some(Some(id)) => ["--fork", id]
  }

  function FormatWords(o: CliOptions): seq<string> {
    ["--output-format", if o.outputFormat == Text then "text" else "stream-json"]
  }

  function SessionWords(o: CliOptions, short: bool): seq<string> {
    Flagged(Word(short, "-r", "--resume"), o.resume) + ContinueWords(o, short) + ForkWords(o) + FormatWords(o)
  }

  function PortWords(o: CliOptions): seq<string> {
    if o.port.Some? then ["--port", DecimalText(o.port.value)] else []
  }

  function LimitWords(turns: nat, tokens: nat, duration: nat): seq<string> {
    ["--max-turns", DecimalText(turns)]
    + (["--max-tokens", DecimalText(tokens)] + ["--max-duration", DecimalText(duration)])
  }

  function NumberWords(o: CliOptions): seq<string> { PortWords(o) + LimitWords(o.maxTurns, o.maxTokens, o.maxDuration) }

  function ListWords(o: CliOptions, short: bool): seq<string> {
    Each("--skills", o.skillsDirs) + (Each("--skill", o.skillNames) + Each(Word(short, "-f", "--file"), o.files))
  }

  function Spelled(o: CliOptions, short: bool): seq<string> {
    TaskWords(o, short) + (SettingWords(o) + (SessionWords(o, short) + (NumberWords(o) + ListWords(o, short))))
  }

  // ----- which options can be asked for -----

  predicate NonEmpty(value: Option<string>) { value.Some? ==> value.value != "" }

  predicate AllNonEmpty(values: seq<string>) { forall k :: 0 <= k < |values| ==> values[k] != "" }

  /** No value is empty, no number is zero, a fork names no dashed word, and a prompt comes with a command. */
  predicate Askable(o: CliOptions) {
    && NonEmpty(o.prompt) && NonEmpty(o.model) && NonEmpty(o.envFile) && NonEmpty(o.resume)
    && NonEmpty(o.appendSystemPrompt)
    && AllNonEmpty(o.skillsDirs) && AllNonEmpty(o.skillNames) && AllNonEmpty(o.files)
    && (o.port.Some? ==> 0 < o.port.value) && 0 < o.maxTurns && 0 < o.maxTokens && 0 < o.maxDuration
    && (o.fork.Some? && o.fork.value.Some? ==> o.fork.value.value != "" && !Dashed(o.fork.value.value))
    && (o.command == Prompt ==> o.prompt.Some?) && (o.command == Repl ==> o.prompt.None?)
  }

  // ----- reading one argument -----

  lemma Regroup(a: seq<string>, b: seq<string>, rest: seq<string>)
    ensures a + b + rest == a + (b + rest)
  {
  }

  lemma ReadsFlag(word: string, flag: Flag, value: string, rest: seq<string>, o: CliOptions)
    requires TokenOf(word) == ValueFlag(flag) && value != "" && TakeValue(o, flag, value).Go?
    ensures Parse([word, value] + rest, o) == Parse(rest, TakeValue(o, flag, value).options)
  {
    var args := [word, value] + rest;
    assert args[2..] == rest;
  }

  lemma ReadsWord(word: string, rest: seq<string>, o: CliOptions)
    requires TokenOf(word).CommandWord? || TokenOf(word).ContinueFlag?
    ensures Parse([word] + rest, o) == Parse(rest, Take(o, TokenOf(word), None).options)
  {
    assert ([word] + rest)[1..] == rest;
  }

  lemma ReadsFork(id: Option<string>, rest: seq<string>, o: CliOptions)
    requires id.Some? ==> id.value != "" && !Dashed(id.value)
    requires id.None? ==> rest == [] || Dashed(rest[0])
    ensures Parse((if id.Some? then ["--fork", id.value] else ["--fork"]) + rest, o)
            == Parse(rest, o.(fork := Some(id)))
  {
    if id.Some? {
      assert (["--fork", id.value] + rest)[2..] == rest;
    } else {
      assert (["--fork"] + rest)[1..] == rest;
    }
  }

  lemma {:induction false} DigitsCount(s: string)
    requires AllDigits(s)
    ensures DigitCount(s) == |s|
    decreases |s|
  {
    if s != "" {
      DigitsCount(s[1..]);
    }
  }

  lemma NumberReadsBack(n: nat)
    requires 0 < n
    ensures PositiveNumber(DecimalText(n)) == Some(n)
  {
    var s := DecimalText(n);
    DecimalReadsBack(n);
    DigitsCount(s);
    assert s[..|s|] == s && !IsSpace(s[0]);
  }

  lemma ReadsGiven(word: string, flag: Flag, value: Option<string>, rest: seq<string>, o: CliOptions)
    requires TokenOf(word) == ValueFlag(flag) && NonEmpty(value)
    requires value.Some? ==> TakeValue(o, flag, value.value).Go?
    ensures Parse(Flagged(word, value) + rest, o)
            == Parse(rest, if value.Some? then TakeValue(o, flag, value.value).options else o)
  {
    if value.Some? {
      ReadsFlag(word, flag, value.value, rest, o);
    } else {
      assert [] + rest == rest;
    }
  }

  lemma ReadsNumber(word: string, flag: Flag, n: nat, rest: seq<string>, o: CliOptions)
    requires TokenOf(word) == ValueFlag(flag) && 0 < n
    requires flag.PortFlag? || flag.MaxTurnsFlag? || flag.MaxTokensFlag? || flag.MaxDurationFlag?
    ensures Parse([word, DecimalText(n)] + rest, o)
            == Parse(rest, match flag
                           case PortFlag => o.(port := Some(n))
                           case MaxTurnsFlag => o.(maxTurns := n)
                           case MaxTokensFlag => o.(maxTokens := n)
                           case _ => o.(maxDuration := n))
  {
    NumberReadsBack(n);
    ReadsFlag(word, flag, DecimalText(n), rest, o);
  }

  /** The options with more directories, names or files. */
  function Extended(o: CliOptions, flag: Flag, values: seq<string>): CliOptions {
    match flag
    case SkillsFlag => o.(skillsDirs := o.skillsDirs + values)
    case SkillFlag => o.(skillNames := o.skillNames + values)
    case _ => o.(files := o.files + values)
  }

  lemma ExtendedOnce(o: CliOptions, flag: Flag, value: string, values: seq<string>)
    requires flag.SkillsFlag? || flag.SkillFlag? || flag.FileFlag?
    ensures TakeValue(o, flag, value) == Go(Extended(o, flag, [value]), true)
    ensures Extended(Extended(o, flag, [value]), flag, values) == Extended(o, flag, [value] + values)
  {
    match flag
    case SkillsFlag => Regroup(o.skillsDirs, [value], values);
    case SkillFlag => Regroup(o.skillNames, [value], values);
    case FileFlag => Regroup(o.files, [value], values);
  }

  lemma NothingMore(o: CliOptions, flag: Flag)
    ensures Extended(o, flag, []) == o
  {
    assert o.skillsDirs + [] == o.skillsDirs && o.skillNames + [] == o.skillNames && o.files + [] == o.files;
  }

  lemma {:induction false} ReadsEach(word: string, flag: Flag, values: seq<string>, rest: seq<string>, o: CliOptions)
    requires TokenOf(word) == ValueFlag(flag) && AllNonEmpty(values)
    requires flag.SkillsFlag? || flag.SkillFlag? || flag.FileFlag?
    ensures Parse(Each(word, values) + rest, o) == Parse(rest, Extended(o, flag, values))
    decreases |values|
  {
    if values == [] {
      assert Each(word, values) + rest == rest;
      NothingMore(o, flag);
    } else {
      var others := Each(word, values[1..]);
      Regroup([word, values[0]], others, rest);
      ExtendedOnce(o, flag, values[0], values[1..]);
      ReadsFlag(word, flag, values[0], others + rest, o);
      ReadsEach(word, flag, values[1..], rest, Extended(o, flag, [values[0]]));
      assert values == [values[0]] + values[1..];
    }
  }

  /** The words of the flags whose values are numbers or lists. */
  lemma NumberFlags()
    ensures TokenOf("--max-turns") == ValueFlag(MaxTurnsFlag)
    ensures TokenOf("--max-tokens") == ValueFlag(MaxTokensFlag)
    ensures TokenOf("--max-duration") == ValueFlag(MaxDurationFlag)
  {
  }

  lemma ListFlags(short: bool)
    ensures TokenOf("--skills") == ValueFlag(SkillsFlag) && TokenOf("--skill") == ValueFlag(SkillFlag)
    ensures TokenOf(Word(short, "-f", "--file")) == ValueFlag(FileFlag)
  {
  }

  // ----- reading all of it -----

  lemma ReadsCommand(command: Command, short: bool, rest: seq<string>, o: CliOptions)
    ensures Parse(CommandWords(command, short) + rest, o)
            == Parse(rest, if command == Prompt || command == Repl then o else o.(command := command))
  {
    var words := CommandWords(command, short);
    if words == [] {
      assert words + rest == rest;
    } else {
      ReadsWord(words[0], rest, o);
    }
  }

  lemma ReadsTask(o: CliOptions, short: bool, rest: seq<string>)
    requires Askable(o)
    ensures Parse(TaskWords(o, short) + rest, DEFAULTS)
            == Parse(rest, DEFAULTS.(command := o.command, prompt := o.prompt))
  {
    var word, commands := Word(short, "-p", "--prompt"), CommandWords(o.command, short);
    Regroup(Flagged(word, o.prompt), commands, rest);
    ReadsGiven(word, PromptFlag, o.prompt, commands + rest, DEFAULTS);
    ReadsCommand(o.command, short, rest, if o.prompt.Some? then TakeValue(DEFAULTS, PromptFlag, o.prompt.value).options
        else DEFAULTS);
  }

  lemma ReadsSettings(o: CliOptions, rest: seq<string>, before: CliOptions)
    requires Askable(o) && before.model.None? && before.envFile.None? && before.appendSystemPrompt.None?
    ensures Parse(SettingWords(o) + rest, before)
            == Parse(rest, before.(model := o.model, envFile := o.envFile, appendSystemPrompt := o.appendSystemPrompt))
  {
    var a, b := Flagged("--model", o.model), Flagged("--env-file", o.envFile);
    var c := Flagged("--append-system-prompt", o.appendSystemPrompt);
    Regroup(a + b, c, rest);
    Regroup(a, b, c + rest);
    ReadsGiven("--model", ModelFlag, o.model, b + (c + rest), before);
    var o1 := before.(model := o.model);
    ReadsGiven("--env-file", EnvFileFlag, o.envFile, c + rest, o1);
    ReadsGiven("--append-system-prompt", AppendSystemPromptFlag, o.appendSystemPrompt, rest, o1.(envFile := o.envFile));
  }

  lemma ReadsForkAndFormat(o: CliOptions, rest: seq<string>, before: CliOptions)
    requires Askable(o) && before.fork.None?
    ensures Parse(ForkWords(o) + (FormatWords(o) + rest), before)
            == Parse(rest, before.(fork := o.fork, outputFormat := o.outputFormat))
  {
    var format := FormatWords(o);
    if o.fork.None? {
      assert ForkWords(o) + (format + rest) == format + rest;
    } else {
      assert (format + rest)[0] == "--output-format";
      ReadsFork(o.fork.value, format + rest, before);
    }
    ReadsFlag("--output-format", OutputFormatFlag, format[1], rest, before.(fork := o.fork));
  }

  lemma SessionFlags(short: bool)
    ensures TokenOf(Word(short, "-r", "--resume")) == ValueFlag(ResumeFlag)
    ensures TokenOf(Word(short, "-c", "--continue")) == ContinueFlag
  {
  }

  lemma ReadsResumeAndContinue(words: seq<string>, resume: Option<string>, continueLatest: bool, rest: seq<string>,
                               o: CliOptions)
    requires |words| == 2 && TokenOf(words[0]) == ValueFlag(ResumeFlag) && TokenOf(words[1]) == ContinueFlag
    requires NonEmpty(resume) && o.resume.None? && !o.continueLatest
    ensures Parse(Flagged(words[0], resume) + ((if continueLatest then [words[1]] else []) + rest), o)
            == Parse(rest, o.(resume := resume, continueLatest := continueLatest))
  {
    var b := if continueLatest then [words[1]] else [];
    ReadsGiven(words[0], ResumeFlag, resume, b + rest, o);
    var o1 := o.(resume := resume);
    if continueLatest {
      ReadsWord(words[1], rest, o1);
    } else {
      assert b + rest == rest;
    }
  }

  lemma ReadsSession(o: CliOptions, short: bool, rest: seq<string>, before: CliOptions)
    requires Askable(o) && before.resume.None? && !before.continueLatest && before.fork.None?
    ensures Parse(SessionWords(o, short) + rest, before)
            == Parse(rest, before.(resume := o.resume, continueLatest := o.continueLatest, fork := o.fork,
                                   outputFormat := o.outputFormat))
  {
    var a, b := Flagged(Word(short, "-r", "--resume"), o.resume), ContinueWords(o, short);
    var c, d := ForkWords(o), FormatWords(o);
    Regroup(a + b + c, d, rest);
    Regroup(a + b, c, d + rest);
    Regroup(a, b, c + (d + rest));
    SessionFlags(short);
    var words := [Word(short, "-r", "--resume"), Word(short, "-c", "--continue")];
    ReadsResumeAndContinue(words, o.resume, o.continueLatest, c + (d + rest), before);
    ReadsForkAndFormat(o, rest, before.(resume := o.resume, continueLatest := o.continueLatest));
  }

  lemma ReadsPort(o: CliOptions, rest: seq<string>, before: CliOptions)
    requires Askable(o) && before.port.None?
    ensures Parse(PortWords(o) + rest, before) == Parse(rest, before.(port := o.port))
  {
    if o.port.Some? {
      ReadsNumber("--port", PortFlag, o.port.value, rest, before);
    } else {
      assert PortWords(o) + rest == rest;
    }
  }

  lemma ReadsLimits(words: seq<string>, turns: nat, tokens: nat, duration: nat, rest: seq<string>, before: CliOptions)
    requires 0 < turns && 0 < tokens && 0 < duration && |words| == 3
    requires TokenOf(words[0]) == ValueFlag(MaxTurnsFlag) && TokenOf(words[1]) == ValueFlag(MaxTokensFlag)
    requires TokenOf(words[2]) == ValueFlag(MaxDurationFlag)
    ensures Parse([words[0], DecimalText(turns)]
                  + ([words[1], DecimalText(tokens)] + [words[2], DecimalText(duration)]) + rest, before)
            == Parse(rest, before.(maxTurns := turns, maxTokens := tokens, maxDuration := duration))
  {
    var a, b := [words[0], DecimalText(turns)], [words[1], DecimalText(tokens)];
    var c := [words[2], DecimalText(duration)];
    Regroup(a, b + c, rest);
    Regroup(b, c, rest);
    ReadsNumber(words[0], MaxTurnsFlag, turns, b + (c + rest), before);
    var o1 := before.(maxTurns := turns);
    ReadsNumber(words[1], MaxTokensFlag, tokens, c + rest, o1);
    ReadsNumber(words[2], MaxDurationFlag, duration, rest, o1.(maxTokens := tokens));
  }

  lemma ReadsNumbers(o: CliOptions, rest: seq<string>, before: CliOptions)
    requires Askable(o) && before.port.None?
    ensures Parse(NumberWords(o) + rest, before)
            == Parse(rest, before.(port := o.port, maxTurns := o.maxTurns, maxTokens := o.maxTokens,
                                   maxDuration := o.maxDuration))
  {
    var limits := LimitWords(o.maxTurns, o.maxTokens, o.maxDuration);
    Regroup(PortWords(o), limits, rest);
    ReadsPort(o, limits + rest, before);
    NumberFlags();
    var words := ["--max-turns", "--max-tokens", "--max-duration"];
    ReadsLimits(words, o.maxTurns, o.maxTokens, o.maxDuration, rest, before.(port := o.port));
  }

  lemma ReadsThreeLists(words: seq<string>, dirs: seq<string>, names: seq<string>, files: seq<string>, o: CliOptions)
    requires AllNonEmpty(dirs) && AllNonEmpty(names) && AllNonEmpty(files) && |words| == 3
    requires TokenOf(words[0]) == ValueFlag(SkillsFlag) && TokenOf(words[1]) == ValueFlag(SkillFlag)
    requires TokenOf(words[2]) == ValueFlag(FileFlag)
    ensures Parse(Each(words[0], dirs) + (Each(words[1], names) + Each(words[2], files)), o)
            == Parsed(Extended(Extended(Extended(o, SkillsFlag, dirs), SkillFlag, names), FileFlag, files))
  {
    var b, c := Each(words[1], names), Each(words[2], files);
    var o1 := Extended(o, SkillsFlag, dirs);
    ReadsEach(words[0], SkillsFlag, dirs, b + c, o);
    ReadsEach(words[1], SkillFlag, names, c, o1);
    ReadsEach(words[2], FileFlag, files, [], Extended(o1, SkillFlag, names));
    assert c + [] == c;
  }

  lemma ReadsLists(o: CliOptions, short: bool, before: CliOptions)
    requires Askable(o) && before.skillsDirs == before.skillNames == before.files == []
    ensures Parse(ListWords(o, short), before)
            == Parsed(before.(skillsDirs := o.skillsDirs, skillNames := o.skillNames, files := o.files))
  {
    ListFlags(short);
    ReadsThreeLists(["--skills", "--skill", Word(short, "-f", "--file")], o.skillsDirs, o.skillNames, o.files, before);
    assert [] + o.skillsDirs == o.skillsDirs && [] + o.skillNames == o.skillNames && [] + o.files == o.files;
  }

  /** Whatever can be asked for is understood, in the long spelling and in the short one. */
  lemma OptionsReadBack(o: CliOptions, short: bool)
    requires Askable(o)
    ensures Parse(Spelled(o, short), DEFAULTS) == Parsed(o)
  {
    var session, numbers, lists := SessionWords(o, short), NumberWords(o), ListWords(o, short);
    var o1 := DEFAULTS.(command := o.command, prompt := o.prompt);
    var o2 := o1.(model := o.model, envFile := o.envFile, appendSystemPrompt := o.appendSystemPrompt);
    var o3 := o2.(resume := o.resume, continueLatest := o.continueLatest, fork := o.fork,
                  outputFormat := o.outputFormat);
    var o4 := o3.(port := o.port, maxTurns := o.maxTurns, maxTokens := o.maxTokens, maxDuration := o.maxDuration);
    ReadsTask(o, short, SettingWords(o) + (session + (numbers + lists)));
    ReadsSettings(o, session + (numbers + lists), o1);
    ReadsSession(o, short, numbers + lists, o2);
    ReadsNumbers(o, lists, o3);
    ReadsLists(o, short, o4);
  }

  // ----- and nothing else -----

  lemma OneMore(values: seq<string>, value: string)
    requires AllNonEmpty(values) && value != ""
    ensures AllNonEmpty(values + [value])
  {
  }

  lemma ListStaysAskable(o: CliOptions, flag: Flag, value: string)
    requires Askable(o) && value != "" && (flag.SkillsFlag? || flag.SkillFlag? || flag.FileFlag?)
    ensures Askable(TakeValue(o, flag, value).options)
  {
    OneMore(o.skillsDirs, value);
    OneMore(o.skillNames, value);
    OneMore(o.files, value);
  }

  lemma NumberStaysAskable(o: CliOptions, flag: Flag, value: string)
    requires Askable(o) && TakeValue(o, flag, value).Go?
    requires flag.PortFlag? || flag.MaxTurnsFlag? || flag.MaxTokensFlag? || flag.MaxDurationFlag?
    ensures Askable(TakeValue(o, flag, value).options)
  {
  }

  lemma TextStaysAskable(o: CliOptions, flag: Flag, value: string)
    requires Askable(o) && value != ""
    requires flag.PromptFlag? || flag.ModelFlag? || flag.EnvFileFlag? || flag.ResumeFlag?
             || flag.AppendSystemPromptFlag?
    ensures Askable(TakeValue(o, flag, value).options)
  {
  }

  lemma FormatStaysAskable(o: CliOptions, value: string)
    requires Askable(o) && TakeValue(o, OutputFormatFlag, value).Go?
    ensures Askable(TakeValue(o, OutputFormatFlag, value).options)
  {
    var o' := TakeValue(o, OutputFormatFlag, value).options;
    assert o' == o.(outputFormat := o'.outputFormat);
  }

  lemma ValueStaysAskable(o: CliOptions, flag: Flag, value: string)
    requires Askable(o) && value != "" && TakeValue(o, flag, value).Go?
    ensures Askable(TakeValue(o, flag, value).options)
  {
    if flag.SkillsFlag? || flag.SkillFlag? || flag.FileFlag? {
      ListStaysAskable(o, flag, value);
    } else if flag.PortFlag? || flag.MaxTurnsFlag? || flag.MaxTokensFlag? || flag.MaxDurationFlag? {
      NumberStaysAskable(o, flag, value);
    } else if flag.OutputFormatFlag? {
      FormatStaysAskable(o, value);
    } else {
      TextStaysAskable(o, flag, value);
    }
  }

  lemma CommandsStandAlone(arg: string)
    ensures TokenOf(arg).CommandWord? ==> TokenOf(arg).command != Prompt && TokenOf(arg).command != Repl
  {
  }

  lemma TakeStaysAskable(o: CliOptions, token: Token, next: Option<string>)
    requires Askable(o) && Take(o, token, next).Go?
    requires token.CommandWord? ==> token.command != Prompt && token.command != Repl
    ensures Askable(Take(o, token, next).options)
  {
    if token.ValueFlag? && Given(next) {
      ValueStaysAskable(o, token.flag, next.value);
    }
  }

  lemma {:induction false} ParseIsAskable(args: seq<string>, o: CliOptions)
    requires Askable(o) && Parse(args, o).Parsed?
    ensures Askable(Parse(args, o).options)
    decreases |args|
  {
    if |args| != 0 {
      CommandsStandAlone(args[0]);
      TakeStaysAskable(o, TokenOf(args[0]), NextOf(args));
      match Take(o, TokenOf(args[0]), NextOf(args))
      case Go(o', both) => ParseIsAskable(if both then args[2..] else args[1..], o');
    }
  }

  /** Options come out of some argument list exactly when they can be asked for. */
  lemma ReadableIffAskable(o: CliOptions)
    ensures (exists args :: Parse(args, DEFAULTS) == Parsed(o)) <==> Askable(o)
  {
    if Askable(o) {
      OptionsReadBack(o, false);
    }
    forall args | Parse(args, DEFAULTS) == Parsed(o) ensures Askable(o) {
      ParseIsAskable(args, DEFAULTS);
    }
  }
}
