/**
 The command line: what `parseArgs` makes of an argument list.
 */
module Cli {
  import opened Options
  import opened Strings

  datatype Command = Repl | Serve | Prompt | Update | Login | Logout | Whoami

  datatype Format = Text | StreamJson

  datatype CliOptions = CliOptions(
    command: Command, model: Option<string>, prompt: Option<string>, port: Option<nat>, resume: Option<string>,
    continueLatest: bool, fork: Option<Option<string>>, envFile: Option<string>, outputFormat: Format,
    maxTurns: nat, maxTokens: nat, maxDuration: nat, appendSystemPrompt: Option<string>,
    skillsDirs: seq<string>, skillNames: seq<string>, files: seq<string>)

  const DEFAULTS := CliOptions(
    Repl, None, None, None, None, false, None, None, Text, 512, 100_000_000, 3600, None, [], [], [])

  /** How reading ends: with options, or by leaving the process. */
  datatype Parsed = Parsed(options: CliOptions) | Invalid(flag: string, value: string) | ShowVersion | ShowHelp

  // ----- numbers -----

  /** The positive integer a text starts with, after white space and a plus sign. */
  function PositiveNumber(value: string): (n: Option<nat>)
    ensures n.Some? ==> 0 < n.value
  {
    var text := TrimStart(value);
    var digits := if text != "" && text[0] == '+' then text[1..] else text;
    var n := Decimal(digits[..DigitCount(digits)]);
    if n == 0 then None else Some(n)
  }

  // ----- arguments -----

  datatype Flag =
    | PromptFlag | FileFlag | ModelFlag | EnvFileFlag | PortFlag | ResumeFlag | OutputFormatFlag
    | MaxTurnsFlag | MaxTokensFlag | MaxDurationFlag | AppendSystemPromptFlag | SkillsFlag | SkillFlag

  datatype Token =
    | CommandWord(command: Command) | ValueFlag(flag: Flag) | ContinueFlag | ForkFlag | VersionFlag | HelpFlag
    | OtherWord

  function TokenOf(arg: string): Token {
    if arg == "serve" || arg == "server" then CommandWord(Serve)
    else if arg == "update" || arg == "--update" then CommandWord(Update)
    else if arg == "login" then CommandWord(Login)
    else if arg == "logout" then CommandWord(Logout)
    else if arg == "whoami" then CommandWord(Whoami)
    else if arg == "-p" || arg == "--prompt" then ValueFlag(PromptFlag)
    else if arg == "-f" || arg == "--file" then ValueFlag(FileFlag)
    else if arg == "--model" then ValueFlag(ModelFlag)
    else if arg == "--env-file" then ValueFlag(EnvFileFlag)
    else if arg == "--port" then ValueFlag(PortFlag)
    else if arg == "-r" || arg == "--resume" then ValueFlag(ResumeFlag)
    else if arg == "-c" || arg == "--continue" then ContinueFlag
    else if arg == "--fork" then ForkFlag
    else if arg == "--output-format" then ValueFlag(OutputFormatFlag)
    else if arg == "--max-turns" then ValueFlag(MaxTurnsFlag)
    else if arg == "--max-tokens" then ValueFlag(MaxTokensFlag)
    else if arg == "--max-duration" then ValueFlag(MaxDurationFlag)
    else if arg == "--append-system-prompt" then ValueFlag(AppendSystemPromptFlag)
    else if arg == "--skills" then ValueFlag(SkillsFlag)
    else if arg == "--skill" then ValueFlag(SkillFlag)
    else if arg == "--version" || arg == "-v" then VersionFlag
    else if arg == "--help" || arg == "-h" then HelpFlag
    else OtherWord
  }

  predicate Dashed(arg: string) { arg != "" && arg[0] == '-' }

  /** Apart from commands, what the reader knows starts with a dash. */
  lemma KnownFlagsAreDashed(arg: string)
    ensures !Dashed(arg) ==> TokenOf(arg).CommandWord? || TokenOf(arg).OtherWord?
  {
  }

  // ----- reading -----

  /** The options after an argument and whether it took the next one as its value, or the end of reading. */
  datatype Reading = Go(options: CliOptions, both: bool) | Stop(parsed: Parsed)

  function Numbered(flag: string, value: string, with: nat -> CliOptions): Reading {
    var n := PositiveNumber(value);
    if n.None? then Stop(Invalid(flag, value)) else Go(with(n.value), true)
  }

  function TakeValue(o: CliOptions, flag: Flag, value: string): (r: Reading)
    ensures r.Go? ==> r.both
  {
    match flag
    case PromptFlag => Go(o.(command := Prompt, prompt := Some(value)), true)
    case FileFlag => Go(o.(files := o.files + [value]), true)
    case ModelFlag => Go(o.(model := Some(value)), true)
    case EnvFileFlag => Go(o.(envFile := Some(value)), true)
    case PortFlag => Numbered("--port", value, (n: nat) => o.(port := Some(n)))
    case ResumeFlag => Go(o.(resume := Some(value)), true)
    case OutputFormatFlag =>
      if value == "text" then Go(o.(outputFormat := Text), true)
      else if value == "stream-json" then Go(o.(outputFormat := StreamJson), true)
      else Stop(Invalid("--output-format", value))
    case MaxTurnsFlag => Numbered("--max-turns", value, (n: nat) => o.(maxTurns := n))
    case MaxTokensFlag => Numbered("--max-tokens", value, (n: nat) => o.(maxTokens := n))
    case MaxDurationFlag => Numbered("--max-duration", value, (n: nat) => o.(maxDuration := n))
    case AppendSystemPromptFlag => Go(o.(appendSystemPrompt := Some(value)), true)
    case SkillsFlag => Go(o.(skillsDirs := o.skillsDirs + [value]), true)
    case SkillFlag => Go(o.(skillNames := o.skillNames + [value]), true)
  }

  /** A next argument that is there and not empty. */
  predicate Given(next: Option<string>) { next.Some? && next.value != "" }

  function Take(o: CliOptions, token: Token, next: Option<string>): (r: Reading)
    ensures r.Go? && r.both ==> Given(next)
  {
    match token
    case CommandWord(command) => Go(o.(command := command), false)
    case ValueFlag(flag) => if Given(next) then TakeValue(o, flag, next.value) else Go(o, false)
    case ContinueFlag => Go(o.(continueLatest := true), false)
    case ForkFlag =>
      if Given(next) && !Dashed(next.value) then Go(o.(fork := Some(Some(next.value))), true)
      else Go(o.(fork := Some(None)), false)
    case VersionFlag => Stop(ShowVersion)
    case HelpFlag => Stop(ShowHelp)
    case OtherWord => Go(o, false)
  }

  function NextOf(args: seq<string>): Option<string> { if 1 < |args| then Some(args[1]) else None }

  function Parse(args: seq<string>, o: CliOptions): Parsed
    decreases |args|
  {
    if |args| == 0 then Parsed(o)
    else
      match Take(o, TokenOf(args[0]), NextOf(args))
      case Stop(parsed) => parsed
      case Go(o', both) => Parse(if both then args[2..] else args[1..], o')
  }

  function NextAt(argv: seq<string>, i: nat): Option<string> { if i + 1 < |argv| then Some(argv[i + 1]) else None }

  lemma ParseFrom(argv: seq<string>, i: nat, o: CliOptions)
    requires i < |argv|
    ensures Parse(argv[i..], o)
            == match Take(o, TokenOf(argv[i]), NextAt(argv, i))
               case Stop(parsed) => parsed
               case Go(o', both) => Parse(if both then argv[i + 2..] else argv[i + 1..], o')
  {
    assert argv[i..][1..] == argv[i + 1..] && (i + 1 < |argv| ==> argv[i..][2..] == argv[i + 2..]);
  }

  method ParseArgs(argv: seq<string>) returns (r: Parsed)
    ensures r == Parse(argv, DEFAULTS)
  {
    var opts := DEFAULTS;
    var i := 0;
    while i < |argv|
      invariant 0 <= i <= |argv|
      invariant Parse(argv, DEFAULTS) == Parse(argv[i..], opts)
    {
      var token, next := TokenOf(argv[i]), NextAt(argv, i);
      ParseFrom(argv, i, opts);
      i := i + 1;
      match token {
        case CommandWord(command) => opts := opts.(command := command);
        case ValueFlag(flag) =>
          if Given(next) {
            match TakeValue(opts, flag, next.value) {
              case Stop(parsed) => return parsed;
              case Go(options, _) => opts, i := options, i + 1;
            }
          }
        case ContinueFlag => opts := opts.(continueLatest := true);
        case ForkFlag =>
          if Given(next) && !Dashed(next.value) {
            opts := opts.(fork := Some(Some(next.value)));
            i := i + 1;
          } else {
            opts := opts.(fork := Some(None));
          }
        case VersionFlag => return ShowVersion;
        case HelpFlag => return ShowHelp;
        case OtherWord =>
      }
    }
    return Parsed(opts);
  }
}
