/**
 The terminal the renderer writes to, at the level of whole rows.

 The buffer is a sequence of rows. The last `height` of them are the viewport and the rest
 is native scrollback, which no command can address. Relative cursor moves clamp at the
 viewport edges, and a line feed on the last row scrolls.
 */
module Terminal {

  /** Printing over a row that still holds text, or away from column one, is never a clean row. */
  datatype Row = Blank | Shown(text: string) | Overprinted

  datatype Command =
    | CursorUp(n: nat)        // ESC [ n A
    | CursorDown(n: nat)      // ESC [ n B
    | CursorColumn(n: nat)    // ESC [ n G
    | CarriageReturn          // \r
    | NewLine                 // \r\n
    | EraseLine               // ESC [ 2 K
    | ClearAll                // ESC [ 2 J, ESC [ H, ESC [ 3 J
    | Print(text: string)
    | ShowCursor
    | HideCursor
    | BeginSync
    | EndSync

  /** `cursor` is an absolute buffer row. `reflowed` records that the terminal rearranged its
      own buffer after a resize and nothing has cleared it since. */
  datatype Screen = Screen(
    rows: seq<Row>, top: nat, cursor: nat, height: nat, atMargin: bool, cursorShown: bool, reflowed: bool)

  /** A terminal, or the picture of one that its user has: the picture may put the cursor above the
      viewport, where no terminal has it. */
  ghost predicate Valid(s: Screen) {
    && 0 < s.height
    && |s.rows| == s.top + s.height
    && s.cursor < s.top + s.height
  }

  ghost predicate Physical(s: Screen) { Valid(s) && s.top <= s.cursor }

  function Blanks(n: nat): (rows: seq<Row>)
    ensures |rows| == n && forall k :: 0 <= k < n ==> rows[k] == Blank
  {
    seq(n, _ => Blank)
  }

  function Max(a: int, b: int): int { if a < b then b else a }

  function Min(a: int, b: int): int { if a < b then a else b }

  function Step(s: Screen, c: Command): (s': Screen)
    requires Valid(s)
    ensures Valid(s') && s'.height == s.height
    ensures Physical(s) ==> Physical(s')
  {
    match c
    case CursorUp(n) => s.(cursor := Max(s.top, s.cursor - Max(1, n)))
    case CursorDown(n) => s.(cursor := Min(s.top + s.height - 1, s.cursor + Max(1, n)))
    case CursorColumn(n) => s.(atMargin := n <= 1)
    case CarriageReturn => s.(atMargin := true)
    case NewLine =>
      if s.cursor == s.top + s.height - 1
      then s.(rows := s.rows + [Blank], top := s.top + 1, cursor := s.cursor + 1, atMargin := true)
      else s.(cursor := s.cursor + 1, atMargin := true)
    case EraseLine => s.(rows := s.rows[s.cursor := Blank])
    case ClearAll => Screen(Blanks(s.height), 0, 0, s.height, true, s.cursorShown, false)
    case Print(text) =>
      if text == "" then s
      else s.(rows := s.rows[s.cursor := if s.rows[s.cursor] == Blank && s.atMargin then Shown(text) else Overprinted],
              atMargin := false)
    case ShowCursor => s.(cursorShown := true)
    case HideCursor => s.(cursorShown := false)
    case BeginSync => s
    case EndSync => s
  }

  function Interpret(s: Screen, commands: seq<Command>): (s': Screen)
    requires Valid(s)
    ensures Valid(s') && s'.height == s.height
    ensures Physical(s) ==> Physical(s')
  {
    if commands == [] then s
    else Step(Interpret(s, commands[..|commands| - 1]), commands[|commands| - 1])
  }

  lemma InterpretOne(s: Screen, commands: seq<Command>, c: Command)
    requires Valid(s)
    ensures Interpret(s, commands + [c]) == Step(Interpret(s, commands), c)
  {
    assert (commands + [c])[..|commands|] == commands;
  }

  lemma InterpretTwo(s: Screen, commands: seq<Command>, c: Command, d: Command)
    requires Valid(s)
    ensures Interpret(s, commands + [c, d]) == Step(Step(Interpret(s, commands), c), d)
  {
    InterpretOne(s, commands, c);
    InterpretOne(s, commands + [c], d);
    assert commands + [c] + [d] == commands + [c, d];
  }

  lemma {:induction false} InterpretConcat(s: Screen, first: seq<Command>, second: seq<Command>)
    requires Valid(s)
    ensures Interpret(s, first + second) == Interpret(Interpret(s, first), second)
    decreases |second|
  {
    if second == [] {
      assert first + second == first;
    } else {
      var init, last := second[..|second| - 1], second[|second| - 1];
      assert second == init + [last];
      var head := first + init;
      assert first + second == head + [last];
      InterpretConcat(s, first, init);
      InterpretOne(s, head, last);
      InterpretOne(Interpret(s, first), init, last);
    }
  }

  /** What a screen shows after each list of commands. */
  type Playback = seq<Command> -> Screen

  function Plays(s: Screen): Playback
    requires Valid(s)
  {
    commands => Interpret(s, commands)
  }

  function Then(commands: seq<Command>, more: seq<Command>): seq<Command> { commands + more }

  /** More commands are carried out on what the earlier ones left. */
  ghost predicate Continues(play: Playback) {
    && (forall commands {:trigger play(commands)} :: Valid(play(commands)))
    && (forall commands, more {:trigger Then(commands, more)} ::
         play(Then(commands, more)) == Interpret(play(commands), more))
  }

  lemma PlaysOn(s: Screen, commands: seq<Command>, more: seq<Command>)
    requires Valid(s)
    ensures Plays(s)(Then(commands, more)) == Interpret(Plays(s)(commands), more)
  {
    InterpretConcat(s, commands, more);
  }

  lemma PlaysContinue(s: Screen)
    requires Valid(s)
    ensures Continues(Plays(s)) && Plays(s)([]) == s
  {
    forall commands ensures Valid(Plays(s)(commands)) {
      PlaysValid(s, commands);
    }
    forall commands, more {:trigger Then(commands, more)}
      ensures Plays(s)(Then(commands, more)) == Interpret(Plays(s)(commands), more)
    {
      PlaysOn(s, commands, more);
    }
    PlaysFromHere(s);
  }

  lemma PlaysValid(s: Screen, commands: seq<Command>)
    requires Valid(s)
    ensures Valid(Plays(s)(commands))
  {
  }

  lemma PlaysFromHere(s: Screen)
    requires Valid(s)
    ensures Plays(s)([]) == s
  {
  }

  /** Both screens have had the same commands. */
  ghost predicate InStep(pictured: Playback, shown: Playback) {
    && Continues(pictured) && Continues(shown)
    && forall commands {:trigger pictured(commands)} {:trigger shown(commands)} ::
         pictured(commands).height == shown(commands).height
  }

  lemma PlaysInStep(s: Screen, t: Screen)
    requires Valid(s) && Valid(t) && s.height == t.height
    ensures InStep(Plays(s), Plays(t)) && Plays(s)([]) == s && Plays(t)([]) == t
  {
    PlaysContinue(s);
    PlaysContinue(t);
  }

  /** The device behind `stdout`: it carries out every command it is sent, in order. */
  class Tty {
    var screen: Screen
    var columns: nat

    constructor (columns: nat, height: nat)
      requires 0 < height
      ensures Physical(screen) && this.columns == columns
      ensures screen == Screen(Blanks(height), 0, 0, height, true, true, false)
    {
      screen := Screen(Blanks(height), 0, 0, height, true, true, false);
      this.columns := columns;
    }

    method Write(commands: seq<Command>)
      requires Valid(screen)
      modifies this`screen
      ensures screen == Interpret(old(screen), commands)
    {
      for i := 0 to |commands|
        invariant Valid(screen) && screen == Interpret(old(screen), commands[..i])
      {
        InterpretOne(old(screen), commands[..i], commands[i]);
        assert commands[..i + 1] == commands[..i] + [commands[i]];
        screen := Step(screen, commands[i]);
      }
      assert commands[..|commands|] == commands;
    }
  }
}
