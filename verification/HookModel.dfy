/**
 The session hook: the life of sessions and runs, and the writer that carries its messages to an
 adapter process. The adapter is an oracle: whether the k-th spawn succeeds, and how the k-th write
 to a pipe ends.
 */
module HookModel {
  import opened Options
  import opened Strings

  datatype Mood = Working | Blocked | Idle

  datatype Event =
    | SessionStarted(cwd: string)
    | StateChanged(mood: Mood, message: Option<string>)
    | RunStarted(runId: Option<string>)
    | RunFinished(runId: Option<string>)
    | RunFailed(runId: Option<string>, message: Option<string>)
    | SessionEnded(reason: string)

  datatype Message = Message(sessionId: Option<string>, event: Event)

  function Normalize(value: Option<string>): Option<string> {
    if value.None? || Trim(value.value) == "" then None else Some(Trim(value.value))
  }

  // ----- sessions and runs -----

  datatype Life = Life(started: bool, closed: bool, sessionId: Option<string>, runOpen: bool, runId: Option<string>)

  const UNSTARTED := Life(false, false, None, false, None)

  datatype Call =
    | StartProcess(cwd: string)
    | StartSession(id: string, cwd: string)
    | ChangeState(mood: Mood, message: Option<string>)
    | StartRun(runId: Option<string>)
    | FinishRun(runId: Option<string>)
    | FailRun(runId: Option<string>, message: Option<string>)
    | SettleRun
    | EndSession(reason: string)
    | Close(reason: string)

  /** What sending an event puts on the way: nothing once closed or while no session has started. */
  function Sends(l: Life, event: Event): seq<Message> {
    if l.closed || !l.started then [] else [Message(l.sessionId, event)]
  }

  function Cleared(l: Life): Life { l.(runOpen := false, runId := None) }

  function Mooded(mood: Mood, message: Option<string>): Event {
    StateChanged(mood, if mood == Blocked then Normalize(message) else None)
  }

  function Ended(l: Life): Life {
    if l.closed || !l.started then l else Cleared(l).(started := false, sessionId := None)
  }

  function After(l: Life, call: Call): Life {
    match call
    case StartProcess(_) => if l.closed || l.started then l else l.(started := true)
    case StartSession(id, _) =>
      var next := Normalize(Some(id));
      if l.closed || next.None? || next == l.sessionId then l else Cleared(l).(started := true, sessionId := next)
    case ChangeState(_, _) => l
    case StartRun(id) => if l.closed || !l.started then l else l.(runOpen := true, runId := Normalize(id))
    case FinishRun(_) => if l.runOpen then Cleared(l) else l
    case FailRun(_, _) => if l.runOpen then Cleared(l) else l
    case SettleRun => if l.runOpen then Cleared(l) else l
    case EndSession(_) => Ended(l)
    case Close(_) => Ended(l).(closed := true)
  }

  /** The id reported for the open run: the one given, or else the one it was started with. */
  function Reported(l: Life, id: Option<string>): Option<string> {
    if Normalize(id).Some? then Normalize(id) else l.runId
  }

  function Sent(l: Life, call: Call): seq<Message> {
    var l' := After(l, call);
    match call
    case StartProcess(cwd) => if l.closed || l.started then [] else Sends(l', SessionStarted(cwd))
    case StartSession(id, cwd) =>
      if l' == l then []
      else
        (if l.sessionId.Some? then Sends(l, SessionEnded("session_changed")) else []) + Sends(l', SessionStarted(cwd))
    case ChangeState(mood, message) => Sends(l, Mooded(mood, message))
    case StartRun(_) =>
      if l.closed || !l.started then [] else Sends(l', RunStarted(l'.runId)) + Sends(l', Mooded(Working, None))
    case FinishRun(id) =>
      if l.runOpen then Sends(l', RunFinished(Reported(l, id))) + Sends(l', Mooded(Idle, None)) else []
    case FailRun(id, message) =>
      if l.runOpen then Sends(l', RunFailed(Reported(l, id), Normalize(message))) + Sends(l', Mooded(Idle, None))
      else []
    case SettleRun => if l.runOpen then Sends(l', Mooded(Idle, None)) else []
    case EndSession(reason) => Sends(l, SessionEnded(reason))
    case Close(reason) => Sends(l, SessionEnded(reason))
  }

  // ----- the writer -----

  /** How a write to a pipe ends: taken at once, thrown out, or taken later under backpressure. */
  datatype Outcome = Taken | Thrown | Deferred

  datatype Adapter = Adapter(spawns: nat -> bool, sink: nat -> Outcome)

  datatype Write = Write(process: nat, message: Message)

  /** `process` is the number of the spawn that made the current adapter process. Once a write was
      deferred every later one waits in `pending` behind it; `inflight` is the process whose deferred
      write has not been settled. `sent`, `emitted` and `attempted` record every message, what was handed
      to a process, and what was written to its pipe; `broken` the processes that failed a write. */
  datatype Writer = Writer(
    enabled: bool, process: Option<nat>, tries: nat, chained: bool, inflight: Option<nat>, pending: seq<Write>,
    sent: seq<Message>, emitted: seq<Write>, attempted: seq<Write>, broken: set<nat>)

  function Idling(enabled: bool): Writer { Writer(enabled, None, 0, false, None, [], [], [], [], {}) }

  function Dropped(w: Writer, process: nat): Writer {
    w.(process := if w.process == Some(process) then None else w.process, broken := w.broken + {process})
  }

  function Pushed(w: Writer, adapter: Adapter, write: Write): Writer {
    var w' := w.(attempted := w.attempted + [write]);
    match adapter.sink(|w.attempted|)
    case Taken => w'
    case Thrown => Dropped(w', write.process)
    case Deferred => w'.(chained := true, inflight := Some(write.process))
  }

  /** The writer with a process to write to, if one can be had. */
  function Manned(w: Writer, adapter: Adapter): Writer {
    if w.process.Some? then w
    else w.(tries := w.tries + 1, process := if adapter.spawns(w.tries) then Some(w.tries) else None)
  }

  function Written(w: Writer, adapter: Adapter, message: Message): Writer {
    var s := w.(sent := w.sent + [message]);
    if !s.enabled then s
    else
      var m := Manned(s, adapter);
      if m.process.None? then m
      else
        var write := Write(m.process.value, message);
        var e := m.(emitted := m.emitted + [write]);
        if e.chained then e.(pending := e.pending + [write]) else Pushed(e, adapter, write)
  }

  function AllWritten(w: Writer, adapter: Adapter, messages: seq<Message>): Writer {
    if messages == [] then w
    else Written(AllWritten(w, adapter, messages[..|messages| - 1]), adapter, messages[|messages| - 1])
  }

  /** The deferred write is settled: resolved, or rejected with a broken pipe. */
  function Settled(w: Writer, resolved: bool): Writer {
    if w.inflight.None? then w
    else if resolved then w.(inflight := None)
    else Dropped(w.(inflight := None), w.inflight.value)
  }

  /** The chain goes on to its next write. */
  function Drained(w: Writer, adapter: Adapter): Writer {
    if w.inflight.Some? || w.pending == [] then w
    else Pushed(w.(pending := w.pending[1..]), adapter, w.pending[0])
  }

  // ----- the whole hook -----

  datatype Hook = Hook(life: Life, writer: Writer)

  datatype Step = Called(call: Call) | SinkSettled(resolved: bool) | ChainTurn

  function Next(h: Hook, adapter: Adapter, step: Step): Hook {
    match step
    case Called(call) => Hook(After(h.life, call), AllWritten(h.writer, adapter, Sent(h.life, call)))
    case SinkSettled(resolved) => h.(writer := Settled(h.writer, resolved))
    case ChainTurn => h.(writer := Drained(h.writer, adapter))
  }

  function Run(enabled: bool, adapter: Adapter, steps: seq<Step>): Hook {
    if |steps| == 0 then Hook(UNSTARTED, Idling(enabled))
    else Next(Run(enabled, adapter, steps[..|steps| - 1]), adapter, steps[|steps| - 1])
  }
}
