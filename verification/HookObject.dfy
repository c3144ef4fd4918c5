/**
 The session-hook object. Each method is one call, or one resumption of its write chain.
 */
module HookObject {
  import opened Options
  import opened HookModel

  class SessionHook {
    const enabled: bool
    const adapter: Adapter
    var started: bool
    var closed: bool
    var sessionId: Option<string>
    var runOpen: bool
    var runId: Option<string>
    var proc: Option<nat>
    var tries: nat
    var chained: bool
    var inflight: Option<nat>
    var pending: seq<Write>
    ghost var emitted: seq<Write>
    var attempted: seq<Write>
    ghost var broken: set<nat>
    ghost var sent: seq<Message>

    ghost function LifeState(): Life
      reads this
    {
      Life(started, closed, sessionId, runOpen, runId)
    }

    ghost function WriterState(): Writer
      reads this
    {
      Writer(enabled, proc, tries, chained, inflight, pending, sent, emitted, attempted, broken)
    }

    ghost function State(): HookModel.Hook
      reads this
    {
      HookModel.Hook(LifeState(), WriterState())
    }

    constructor (command: Option<string>, adapter: Adapter)
      ensures State() == HookModel.Hook(UNSTARTED, Idling(Normalize(command).Some?)) && this.adapter == adapter
    {
      this.enabled, this.adapter := Normalize(command).Some?, adapter;
      started, closed, sessionId, runOpen, runId := false, false, None, false, None;
      proc, tries, chained, inflight, pending := None, 0, false, None, [];
      emitted, attempted, broken, sent := [], [], {}, [];
    }

    // ----- the writer -----

    method Drop(process: nat)
      modifies this`proc, this`broken
      ensures WriterState() == Dropped(old(WriterState()), process)
    {
      if proc == Some(process) {
        proc := None;
      }
      broken := broken + {process};
    }

    method Push(write: Write)
      modifies this`proc, this`broken, this`attempted, this`chained, this`inflight
      ensures WriterState() == Pushed(old(WriterState()), adapter, write)
    {
      var outcome := adapter.sink(|attempted|);
      attempted := attempted + [write];
      if outcome == Thrown {
        Drop(write.process);
      } else if outcome == Deferred {
        chained, inflight := true, Some(write.process);
      }
    }

    method WriteMessage(message: Message)
      modifies this`proc, this`tries, this`broken, this`attempted, this`chained, this`inflight, this`pending,
          this`emitted, this`sent
      ensures WriterState() == Written(old(WriterState()), adapter, message)
    {
      sent := sent + [message];
      if !enabled {
        return;
      }
      if proc.None? {
        var attempt := tries;
        tries := tries + 1;
        if !adapter.spawns(attempt) {
          return;
        }
        proc := Some(attempt);
      }
      var write := Write(proc.value, message);
      emitted := emitted + [write];
      if chained {
        pending := pending + [write];
      } else {
        Push(write);
      }
    }

    method Send(event: Event)
      modifies this`proc, this`tries, this`broken, this`attempted, this`chained, this`inflight, this`pending,
          this`emitted, this`sent
      ensures WriterState() == AllWritten(old(WriterState()), adapter, Sends(LifeState(), event))
    {
      if closed || !started {
        return;
      }
      var message := Message(sessionId, event);
      WriteMessage(message);
      assert [message][..0] == [];
    }

    /** The promise of a deferred write comes back. */
    method SinkSettled(resolved: bool)
      modifies this
      ensures State() == Next(old(State()), adapter, Step.SinkSettled(resolved))
    {
      if inflight.None? {
        return;
      }
      var process := inflight.value;
      inflight := None;
      if !resolved {
        Drop(process);
      }
    }

    /** The chain resumes with its next write. */
    method ChainTurn()
      modifies this
      ensures State() == Next(old(State()), adapter, Step.ChainTurn)
    {
      if inflight.Some? || pending == [] {
        return;
      }
      var write := pending[0];
      pending := pending[1..];
      Push(write);
    }

    // ----- sessions and runs -----

    method ClearRun()
      modifies this`runOpen, this`runId
      ensures LifeState() == Cleared(old(LifeState()))
    {
      runOpen, runId := false, None;
    }

    method TakeRun(id: Option<string>) returns (reported: Option<string>)
      modifies this`runOpen, this`runId
      ensures reported == Reported(old(LifeState()), id)
      ensures LifeState() == Cleared(old(LifeState()))
    {
      reported := if Normalize(id).Some? then Normalize(id) else runId;
      ClearRun();
    }

    method StartProcess(cwd: string)
      modifies this
      ensures State() == Next(old(State()), adapter, Called(Call.StartProcess(cwd)))
    {
      if closed || started {
        return;
      }
      started := true;
      Send(SessionStarted(cwd));
    }

    method StartSession(id: string, cwd: string)
      modifies this
      ensures State() == Next(old(State()), adapter, Called(Call.StartSession(id, cwd)))
    {
      var next := Normalize(Some(id));
      if closed || next.None? || next == sessionId {
        return;
      }
      ghost var h := State();
      if sessionId.Some? {
        Send(SessionEnded("session_changed"));
      }
      ClearRun();
      started := true;
      sessionId := next;
      Send(SessionStarted(cwd));
      SessionBatches(h, adapter, id, cwd);
    }

    method ChangeState(mood: Mood, message: Option<string>)
      modifies this`proc, this`tries, this`broken, this`attempted, this`chained, this`inflight, this`pending,
          this`emitted, this`sent
      ensures WriterState() == AllWritten(old(WriterState()), adapter, Sends(LifeState(), Mooded(mood, message)))
    {
      Send(StateChanged(mood, if mood == Blocked then Normalize(message) else None));
    }

    method RunStarted(id: Option<string>)
      modifies this
      ensures State() == Next(old(State()), adapter, Called(StartRun(id)))
    {
      if closed || !started {
        return;
      }
      RunBatches(State(), adapter, StartRun(id), Event.RunStarted(Normalize(id)), Working);
      runOpen := true;
      runId := Normalize(id);
      Send(Event.RunStarted(runId));
      ChangeState(Working, None);
    }

    method RunFinished(id: Option<string>)
      modifies this
      ensures State() == Next(old(State()), adapter, Called(FinishRun(id)))
    {
      if !runOpen {
        return;
      }
      RunBatches(State(), adapter, FinishRun(id), Event.RunFinished(Reported(LifeState(), id)), Idle);
      var reported := TakeRun(id);
      Send(Event.RunFinished(reported));
      ChangeState(Idle, None);
    }

    method RunFailed(id: Option<string>, message: Option<string>)
      modifies this
      ensures State() == Next(old(State()), adapter, Called(FailRun(id, message)))
    {
      if !runOpen {
        return;
      }
      RunBatches(State(), adapter, FailRun(id, message),
          Event.RunFailed(Reported(LifeState(), id), Normalize(message)), Idle);
      var reported := TakeRun(id);
      Send(Event.RunFailed(reported, Normalize(message)));
      ChangeState(Idle, None);
    }

    method SettleRun()
      modifies this
      ensures State() == Next(old(State()), adapter, Called(Call.SettleRun))
    {
      if !runOpen {
        return;
      }
      ClearRun();
      ChangeState(Idle, None);
    }

    method EndSession(reason: string)
      modifies this
      ensures State() == Next(old(State()), adapter, Called(Call.EndSession(reason)))
    {
      if closed || !started {
        return;
      }
      ClearRun();
      Send(SessionEnded(reason));
      started := false;
      sessionId := None;
    }

    method Close(reason: string)
      modifies this
      ensures State() == Next(old(State()), adapter, Called(Call.Close(reason)))
    {
      if closed {
        return;
      }
      EndSession(reason);
      closed := true;
    }
  }

  lemma {:induction false} TwoBatches(w: Writer, adapter: Adapter, first: seq<Message>, second: seq<Message>)
    ensures AllWritten(AllWritten(w, adapter, first), adapter, second) == AllWritten(w, adapter, first + second)
    decreases |second|
  {
    var all := first + second;
    if second == [] {
      assert all == first;
    } else {
      TwoBatches(w, adapter, first, second[..|second| - 1]);
      assert all[..|all| - 1] == first + second[..|second| - 1];
    }
  }

  /** A call that sends an event and then a mood writes one after the other. */
  lemma RunBatches(h: HookModel.Hook, adapter: Adapter, call: Call, event: Event, mood: Mood)
    requires var l := After(h.life, call); Sent(h.life, call) == Sends(l, event) + Sends(l, Mooded(mood, None))
    ensures var l := After(h.life, call);
            Next(h, adapter, Called(call))
            == HookModel.Hook(l,
                AllWritten(AllWritten(h.writer, adapter, Sends(l, event)), adapter, Sends(l, Mooded(mood, None))))
  {
    var l := After(h.life, call);
    TwoBatches(h.writer, adapter, Sends(l, event), Sends(l, Mooded(mood, None)));
  }

  lemma SessionBatches(h: HookModel.Hook, adapter: Adapter, id: string, cwd: string)
    requires After(h.life, StartSession(id, cwd)) != h.life
    ensures var l, call := h.life, StartSession(id, cwd);
            var ended := if l.sessionId.Some?
                then AllWritten(h.writer, adapter, Sends(l, SessionEnded("session_changed"))) else h.writer;
            Next(h, adapter, Called(call))
            == HookModel.Hook(After(l, call), AllWritten(ended, adapter, Sends(After(l, call), SessionStarted(cwd))))
  {
    var l, call := h.life, StartSession(id, cwd);
    var first := if l.sessionId.Some? then Sends(l, SessionEnded("session_changed")) else [];
    TwoBatches(h.writer, adapter, first, Sends(After(l, call), SessionStarted(cwd)));
  }
}
