/**
 What an adapter may rely on, over every sequence of calls and every behaviour of its pipe.
 */
module HookRuns {
  import opened Options
  import opened HookModel

  // ----- the order of messages -----

  predicate IsBoundary(e: Event) { e.SessionStarted? || e.SessionEnded? }

  predicate IsSettlement(e: Event) { e.RunFinished? || e.RunFailed? }

  /** The session a message list is in: whether one is open and under which id; and the run that is still
      unsettled, if the last message other than a mood started it. */
  datatype Phase = Phase(live: bool, session: Option<string>, run: Option<Option<string>>)

  function PhaseAfter(p: Phase, m: Message): Phase {
    match m.event
    case SessionStarted(_) => Phase(true, m.sessionId, None)
    case SessionEnded(_) => Phase(false, None, None)
    case RunStarted(id) => p.(run := Some(id))
    case RunFinished(_) => p.(run := None)
    case RunFailed(_, _) => p.(run := None)
    case StateChanged(_, _) => p
  }

  function PhaseOf(sent: seq<Message>): Phase {
    if sent == [] then Phase(false, None, None) else PhaseAfter(PhaseOf(sent[..|sent| - 1]), sent[|sent| - 1])
  }

  predicate MayFollow(p: Phase, m: Message) {
    match m.event
    case SessionStarted(_) => !p.live || (p.session.None? && m.sessionId.Some?)
    case SessionEnded(_) => p.live && m.sessionId == p.session
    case StateChanged(_, _) => p.live && m.sessionId == p.session
    case RunStarted(_) => p.live && m.sessionId == p.session
    case RunFinished(id) => p.live && m.sessionId == p.session && p.run.Some? && (id == p.run.value || id.Some?)
    case RunFailed(id, _) => p.live && m.sessionId == p.session && p.run.Some? && (id == p.run.value || id.Some?)
  }

  /** Every message may follow those before it. */
  predicate Orderly(sent: seq<Message>) {
    sent == [] || (Orderly(sent[..|sent| - 1]) && MayFollow(PhaseOf(sent[..|sent| - 1]), sent[|sent| - 1]))
  }

  /** How the hook's own fields stand to what it has sent. */
  ghost predicate InPhase(l: Life, p: Phase) {
    && (l.started <==> p.live) && (l.started ==> l.sessionId == p.session) && (l.sessionId.Some? ==> l.started)
    && (l.closed ==> !l.started) && (l.runOpen ==> l.started && p.run == Some(l.runId))
  }

  lemma OneMore(sent: seq<Message>, m: Message)
    requires Orderly(sent) && MayFollow(PhaseOf(sent), m)
    ensures Orderly(sent + [m]) && PhaseOf(sent + [m]) == PhaseAfter(PhaseOf(sent), m)
  {
    assert (sent + [m])[..|sent|] == sent;
  }

  lemma NoMore(sent: seq<Message>)
    ensures sent + [] == sent
  {
  }

  lemma TwoMore(sent: seq<Message>, m: Message, n: Message)
    requires Orderly(sent) && MayFollow(PhaseOf(sent), m) && MayFollow(PhaseAfter(PhaseOf(sent), m), n)
    ensures Orderly(sent + [m, n]) && PhaseOf(sent + [m, n]) == PhaseAfter(PhaseAfter(PhaseOf(sent), m), n)
  {
    OneMore(sent, m);
    OneMore(sent + [m], n);
    assert sent + [m, n] == sent + [m] + [n];
  }

  /** One call sends at most two messages, in order, and the fields follow. */
  lemma CallKeepsOrder(l: Life, call: Call, sent: seq<Message>)
    requires Orderly(sent) && InPhase(l, PhaseOf(sent))
    ensures Orderly(sent + Sent(l, call)) && InPhase(After(l, call), PhaseOf(sent + Sent(l, call)))
  {
    var more := Sent(l, call);
    if more == [] {
      NoMore(sent);
    } else if |more| == 1 {
      OneMore(sent, more[0]);
      assert more == [more[0]];
    } else {
      TwoMore(sent, more[0], more[1]);
      assert more == [more[0], more[1]];
    }
  }

  lemma {:induction false} AllWrittenIsSent(w: Writer, adapter: Adapter, messages: seq<Message>)
    ensures AllWritten(w, adapter, messages).sent == w.sent + messages
    decreases |messages|
  {
    if messages != [] {
      AllWrittenIsSent(w, adapter, messages[..|messages| - 1]);
      assert messages == messages[..|messages| - 1] + [messages[|messages| - 1]];
    }
  }

  /** Over every run of calls and pipe events the messages sent are orderly. */
  lemma {:induction false} RunIsOrderly(enabled: bool, adapter: Adapter, steps: seq<Step>)
    ensures var h := Run(enabled, adapter, steps); Orderly(h.writer.sent) && InPhase(h.life, PhaseOf(h.writer.sent))
    decreases |steps|
  {
    if |steps| != 0 {
      RunIsOrderly(enabled, adapter, steps[..|steps| - 1]);
      var h := Run(enabled, adapter, steps[..|steps| - 1]);
      match steps[|steps| - 1]
      case Called(call) =>
        AllWrittenIsSent(h.writer, adapter, Sent(h.life, call));
        CallKeepsOrder(h.life, call, h.writer.sent);
      case SinkSettled(_) =>
      case ChainTurn =>
    }
  }

  // ----- what an orderly list means -----

  /** Message `k` belongs to the session that message `i` started. */
  ghost predicate Belongs(sent: seq<Message>, i: nat, k: nat) {
    && i <= k < |sent| && sent[i].event.SessionStarted? && sent[i].sessionId == sent[k].sessionId
    && forall j :: i < j < k ==> !IsBoundary(sent[j].event)
  }

  /** Settlement `j` settles the run that message `i` started: nothing but moods lies between. */
  ghost predicate Settles(sent: seq<Message>, i: nat, j: nat) {
    && i < j < |sent| && sent[i].event.RunStarted? && IsSettlement(sent[j].event)
    && sent[i].sessionId == sent[j].sessionId
    && (sent[j].event.runId == sent[i].event.runId || sent[j].event.runId.Some?)
    && forall k :: i < k < j ==> sent[k].event.StateChanged? && sent[k].sessionId == sent[j].sessionId
  }

  /** While a session is open the list shows where it was started. */
  lemma {:induction false} LiveSessionWasStarted(sent: seq<Message>) returns (i: nat)
    requires Orderly(sent) && PhaseOf(sent).live
    ensures i < |sent| && sent[i].event.SessionStarted? && sent[i].sessionId == PhaseOf(sent).session
    ensures forall j :: i < j < |sent| ==> !IsBoundary(sent[j].event)
    decreases |sent|
  {
    i := |sent| - 1;
    if !sent[i].event.SessionStarted? {
      i := LiveSessionWasStarted(sent[..|sent| - 1]);
    }
  }

  lemma {:induction false} UnsettledRunWasStarted(sent: seq<Message>) returns (i: nat)
    requires Orderly(sent) && PhaseOf(sent).live && PhaseOf(sent).run.Some?
    ensures i < |sent| && sent[i].event == RunStarted(PhaseOf(sent).run.value)
            && sent[i].sessionId == PhaseOf(sent).session
    ensures forall k :: i < k < |sent| ==> sent[k].event.StateChanged? && sent[k].sessionId == PhaseOf(sent).session
    decreases |sent|
  {
    i := |sent| - 1;
    if !sent[i].event.RunStarted? {
      i := UnsettledRunWasStarted(sent[..|sent| - 1]);
    }
  }

  lemma {:induction false} OrderlyUpTo(sent: seq<Message>, k: nat)
    requires Orderly(sent) && k <= |sent|
    ensures Orderly(sent[..k])
    decreases |sent|
  {
    if k == |sent| {
      assert sent[..k] == sent;
    } else {
      OrderlyUpTo(sent[..|sent| - 1], k);
      assert sent[..|sent| - 1][..k] == sent[..k];
    }
  }

  lemma OrderlyAt(sent: seq<Message>, k: nat)
    requires Orderly(sent) && k < |sent|
    ensures Orderly(sent[..k]) && MayFollow(PhaseOf(sent[..k]), sent[k])
  {
    OrderlyUpTo(sent, k + 1);
    assert sent[..k + 1][..k] == sent[..k];
  }

  /** No message comes outside a session: each belongs to the latest `session_started`, under its id. */
  lemma EveryMessageBelongs(sent: seq<Message>, k: nat) returns (i: nat)
    requires Orderly(sent) && k < |sent|
    ensures Belongs(sent, i, k)
  {
    OrderlyAt(sent, k);
    i := k;
    if !sent[k].event.SessionStarted? {
      i := LiveSessionWasStarted(sent[..k]);
    }
  }

  /** Each `run_finished` or `run_failed` settles a run of the same session started before it. */
  lemma EverySettlementHasItsRun(sent: seq<Message>, j: nat) returns (i: nat)
    requires Orderly(sent) && j < |sent| && IsSettlement(sent[j].event)
    ensures Settles(sent, i, j)
  {
    OrderlyAt(sent, j);
    i := UnsettledRunWasStarted(sent[..j]);
  }

  /** No run is settled twice, and no settlement settles two runs. */
  lemma SettlementsArePairedOff(sent: seq<Message>, i: nat, j: nat, i': nat, j': nat)
    requires Settles(sent, i, j) && Settles(sent, i', j')
    ensures i == i' <==> j == j'
  {
  }

  lemma BetweenSessionsTheLastOneEnded(sent: seq<Message>)
    requires Orderly(sent) && !PhaseOf(sent).live && sent != []
    ensures sent[|sent| - 1].event.SessionEnded?
  {
  }

  /** Closing ends the session that was open, and nothing is sent after it. */
  lemma CloseIsFinal(enabled: bool, adapter: Adapter, steps: seq<Step>, reason: string, more: seq<Step>)
    ensures var sent := Run(enabled, adapter, steps + [Called(Close(reason))]).writer.sent;
            && (sent != [] ==> sent[|sent| - 1].event.SessionEnded?)
            && Run(enabled, adapter, steps + [Called(Close(reason))] + more).writer.sent == sent
    decreases |more|
  {
    var upTo := steps + [Called(Close(reason))];
    RunIsOrderly(enabled, adapter, upTo);
    assert upTo[..|upTo| - 1] == steps;
    var closed := Run(enabled, adapter, upTo);
    assert closed.life.closed;
    if closed.writer.sent != [] {
      BetweenSessionsTheLastOneEnded(closed.writer.sent);
    }
    ClosedStaysSilent(enabled, adapter, upTo, more);
  }

  lemma {:induction false} ClosedStaysSilent(enabled: bool, adapter: Adapter, steps: seq<Step>, more: seq<Step>)
    requires Run(enabled, adapter, steps).life.closed
    ensures var h := Run(enabled, adapter, steps + more);
            h.life.closed && h.writer.sent == Run(enabled, adapter, steps).writer.sent
    decreases |more|
  {
    var all := steps + more;
    if |more| == 0 {
      assert all == steps;
    } else {
      var before := more[..|more| - 1];
      ClosedStaysSilent(enabled, adapter, steps, before);
      RunIsOrderly(enabled, adapter, steps + before);
      var h := Run(enabled, adapter, steps + before);
      assert all[..|all| - 1] == steps + before
             && Run(enabled, adapter, all) == HookModel.Next(h, adapter, all[|all| - 1]);
      ClosedSendsNothing(h, adapter, all[|all| - 1]);
    }
  }

  lemma ClosedSendsNothing(h: Hook, adapter: Adapter, step: Step)
    requires h.life.closed && InPhase(h.life, PhaseOf(h.writer.sent))
    ensures Next(h, adapter, step).life.closed && Next(h, adapter, step).writer.sent == h.writer.sent
  {
    if step.Called? {
      assert Sent(h.life, step.call) == [];
    }
  }

  // ----- writing -----

  function Messages(writes: seq<Write>): (r: seq<Message>)
    ensures |r| == |writes| && forall k :: 0 <= k < |r| ==> r[k] == writes[k].message
  {
    seq(|writes|, k requires 0 <= k < |writes| => writes[k].message)
  }

  predicate AllSpawned(adapter: Adapter, tries: nat) { forall k :: 0 <= k < tries ==> adapter.spawns(k) }

  ghost predicate Tidy(w: Writer, adapter: Adapter) {
    && w.attempted + w.pending == w.emitted
    && ((w.pending != [] || w.inflight.Some?) ==> w.chained)
    && (w.process.Some? ==> w.process.value < w.tries && w.process.value !in w.broken)
    && (forall p <- w.broken :: p < w.tries)
    && (w.inflight.Some? ==> w.inflight.value < w.tries)
    && (forall k :: 0 <= k < |w.emitted| ==> w.emitted[k].process < w.tries)
    && (w.process.Some? ==> forall k :: 0 <= k < |w.emitted| ==> w.emitted[k].process <= w.process.value)
    && (forall j, k :: 0 <= j < k < |w.emitted| ==> w.emitted[j].process <= w.emitted[k].process)
    && |w.emitted| <= |w.sent|
    && (w.enabled ==> (|w.emitted| == |w.sent| <==> AllSpawned(adapter, w.tries)))
    && (|w.emitted| == |w.sent| ==> Messages(w.emitted) == w.sent)
    && (!w.enabled ==> w.emitted == [])
  }

  lemma DroppedIsTidy(w: Writer, adapter: Adapter, process: nat)
    requires Tidy(w, adapter) && process < w.tries
    ensures Tidy(Dropped(w, process), adapter)
  {
  }

  lemma PushedIsTidy(w: Writer, adapter: Adapter, write: Write)
    requires Tidy(w.(pending := [write] + w.pending, chained := true), adapter) && w.inflight.None?
             && (w.pending != [] ==> w.chained)
    ensures Tidy(Pushed(w, adapter, write), adapter)
  {
    assert w.attempted + [write] + w.pending == w.attempted + ([write] + w.pending);
    assert (w.attempted + ([write] + w.pending))[|w.attempted|] == write;
  }

  lemma MannedIsTidy(w: Writer, adapter: Adapter)
    requires Tidy(w, adapter) && w.enabled
    ensures var m := Manned(w, adapter);
            m.process.Some? ==>
              && m.process.value < m.tries && m.process.value !in w.broken
              && forall k :: 0 <= k < |w.emitted| ==> w.emitted[k].process <= m.process.value
  {
  }

  lemma EmittingIsTidy(w: Writer, adapter: Adapter, message: Message)
    requires Tidy(w, adapter) && w.enabled && Manned(w, adapter).process.Some?
    ensures var m := Manned(w, adapter); var write := Write(m.process.value, message);
            Tidy(m.(sent := w.sent + [message], emitted := w.emitted + [write],
                    pending := w.pending + [write], chained := true), adapter)
  {
    var m := Manned(w, adapter);
    var write := Write(m.process.value, message);
    assert w.attempted + (w.pending + [write]) == w.emitted + [write];
    assert forall k :: 0 <= k < |w.emitted| ==> w.emitted[k].process < m.tries;
    assert AllSpawned(adapter, m.tries) <==> AllSpawned(adapter, w.tries);
    if |w.emitted| == |w.sent| {
      assert Messages(w.emitted + [write]) == w.sent + [message];
    }
  }

  lemma WrittenIsTidy(w: Writer, adapter: Adapter, message: Message)
    requires Tidy(w, adapter)
    ensures Tidy(Written(w, adapter, message), adapter)
  {
    var m := Manned(w, adapter);
    if w.enabled && m.process.Some? {
      EmittingIsTidy(w, adapter, message);
      var write := Write(m.process.value, message);
      var e := m.(sent := w.sent + [message], emitted := w.emitted + [write]);
      assert Written(w, adapter, message) == if w.chained then e.(pending := w.pending + [write])
             else Pushed(e, adapter, write);
      if !w.chained {
        assert w.pending + [write] == [write] + w.pending;
        PushedIsTidy(e, adapter, write);
      }
    }
  }

  lemma {:induction false} AllWrittenIsTidy(w: Writer, adapter: Adapter, messages: seq<Message>)
    requires Tidy(w, adapter)
    ensures Tidy(AllWritten(w, adapter, messages), adapter)
    decreases |messages|
  {
    if messages != [] {
      AllWrittenIsTidy(w, adapter, messages[..|messages| - 1]);
      WrittenIsTidy(AllWritten(w, adapter, messages[..|messages| - 1]), adapter, messages[|messages| - 1]);
    }
  }

  lemma SettledIsTidy(w: Writer, adapter: Adapter, resolved: bool)
    requires Tidy(w, adapter)
    ensures Tidy(Settled(w, resolved), adapter)
  {
    if w.inflight.Some? && !resolved {
      DroppedIsTidy(w.(inflight := None), adapter, w.inflight.value);
    }
  }

  lemma DrainedIsTidy(w: Writer, adapter: Adapter)
    requires Tidy(w, adapter)
    ensures Tidy(Drained(w, adapter), adapter)
  {
    if w.inflight.None? && w.pending != [] {
      assert w.pending == [w.pending[0]] + w.pending[1..];
      PushedIsTidy(w.(pending := w.pending[1..]), adapter, w.pending[0]);
    }
  }

  lemma {:induction false} RunIsTidy(enabled: bool, adapter: Adapter, steps: seq<Step>)
    ensures Tidy(Run(enabled, adapter, steps).writer, adapter) && Run(enabled, adapter, steps).writer.enabled == enabled
    decreases |steps|
  {
    if |steps| != 0 {
      RunIsTidy(enabled, adapter, steps[..|steps| - 1]);
      var h := Run(enabled, adapter, steps[..|steps| - 1]);
      match steps[|steps| - 1]
      case Called(call) =>
        AllWrittenIsTidy(h.writer, adapter, Sent(h.life, call));
        AllWrittenKeepsSwitch(h.writer, adapter, Sent(h.life, call));
      case SinkSettled(resolved) => SettledIsTidy(h.writer, adapter, resolved);
      case ChainTurn => DrainedIsTidy(h.writer, adapter);
    }
  }

  lemma {:induction false} AllWrittenKeepsSwitch(w: Writer, adapter: Adapter, messages: seq<Message>)
    ensures AllWritten(w, adapter, messages).enabled == w.enabled
    decreases |messages|
  {
    if messages != [] {
      AllWrittenKeepsSwitch(w, adapter, messages[..|messages| - 1]);
    }
  }

  /** Each write handed to a process is attempted once and in order, whatever mix of writes is taken,
      thrown out or deferred; what is not yet attempted waits, in order, behind a deferred write. */
  lemma WritesGoOutInOrder(enabled: bool, adapter: Adapter, steps: seq<Step>)
    ensures var w := Run(enabled, adapter, steps).writer;
            && w.attempted + w.pending == w.emitted
            && (w.pending != [] ==> w.chained)
            && forall j, k :: 0 <= j < k < |w.emitted| ==> w.emitted[j].process <= w.emitted[k].process
  {
    RunIsTidy(enabled, adapter, steps);
  }

  /** Every message is handed to a process exactly when no spawn failed. */
  lemma NothingIsLostIffEverySpawnWorks(adapter: Adapter, steps: seq<Step>)
    ensures var w := Run(true, adapter, steps).writer;
            Messages(w.emitted) == w.sent <==> AllSpawned(adapter, w.tries)
  {
    RunIsTidy(true, adapter, steps);
  }

  /** A process that failed a write is given no new message. */
  lemma BrokenProcessGetsNothingNew(enabled: bool, adapter: Adapter, steps: seq<Step>, message: Message)
    ensures var w := Run(enabled, adapter, steps).writer;
            var w' := Written(w, adapter, message);
            w'.emitted == w.emitted || (|w'.emitted| == |w.emitted| + 1 && w'.emitted[..|w.emitted|] == w.emitted
                                        && w'.emitted[|w.emitted|].process !in w.broken)
  {
    RunIsTidy(enabled, adapter, steps);
    if enabled {
      MannedIsTidy(Run(enabled, adapter, steps).writer, adapter);
    }
  }

  // ----- who hears of the session -----

  ghost predicate FirstOfItsProcess(writes: seq<Write>, k: nat)
    requires k < |writes|
  {
    forall j :: 0 <= j < k ==> writes[j].process != writes[k].process
  }

  /** The first message that each process is given starts a session. */
  ghost predicate Heard(writes: seq<Write>) {
    forall k :: 0 <= k < |writes| && FirstOfItsProcess(writes, k) ==> writes[k].message.event.SessionStarted?
  }

  /** The current process is the one that was handed the last message. */
  predicate Employed(w: Writer) {
    w.process.Some? ==> w.emitted != [] && w.emitted[|w.emitted| - 1].process == w.process.value
  }

  /** The message spawns no process, or it is the start of a session. */
  predicate SpawnsOnlyToStart(w: Writer, adapter: Adapter, message: Message) {
    w.process.Some? || !adapter.spawns(w.tries) || message.event.SessionStarted?
  }

  lemma OneMoreWrite(writes: seq<Write>, write: Write)
    ensures Heard(writes + [write]) <==>
            Heard(writes)
                && ((forall w <- writes :: w.process != write.process) ==> write.message.event.SessionStarted?)
  {
    var all := writes + [write];
    forall k | 0 <= k < |writes|
      ensures all[k] == writes[k] && (FirstOfItsProcess(all, k) <==> FirstOfItsProcess(writes, k))
    {
      assert forall j :: 0 <= j <= k ==> all[j] == writes[j];
    }
    assert all[|writes|] == write;
    assert FirstOfItsProcess(all, |writes|) <==> forall w <- writes :: w.process != write.process by {
      assert forall j :: 0 <= j < |writes| ==> all[j] == writes[j];
    }
  }

  /** What one message does to what was heard: it is the guard of the spawn that decides. */
  lemma WrittenIsHeardIff(w: Writer, adapter: Adapter, message: Message)
    requires Tidy(w, adapter) && Employed(w) && w.enabled
    ensures Employed(Written(w, adapter, message))
    ensures Heard(Written(w, adapter, message).emitted) <==> Heard(w.emitted) && SpawnsOnlyToStart(w, adapter, message)
  {
    var m := Manned(w, adapter);
    if m.process.Some? {
      var write := Write(m.process.value, message);
      OneMoreWrite(w.emitted, write);
      if w.process.Some? {
        assert w.emitted[|w.emitted| - 1] in w.emitted;
      }
      assert Written(w, adapter, message).emitted == w.emitted + [write];
    }
  }

  predicate AllSpawnOnlyToStart(w: Writer, adapter: Adapter, messages: seq<Message>) {
    messages == []
    || var front := messages[..|messages| - 1];
       && AllSpawnOnlyToStart(w, adapter, front)
       && SpawnsOnlyToStart(AllWritten(w, adapter, front), adapter, messages[|messages| - 1])
  }

  predicate StepSpawnsOnlyToStart(h: Hook, adapter: Adapter, step: Step) {
    step.Called? ==> AllSpawnOnlyToStart(h.writer, adapter, Sent(h.life, step.call))
  }

  /** Over the whole run every spawn that worked was made for the start of a session. */
  predicate SpawnedOnlyToStart(adapter: Adapter, steps: seq<Step>) {
    |steps| == 0
    || var before := steps[..|steps| - 1];
       && SpawnedOnlyToStart(adapter, before)
       && StepSpawnsOnlyToStart(Run(true, adapter, before), adapter, steps[|steps| - 1])
  }

  lemma {:induction false} AllWrittenIsHeardIff(w: Writer, adapter: Adapter, messages: seq<Message>)
    requires Tidy(w, adapter) && Employed(w) && w.enabled
    ensures Employed(AllWritten(w, adapter, messages))
    ensures Heard(AllWritten(w, adapter, messages).emitted)
            <==> Heard(w.emitted) && AllSpawnOnlyToStart(w, adapter, messages)
    decreases |messages|
  {
    if messages != [] {
      var front := messages[..|messages| - 1];
      AllWrittenIsHeardIff(w, adapter, front);
      AllWrittenIsTidy(w, adapter, front);
      AllWrittenKeepsSwitch(w, adapter, front);
      WrittenIsHeardIff(AllWritten(w, adapter, front), adapter, messages[|messages| - 1]);
    }
  }

  lemma StepIsHeardIff(h: Hook, adapter: Adapter, step: Step)
    requires Tidy(h.writer, adapter) && Employed(h.writer) && h.writer.enabled
    ensures Employed(Next(h, adapter, step).writer)
    ensures Heard(Next(h, adapter, step).writer.emitted)
            <==> Heard(h.writer.emitted) && StepSpawnsOnlyToStart(h, adapter, step)
  {
    match step
    case Called(call) => AllWrittenIsHeardIff(h.writer, adapter, Sent(h.life, call));
    case SinkSettled(_) =>
    case ChainTurn =>
  }

  lemma {:induction false} EmittedIsHeardIff(adapter: Adapter, steps: seq<Step>)
    ensures Employed(Run(true, adapter, steps).writer)
    ensures Heard(Run(true, adapter, steps).writer.emitted) <==> SpawnedOnlyToStart(adapter, steps)
    decreases |steps|
  {
    if |steps| != 0 {
      var before := steps[..|steps| - 1];
      EmittedIsHeardIff(adapter, before);
      RunIsTidy(true, adapter, before);
      StepIsHeardIff(Run(true, adapter, before), adapter, steps[|steps| - 1]);
    }
  }

  lemma HeardInFront(front: seq<Write>, rest: seq<Write>)
    requires Heard(front + rest)
    ensures Heard(front)
  {
    var all := front + rest;
    forall k | 0 <= k < |front| && FirstOfItsProcess(front, k)
      ensures front[k].message.event.SessionStarted?
    {
      assert forall j :: 0 <= j <= k ==> all[j] == front[j];
      assert FirstOfItsProcess(all, k);
    }
  }

  /** Every process hears of a session first, over the whole run, exactly when each spawn that works is made
      for a `session_started`; then so it is in what has gone out. */
  lemma SessionIsHeardIff(adapter: Adapter, steps: seq<Step>)
    ensures var w := Run(true, adapter, steps).writer;
            && (Heard(w.emitted) <==> SpawnedOnlyToStart(adapter, steps))
            && (Heard(w.emitted) ==> Heard(w.attempted))
  {
    EmittedIsHeardIff(adapter, steps);
    RunIsTidy(true, adapter, steps);
    var w := Run(true, adapter, steps).writer;
    if Heard(w.emitted) {
      HeardInFront(w.attempted, w.pending);
    }
  }

  /** After a failed spawn the hook tries again with the next message: the first message an adapter is
      given need not be a `session_started`. */
  lemma FailedSpawnLosesTheStart() returns (adapter: Adapter, steps: seq<Step>)
    ensures var attempted := Run(true, adapter, steps).writer.attempted;
            |attempted| == 1 && attempted[0].message.event.StateChanged? && !Heard(attempted)
  {
    adapter := Adapter(k => k != 0, k => Taken);
    steps := [Called(StartProcess("/")), Called(ChangeState(Idle, None))];
    TwoSteps(adapter, steps);
  }

  /** Nor when a process broke: the one that takes over hears of no session. */
  lemma NewProcessMissesTheStart() returns (adapter: Adapter, steps: seq<Step>)
    ensures var attempted := Run(true, adapter, steps).writer.attempted;
            && |attempted| == 2 && attempted[0].process != attempted[1].process
            && attempted[1].message.event.StateChanged? && !Heard(attempted)
  {
    adapter := Adapter(k => true, k => if k == 0 then Thrown else Taken);
    steps := [Called(StartProcess("/")), Called(ChangeState(Idle, None))];
    TwoSteps(adapter, steps);
  }

  lemma TwoSteps(adapter: Adapter, steps: seq<Step>)
    requires steps == [Called(StartProcess("/")), Called(ChangeState(Idle, None))]
    ensures var life, w := Life(true, false, None, false, None),
            Written(Idling(true), adapter, Message(None, SessionStarted("/")));
            Run(true, adapter, steps) == Hook(life, Written(w, adapter, Message(None, StateChanged(Idle, None))))
  {
    var one, life := [Called(StartProcess("/"))], Life(true, false, None, false, None);
    var first, second := Message(None, SessionStarted("/")), Message(None, StateChanged(Idle, None));
    var w := Written(Idling(true), adapter, first);
    OneStep(adapter, [], StartProcess("/"), Hook(UNSTARTED, Idling(true)), first);
    OneStep(adapter, one, ChangeState(Idle, None), Hook(life, w), second);
    assert [] + one == one && one + [Called(ChangeState(Idle, None))] == steps;
  }

  lemma OneStep(adapter: Adapter, steps: seq<Step>, call: Call, h: Hook, message: Message)
    requires Run(true, adapter, steps) == h && Sent(h.life, call) == [message]
    ensures Run(true, adapter, steps + [Called(call)]) == Hook(After(h.life, call), Written(h.writer, adapter, message))
  {
    assert (steps + [Called(call)])[..|steps|] == steps;
    var one := [message];
    assert one[..|one| - 1] == [] && AllWritten(h.writer, adapter, []) == h.writer;
    assert AllWritten(h.writer, adapter, one) == Written(h.writer, adapter, message);
  }
}
