/**
 Which call of the session hook every message comes from, and what every call says.
 */
module HookCalls {
  import opened Options
  import opened HookModel
  import opened HookRuns

  // ----- where a message comes from -----

  /** What a call may say: `open` is the id of the open run. */
  predicate Utters(call: Call, open: Option<string>, event: Event) {
    match event
    case SessionStarted(cwd) => (call.StartProcess? || call.StartSession?) && call.cwd == cwd
    case SessionEnded(reason) =>
      || ((call.EndSession? || call.Close?) && call.reason == reason)
      || (call.StartSession? && reason == "session_changed")
    case RunStarted(id) => call.StartRun? && id == Normalize(call.runId)
    case RunFinished(id) => call.FinishRun? && id == if Normalize(call.runId).Some? then Normalize(call.runId) else open
    case RunFailed(id, message) =>
      && call.FailRun? && message == Normalize(call.message)
      && id == if Normalize(call.runId).Some? then Normalize(call.runId) else open
    case StateChanged(mood, message) =>
      if call.ChangeState? then mood == call.mood && message == if mood.Blocked? then Normalize(call.message) else None
      else message.None? && mood == if call.StartRun? then Working else Idle
  }

  lemma CallUtters(l: Life, call: Call, k: nat)
    requires k < |Sent(l, call)|
    ensures Utters(call, l.runId, Sent(l, call)[k].event)
    ensures Sent(l, call)[k].event.StateChanged? ==>
              call.ChangeState? || call.StartRun? || call.FinishRun? || call.FailRun? || call.SettleRun?
  {
  }

  lemma StepSends(h: Hook, adapter: Adapter, step: Step)
    ensures Next(h, adapter, step).writer.sent
            == h.writer.sent + if step.Called? then Sent(h.life, step.call) else []
  {
    if step.Called? {
      AllWrittenIsSent(h.writer, adapter, Sent(h.life, step.call));
    } else {
      NoMore(h.writer.sent);
    }
  }

  /** Every message of every run was said by one call, and as that call demands. */
  lemma {:induction false} EveryMessageHasItsCall(enabled: bool, adapter: Adapter, steps: seq<Step>, n: nat)
    returns (i: nat)
    requires n < |Run(enabled, adapter, steps).writer.sent|
    ensures i < |steps| && steps[i].Called?
    ensures var m := Run(enabled, adapter, steps).writer.sent[n];
            && Utters(steps[i].call, Run(enabled, adapter, steps[..i]).life.runId, m.event)
            && |Run(enabled, adapter, steps[..i]).writer.sent| <= n
    decreases |steps|
  {
    assert |steps| != 0;
    var init, last := steps[..|steps| - 1], steps[|steps| - 1];
    var h := Run(enabled, adapter, init);
    StepSends(h, adapter, last);
    if n < |h.writer.sent| {
      i := EveryMessageHasItsCall(enabled, adapter, init, n);
      assert init[..i] == steps[..i];
    } else {
      i := |steps| - 1;
      CallUtters(h.life, last.call, n - |h.writer.sent|);
    }
  }

  // ----- what a call says -----

  /** The events of a call, in order, by what it meets. */
  function Utterances(l: Life, call: Call): seq<Event> {
    if l.closed then []
    else
      match call
      case StartProcess(cwd) => if l.started then [] else [SessionStarted(cwd)]
      case StartSession(id, cwd) =>
        if Normalize(Some(id)).None? || Normalize(Some(id)) == l.sessionId then []
        else (if l.sessionId.Some? then [SessionEnded("session_changed")] else []) + [SessionStarted(cwd)]
      case ChangeState(mood, message) =>
        if l.started then [StateChanged(mood, if mood.Blocked? then Normalize(message) else None)] else []
      case StartRun(id) => if l.started then [RunStarted(Normalize(id)), StateChanged(Working, None)] else []
      case FinishRun(id) =>
        if l.runOpen
        then [RunFinished(if Normalize(id).Some? then Normalize(id) else l.runId), StateChanged(Idle, None)] else []
      case FailRun(id, message) =>
        if l.runOpen
        then [RunFailed(if Normalize(id).Some? then Normalize(id) else l.runId, Normalize(message)),
              StateChanged(Idle, None)]
        else []
      case SettleRun => if l.runOpen then [StateChanged(Idle, None)] else []
      case EndSession(reason) => if l.started then [SessionEnded(reason)] else []
      case Close(reason) => if l.started then [SessionEnded(reason)] else []
  }

  function Events(messages: seq<Message>): (r: seq<Event>)
    ensures |r| == |messages| && forall k :: 0 <= k < |r| ==> r[k] == messages[k].event
  {
    seq(|messages|, k requires 0 <= k < |messages| => messages[k].event)
  }

  /** In a life that a run can lead, each call says just that. */
  lemma CallSays(l: Life, call: Call, p: Phase)
    requires InPhase(l, p)
    ensures Events(Sent(l, call)) == Utterances(l, call)
  {
  }

  // ----- when a run is open -----

  predicate StartsRun(l: Life, step: Step) { step.Called? && step.call.StartRun? && l.started && !l.closed }

  /** What ends a run: its settlement, loud or silent, the end of its session, or another session. */
  predicate EndsRun(l: Life, step: Step) {
    && step.Called?
    && match step.call
       case FinishRun(_) => true
       case FailRun(_, _) => true
       case SettleRun => true
       case EndSession(_) => true
       case Close(_) => true
       case StartSession(id, _) => Normalize(Some(id)).Some? && Normalize(Some(id)) != l.sessionId
       case _ => false
  }

  /** Step `i` opened the run that is open after `steps`: the latest to start one, and not ended since. */
  ghost predicate Opened(enabled: bool, adapter: Adapter, steps: seq<Step>, i: int) {
    && 0 <= i < |steps| && StartsRun(Run(enabled, adapter, steps[..i]).life, steps[i])
    && forall j :: i < j < |steps| ==> Between(enabled, adapter, steps, j)
  }

  predicate Between(enabled: bool, adapter: Adapter, steps: seq<Step>, j: nat)
    requires j < |steps|
  {
    var l := Run(enabled, adapter, steps[..j]).life;
    !StartsRun(l, steps[j]) && !EndsRun(l, steps[j])
  }

  lemma StepOpens(l: Life, step: Step, l': Life, p: Phase)
    requires InPhase(l, p) && l' == if step.Called? then After(l, step.call) else l
    ensures StartsRun(l, step) ==> l'.runOpen && l'.runId == Normalize(step.call.runId)
    ensures !StartsRun(l, step) && EndsRun(l, step) ==> !l'.runOpen
    ensures !StartsRun(l, step) && !EndsRun(l, step) ==> l'.runOpen == l.runOpen && (l.runOpen ==> l'.runId == l.runId)
  {
  }

  lemma SameBefore(enabled: bool, adapter: Adapter, steps: seq<Step>, j: nat)
    requires j < |steps| - 1
    ensures steps[..|steps| - 1][j] == steps[j] && steps[..|steps| - 1][..j] == steps[..j]
    ensures Between(enabled, adapter, steps, j) <==> Between(enabled, adapter, steps[..|steps| - 1], j)
  {
    assert steps[..|steps| - 1][..j] == steps[..j];
  }

  lemma OpenedBefore(enabled: bool, adapter: Adapter, steps: seq<Step>, i: int)
    requires |steps| != 0 && i < |steps| - 1
    ensures var n := |steps| - 1;
            Opened(enabled, adapter, steps, i)
            <==> Opened(enabled, adapter, steps[..n], i) && Between(enabled, adapter, steps, n)
  {
    var n := |steps| - 1;
    forall j: nat | j < n
      ensures Between(enabled, adapter, steps, j) <==> Between(enabled, adapter, steps[..n], j)
    {
      SameBefore(enabled, adapter, steps, j);
    }
    if 0 <= i {
      SameBefore(enabled, adapter, steps, i);
    }
  }

  ghost predicate OpenFits(enabled: bool, adapter: Adapter, steps: seq<Step>, l: Life) {
    && (l.runOpen <==> exists i :: Opened(enabled, adapter, steps, i))
    && forall i :: Opened(enabled, adapter, steps, i) ==> l.runId == Normalize(steps[i].call.runId)
  }

  lemma OpenFitsNext(enabled: bool, adapter: Adapter, steps: seq<Step>, l: Life, l': Life)
    requires |steps| != 0 && l == Run(enabled, adapter, steps[..|steps| - 1]).life
    requires OpenFits(enabled, adapter, steps[..|steps| - 1], l)
    requires var step := steps[|steps| - 1];
             && (StartsRun(l, step) ==> l'.runOpen && l'.runId == Normalize(step.call.runId))
             && (!StartsRun(l, step) && EndsRun(l, step) ==> !l'.runOpen)
             && (!StartsRun(l, step) && !EndsRun(l, step) ==>
                  l'.runOpen == l.runOpen && (l.runOpen ==> l'.runId == l.runId))
    ensures OpenFits(enabled, adapter, steps, l')
  {
    var n := |steps| - 1;
    var init, step := steps[..n], steps[n];
    assert Opened(enabled, adapter, steps, n) <==> StartsRun(l, step);
    forall i | Opened(enabled, adapter, steps, i)
      ensures l'.runOpen && l'.runId == Normalize(steps[i].call.runId)
    {
      if i < n {
        OpenedBefore(enabled, adapter, steps, i);
        assert init[i] == steps[i];
      }
    }
    if l'.runOpen && !StartsRun(l, step) {
      var i :| Opened(enabled, adapter, init, i);
      OpenedBefore(enabled, adapter, steps, i);
    }
  }

  /** After every run of steps: a run is open if and only if one was started and nothing ended it since, and it is
      reported under the id of the latest start. */
  lemma {:induction false} RunIsOpenIff(enabled: bool, adapter: Adapter, steps: seq<Step>)
    ensures OpenFits(enabled, adapter, steps, Run(enabled, adapter, steps).life)
    decreases |steps|
  {
    if |steps| != 0 {
      var n := |steps| - 1;
      var h := Run(enabled, adapter, steps[..n]);
      RunIsOpenIff(enabled, adapter, steps[..n]);
      RunIsOrderly(enabled, adapter, steps[..n]);
      StepOpens(h.life, steps[n], Run(enabled, adapter, steps).life, PhaseOf(h.writer.sent));
      OpenFitsNext(enabled, adapter, steps, h.life, Run(enabled, adapter, steps).life);
    }
  }
}
