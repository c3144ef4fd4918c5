/**
 What the revision fence of the `/task` list guarantees over every run, however replies are delayed.
 */
module TaskRuns {
  import opened Options
  import opened TaskModel
  import opened TaskRequests

  ghost predicate IsRun(states: seq<Session>, events: seq<Event>) {
    && |states| == |events| + 1
    && states[0] == INITIAL
    && forall i :: 0 <= i < |events| ==> states[i + 1] == Apply(states[i], events[i])
  }

  /** The step from `s` to `s'` sends list request `k`. */
  predicate SendsList(s: Session, s': Session, k: nat) { k == s.nextCall && k in s'.calls && s'.calls[k].ListCall? }

  /** Event `e` puts the rows of list request `k` into the cache. */
  predicate InstallsList(s: Session, e: Event, k: nat) {
    && e.Reply? && e.call == k && k in s.calls && s.calls[k].ListCall?
    && !s.disposed && s.calls[k].revision == s.revision && e.answer.Listed?
  }

  predicate IsAction(c: Call) { c.ToggleCall? || c.DeleteCall? || c.ConfirmCall? || c.RunCall? }

  predicate StartsAction(s: Session, e: Event) { e.Mutate? && CanMutate(s, e.id) }

  /** An action of the current identity ends: it succeeded, failed or was declined. A confirmed run goes on. */
  predicate FinishesAction(s: Session, e: Event) {
    && e.Reply? && e.call in s.calls && IsAction(s.calls[e.call]) && s.calls[e.call].identity == s.identity
    && (s.calls[e.call].ConfirmCall? ==> !e.answer.Done? || s.disposed || s.calls[e.call].generation != s.generation)
  }

  predicate Fences(s: Session, e: Event) {
    StartsAction(s, e) || FinishesAction(s, e) || e.ResetIdentity? || e.StartFlow?
  }

  predicate DeletesRow(s: Session, e: Event, id: Id) {
    && e.Reply? && e.call in s.calls && s.calls[e.call].DeleteCall? && e.answer.Done?
    && s.calls[e.call].id == id && s.calls[e.call].identity == s.identity
  }

  predicate AsksDetail(s: Session, e: Event, k: nat) { e.ShowDetail? && e.id !in s.pending && k == s.nextCall }

  predicate InstallsDetail(s: Session, e: Event, k: nat) {
    && e.Reply? && e.call == k && k in s.calls && s.calls[k].DetailCall? && e.answer.Fetched?
    && !s.disposed && e.visible
    && s.calls[k].generation == s.generation && s.calls[k].request == s.detailRequest
    && s.calls[k].revision == s.revision
  }

  /** The user moved on: another row, another detail, another window. */
  predicate MovesOn(s: Session, e: Event) {
    || e.KeyUpdate? || e.LeaveRuns? || e.Invalidate? || e.Dispose? || e.ResetIdentity? || StartsAction(s, e)
    || (e.ShowDetail? && e.id !in s.pending) || (e.Open? && !s.disposed)
  }

  // ----- single steps -----

  /** A toggle, if `e` completes one, returns the row it was asked for. */
  predicate UpdateKeepsId(s: Session, e: Event) {
    e.Reply? && e.call in s.calls && s.calls[e.call].ToggleCall? && e.answer.Fetched? ==>
        e.answer.row.id == s.calls[e.call].id
  }

  /** Counters never go back; every fencing event moves the revision, every other step of the user
      moves the detail counter, and only a reset moves the identity. */
  ghost predicate CountersStep(s: Session, e: Event, s': Session) {
    && s.revision <= s'.revision && s.nextCall <= s'.nextCall
    && s.detailRequest <= s'.detailRequest && s.generation <= s'.generation
    && (Fences(s, e) ==> s.revision < s'.revision)
    && (MovesOn(s, e) ==> s.detailRequest < s'.detailRequest)
    && s'.identity == if e.ResetIdentity? then s.identity + 1 else s.identity
  }

  /** A call keeps what it captured until its reply removes it for good. */
  ghost predicate CallsStep(s: Session, s': Session) {
    forall k :: k in s'.calls ==>
      || (k in s.calls && s'.calls[k] == s.calls[k])
      || (k == s.nextCall && k < s'.nextCall && (s'.calls[k].ListCall? ==> s'.calls[k].revision == s'.revision))
  }

  /** A row enters the cache in one way only: a list reply that names it is installed. */
  ghost predicate RowsStep(s: Session, e: Event, s': Session) {
    UpdateKeepsId(s, e) ==>
      forall id :: Lists(s'.response, id) ==>
        Lists(s.response, id) || (e.Reply? && InstallsList(s, e, e.call) && Find(e.answer.rows, id))
  }

  ghost predicate DeletesStep(s: Session, e: Event, s': Session) {
    forall id :: DeletesRow(s, e, id) ==> Fences(s, e) && s'.nextCall == s.nextCall && !Lists(s'.response, id)
  }

  lemma FinishingMovesRevision(s: Session, e: Event)
    requires FinishesAction(s, e)
    ensures s.revision < Apply(s, e).revision
  {
    match s.calls[e.call]
    case ToggleCall(_, _) =>
    case DeleteCall(_, _) =>
    case ConfirmCall(_, _, _) =>
    case RunCall(_, _) =>
  }

  lemma EveryStepCounts(s: Session, e: Event)
    ensures CountersStep(s, e, Apply(s, e))
  {
    if FinishesAction(s, e) {
      FinishingMovesRevision(s, e);
    }
  }

  lemma EveryStepKeepsCalls(s: Session, e: Event)
    ensures CallsStep(s, Apply(s, e))
  {
    var s' := Apply(s, e);
    forall k | k in s'.calls
      ensures || (k in s.calls && s'.calls[k] == s.calls[k])
              || (k == s.nextCall && k < s'.nextCall && (s'.calls[k].ListCall? ==> s'.calls[k].revision == s'.revision))
    {
      CallIsKeptOrSent(s, e, k);
    }
  }

  lemma FindReplaced(rows: seq<Row>, at: Id, row: Row, id: Id)
    requires row.id == at
    ensures Find(Replaced(rows, at, row), id) ==> Find(rows, id)
  {
    if Find(Replaced(rows, at, row), id) {
      var k :| 0 <= k < |rows| && Replaced(rows, at, row)[k].id == id;
      assert rows[k].id == id;
    }
  }

  lemma EveryStepLists(s: Session, e: Event)
    ensures RowsStep(s, e, Apply(s, e))
  {
    if e.Reply? && e.call in s.calls && s.calls[e.call].ToggleCall? && UpdateKeepsId(s, e) && e.answer.Fetched?
        && s.response.Some? {
      forall id ensures Lists(Apply(s, e).response, id) ==> Lists(s.response, id) {
        FindReplaced(s.response.value, s.calls[e.call].id, e.answer.row, id);
      }
    }
  }

  lemma EveryDeleteRemoves(s: Session, e: Event)
    ensures DeletesStep(s, e, Apply(s, e))
  {
  }

  // ----- whole runs -----

  ghost predicate Evolves(states: seq<Session>, events: seq<Event>) {
    && |states| == |events| + 1
    && states[0].calls == map[]
    && forall i :: 0 <= i < |events| ==>
         && CountersStep(states[i], events[i], states[i + 1]) && CallsStep(states[i], states[i + 1])
         && RowsStep(states[i], events[i], states[i + 1]) && DeletesStep(states[i], events[i], states[i + 1])
  }

  lemma RunsEvolve(states: seq<Session>, events: seq<Event>)
    requires IsRun(states, events)
    ensures Evolves(states, events)
  {
    forall i | 0 <= i < |events|
      ensures CountersStep(states[i], events[i], states[i + 1]) && CallsStep(states[i], states[i + 1])
      ensures RowsStep(states[i], events[i], states[i + 1]) && DeletesStep(states[i], events[i], states[i + 1])
    {
      EveryStepCounts(states[i], events[i]);
      EveryStepKeepsCalls(states[i], events[i]);
      EveryStepLists(states[i], events[i]);
      EveryDeleteRemoves(states[i], events[i]);
    }
  }

  ghost predicate CallsKnown(s: Session) {
    forall k :: k in s.calls ==> k < s.nextCall && (s.calls[k].ListCall? ==> s.calls[k].revision <= s.revision)
  }

  lemma {:induction false} RunCalls(states: seq<Session>, events: seq<Event>, i: nat)
    requires Evolves(states, events) && i < |states|
    ensures CallsKnown(states[i])
  {
    if i != 0 {
      RunCalls(states, events, i - 1);
      assert CallsStep(states[i - 1], states[(i - 1) + 1]);
    }
  }

  lemma {:induction false} RunCounters(states: seq<Session>, events: seq<Event>, i: nat, j: nat)
    requires Evolves(states, events) && i <= j < |states|
    ensures states[i].revision <= states[j].revision && states[i].nextCall <= states[j].nextCall
    ensures states[i].identity <= states[j].identity
    ensures states[i].detailRequest <= states[j].detailRequest && states[i].generation <= states[j].generation
    decreases j
  {
    if i != j {
      RunCounters(states, events, i, j - 1);
      assert CountersStep(states[j - 1], events[j - 1], states[(j - 1) + 1]);
    }
  }

  lemma {:induction false} CallPersists(states: seq<Session>, events: seq<Event>, i: nat, j: nat, k: nat)
    requires Evolves(states, events) && i <= j < |states|
    requires k in states[j].calls && k < states[i].nextCall
    ensures k in states[i].calls && states[i].calls[k] == states[j].calls[k]
    decreases j
  {
    if i != j {
      RunCounters(states, events, i, j - 1);
      assert CallsStep(states[j - 1], states[(j - 1) + 1]);
      CallPersists(states, events, i, j - 1, k);
    }
  }

  /** When revision, detail counter and identity end where they began, nothing that moves them happened. */
  lemma NothingMoved(states: seq<Session>, events: seq<Event>, i: nat, j: nat, m: nat)
    requires Evolves(states, events) && i <= m < j < |states|
    ensures states[i].revision == states[j].revision ==> !Fences(states[m], events[m])
    ensures states[i].detailRequest == states[j].detailRequest ==> !MovesOn(states[m], events[m])
  {
    RunCounters(states, events, i, m);
    RunCounters(states, events, m + 1, j);
    assert CountersStep(states[m], events[m], states[m + 1]);
  }

  lemma {:induction false} IdentityHolds(states: seq<Session>, events: seq<Event>, i: nat, j: nat)
    requires Evolves(states, events) && i <= j < |states| && states[i].revision == states[j].revision
    ensures states[j].identity == states[i].identity
    decreases j
  {
    if i != j {
      NothingMoved(states, events, i, j, j - 1);
      RunCounters(states, events, i, j - 1);
      assert CountersStep(states[j - 1], events[j - 1], states[(j - 1) + 1]);
      IdentityHolds(states, events, i, j - 1);
    }
  }

  /** A list reply is installed only if, since its request was sent, no action of the current identity
      started or finished, no flow started and the identity was not reset. */
  lemma InstalledListIsCurrent(states: seq<Session>, events: seq<Event>, i: nat, j: nat, k: nat)
    requires IsRun(states, events) && i < j < |events|
    requires SendsList(states[i], states[i + 1], k) && InstallsList(states[j], events[j], k)
    ensures forall m :: i < m < j ==> !Fences(states[m], events[m])
    ensures states[j].identity == states[i + 1].identity
    ensures states[j + 1].response == Some(events[j].answer.rows)
  {
    RunsEvolve(states, events);
    assert CallsStep(states[i], states[i + 1]);
    RunCalls(states, events, i);
    CallPersists(states, events, i + 1, j, k);
    forall m | i < m < j ensures !Fences(states[m], events[m]) {
      NothingMoved(states, events, i + 1, j, m);
    }
    IdentityHolds(states, events, i + 1, j);
    assert states[j + 1] == Apply(states[j], events[j]);
  }

  /** Request `k` was sent after step `i` and its reply, installed before step `j`, lists `id`. */
  ghost predicate RelistedBetween(states: seq<Session>, events: seq<Event>, i: nat, j: nat, id: Id)
    requires |states| == |events| + 1 && j < |states|
  {
    exists p, q, k :: i < p < q < j && SendsList(states[p], states[p + 1], k) && InstallsList(states[q], events[q], k)
                      && Find(events[q].answer.rows, id)
  }

  /** A row whose delete succeeded stays out of the list until a request sent after that delete lists it. */
  lemma DeletedRowStaysAbsent(states: seq<Session>, events: seq<Event>, i: nat, j: nat, id: Id)
    requires IsRun(states, events) && i < j < |states|
    requires forall m :: 0 <= m < |events| ==> UpdateKeepsId(states[m], events[m])
    requires DeletesRow(states[i], events[i], id)
    ensures Lists(states[j].response, id) ==> RelistedBetween(states, events, i, j, id)
  {
    RunsEvolve(states, events);
    if Lists(states[j].response, id) {
      var p, q, k := FindRelisting(states, events, i, j, id);
    }
  }

  lemma {:induction false} FindRelisting(states: seq<Session>, events: seq<Event>, i: nat, j: nat, id: Id)
    returns (p: nat, q: nat, k: nat)
    requires Evolves(states, events) && i < j < |states|
    requires forall m :: 0 <= m < |events| ==> UpdateKeepsId(states[m], events[m])
    requires DeletesRow(states[i], events[i], id) && Lists(states[j].response, id)
    ensures i < p < q < j && SendsList(states[p], states[p + 1], k) && InstallsList(states[q], events[q], k)
    ensures Find(events[q].answer.rows, id)
    decreases j
  {
    assert DeletesStep(states[i], events[i], states[i + 1]);
    q := j - 1;
    assert RowsStep(states[q], events[q], states[q + 1]);
    assert UpdateKeepsId(states[q], events[q]);
    assert i < q;
    if Lists(states[q].response, id) {
      p, q, k := FindRelisting(states, events, i, q, id);
    } else {
      k := events[q].call;
      p := LaterRequest(states, events, i, q, k);
    }
  }

  /** The request behind an installed reply was sent after the last fencing event. */
  lemma LaterRequest(states: seq<Session>, events: seq<Event>, i: nat, q: nat, k: nat) returns (p: nat)
    requires Evolves(states, events) && i < q < |events|
    requires Fences(states[i], events[i]) && states[i + 1].nextCall == states[i].nextCall
    requires InstallsList(states[q], events[q], k)
    ensures i < p < q && SendsList(states[p], states[p + 1], k)
  {
    assert CountersStep(states[i], events[i], states[i + 1]);
    RunCounters(states, events, i + 1, q);
    RunCalls(states, events, i);
    if k < states[i].nextCall {
      CallPersists(states, events, i, q, k);
    }
    RunCalls(states, events, i + 1);
    p := FirstWith(states, events, i + 1, q, k);
  }

  lemma {:induction false} FirstWith(states: seq<Session>, events: seq<Event>, i: nat, q: nat, k: nat) returns (p: nat)
    requires Evolves(states, events) && i <= q < |states|
    requires k in states[q].calls && states[q].calls[k].ListCall? && states[i].nextCall <= k && CallsKnown(states[i])
    ensures i <= p < q && SendsList(states[p], states[p + 1], k)
    decreases q
  {
    p := q - 1;
    assert i != q;
    assert CallsStep(states[p], states[p + 1]);
    RunCalls(states, events, p);
    if k in states[p].calls && states[p].calls[k] == states[p + 1].calls[k] {
      p := FirstWith(states, events, i, q - 1, k);
    }
  }

  // ----- details -----

  /** A detail opens only for the latest request, with no action and no other step of the user in between. */
  lemma InstalledDetailIsCurrent(states: seq<Session>, events: seq<Event>, i: nat, j: nat, k: nat)
    requires IsRun(states, events) && i < j < |events|
    requires AsksDetail(states[i], events[i], k) && InstallsDetail(states[j], events[j], k)
    ensures forall m :: i < m < j ==> !Fences(states[m], events[m]) && !MovesOn(states[m], events[m])
    ensures states[j + 1].detail == Some(events[j].answer.row) && states[j + 1].runTask == Some(events[i].id)
  {
    RunsEvolve(states, events);
    assert states[i + 1] == Apply(states[i], events[i]);
    CallPersists(states, events, i + 1, j, k);
    forall m | i < m < j ensures !Fences(states[m], events[m]) && !MovesOn(states[m], events[m]) {
      NothingMoved(states, events, i + 1, j, m);
    }
    assert states[j + 1] == Apply(states[j], events[j]);
  }
}
