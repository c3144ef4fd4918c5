/**
 Which action asked for a request of the `/task` list, what its completion does to the rows, and that no request
 is forgotten.
 */
module TaskCalls {
  import opened Options
  import opened Sublists
  import opened TaskModel
  import opened TaskRequests
  import opened TaskRuns

  // ----- which action asked for a request -----

  predicate SendsAt(s: Session, e: Event, k: nat, c: Call) { k == s.nextCall && Request(s, e) == Some(c) }

  ghost predicate KeptOrSent(s: Session, e: Event, s': Session) {
    forall k :: k in s'.calls ==> (k in s.calls && s'.calls[k] == s.calls[k]) || SendsAt(s, e, k, s'.calls[k])
  }

  ghost predicate Linked(states: seq<Session>, events: seq<Event>) {
    && |states| == |events| + 1 && states[0].calls == map[]
    && forall i :: 0 <= i < |events| ==> KeptOrSent(states[i], events[i], states[i + 1])
  }

  lemma RunIsLinked(states: seq<Session>, events: seq<Event>)
    requires IsRun(states, events)
    ensures Linked(states, events)
  {
    forall i | 0 <= i < |events| ensures KeptOrSent(states[i], events[i], states[i + 1]) {
      forall k | k in states[i + 1].calls
        ensures || (k in states[i].calls && states[i + 1].calls[k] == states[i].calls[k])
                || SendsAt(states[i], events[i], k, states[i + 1].calls[k])
      {
        CallIsKeptOrSent(states[i], events[i], k);
      }
    }
  }

  lemma {:induction false} SentBefore(states: seq<Session>, events: seq<Event>, j: nat, k: nat) returns (i: nat)
    requires Linked(states, events) && j < |states| && k in states[j].calls
    ensures i < j && SendsAt(states[i], events[i], k, states[j].calls[k])
  {
    assert j != 0;
    i := j - 1;
    assert KeptOrSent(states[i], events[i], states[i + 1]);
    if k in states[i].calls && states[i].calls[k] == states[j].calls[k] {
      i := SentBefore(states, events, j - 1, k);
    }
  }

  /** Every awaited call was sent by one earlier step, and as that step demanded. */
  lemma CallWasSent(states: seq<Session>, events: seq<Event>, j: nat, k: nat) returns (i: nat)
    requires IsRun(states, events) && j < |states| && k in states[j].calls
    ensures i < j && SendsAt(states[i], events[i], k, states[j].calls[k])
  {
    RunIsLinked(states, events);
    i := SentBefore(states, events, j, k);
  }

  /** A delete is awaited only because a delete of that row was asked for, a toggle because a toggle was. */
  lemma ActionWasAskedFor(states: seq<Session>, events: seq<Event>, j: nat, k: nat) returns (i: nat)
    requires IsRun(states, events) && j < |states| && k in states[j].calls
    requires states[j].calls[k].DeleteCall? || states[j].calls[k].ToggleCall?
    ensures var c := states[j].calls[k];
            && i < j && k == states[i].nextCall
            && events[i] == Mutate(if c.DeleteCall? then Delete else Toggle, c.id)
            && CanMutate(states[i], c.id) && c.identity == states[i].identity
  {
    i := CallWasSent(states, events, j, k);
  }

  /** A run is awaited only after a run of that row was asked for, and that very question was answered with yes while
      the session lived and nothing had been left since. */
  lemma RunWasConfirmed(states: seq<Session>, events: seq<Event>, j: nat, k: nat) returns (i: nat, m: nat)
    requires IsRun(states, events) && j < |states| && k in states[j].calls && states[j].calls[k].RunCall?
    ensures var id := states[j].calls[k].id;
            && i < m < j && events[i] == Mutate(Run, id) && CanMutate(states[i], id)
            && events[m].Reply? && events[m].call == states[i].nextCall && events[m].answer.Done?
            && !states[m].disposed && states[m].generation == states[i].generation
            && k == states[m].nextCall && states[j].calls[k].identity == states[i].identity
  {
    m := CallWasSent(states, events, j, k);
    i := CallWasSent(states, events, m, events[m].call);
  }

  // ----- what completed requests do to the list -----

  /** Event `e` completes a toggle of row `id`. */
  predicate TogglesRow(s: Session, e: Event, id: Id) {
    && Delivers(s, e) && s.calls[e.call].ToggleCall? && e.answer.Fetched?
    && s.calls[e.call].id == id && s.calls[e.call].identity == s.identity
  }

  /** A completed toggle leaves the answered row in the old one's place and every other row as it was. */
  lemma ToggleReplacesRow(s: Session, e: Event, id: Id)
    requires TogglesRow(s, e, id)
    ensures var response := Apply(s, e).response;
            match s.response
            case None => response.None?
            case Some(rows) =>
              && response.Some? && |response.value| == |rows|
              && forall k :: 0 <= k < |rows| ==> response.value[k] == if rows[k].id == id then e.answer.row else rows[k]
  {
  }

  /** A completed delete takes out the rows of that id, and leaves the others in order. */
  lemma DeleteTakesOut(s: Session, e: Event, id: Id) returns (at: seq<nat>)
    requires DeletesRow(s, e, id) && s.response.Some?
    ensures var rows := s.response.value;
            && Apply(s, e).response.Some? && Picks(rows, Apply(s, e).response.value, at)
            && forall k :: 0 <= k < |rows| ==> (k in at <==> rows[k].id != id)
  {
    at := KeptPicks(s.response.value, Other(id));
  }

  lemma ToggledRowStays(rows: seq<Row>, at: Id, row: Row, id: Id)
    requires row.id == at && Find(rows, id)
    ensures Find(Replaced(rows, at, row), id)
  {
    var k :| 0 <= k < |rows| && rows[k].id == id;
    assert Replaced(rows, at, row)[k].id == id;
  }

  /** A row leaves the list by a completed delete, an installed list, or a reset; and in no other way. */
  lemma RowLeaves(s: Session, e: Event, id: Id)
    requires UpdateKeepsId(s, e) && Lists(s.response, id) && !Lists(Apply(s, e).response, id)
    ensures e.ResetIdentity? || (e.Reply? && InstallsList(s, e, e.call)) || DeletesRow(s, e, id)
  {
    if Delivers(s, e) && s.calls[e.call].ToggleCall? && e.answer.Fetched? {
      ToggledRowStays(s.response.value, s.calls[e.call].id, e.answer.row, id);
    }
  }

  /** Over every run: a row that leaves otherwise than by a list or a reset was to be deleted. */
  lemma DeletedRowWasToBeDeleted(states: seq<Session>, events: seq<Event>, j: nat, id: Id) returns (i: nat)
    requires IsRun(states, events) && j < |events| && UpdateKeepsId(states[j], events[j])
    requires Lists(states[j].response, id) && !Lists(states[j + 1].response, id)
    requires !events[j].ResetIdentity? && !(events[j].Reply? && InstallsList(states[j], events[j], events[j].call))
    ensures i < j && events[i] == Mutate(Delete, id) && CanMutate(states[i], id)
    ensures states[i].identity == states[j].identity
  {
    assert states[j + 1] == Apply(states[j], events[j]);
    RowLeaves(states[j], events[j], id);
    i := ActionWasAskedFor(states, events, j, events[j].call);
  }

  // ----- which rows are marked -----

  function MarkOf(kind: Kind): Action {
    match kind
    case Toggle => Updating
    case Delete => Deleting
    case _ => Starting
  }

  /** The marks after a step: an action marks its row and frees it when it ends; nothing else does, but sharing
      and a reset. */
  function Marks(s: Session, e: Event): map<Id, Action> {
    if e.Mutate? && CanMutate(s, e.id) && !e.kind.Edit? then s.pending[e.id := MarkOf(e.kind)]
    else if FinishesAction(s, e) then s.pending - {s.calls[e.call].id}
    else if Delivers(s, e) && s.calls[e.call].ShareCall? then s.pending - {s.calls[e.call].id}
    else if Delivers(s, e) && s.calls[e.call].ShareQuestion? && e.answer.Done? && !s.disposed
    then s.pending[s.calls[e.call].id := Publishing]
    else if e.ResetIdentity? then map[]
    else s.pending
  }

  lemma ToggleMarks(s: Session, e: Event)
    requires Delivers(s, e) && s.calls[e.call].ToggleCall?
    ensures Apply(s, e).pending == Marks(s, e)
  {
  }

  lemma DeleteMarks(s: Session, e: Event)
    requires Delivers(s, e) && s.calls[e.call].DeleteCall?
    ensures Apply(s, e).pending == Marks(s, e)
  {
  }

  lemma ConfirmMarks(s: Session, e: Event)
    requires Delivers(s, e) && s.calls[e.call].ConfirmCall?
    ensures Apply(s, e).pending == Marks(s, e)
  {
  }

  lemma RunMarks(s: Session, e: Event)
    requires Delivers(s, e) && s.calls[e.call].RunCall?
    ensures Apply(s, e).pending == Marks(s, e)
  {
  }

  lemma OtherReplyMarks(s: Session, e: Event)
    requires Delivers(s, e) && !IsAction(s.calls[e.call])
    ensures Apply(s, e).pending == Marks(s, e)
  {
  }

  lemma EveryStepMarks(s: Session, e: Event)
    ensures Apply(s, e).pending == Marks(s, e)
  {
    if Delivers(s, e) {
      match s.calls[e.call]
      case ToggleCall(_, _) => ToggleMarks(s, e);
      case DeleteCall(_, _) => DeleteMarks(s, e);
      case ConfirmCall(_, _, _) => ConfirmMarks(s, e);
      case RunCall(_, _) => RunMarks(s, e);
      case _ => OtherReplyMarks(s, e);
    }
  }

  // ----- nothing is forgotten -----

  /** The call that a mark stands for. */
  predicate StandsFor(c: Call, id: Id, mark: Action, identity: nat) {
    match mark
    case Deleting => c == DeleteCall(id, identity)
    case Updating => c == ToggleCall(id, identity)
    case Starting => (c.ConfirmCall? || c.RunCall?) && c.id == id && c.identity == identity
    case Publishing => c == ShareCall(id)
  }

  ghost predicate MarkIsAwaited(s: Session, id: Id) {
    id in s.pending ==> exists k :: k in s.calls && StandsFor(s.calls[k], id, s.pending[id], s.identity)
  }

  ghost predicate NothingForgotten(s: Session) {
    && (forall id :: MarkIsAwaited(s, id))
    && (s.listRequest.Some? ==> s.listRequest.value in s.calls && s.calls[s.listRequest.value].ListCall?)
    && (forall k :: k in s.calls ==> k < s.nextCall)
  }

  lemma NewMarkIsAwaited(s: Session, e: Event, id: Id)
    requires id in Marks(s, e) && !(id in s.pending && s.pending[id] == Marks(s, e)[id])
    ensures MarkIsAwaited(Apply(s, e), id)
  {
    EveryStepSends(s, e);
    EveryStepMarks(s, e);
    EveryStepCounts(s, e);
    assert s.nextCall in Apply(s, e).calls;
  }

  lemma OldMarkIsAwaited(s: Session, e: Event, id: Id)
    requires NothingForgotten(s) && id in Marks(s, e) && id in s.pending && s.pending[id] == Marks(s, e)[id]
    ensures MarkIsAwaited(Apply(s, e), id)
  {
    EveryStepSends(s, e);
    EveryStepMarks(s, e);
    EveryStepCounts(s, e);
    assert MarkIsAwaited(s, id);
    var k :| k in s.calls && StandsFor(s.calls[k], id, s.pending[id], s.identity);
    if !(Delivers(s, e) && e.call == k) {
      assert k in Apply(s, e).calls;
    } else {
      assert s.nextCall in Apply(s, e).calls;
    }
  }

  lemma StepForgetsNothing(s: Session, e: Event)
    requires NothingForgotten(s)
    ensures NothingForgotten(Apply(s, e))
  {
    EveryStepMarks(s, e);
    forall id ensures MarkIsAwaited(Apply(s, e), id) {
      if id in Marks(s, e) {
        if id in s.pending && s.pending[id] == Marks(s, e)[id] {
          OldMarkIsAwaited(s, e, id);
        } else {
          NewMarkIsAwaited(s, e, id);
        }
      }
    }
    EveryStepSends(s, e);
    EveryStepGoesOnListing(s, e);
    ListRequestIsAwaited(s, e, Apply(s, e));
  }

  /** The list request under way after a step. */
  function Underway(s: Session, e: Event): Option<nat> {
    if Request(s, e).Some? && Request(s, e).value.ListCall? then Some(s.nextCall)
    else if e.ResetIdentity? then None
    else if Delivers(s, e) && s.calls[e.call].ListCall? && s.listRequest == Some(e.call) then None
    else s.listRequest
  }

  lemma RunGoesOnListing(s: Session, e: Event)
    requires Delivers(s, e) && s.calls[e.call].RunCall?
    ensures Apply(s, e).listRequest == Underway(s, e)
  {
    var s', c := Forgetting(s, e), s.calls[e.call];
    assert Apply(s, e) == RunReplied(s', c.id, c.identity, e.answer);
    if e.answer.Done? && c.identity == s.identity {
      var freed := Finished(ForgetDetail(s'.(loaded := false), c.id), c.id, c.identity);
      assert RunReplied(s', c.id, c.identity, e.answer) == Refreshed(freed);
      assert MayList(freed) <==> MayList(s.(pending := s.pending - {c.id}));
    }
  }

  lemma ActionGoesOnListing(s: Session, e: Event)
    requires Delivers(s, e) && IsAction(s.calls[e.call]) && !s.calls[e.call].RunCall?
    ensures Apply(s, e).listRequest == Underway(s, e)
  {
    match s.calls[e.call]
    case ToggleCall(_, _) =>
    case DeleteCall(_, _) =>
    case ConfirmCall(_, _, _) =>
  }

  lemma OtherReplyGoesOnListing(s: Session, e: Event)
    requires Delivers(s, e) && !IsAction(s.calls[e.call])
    ensures Apply(s, e).listRequest == Underway(s, e)
  {
  }

  lemma EveryStepGoesOnListing(s: Session, e: Event)
    ensures Apply(s, e).listRequest == Underway(s, e)
  {
    if Delivers(s, e) {
      if s.calls[e.call].RunCall? {
        RunGoesOnListing(s, e);
      } else if IsAction(s.calls[e.call]) {
        ActionGoesOnListing(s, e);
      } else {
        OtherReplyGoesOnListing(s, e);
      }
    }
  }

  lemma ListRequestIsAwaited(s: Session, e: Event, s': Session)
    requires NothingForgotten(s) && Sends(s, e, s') && s'.listRequest == Underway(s, e)
    ensures s'.listRequest.Some? ==> s'.listRequest.value in s'.calls && s'.calls[s'.listRequest.value].ListCall?
  {
  }

  lemma {:induction false} RunForgetsNothing(states: seq<Session>, events: seq<Event>, i: nat)
    requires IsRun(states, events) && i < |states|
    ensures NothingForgotten(states[i])
  {
    if i != 0 {
      RunForgetsNothing(states, events, i - 1);
      assert states[(i - 1) + 1] == Apply(states[i - 1], events[i - 1]);
      StepForgetsNothing(states[i - 1], events[i - 1]);
    }
  }

  /** Whatever happened: once every reply is in, no row is marked and the list can be asked for again. */
  lemma EveryMarkIsTakenBack(states: seq<Session>, events: seq<Event>, i: nat)
    requires IsRun(states, events) && i < |states| && states[i].calls == map[]
    ensures states[i].pending == map[] && states[i].listRequest.None?
  {
    RunForgetsNothing(states, events, i);
    forall id ensures id !in states[i].pending {
      assert MarkIsAwaited(states[i], id);
    }
  }

  // ----- when the cached rows are out of date -----

  /** A change of the tasks, or an action that may have changed them, makes the rows out of date. */
  predicate Outdates(s: Session, e: Event) {
    || e.StartFlow? || e.ResetIdentity? || (e.Mutate? && CanMutate(s, e.id) && e.kind.Edit?)
    || (Delivers(s, e) &&
        match s.calls[e.call]
        case ToggleCall(_, _) => !e.answer.Fetched?
        case DeleteCall(_, _) => !e.answer.Done?
        case ConfirmCall(_, _, _) => e.answer.Failed?
        case RunCall(_, _) => true
        case _ => false)
  }

  predicate Loads(s: Session, e: Event) { e.Reply? && InstallsList(s, e, e.call) }

  lemma ReplyOutdates(s: Session, e: Event)
    requires Delivers(s, e)
    ensures Apply(s, e).loaded <==> Loads(s, e) || (s.loaded && !Outdates(s, e))
  {
    match s.calls[e.call]
    case ListCall(_) =>
    case DetailCall(_, _, _, _) =>
    case ToggleCall(_, _) =>
    case DeleteCall(_, _) =>
    case ConfirmCall(_, _, _) =>
    case RunCall(_, _) =>
    case ShareQuestion(_) =>
    case ShareCall(_) =>
  }

  /** The rows are up to date exactly if a list was installed and nothing made them out of date since. */
  lemma EveryStepOutdates(s: Session, e: Event)
    ensures Apply(s, e).loaded <==> Loads(s, e) || (s.loaded && !Outdates(s, e))
  {
    if Delivers(s, e) {
      ReplyOutdates(s, e);
    }
  }
}
