/**
 Which requests the `/task` list sends: one table, step by step.
 */
module TaskRequests {
  import opened Options
  import opened TaskModel

  /** A list request may go out: none is under way, no row is marked, and the session lives. */
  predicate MayList(s: Session) { s.listRequest.None? && s.pending == map[] && !s.disposed }

  predicate IsDue(s: Session, due: bool) { s.response.None? || !s.loaded || due }

  predicate Delivers(s: Session, e: Event) { e.Reply? && e.call in s.calls }

  /** The one request a step sends, if any. */
  function Request(s: Session, e: Event): Option<Call> {
    match e
    case Refresh => if MayList(s) then Some(ListCall(s.revision)) else None
    case Open(due) => if MayList(s) && IsDue(s, due) then Some(ListCall(s.revision)) else None
    case Preview(due) => if MayList(s) && IsDue(s, due) then Some(ListCall(s.revision)) else None
    case Mutate(kind, id) =>
      if !CanMutate(s, id) then None
      else
        (match kind
         case Toggle => Some(ToggleCall(id, s.identity))
         case Delete => Some(DeleteCall(id, s.identity))
         case Run => Some(ConfirmCall(id, s.generation, s.identity))
         case Edit => None)
    case Share(id) => if CanMutate(s, id) then Some(ShareQuestion(id)) else None
    case ShowDetail(id) =>
      if id in s.pending then None else Some(DetailCall(id, s.generation, s.revision, s.detailRequest + 1))
    case Reply(call, answer, _) => if call in s.calls && answer.Done? then Followup(s, s.calls[call]) else None
    case _ => None
  }

  /** A confirmed run is sent and a confirmed share is published; after a run the list is asked for again. */
  function Followup(s: Session, c: Call): Option<Call> {
    match c
    case ConfirmCall(id, generation, identity) =>
      if !s.disposed && generation == s.generation then Some(RunCall(id, identity)) else None
    case ShareQuestion(id) => if !s.disposed then Some(ShareCall(id)) else None
    case RunCall(id, identity) =>
      if identity == s.identity && MayList(s.(pending := s.pending - {id}))
      then Some(ListCall(s.revision + 1)) else None
    case _ => None
  }

  /** `s'` awaits what `s` does, and `call`. */
  ghost predicate Awaits(s: Session, call: Option<Call>, s': Session) {
    match call
    case None => s'.calls == s.calls && s'.nextCall == s.nextCall
    case Some(c) => s'.calls == s.calls[s.nextCall := c] && s'.nextCall == s.nextCall + 1
  }

  function Forgetting(s: Session, e: Event): Session {
    if Delivers(s, e) then s.(calls := s.calls - {e.call}) else s
  }

  /** A step forgets the call it answers, keeps every other one, and awaits what it sends. */
  ghost predicate Sends(s: Session, e: Event, s': Session) { Awaits(Forgetting(s, e), Request(s, e), s') }

  lemma ConfirmSends(s: Session, c: Call, answer: Answer)
    requires c.ConfirmCall?
    ensures Awaits(s, if answer.Done? then Followup(s, c) else None, ConfirmReplied(s, c, answer))
  {
  }

  function Listing(s: Session, wanted: bool): Option<Call> {
    if wanted && MayList(s) then Some(ListCall(s.revision)) else None
  }

  lemma RefreshSends(s: Session)
    ensures Awaits(s, Listing(s, true), Refreshed(s))
  {
  }

  lemma RunSends(s: Session, c: Call, answer: Answer)
    requires c.RunCall?
    ensures Awaits(s, if answer.Done? then Followup(s, c) else None, RunReplied(s, c.id, c.identity, answer))
  {
    if answer.Done? && c.identity == s.identity {
      var freed := Finished(ForgetDetail(s.(loaded := false), c.id), c.id, c.identity);
      RefreshSends(freed);
      assert RunReplied(s, c.id, c.identity, answer) == Refreshed(freed);
      assert freed == s.(detail := freed.detail, loaded := false, revision := s.revision + 1,
                         pending := s.pending - {c.id});
      assert Listing(freed, true) == Followup(s, c);
    }
  }

  lemma ListSendsNothing(s: Session, call: nat, revision: nat, answer: Answer)
    ensures Awaits(s, None, ListReplied(s, call, revision, answer))
  {
  }

  lemma ActionSendsNothing(s: Session, id: Id, identity: nat, answer: Answer)
    ensures Awaits(s, None, ToggleReplied(s, id, identity, answer))
    ensures Awaits(s, None, DeleteReplied(s, id, identity, answer))
  {
  }

  lemma ReplySends(s: Session, e: Event)
    requires Delivers(s, e)
    ensures Sends(s, e, Apply(s, e))
  {
    var s', c := Forgetting(s, e), s.calls[e.call];
    assert Followup(s', c) == Followup(s, c);
    assert Apply(s, e) == Continued(s', e.call, c, e.answer, e.visible);
    match c
    case ConfirmCall(_, _, _) => ConfirmSends(s', c, e.answer);
    case RunCall(_, _) => RunSends(s', c, e.answer);
    case ListCall(revision) => ListSendsNothing(s', e.call, revision, e.answer);
    case ToggleCall(id, identity) => ActionSendsNothing(s', id, identity, e.answer);
    case DeleteCall(id, identity) => ActionSendsNothing(s', id, identity, e.answer);
    case DetailCall(_, _, _, _) =>
    case ShareQuestion(_) =>
    case ShareCall(_) =>
  }

  lemma DueSends(s: Session, due: bool)
    ensures Awaits(s, Listing(s, IsDue(s, due)), RefreshedIfDue(s, due))
  {
    RefreshSends(s);
  }

  lemma OpenSends(s: Session, due: bool)
    ensures Awaits(s, Listing(s, IsDue(s, due)), Opened(s, due))
  {
    var cleared := Invalidated(s).(loadError := false);
    DueSends(cleared, due);
    assert Listing(cleared, IsDue(cleared, due)) == Listing(s, IsDue(s, due));
  }

  lemma MutateSends(s: Session, kind: Kind, id: Id)
    ensures Awaits(s, Request(s, Mutate(kind, id)), Mutated(s, kind, id))
  {
  }

  lemma EveryStepSends(s: Session, e: Event)
    ensures Sends(s, e, Apply(s, e))
  {
    match e
    case Refresh => RefreshSends(s);
    case Open(due) => OpenSends(s, due);
    case Preview(due) => DueSends(s, due);
    case Mutate(kind, id) => MutateSends(s, kind, id);
    case Reply(_, _, _) =>
      if Delivers(s, e) {
        ReplySends(s, e);
      }
    case _ =>
  }

  lemma CallIsKeptOrSent(s: Session, e: Event, k: nat)
    requires k in Apply(s, e).calls
    ensures || (k in s.calls && Apply(s, e).calls[k] == s.calls[k])
            || (k == s.nextCall && k < Apply(s, e).nextCall && Request(s, e) == Some(Apply(s, e).calls[k]))
  {
    EveryStepSends(s, e);
  }
}
