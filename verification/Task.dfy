/**
 The `/task` session object. Each method is one stretch of an asynchronous function between two
 awaits; `calls` holds the continuations the runtime has yet to resume.
 */
module Task {
  import opened Options
  import opened TaskModel

  lemma ReplyContinues(s: Session, call: nat, answer: Answer, visible: bool)
    requires call in s.calls
    ensures Apply(s, Reply(call, answer, visible))
            == Continued(s.(calls := s.calls - {call}), call, s.calls[call], answer, visible)
  {
  }

  class TaskSession {
    var response: Option<seq<Row>>
    var revision: nat
    var identityGeneration: nat
    var generation: nat
    var detailRequest: nat
    var pending: map<Id, Action>
    var listRequest: Option<nat>
    var view: View
    var runTaskId: Option<Id>
    var detail: Option<Row>
    var loadError: bool
    var loaded: bool
    var disposed: bool
    var calls: map<nat, Call>
    var nextCall: nat

    function State(): Session
      reads this
    {
      Session(response, revision, identityGeneration, generation, detailRequest, pending, listRequest, view, runTaskId,
              detail,
              loadError, loaded, disposed, calls, nextCall)
    }

    constructor ()
      ensures State() == INITIAL
    {
      response, revision, identityGeneration, generation, detailRequest := None, 0, 0, 0, 0;
      pending, listRequest, view, runTaskId, detail := map[], None, Tasks, None, None;
      loadError, loaded, disposed, calls, nextCall := false, false, false, map[], 0;
    }

    method Send(call: Call)
      modifies this`calls, this`nextCall
      ensures State() == Await(old(State()), call)
    {
      calls, nextCall := calls[nextCall := call], nextCall + 1;
    }

    method Refresh()
      modifies this
      ensures State() == Apply(old(State()), Event.Refresh)
    {
      if listRequest.Some? || pending != map[] || disposed {
        return;
      }
      loadError := false;
      var request := nextCall;
      Send(ListCall(revision));
      listRequest := Some(request);
    }

    method Invalidate()
      modifies this
      ensures State() == Apply(old(State()), Event.Invalidate)
    {
      generation, detailRequest := generation + 1, detailRequest + 1;
      view, runTaskId := Tasks, None;
    }

    method Open(due: bool)
      modifies this
      ensures State() == Apply(old(State()), Event.Open(due))
    {
      if disposed {
        return;
      }
      Invalidate();
      loadError := false;
      if response.None? || !loaded || due {
        Refresh();
      }
    }

    method Preview(due: bool)
      modifies this
      ensures State() == Apply(old(State()), Event.Preview(due))
    {
      if response.None? || !loaded || due {
        Refresh();
      }
    }

    /** Every new flow drops the cache's freshness and moves the fence. */
    method StartFlow()
      modifies this
      ensures State() == Apply(old(State()), Event.StartFlow)
    {
      loaded := false;
      revision := revision + 1;
    }

    method Mutate(kind: Kind, id: Id)
      modifies this
      ensures State() == Apply(old(State()), Event.Mutate(kind, id))
    {
      if response.None? || !Find(response.value, id) || id in pending {
        return;
      }
      if kind.Edit? {
        Invalidate();
        StartFlow();
        return;
      }
      pending := pending[id := match kind case Toggle => Updating case Delete => Deleting case _ => Starting];
      revision, detailRequest := revision + 1, detailRequest + 1;
      Send(match kind
           case Toggle => ToggleCall(id, identityGeneration)
           case Delete => DeleteCall(id, identityGeneration)
           case _ => ConfirmCall(id, generation, identityGeneration));
    }

    method Share(id: Id)
      modifies this
      ensures State() == Apply(old(State()), Event.Share(id))
    {
      if response.None? || !Find(response.value, id) || id in pending {
        return;
      }
      Send(ShareQuestion(id));
    }

    method ShowDetail(id: Id)
      modifies this
      ensures State() == Apply(old(State()), Event.ShowDetail(id))
    {
      if id in pending {
        return;
      }
      detailRequest := detailRequest + 1;
      Send(DetailCall(id, generation, revision, detailRequest));
    }

    method ResetIdentity()
      modifies this
      ensures State() == Apply(old(State()), Event.ResetIdentity)
    {
      Invalidate();
      identityGeneration, revision := identityGeneration + 1, revision + 1;
      response, detail, view, runTaskId := None, None, Tasks, None;
      loaded, pending, listRequest := false, map[], None;
    }

    method Dispose()
      modifies this
      ensures State() == Apply(old(State()), Event.Dispose)
    {
      disposed := true;
      Invalidate();
    }

    // ----- what runs when a reply arrives -----

    method FinishAction(id: Id, identity: nat)
      modifies this
      ensures State() == Finished(old(State()), id, identity)
    {
      if identity != identityGeneration {
        return;
      }
      revision := revision + 1;
      pending := pending - {id};
    }

    method DropDetail(id: Id)
      modifies this`detail
      ensures State() == ForgetDetail(old(State()), id)
    {
      if detail.Some? && detail.value.id == id {
        detail := None;
      }
    }

    /** New rows take over the cache; a run browser whose task is gone falls back to the list. */
    method Install(rows: seq<Row>)
      modifies this
      ensures State() == Installed(old(State()), rows)
    {
      response, loaded := Some(rows), true;
      if runTaskId.Some? && !Find(rows, runTaskId.value) {
        view, runTaskId, detail := Tasks, None, None;
      } else if view.Tasks? {
        detail := None;
      }
    }

    method FinishList(request: nat, sentAt: nat, answer: Answer)
      modifies this
      ensures State() == ListReplied(old(State()), request, sentAt, answer)
    {
      if !disposed && sentAt == revision {
        if answer.Listed? {
          Install(answer.rows);
        } else {
          loadError := true;
        }
      }
      if listRequest == Some(request) {
        listRequest := None;
      }
    }

    method FinishDetail(call: Call, answer: Answer, visible: bool)
      requires call.DetailCall?
      modifies this
      ensures State() == DetailReplied(old(State()), call, answer, visible)
    {
      var current := !disposed && visible && call.generation == generation && call.request == detailRequest
                     && call.revision == revision;
      if answer.Fetched? && current {
        detail, runTaskId, view := Some(answer.row), Some(call.id), Runs;
      }
    }

    method FinishToggle(id: Id, identity: nat, answer: Answer)
      modifies this
      ensures State() == ToggleReplied(old(State()), id, identity, answer)
    {
      if answer.Fetched? {
        if identity != identityGeneration {
          return;
        }
        if response.Some? {
          response := Some(Replaced(response.value, id, answer.row));
        }
        DropDetail(id);
      } else {
        loaded := false;
      }
      FinishAction(id, identity);
    }

    method FinishDelete(id: Id, identity: nat, answer: Answer)
      modifies this
      ensures State() == DeleteReplied(old(State()), id, identity, answer)
    {
      if answer.Done? {
        if identity != identityGeneration {
          return;
        }
        if response.Some? {
          response := Some(Without(response.value, id));
        }
        DropDetail(id);
      } else {
        loaded := false;
      }
      FinishAction(id, identity);
    }

    method FinishConfirm(call: Call, answer: Answer)
      requires call.ConfirmCall?
      modifies this
      ensures State() == ConfirmReplied(old(State()), call, answer)
    {
      if answer.Done? && !disposed && call.generation == generation {
        Send(RunCall(call.id, call.identity));
        return;
      }
      if answer.Failed? {
        loaded := false;
      }
      FinishAction(call.id, call.identity);
    }

    method FinishRun(id: Id, identity: nat, answer: Answer)
      modifies this
      ensures State() == RunReplied(old(State()), id, identity, answer)
    {
      loaded := false;
      if answer.Done? {
        DropDetail(id);
      }
      FinishAction(id, identity);
      if answer.Done? && identity == identityGeneration {
        Refresh();
      }
    }

    method FinishQuestion(id: Id, answer: Answer)
      modifies this
      ensures State() == QuestionReplied(old(State()), id, answer)
    {
      if answer.Done? && !disposed {
        pending := pending[id := Publishing];
        Send(ShareCall(id));
      }
    }

    /** The runtime resumes one continuation. */
    method Resume(call: nat, answer: Answer, visible: bool)
      modifies this
      ensures State() == Apply(old(State()), Reply(call, answer, visible))
    {
      if call !in calls {
        return;
      }
      var resumed := calls[call];
      ReplyContinues(State(), call, answer, visible);
      calls := calls - {call};
      Continue(call, resumed, answer, visible);
    }

    method Continue(call: nat, resumed: Call, answer: Answer, visible: bool)
      modifies this
      ensures State() == Continued(old(State()), call, resumed, answer, visible)
    {
      match resumed
      case ListCall(sentAt) => FinishList(call, sentAt, answer);
      case DetailCall(_, _, _, _) => FinishDetail(resumed, answer, visible);
      case ToggleCall(id, identity) => FinishToggle(id, identity, answer);
      case DeleteCall(id, identity) => FinishDelete(id, identity, answer);
      case ConfirmCall(_, _, _) => FinishConfirm(resumed, answer);
      case RunCall(id, identity) => FinishRun(id, identity, answer);
      case ShareQuestion(id) => FinishQuestion(id, answer);
      case ShareCall(id) => pending := pending - {id};
    }
  }
}
