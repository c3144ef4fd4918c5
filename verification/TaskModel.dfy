/**
 The `/task` list as a step system. Every asynchronous request is a call that waits, with the
 counters it captured, until its reply is delivered; replies may be delayed without bound and
 come in any order. Each event is one stretch of code between two awaits.
 */
module TaskModel {
  import opened Options
  import opened Sublists

  type Id = string

  datatype Row = Row(id: Id, content: string)

  datatype Action = Deleting | Updating | Starting | Publishing

  datatype View = Tasks | Runs

  datatype Call =
    | ListCall(revision: nat)
    | DetailCall(id: Id, generation: nat, revision: nat, request: nat)
    | ToggleCall(id: Id, identity: nat)
    | DeleteCall(id: Id, identity: nat)
    | ConfirmCall(id: Id, generation: nat, identity: nat)
    | RunCall(id: Id, identity: nat)
    | ShareQuestion(id: Id)
    | ShareCall(id: Id)

  /** `loaded` is false when the cached rows are known to be out of date. */
  datatype Session = Session(
    response: Option<seq<Row>>, revision: nat, identity: nat, generation: nat, detailRequest: nat,
    pending: map<Id, Action>, listRequest: Option<nat>, view: View, runTask: Option<Id>, detail: Option<Row>,
    loadError: bool, loaded: bool, disposed: bool, calls: map<nat, Call>, nextCall: nat)

  datatype Answer = Failed | Listed(rows: seq<Row>) | Fetched(row: Row) | Done | Declined

  datatype Kind = Toggle | Run | Delete | Edit

  datatype Event =
    | Refresh
    | Open(due: bool)
    | Preview(due: bool)
    | Mutate(kind: Kind, id: Id)
    | Share(id: Id)
    | ShowDetail(id: Id)
    | KeyUpdate
    | LeaveRuns
    | Invalidate
    | StartFlow
    | ResetIdentity
    | Dispose
    | Reply(call: nat, answer: Answer, visible: bool)

  const INITIAL := Session(None, 0, 0, 0, 0, map[], None, Tasks, None, None, false, false, false, map[], 0)

  function Find(rows: seq<Row>, id: Id): (found: bool)
    ensures found <==> exists row <- rows :: row.id == id
  {
    rows != [] && (rows[0].id == id || Find(rows[1..], id))
  }

  predicate Lists(response: Option<seq<Row>>, id: Id) { response.Some? && Find(response.value, id) }

  function Other(id: Id): Row -> bool { (row: Row) => row.id != id }

  function Without(rows: seq<Row>, id: Id): (kept: seq<Row>)
    ensures !Find(kept, id)
    ensures forall other :: other != id ==> (Find(kept, other) <==> Find(rows, other))
  {
    Kept(rows, Other(id))
  }

  function Replaced(rows: seq<Row>, id: Id, row: Row): (r: seq<Row>)
    ensures |r| == |rows|
    ensures forall k :: 0 <= k < |r| ==> r[k] == if rows[k].id == id then row else rows[k]
  {
    seq(|rows|, k requires 0 <= k < |rows| => if rows[k].id == id then row else rows[k])
  }

  /** No counter goes back. */
  predicate Follows(s: Session, s': Session) {
    && s.revision <= s'.revision && s.nextCall <= s'.nextCall && s.identity == s'.identity
    && s.detailRequest <= s'.detailRequest && s.generation <= s'.generation
  }

  function Await(s: Session, call: Call): Session {
    s.(calls := s.calls[s.nextCall := call], nextCall := s.nextCall + 1)
  }

  // ----- events that start something -----

  /** One list request at a time, and none while an action is in flight. */
  function Refreshed(s: Session): (s': Session)
    ensures Follows(s, s') && s'.response == s.response
  {
    if s.listRequest.Some? || s.pending != map[] || s.disposed then s
    else Await(s, ListCall(s.revision)).(listRequest := Some(s.nextCall), loadError := false)
  }

  function Invalidated(s: Session): (s': Session)
    ensures Follows(s, s') && s'.response == s.response
  {
    s.(generation := s.generation + 1, detailRequest := s.detailRequest + 1, view := Tasks, runTask := None)
  }

  function RefreshedIfDue(s: Session, due: bool): (s': Session)
    ensures Follows(s, s') && s'.response == s.response
  {
    if s.response.None? || !s.loaded || due then Refreshed(s) else s
  }

  function Opened(s: Session, due: bool): (s': Session)
    ensures Follows(s, s') && s'.response == s.response
  {
    if s.disposed then s else RefreshedIfDue(Invalidated(s).(loadError := false), due)
  }

  function FlowStarted(s: Session): (s': Session)
    ensures Follows(s, s') && s'.response == s.response
  {
    s.(loaded := false, revision := s.revision + 1)
  }

  predicate CanMutate(s: Session, id: Id) { Lists(s.response, id) && id !in s.pending }

  function Started(s: Session, id: Id, action: Action, call: Call): Session {
    Await(s.(pending := s.pending[id := action], revision := s.revision + 1, detailRequest := s.detailRequest + 1),
        call)
  }

  function Mutated(s: Session, kind: Kind, id: Id): (s': Session)
    ensures Follows(s, s') && s'.response == s.response
  {
    if !CanMutate(s, id) then s
    else
      match kind
      case Edit => FlowStarted(Invalidated(s))
      case Toggle => Started(s, id, Updating, ToggleCall(id, s.identity))
      case Delete => Started(s, id, Deleting, DeleteCall(id, s.identity))
      case Run => Started(s, id, Starting, ConfirmCall(id, s.generation, s.identity))
  }

  function DetailAsked(s: Session, id: Id): (s': Session)
    ensures Follows(s, s') && s'.response == s.response
  {
    if id in s.pending then s
    else Await(s.(detailRequest := s.detailRequest + 1), DetailCall(id, s.generation, s.revision, s.detailRequest + 1))
  }

  function IdentityReset(s: Session): (s': Session)
    ensures s'.revision == s.revision + 1 && s'.calls == s.calls && s'.nextCall == s.nextCall
    ensures s.detailRequest < s'.detailRequest && s.generation < s'.generation
  {
    Invalidated(s).(identity := s.identity + 1, revision := s.revision + 1, response := None, detail := None,
                    loaded := false, pending := map[], listRequest := None)
  }

  // ----- replies -----

  /** What every action does last: nothing for an identity that is gone. */
  function Finished(s: Session, id: Id, identity: nat): (s': Session)
    ensures s'.nextCall == s.nextCall && (identity == s.identity ==> s.revision < s'.revision)
    ensures Follows(s, s') && s'.response == s.response
  {
    if identity != s.identity then s else s.(revision := s.revision + 1, pending := s.pending - {id})
  }

  function ForgetDetail(s: Session, id: Id): (s': Session)
    ensures Follows(s, s') && s'.response == s.response
  {
    if s.detail.Some? && s.detail.value.id == id then s.(detail := None) else s
  }

  function Installed(s: Session, rows: seq<Row>): (s': Session)
    ensures Follows(s, s')
  {
    var installed := s.(response := Some(rows), loaded := true);
    if s.runTask.Some? && !Find(rows, s.runTask.value) then installed.(view := Tasks, runTask := None, detail := None)
    else if s.view.Tasks? then installed.(detail := None)
    else installed
  }

  /** The rows of a list reply replace the cache unless the fence has moved. */
  function ListReplied(s: Session, call: nat, revision: nat, answer: Answer): (s': Session)
    ensures Follows(s, s')
  {
    var current := !s.disposed && revision == s.revision;
    var read := if !current then s else if answer.Listed? then Installed(s, answer.rows) else s.(loadError := true);
    read.(listRequest := if s.listRequest == Some(call) then None else s.listRequest)
  }

  function DetailReplied(s: Session, c: Call, answer: Answer, visible: bool): (s': Session)
    requires c.DetailCall?
    ensures Follows(s, s') && s'.response == s.response
  {
    if answer.Fetched? && !s.disposed && visible && c.generation == s.generation && c.request == s.detailRequest
       && c.revision == s.revision
    then s.(detail := Some(answer.row), runTask := Some(c.id), view := Runs)
    else s
  }

  function ToggleReplied(s: Session, id: Id, identity: nat, answer: Answer): (s': Session)
    ensures Follows(s, s')
  {
    if !answer.Fetched? then Finished(s.(loaded := false), id, identity)
    else if identity != s.identity then s
    else
      var response := if s.response.Some? then Some(Replaced(s.response.value, id, answer.row)) else None;
      Finished(ForgetDetail(s.(response := response), id), id, identity)
  }

  function DeleteReplied(s: Session, id: Id, identity: nat, answer: Answer): (s': Session)
    ensures Follows(s, s')
  {
    if !answer.Done? then Finished(s.(loaded := false), id, identity)
    else if identity != s.identity then s
    else
      var response := if s.response.Some? then Some(Without(s.response.value, id)) else None;
      Finished(ForgetDetail(s.(response := response), id), id, identity)
  }

  function ConfirmReplied(s: Session, c: Call, answer: Answer): (s': Session)
    requires c.ConfirmCall?
    ensures Follows(s, s') && s'.response == s.response
  {
    if answer.Failed? then Finished(s.(loaded := false), c.id, c.identity)
    else if !answer.Done? || s.disposed || c.generation != s.generation then Finished(s, c.id, c.identity)
    else Await(s, RunCall(c.id, c.identity))
  }

  function RunReplied(s: Session, id: Id, identity: nat, answer: Answer): (s': Session)
    ensures Follows(s, s') && s'.response == s.response
  {
    var known := s.(loaded := false);
    if !answer.Done? then Finished(known, id, identity)
    else if identity != s.identity then ForgetDetail(known, id)
    else Refreshed(Finished(ForgetDetail(known, id), id, identity))
  }

  function QuestionReplied(s: Session, id: Id, answer: Answer): Session {
    if answer.Done? && !s.disposed then Await(s.(pending := s.pending[id := Publishing]), ShareCall(id)) else s
  }

  /** What a call does once it is resumed, in a session that no longer waits for it. */
  function Continued(s: Session, call: nat, resumed: Call, answer: Answer, visible: bool): Session {
    match resumed
    case ListCall(revision) => ListReplied(s, call, revision, answer)
    case DetailCall(_, _, _, _) => DetailReplied(s, resumed, answer, visible)
    case ToggleCall(id, identity) => ToggleReplied(s, id, identity, answer)
    case DeleteCall(id, identity) => DeleteReplied(s, id, identity, answer)
    case ConfirmCall(_, _, _) => ConfirmReplied(s, resumed, answer)
    case RunCall(id, identity) => RunReplied(s, id, identity, answer)
    case ShareQuestion(id) => QuestionReplied(s, id, answer)
    case ShareCall(id) => s.(pending := s.pending - {id})
  }

  function Replied(s: Session, call: nat, answer: Answer, visible: bool): (s': Session)
    ensures Follows(s, s')
  {
    if call in s.calls then Continued(s.(calls := s.calls - {call}), call, s.calls[call], answer, visible) else s
  }

  function Apply(s: Session, e: Event): Session {
    match e
    case Refresh => Refreshed(s)
    case Open(due) => Opened(s, due)
    case Preview(due) => RefreshedIfDue(s, due)
    case Mutate(kind, id) => Mutated(s, kind, id)
    case Share(id) => if CanMutate(s, id) then Await(s, ShareQuestion(id)) else s
    case ShowDetail(id) => DetailAsked(s, id)
    case KeyUpdate => s.(detailRequest := s.detailRequest + 1)
    case LeaveRuns => s.(detailRequest := s.detailRequest + 1, view := Tasks, runTask := None)
    case Invalidate => Invalidated(s)
    case StartFlow => FlowStarted(s)
    case ResetIdentity => IdentityReset(s)
    case Dispose => Invalidated(s.(disposed := true))
    case Reply(call, answer, visible) => Replied(s, call, answer, visible)
  }
}
