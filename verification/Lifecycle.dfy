/** Assignments of approved revisions: an append-only journal per assignment, optimistic versions, displayed actions. */
module Lifecycle {
  import opened Common
  import opened Rows
  import D = Drafts
  import R = DraftRuns

  type Id = string

  datatype State = Assigned | Active | Paused | Revoked

  datatype Action = Activate | Pause | Revoke

  datatype Kind = AssignedEvent | ActivatedEvent | PausedEvent | RevokedEvent | RevisionSelected

  datatype Direction = Update | Rollback

  datatype Assignment = Assignment(id: Id, agent: Id, draft: Id)

  datatype Event = Event(
    assignment: Id,
    number: nat,
    kind: Kind,
    state: State,
    revision: Id,
    digest: string,
    direction: Option<Direction>)

  /** The agents map holds every agent of the workspace and whether it is active. */
  datatype Store = Store(drafts: D.Store, agents: map<Id, bool>, assignments: seq<Assignment>, events: seq<Event>)

  const EMPTY: Store := Store(D.EMPTY, map[], [], [])

  datatype Op =
    | OnDrafts(op: D.Op)
    | SetAgent(agent: Id, active: bool)
    | Assign(role: D.Role, id: Id, agent: Id, revision: Id)
    | Act(role: D.Role, id: Id, action: Action, ifVersion: Option<int>)
    | Select(role: D.Role, id: Id, revision: Id, ifVersion: Option<int>)

  datatype AssignCode = AgentNotInFleet | AgentNotActive | RevisionNotApproved | AlreadyAssigned | Assignable

  datatype Refusal =
    | Forbidden | NotFound | ConstraintFailed
    | StaleVersion(current: State)
    | IllegalTransition(current: State)
    | NotApproved(current: State)
    | NotAssignable(code: AssignCode)
    | DraftRefused(why: D.Refusal)

  /** Unchanged is the convergent answer: the command asked for what is already so, and nothing was written. */
  datatype Answer = Written | Unchanged | Refused(why: Refusal)

  // ------------------------------------------------------------ the table

  predicate Legal(from: State, to: State) {
    match from
    case Assigned => to == Active || to == Paused || to == Revoked
    case Active => to == Paused || to == Revoked
    case Paused => to == Active || to == Revoked
    case Revoked => false
  }

  function TargetOf(action: Action): State {
    match action
    case Activate => Active
    case Pause => Paused
    case Revoke => Revoked
  }

  function EventOf(action: Action): Kind {
    match action
    case Activate => ActivatedEvent
    case Pause => PausedEvent
    case Revoke => RevokedEvent
  }

  // ------------------------------------------------------------ queries

  function EventsOf(events: seq<Event>, id: Id): seq<Event> {
    Filter(events, (e: Event) => e.assignment == id)
  }

  /** SELECT … WHERE assignment_id=? ORDER BY event_seq: insertion order, which the invariant makes sequence order. */
  function Journal(s: Store, id: Id): seq<Event> {
    EventsOf(s.events, id)
  }

  function Desired(s: Store, id: Id): Event
    requires Journal(s, id) != []
  {
    Journal(s, id)[|Journal(s, id)| - 1]
  }

  function Find(assignments: seq<Assignment>, id: Id): Option<Assignment> {
    if assignments == [] then None
    else if assignments[0].id == id then Some(assignments[0])
    else Find(assignments[1..], id)
  }

  function FindApproval(approvals: seq<D.Approval>, revision: Id): Option<D.Approval> {
    if approvals == [] then None
    else if approvals[0].revision == revision then Some(approvals[0])
    else FindApproval(approvals[1..], revision)
  }

  predicate Standing(s: Store, id: Id) {
    Journal(s, id) != [] && Desired(s, id).state != Revoked
  }

  /** Some assignment of this lineage at this agent has not been revoked. */
  predicate LiveAt(s: Store, agent: Id, draft: Id) {
    exists i :: 0 <= i < |s.assignments|
      && s.assignments[i].agent == agent && s.assignments[i].draft == draft && Standing(s, s.assignments[i].id)
  }

  function EligibilityOf(s: Store, agent: Id, revision: Id): AssignCode {
    var approval := FindApproval(s.drafts.approvals, revision);
    if agent !in s.agents then AgentNotInFleet
    else if !s.agents[agent] then AgentNotActive
    else if approval.None? then RevisionNotApproved
    else if LiveAt(s, agent, approval.value.draft) then AlreadyAssigned
    else Assignable
  }

  function RevisionNumberOf(approved: seq<D.Approval>, revision: Id): nat {
    var a := FindApproval(approved, revision);
    if a.Some? then a.value.number else 0
  }

  // ------------------------------------------------------------ what is displayed

  datatype Actions = Actions(activate: bool, pause: bool, revoke: bool, select: bool)

  function Offered(from: State, action: Action): bool {
    from == TargetOf(action) || Legal(from, TargetOf(action))
  }

  function ActionsOf(s: Store, a: Assignment): Actions
    requires Journal(s, a.id) != []
  {
    var state := Desired(s, a.id).state;
    Actions(Offered(state, Activate), Offered(state, Pause), Offered(state, Revoke),
            state != Revoked && |D.ApprovalsOf(s.drafts, a.draft)| > 1)
  }

  // ------------------------------------------------------------ answers

  predicate VersionHolds(expected: Option<int>, head: Event) {
    expected.None? || expected.value == head.number
  }

  function AnswerAct(s: Store, op: Op): Answer
    requires op.Act?
  {
    if !D.Decides(op.role) then Refused(Forbidden)
    else if Find(s.assignments, op.id).None? || Journal(s, op.id) == [] then Refused(NotFound)
    else
      var head := Desired(s, op.id);
      if !VersionHolds(op.ifVersion, head) then Refused(StaleVersion(head.state))
      else if head.state == TargetOf(op.action) then Unchanged
      else if !Legal(head.state, TargetOf(op.action)) then Refused(IllegalTransition(head.state))
      else Written
  }

  function AnswerSelect(s: Store, op: Op): Answer
    requires op.Select?
  {
    var a := Find(s.assignments, op.id);
    if !D.Decides(op.role) then Refused(Forbidden)
    else if a.None? || Journal(s, op.id) == [] then Refused(NotFound)
    else
      var head := Desired(s, op.id);
      if !VersionHolds(op.ifVersion, head) then Refused(StaleVersion(head.state))
      else if head.state == Revoked then Refused(IllegalTransition(Revoked))
      else if FindApproval(D.ApprovalsOf(s.drafts, a.value.draft), op.revision).None? then
        Refused(NotApproved(head.state))
      else if op.revision == head.revision then Unchanged
      else Written
  }

  function AnswerOf(s: Store, op: Op): Answer {
    match op
    case OnDrafts(d) =>
      var refusal := D.RefusalOf(s.drafts, d);
      if refusal.Some? then Refused(DraftRefused(refusal.value)) else Written
    case SetAgent(_, _) => Written
    case Assign(role, id, agent, revision) =>
      if !D.Decides(role) then Refused(Forbidden)
      else if EligibilityOf(s, agent, revision) != Assignable then
        Refused(NotAssignable(EligibilityOf(s, agent, revision)))
      else if Find(s.assignments, id).Some? then Refused(ConstraintFailed)
      else Written
    case Act(_, _, _, _) => AnswerAct(s, op)
    case Select(_, _, _, _) => AnswerSelect(s, op)
  }

  // ------------------------------------------------------------ transitions

  /** The one event a written command appends. */
  function NewEvent(s: Store, op: Op): Event
    requires (op.Assign? || op.Act? || op.Select?) && AnswerOf(s, op) == Written
  {
    match op
    case Assign(_, id, _, revision) =>
      Event(id, 1, AssignedEvent, Assigned, revision, FindApproval(s.drafts.approvals, revision).value.digest, None)
    case Act(_, id, action, _) =>
      var head := Desired(s, id);
      Event(id, head.number + 1, EventOf(action), TargetOf(action), head.revision, head.digest, None)
    case Select(_, id, revision, _) =>
      var head := Desired(s, id);
      var approved := D.ApprovalsOf(s.drafts, Find(s.assignments, id).value.draft);
      var target := FindApproval(approved, revision).value;
      Event(id, head.number + 1, RevisionSelected, head.state, revision, target.digest,
            Some(if target.number < RevisionNumberOf(approved, head.revision) then Rollback else Update))
  }

  function Next(s: Store, op: Op): Store {
    if AnswerOf(s, op) != Written then s
    else match op
      case OnDrafts(d) => s.(drafts := D.Next(s.drafts, d))
      case SetAgent(agent, active) => s.(agents := s.agents[agent := active])
      case Assign(_, id, agent, revision) =>
        var draft := FindApproval(s.drafts.approvals, revision).value.draft;
        s.(assignments := s.assignments + [Assignment(id, agent, draft)],
           events := s.events + [NewEvent(s, op)])
      case _ => s.(events := s.events + [NewEvent(s, op)])
  }

  function Run(s: Store, ops: seq<Op>): Store {
    if ops == [] then s else Next(Run(s, ops[..|ops| - 1]), ops[|ops| - 1])
  }

  // ------------------------------------------------------------ what every run keeps

  function KindFor(state: State): Kind {
    match state
    case Assigned => AssignedEvent
    case Active => ActivatedEvent
    case Paused => PausedEvent
    case Revoked => RevokedEvent
  }

  /**
   * A step obeys the table and keeps the revision, or keeps the state and changes the revision. Nothing follows
   * revoked.
   */
  predicate StepOk(before: Event, e: Event) {
    if e.kind == RevisionSelected then
      e.state == before.state && before.state != Revoked && e.revision != before.revision && e.direction.Some?
    else
      && Legal(before.state, e.state) && e.kind == KindFor(e.state)
      && e.revision == before.revision && e.digest == before.digest && e.direction.None?
  }

  predicate EventAt(j: seq<Event>, k: nat)
    requires k < |j|
  {
    && j[k].number == k + 1
    && if k == 0 then j[k].kind == AssignedEvent && j[k].state == Assigned && j[k].direction.None?
       else StepOk(j[k - 1], j[k])
  }

  ghost predicate JournalOk(j: seq<Event>) {
    forall k :: 0 <= k < |j| ==> EventAt(j, k)
  }

  /** The desired revision and digest are one approval of the lineage. */
  ghost predicate IsApproved(approved: seq<D.Approval>, e: Event) {
    var a := FindApproval(approved, e.revision);
    a.Some? && a.value.digest == e.digest
  }

  /** A selection is a rollback exactly when it goes to a lower revision number. */
  ghost predicate DirectionOk(approved: seq<D.Approval>, before: Event, e: Event) {
    e.direction.Some? ==>
      (e.direction.value == Rollback <==>
         RevisionNumberOf(approved, e.revision) < RevisionNumberOf(approved, before.revision))
  }

  ghost predicate BackedBy(approved: seq<D.Approval>, j: seq<Event>) {
    && (forall k :: 0 <= k < |j| ==> IsApproved(approved, j[k]))
    && (forall k :: 0 < k < |j| ==> DirectionOk(approved, j[k - 1], j[k]))
  }

  ghost predicate AssignmentOk(s: Store, a: Assignment) {
    && Journal(s, a.id) != []
    && JournalOk(Journal(s, a.id))
    && BackedBy(D.ApprovalsOf(s.drafts, a.draft), Journal(s, a.id))
  }

  ghost predicate TablesOk(s: Store) {
    && (forall i, j :: 0 <= i < j < |s.assignments| ==> s.assignments[i].id != s.assignments[j].id)
    && (forall i :: 0 <= i < |s.events| ==> Find(s.assignments, s.events[i].assignment).Some?)
  }

  /** At most one assignment of a lineage stands at an agent. */
  ghost predicate OneStands(s: Store) {
    forall i, j :: 0 <= i < j < |s.assignments|
      && s.assignments[i].agent == s.assignments[j].agent && s.assignments[i].draft == s.assignments[j].draft
      ==> !Standing(s, s.assignments[i].id) || !Standing(s, s.assignments[j].id)
  }

  ghost predicate Inv(s: Store) {
    && D.Inv(s.drafts)
    && TablesOk(s)
    && (forall i :: 0 <= i < |s.assignments| ==> AssignmentOk(s, s.assignments[i]))
    && OneStands(s)
  }
}
