/** The delivery queue: guarded updates on request rows, the sweeper, the human release and endpoint health. */
module Delivery {
  import opened Common
  import opened Lex
  import opened Rows

  type Id = string
  type Clock = t: int | 0 < t witness 1

  const LEASE_MS: int := 10_000
  const MAX_ATTEMPTS: nat := 5
  const MAX_BACKOFF_MS: int := 60_000
  const AGE_OUT_MS: int := 600_000

  datatype State = Pending | Leased | Pushed | DeadLetter | ApprovalPending

  datatype Reason = MaxAttempts | StaleLease | EndpointDead | ApprovalDenied | EndpointMissing

  datatype Row = Row(
    id: Id,
    version: Id,
    adopter: Id,
    state: State,
    reason: Option<Reason>,
    owner: Option<Id>,
    expires: Option<int>,
    attempts: nat,
    nextAttempt: int,
    webhook: Option<Id>,
    created: int)

  datatype Decision = Approved | Denied

  datatype Approval = Approval(version: Id, decision: Decision)

  datatype Health = Active | Failing | Dead

  datatype Hook = Hook(id: Id, agent: Id, health: Health, failures: nat, updated: int)

  /** Requests by id, endpoints in registration order, and the one decision a request may carry. */
  datatype Db = Db(rows: map<Id, Row>, hooks: seq<Hook>, approvals: map<Id, Approval>)

  const EMPTY: Db := Db(map[], [], map[])

  /** One call, with the instant it is made at; a deletion happens at one too, though it records none. */
  datatype Op =
    | Enqueue(id: Id, version: Id, adopter: Id, held: bool, now: Clock)
    | Claim(id: Id, observed: nat, worker: Id, now: Clock)
    | Renew(id: Id, worker: Id, now: Clock)
    | Complete(id: Id, worker: Id, now: Clock)
    | Fail(id: Id, worker: Id, now: Clock)
    | MarkDead(id: Id, worker: Id, now: Clock)
    | MarkMissing(id: Id, worker: Id, now: Clock)
    | Sweep(now: Clock)
    | Decide(human: bool, id: Id, version: Id, decision: Decision, now: Clock)
    | HookResult(hook: Id, ok: bool, now: Clock)
    | RegisterHook(hook: Id, agent: Id, now: Clock)
    | DeleteHook(hook: Id, agent: Id, now: Clock)

  datatype Refusal =
    | NotFound
    | LostRace(current: State)
    | Forbidden
    | OtherVersion(version: Id)
    | Conflict(recorded: Decision)
    | ConstraintFailed

  /** NotWon is an update that matched no row; Noop is an answer that repeats what is already recorded. */
  datatype Outcome = Changed | NotWon | Noop | Refused(why: Refusal)

  // ------------------------------------------------------------ one row

  function Pow2(n: nat): nat {
    if n == 0 then 1 else 2 * Pow2(n - 1)
  }

  function Backoff(attempts: nat): int {
    var wait := Pow2(attempts) * 1000;
    if wait < MAX_BACKOFF_MS then wait else MAX_BACKOFF_MS
  }

  predicate Terminal(row: Row) {
    row.state == Pushed || row.state == DeadLetter
  }

  predicate Open(row: Row) {
    row.state == Pending || row.state == Leased
  }

  /** The guard every worker-driven update carries: this lease, still live, still mine. */
  predicate Live(row: Row, worker: Id, now: int) {
    row.state == Leased && row.owner == Some(worker) && row.expires.Some? && row.expires.value > now
  }

  predicate Due(row: Row, now: int) {
    row.state == Pending && row.nextAttempt <= now
  }

  function Claimed(row: Row, worker: Id, now: int): Row {
    row.(state := Leased, owner := Some(worker), expires := Some(now + LEASE_MS), attempts := row.attempts + 1)
  }

  function Released(row: Row, state: State): Row {
    row.(state := state, owner := None, expires := None)
  }

  function Killed(row: Row, why: Reason): Row {
    Released(row, DeadLetter).(reason := Some(why))
  }

  function Failed(row: Row, now: int): Row {
    if row.attempts >= MAX_ATTEMPTS then Killed(row, MaxAttempts)
    else Released(row, Pending).(nextAttempt := now + Backoff(row.attempts))
  }

  // ------------------------------------------------------------ the sweeper, one pass at a time

  predicate Expired(row: Row, now: int) {
    row.state == Leased && row.expires.Some? && row.expires.value < now
  }

  predicate Aged(row: Row, now: int) {
    Open(row) && now - row.created > AGE_OUT_MS
  }

  predicate PointsAtDead(row: Row, hooks: seq<Hook>) {
    && Open(row)
    && row.webhook.Some?
    && exists i :: 0 <= i < |hooks| && hooks[i].id == row.webhook.value && hooks[i].health == Dead
  }

  function Reclaim(row: Row, now: int): Row {
    if Expired(row, now) then Released(row, Pending) else row
  }

  function AgeOut(row: Row, now: int): Row {
    if Aged(row, now) then Killed(row, StaleLease) else row
  }

  function Abandon(row: Row, hooks: seq<Hook>): Row {
    if PointsAtDead(row, hooks) then Killed(row, EndpointDead) else row
  }

  function Swept(row: Row, now: int, hooks: seq<Hook>): Row {
    Abandon(AgeOut(Reclaim(row, now), now), hooks)
  }

  // ------------------------------------------------------------ endpoints

  function AfterResult(hook: Hook, ok: bool, now: int): Hook {
    if hook.health == Dead then hook
    else if ok then hook.(health := Active, failures := 0, updated := now)
    else
      var count := hook.failures + 1;
      hook.(health := if count >= MAX_ATTEMPTS then Dead else Failing, failures := count, updated := now)
  }

  function Retired(hook: Hook, agent: Id, now: int): Hook {
    if hook.agent == agent && hook.health != Dead then hook.(health := Dead, updated := now) else hook
  }

  predicate HasHook(hooks: seq<Hook>, id: Id) {
    exists i :: 0 <= i < |hooks| && hooks[i].id == id
  }

  function Reported(hooks: seq<Hook>, id: Id, ok: bool, now: int): (r: seq<Hook>)
    ensures |r| == |hooks|
  {
    seq(|hooks|, i requires 0 <= i < |hooks| => if hooks[i].id == id then AfterResult(hooks[i], ok, now) else hooks[i])
  }

  function RetireAll(hooks: seq<Hook>, agent: Id, now: int): (r: seq<Hook>)
    ensures |r| == |hooks|
  {
    seq(|hooks|, i requires 0 <= i < |hooks| => Retired(hooks[i], agent, now))
  }

  /** An agent may delete only an endpoint of its own. */
  predicate Owns(hooks: seq<Hook>, id: Id, agent: Id) {
    exists i :: 0 <= i < |hooks| && hooks[i].id == id && hooks[i].agent == agent
  }

  function Unlisted(hooks: seq<Hook>, id: Id): seq<Hook> {
    Filter(hooks, (hook: Hook) => hook.id != id)
  }

  /** ON DELETE SET NULL: a request of any state forgets the deleted endpoint, and nothing else about it changes. */
  function Detached(row: Row, hook: Id): Row {
    if row.webhook == Some(hook) then row.(webhook := None) else row
  }

  /** ORDER BY updated DESC, id. */
  predicate Fresher(a: Hook, b: Hook) {
    a.updated > b.updated || (a.updated == b.updated && Less(Codes(a.id), Codes(b.id)))
  }

  function SelectHook(hooks: seq<Hook>, agent: Id): Option<Hook> {
    if hooks == [] then None
    else
      var best, last := SelectHook(hooks[..|hooks| - 1], agent), hooks[|hooks| - 1];
      if last.agent == agent && last.health != Dead && (best.None? || Fresher(last, best.value)) then Some(last)
      else best
  }

  // ------------------------------------------------------------ the transition function

  predicate WonClaim(row: Row, observed: nat, now: int) {
    Due(row, now) && row.attempts == observed
  }

  function LiveOutcome(db: Db, id: Id, worker: Id, now: int): Outcome {
    if id !in db.rows then Refused(NotFound)
    else if Live(db.rows[id], worker, now) then Changed
    else Refused(LostRace(db.rows[id].state))
  }

  /** What each call answers. A claim of a sixth attempt meets the column's CHECK(attempt_count BETWEEN 0 AND 5). */
  function OutcomeOf(db: Db, op: Op): Outcome {
    match op
    case Enqueue(id, _, _, _, _) => if id in db.rows then Refused(ConstraintFailed) else Changed
    case Claim(id, observed, _, now) =>
      if id !in db.rows || !WonClaim(db.rows[id], observed, now) then NotWon
      else if db.rows[id].attempts >= MAX_ATTEMPTS then Refused(ConstraintFailed)
      else Changed
    case Renew(id, worker, now) => if id in db.rows && Live(db.rows[id], worker, now) then Changed else NotWon
    case Complete(id, worker, now) => LiveOutcome(db, id, worker, now)
    case Fail(id, worker, now) => LiveOutcome(db, id, worker, now)
    case MarkDead(id, worker, now) => LiveOutcome(db, id, worker, now)
    case MarkMissing(id, worker, now) => LiveOutcome(db, id, worker, now)
    case Sweep(_) => Changed
    case Decide(human, id, version, decision, _) =>
      if !human then Refused(Forbidden)
      else if id !in db.rows then Refused(NotFound)
      else if db.rows[id].version != version then Refused(OtherVersion(db.rows[id].version))
      else if id in db.approvals then
        if db.approvals[id] == Approval(version, decision) then Noop else Refused(Conflict(db.approvals[id].decision))
      else Changed
    case HookResult(hook, _, _) =>
      if !HasHook(db.hooks, hook) then Refused(NotFound)
      else if exists i :: 0 <= i < |db.hooks| && db.hooks[i].id == hook && db.hooks[i].health != Dead then Changed
      else Noop
    case RegisterHook(hook, _, _) => if HasHook(db.hooks, hook) then Refused(ConstraintFailed) else Changed
    case DeleteHook(hook, agent, _) => if Owns(db.hooks, hook, agent) then Changed else Refused(NotFound)
  }

  function NewRow(db: Db, op: Op): Row
    requires op.Enqueue?
  {
    var hook := SelectHook(db.hooks, op.adopter);
    Row(op.id, op.version, op.adopter, if op.held then ApprovalPending else Pending, None, None, None, 0, op.now,
        if hook.Some? then Some(hook.value.id) else None, op.now)
  }

  function Decided(row: Row, decision: Decision): Row {
    if row.state != ApprovalPending then row
    else if decision == Approved then row.(state := Pending)
    else row.(state := DeadLetter, reason := Some(ApprovalDenied))
  }

  predicate TouchesRow(op: Op) {
    op.Claim? || op.Renew? || op.Complete? || op.Fail? || op.MarkDead? || op.MarkMissing? || op.Decide?
  }

  /** The updated row of an operation that names one. */
  function RowAfter(row: Row, op: Op): Row
    requires TouchesRow(op)
  {
    match op
    case Claim(_, _, worker, now) => Claimed(row, worker, now)
    case Renew(_, _, now) => row.(expires := Some(now + LEASE_MS))
    case Complete(_, _, _) => Released(row, Pushed)
    case Fail(_, _, now) => Failed(row, now)
    case MarkDead(_, _, _) => Killed(row, EndpointDead)
    case MarkMissing(_, _, _) => Killed(row, EndpointMissing)
    case Decide(_, _, _, decision, _) => Decided(row, decision)
  }

  function Next(db: Db, op: Op): Db {
    if OutcomeOf(db, op) != Changed then db
    else match op
      case Enqueue(id, _, _, _, _) => db.(rows := db.rows[id := NewRow(db, op)])
      case Sweep(now) => db.(rows := map id | id in db.rows :: Swept(db.rows[id], now, db.hooks))
      case HookResult(hook, ok, now) => db.(hooks := Reported(db.hooks, hook, ok, now))
      case RegisterHook(hook, agent, now) =>
        db.(hooks := RetireAll(db.hooks, agent, now) + [Hook(hook, agent, Active, 0, now)])
      case DeleteHook(hook, _, _) =>
        Db(map id | id in db.rows :: Detached(db.rows[id], hook), Unlisted(db.hooks, hook), db.approvals)
      case Decide(_, id, version, decision, _) =>
        Db(db.rows[id := RowAfter(db.rows[id], op)], db.hooks, db.approvals[id := Approval(version, decision)])
      case _ => db.(rows := db.rows[op.id := RowAfter(db.rows[op.id], op)])
  }

  function Run(db: Db, ops: seq<Op>): Db {
    if ops == [] then db else Next(Run(db, ops[..|ops| - 1]), ops[|ops| - 1])
  }

  lemma {:induction false} RunConcat(db: Db, a: seq<Op>, b: seq<Op>)
    ensures Run(db, a + b) == Run(Run(db, a), b)
  {
    if b == [] {
      assert a + b == a;
    } else {
      RunConcat(db, a, b[..|b| - 1]);
      assert (a + b)[..|a + b| - 1] == a + b[..|b| - 1];
    }
  }

  // ------------------------------------------------------------ what every run keeps

  predicate RowOk(row: Row) {
    && (row.state == Leased <==> row.owner.Some?)
    && (row.state == Leased <==> row.expires.Some?)
    && (row.state == DeadLetter <==> row.reason.Some?)
    && row.attempts <= MAX_ATTEMPTS
    && (row.state == Leased ==> row.attempts > 0)
    && (row.state == ApprovalPending ==> row.attempts == 0)
  }

  ghost predicate RowsOk(rows: map<Id, Row>) {
    forall id :: id in rows ==> rows[id].id == id && RowOk(rows[id])
  }

  /** Only the newest endpoint of an agent may be live. */
  ghost predicate HooksOk(hooks: seq<Hook>) {
    && (forall i, j :: 0 <= i < j < |hooks| ==> hooks[i].id != hooks[j].id)
    && (forall i, j :: 0 <= i < j < |hooks| && hooks[i].agent == hooks[j].agent ==> hooks[i].health == Dead)
  }

  /** A decision names the request's own version and has released the hold; a denial is always on record. */
  ghost predicate ApprovalsOk(db: Db) {
    && (forall id :: id in db.approvals ==>
          id in db.rows && db.rows[id].version == db.approvals[id].version && db.rows[id].state != ApprovalPending)
    && (forall id :: id in db.rows && db.rows[id].reason == Some(ApprovalDenied) ==>
          id in db.approvals && db.approvals[id].decision == Denied)
  }

  /** The foreign key: a request points at a registered endpoint or at none. */
  ghost predicate PointersOk(db: Db) {
    forall id :: id in db.rows && db.rows[id].webhook.Some? ==> HasHook(db.hooks, db.rows[id].webhook.value)
  }

  ghost predicate Inv(db: Db) {
    RowsOk(db.rows) && HooksOk(db.hooks) && ApprovalsOk(db) && PointersOk(db)
  }

  lemma SweptKeeps(row: Row, now: int, hooks: seq<Hook>)
    requires RowOk(row)
    ensures RowOk(Swept(row, now, hooks))
    ensures Swept(row, now, hooks).id == row.id && Swept(row, now, hooks).version == row.version
    ensures row.state == ApprovalPending || Terminal(row) ==> Swept(row, now, hooks) == row
    ensures Swept(row, now, hooks).reason == Some(ApprovalDenied) ==> row.reason == Some(ApprovalDenied)
    ensures Swept(row, now, hooks).state == ApprovalPending ==> row.state == ApprovalPending
  {
  }

  predicate Deletes(db: Db, op: Op, hook: Id) {
    op.DeleteHook? && op.hook == hook && OutcomeOf(db, op) == Changed
  }

  /** One step seen from one row: untouched, swept, rid of its endpoint, or updated under that operation's guard. */
  lemma RowStep(db: Db, op: Op, id: Id)
    requires id in db.rows
    ensures id in Next(db, op).rows
    ensures var row, after := db.rows[id], Next(db, op).rows[id];
      || after == row
      || (op.Sweep? && after == Swept(row, op.now, db.hooks))
      || (op.DeleteHook? && Deletes(db, op, op.hook) && after == Detached(row, op.hook))
      || (TouchesRow(op) && op.id == id && OutcomeOf(db, op) == Changed && after == RowAfter(row, op))
  {
    hide Swept, RowAfter, LiveOutcome, WonClaim, HasHook, Owns, Detached, Unlisted;
  }

  /** A row that a step adds is a new request. */
  lemma NewRowStep(db: Db, op: Op, id: Id)
    requires id !in db.rows && id in Next(db, op).rows
    ensures op.Enqueue? && op.id == id && Next(db, op).rows[id] == NewRow(db, op)
  {
    hide Swept, RowAfter, NewRow;
  }

  lemma UpdateKeeps(db: Db, op: Op)
    requires RowsOk(db.rows) && TouchesRow(op) && OutcomeOf(db, op) == Changed
    ensures op.id in db.rows
    ensures var row, after := db.rows[op.id], RowAfter(db.rows[op.id], op);
      && RowOk(after) && after.id == row.id && after.version == row.version
      && (after.reason == Some(ApprovalDenied) ==>
            row.reason == Some(ApprovalDenied) || (op.Decide? && op.decision == Denied))
      && (after.state == ApprovalPending ==> row.state == ApprovalPending && !op.Decide?)
  {
  }

  lemma RowsStep(db: Db, op: Op)
    requires RowsOk(db.rows)
    ensures RowsOk(Next(db, op).rows)
  {
    hide Next, OutcomeOf, RowAfter, Swept, NewRow;
    var rows := Next(db, op).rows;
    forall id | id in rows
      ensures rows[id].id == id && RowOk(rows[id])
    {
      if id in db.rows {
        RowStep(db, op, id);
        if op.Sweep? {
          SweptKeeps(db.rows[id], op.now, db.hooks);
        } else if TouchesRow(op) && op.id == id && OutcomeOf(db, op) == Changed {
          UpdateKeeps(db, op);
        }
      } else {
        NewRowStep(db, op, id);
        NewRowOk(db, op);
      }
    }
  }

  lemma NewRowOk(db: Db, op: Op)
    requires op.Enqueue?
    ensures NewRow(db, op).id == op.id && RowOk(NewRow(db, op)) && !Terminal(NewRow(db, op))
  {
  }

  lemma {:induction false} UnlistedKeeps(hooks: seq<Hook>, id: Id)
    requires HooksOk(hooks)
    ensures HooksOk(Unlisted(hooks, id))
    ensures forall hook :: hook in Unlisted(hooks, id) <==> hook in hooks && hook.id != id
  {
    FilterMembers(hooks, (hook: Hook) => hook.id != id);
    if hooks != [] {
      UnlistedKeeps(hooks[..|hooks| - 1], id);
      FilterMembers(hooks[..|hooks| - 1], (hook: Hook) => hook.id != id);
    }
  }

  lemma HooksStep(db: Db, op: Op)
    requires HooksOk(db.hooks)
    ensures HooksOk(Next(db, op).hooks)
  {
    hide Swept, RowAfter, NewRow, LiveOutcome, WonClaim, Unlisted;
    if op.DeleteHook? {
      UnlistedKeeps(db.hooks, op.hook);
    }
  }

  /** Only a deletion unregisters an endpoint. */
  lemma HookStays(db: Db, op: Op, hook: Id)
    requires HooksOk(db.hooks) && HasHook(db.hooks, hook) && !Deletes(db, op, hook)
    ensures HasHook(Next(db, op).hooks, hook)
  {
    hide Swept, RowAfter, NewRow, LiveOutcome, WonClaim, Unlisted;
    var i :| 0 <= i < |db.hooks| && db.hooks[i].id == hook;
    if op.DeleteHook? && Deletes(db, op, op.hook) {
      UnlistedKeeps(db.hooks, op.hook);
      assert db.hooks[i] in Unlisted(db.hooks, op.hook);
    } else {
      assert i < |Next(db, op).hooks| && Next(db, op).hooks[i].id == hook;
    }
  }

  lemma {:induction false} SelectHookStored(hooks: seq<Hook>, agent: Id)
    ensures var pick := SelectHook(hooks, agent); pick.Some? ==> HasHook(hooks, pick.value.id)
  {
    if hooks != [] {
      SelectHookStored(hooks[..|hooks| - 1], agent);
    }
  }

  /** What a step may do to the endpoint of a request: nothing, unless it deletes that endpoint. */
  lemma EndpointStep(db: Db, op: Op, id: Id)
    requires id in db.rows
    ensures id in Next(db, op).rows
    ensures var pointer := db.rows[id].webhook;
      Next(db, op).rows[id].webhook == if pointer.Some? && Deletes(db, op, pointer.value) then None else pointer
  {
    RowStep(db, op, id);
    if op.DeleteHook? && Deletes(db, op, op.hook) {
      assert Next(db, op).rows[id] == Detached(db.rows[id], op.hook);
    }
    hide Next, OutcomeOf, LiveOutcome, WonClaim, Backoff;
  }

  lemma PointersStep(db: Db, op: Op)
    requires HooksOk(db.hooks) && PointersOk(db)
    ensures PointersOk(Next(db, op))
  {
    hide Next, OutcomeOf, HasHook, SelectHook;
    forall id | id in Next(db, op).rows && Next(db, op).rows[id].webhook.Some?
      ensures HasHook(Next(db, op).hooks, Next(db, op).rows[id].webhook.value)
    {
      if id in db.rows {
        EndpointStep(db, op, id);
      } else {
        NewRowStep(db, op, id);
        SelectHookStored(db.hooks, op.adopter);
      }
      HookStays(db, op, Next(db, op).rows[id].webhook.value);
    }
  }

  lemma ApprovalsAfter(db: Db, op: Op)
    ensures Next(db, op).approvals
      == if op.Decide? && OutcomeOf(db, op) == Changed then db.approvals[op.id := Approval(op.version, op.decision)]
         else db.approvals
  {
    hide Swept, RowAfter, NewRow, OutcomeOf;
  }

  lemma DecideBinds(db: Db, op: Op)
    requires op.Decide? && OutcomeOf(db, op) == Changed
    ensures op.id in db.rows && db.rows[op.id].version == op.version && op.id !in db.approvals
    ensures op.id in Next(db, op).rows && Next(db, op).rows[op.id] == Decided(db.rows[op.id], op.decision)
  {
  }

  lemma ApprovalsStepAt(db: Db, op: Op, id: Id)
    requires Inv(db) && id in Next(db, op).rows
    ensures var row, approvals := Next(db, op).rows[id], Next(db, op).approvals;
      && (id in approvals ==> row.version == approvals[id].version && row.state != ApprovalPending)
      && (row.reason == Some(ApprovalDenied) ==> id in approvals && approvals[id].decision == Denied)
  {
    hide Next, OutcomeOf, RowAfter, Swept, NewRow, HooksOk;
    ApprovalsAfter(db, op);
    if id in db.rows {
      RowStep(db, op, id);
      if op.Sweep? {
        SweptKeeps(db.rows[id], op.now, db.hooks);
      } else if TouchesRow(op) && op.id == id && OutcomeOf(db, op) == Changed {
        UpdateKeeps(db, op);
        if op.Decide? {
          DecideBinds(db, op);
        }
      }
    } else {
      NewRowStep(db, op, id);
      NewRowOk(db, op);
    }
  }

  lemma ApprovalsStep(db: Db, op: Op)
    requires Inv(db)
    ensures ApprovalsOk(Next(db, op))
  {
    ApprovalsAfter(db, op);
    if op.Decide? && OutcomeOf(db, op) == Changed {
      DecideBinds(db, op);
    }
    hide Next, OutcomeOf, HooksOk, RowOk;
    forall id | id in Next(db, op).rows {
      ApprovalsStepAt(db, op, id);
    }
    forall id | id in Next(db, op).approvals
      ensures id in Next(db, op).rows
    {
      if id in db.rows {
        RowStep(db, op, id);
      }
    }
  }

  lemma InvStep(db: Db, op: Op)
    requires Inv(db)
    ensures Inv(Next(db, op))
  {
    RowsStep(db, op);
    HooksStep(db, op);
    ApprovalsStep(db, op);
    PointersStep(db, op);
  }

  /**
   * Lease fields exactly in `leased`, a reason exactly in `dead_letter`, one live endpoint per agent, decisions
   * consistent.
   */
  lemma {:induction false} InvAlways(ops: seq<Op>)
    ensures Inv(Run(EMPTY, ops))
  {
    if ops != [] {
      InvAlways(ops[..|ops| - 1]);
      InvStep(Run(EMPTY, ops[..|ops| - 1]), ops[|ops| - 1]);
    }
  }
}
