/** The queue as the code keeps it: tables in place, one guarded update per call, polls that interleave with others. */
module DeliveryStore {
  import opened Common
  import opened Lex
  import opened Rows
  import opened Delivery
  import opened DeliveryRuns

  // ------------------------------------------------------------ the poll's SELECT

  /** ORDER BY next_attempt_at_ms, id. */
  predicate Earlier(a: Row, b: Row) {
    a.nextAttempt < b.nextAttempt || (a.nextAttempt == b.nextAttempt && Less(Codes(a.id), Codes(b.id)))
  }

  lemma EarlierTransitive(a: Row, b: Row, c: Row)
    requires Earlier(a, b) && Earlier(b, c)
    ensures Earlier(a, c)
  {
    if a.nextAttempt == b.nextAttempt == c.nextAttempt {
      LessTransitive(Codes(a.id), Codes(b.id), Codes(c.id));
    }
  }

  lemma EarlierTotal(a: Row, b: Row)
    requires a.id != b.id
    ensures Earlier(a, b) || Earlier(b, a)
  {
    if Codes(a.id) == Codes(b.id) {
      CodesInjective(a.id, b.id);
    }
    LessTotal(Codes(a.id), Codes(b.id));
  }

  /** The first `limit` due requests in delivery order: nothing due is skipped for something later. */
  ghost predicate IsDueList(rows: map<Id, Row>, now: int, limit: nat, due: seq<Row>) {
    && |due| <= limit
    && (forall k :: 0 <= k < |due| ==> due[k].id in rows && rows[due[k].id] == due[k] && Due(due[k], now))
    && (forall i, j :: 0 <= i < j < |due| ==> Earlier(due[i], due[j]))
    && (forall id :: id in rows && Due(rows[id], now) && rows[id] !in due ==>
          |due| == limit && forall k :: 0 <= k < |due| ==> Earlier(due[k], rows[id]))
  }

  // ------------------------------------------------------------ a poll as a run

  function PollClaim(due: seq<Row>, worker: Id, now: Clock, k: nat): Op
    requires k < |due|
  {
    Claim(due[k].id, due[k].attempts, worker, now)
  }

  /** The first n steps of a poll: before each update, whatever the other workers did meanwhile. */
  function PollOps(due: seq<Row>, worker: Id, now: Clock, others: nat -> seq<Op>, n: nat): seq<Op>
    requires n <= |due|
  {
    if n == 0 then []
    else PollOps(due, worker, now, others, n - 1) + others(n - 1) + [PollClaim(due, worker, now, n - 1)]
  }

  function BeforeClaim(db: Db, due: seq<Row>, worker: Id, now: Clock, others: nat -> seq<Op>, k: nat): Db
    requires k < |due|
  {
    Run(db, PollOps(due, worker, now, others, k) + others(k))
  }

  function ClaimOutcome(db: Db, due: seq<Row>, worker: Id, now: Clock, others: nat -> seq<Op>, k: nat): Outcome
    requires k < |due|
  {
    OutcomeOf(BeforeClaim(db, due, worker, now, others, k), PollClaim(due, worker, now, k))
  }

  /** The jobs a poll returns: its snapshots, marked as leased, in the order they were read. */
  function Jobs(db: Db, due: seq<Row>, worker: Id, now: Clock, others: nat -> seq<Op>, n: nat): seq<Row>
    requires n <= |due|
  {
    if n == 0 then []
    else
      Jobs(db, due, worker, now, others, n - 1)
      + if ClaimOutcome(db, due, worker, now, others, n - 1) == Changed then [Claimed(due[n - 1], worker, now)] else []
  }

  lemma PollUnfold(db: Db, due: seq<Row>, worker: Id, now: Clock, others: nat -> seq<Op>, k: nat)
    requires k < |due|
    ensures BeforeClaim(db, due, worker, now, others, k)
      == Run(Run(db, PollOps(due, worker, now, others, k)), others(k))
    ensures Run(db, PollOps(due, worker, now, others, k + 1))
      == Next(BeforeClaim(db, due, worker, now, others, k), PollClaim(due, worker, now, k))
  {
    hide Next;
    RunConcat(db, PollOps(due, worker, now, others, k), others(k));
    var ops := PollOps(due, worker, now, others, k + 1);
    assert ops[..|ops| - 1] == PollOps(due, worker, now, others, k) + others(k);
  }

  lemma PollNone(db: Db, due: seq<Row>, worker: Id, now: Clock, others: nat -> seq<Op>)
    ensures Jobs(db, due, worker, now, others, 0) == [] && Run(db, PollOps(due, worker, now, others, 0)) == db
  {
  }

  lemma JobsUnfold(db: Db, due: seq<Row>, worker: Id, now: Clock, others: nat -> seq<Op>, k: nat)
    requires k < |due|
    ensures Jobs(db, due, worker, now, others, k + 1)
      == Jobs(db, due, worker, now, others, k)
         + if ClaimOutcome(db, due, worker, now, others, k) == Changed then [Claimed(due[k], worker, now)] else []
  {
    hide ClaimOutcome;
  }

  /**
   * A poll's job is the stored row field for field, and was the stored snapshot an instant before, if and only if
   * nothing deleted the job's endpoint since the poll read it; otherwise the stored row is the job without an endpoint.
   */
  lemma JobsAreStored(db: Db, due: seq<Row>, worker: Id, now: Clock, limit: nat, others: nat -> seq<Op>, k: nat)
    requires IsDueList(db.rows, now, limit, due) && k < |due|
    requires ClaimOutcome(db, due, worker, now, others, k) == Changed
    ensures var row, before, after := due[k], BeforeClaim(db, due, worker, now, others, k),
                                      Run(db, PollOps(due, worker, now, others, k + 1));
      var gone := LosesEndpoint(db, PollOps(due, worker, now, others, k) + others(k), row);
      && row.id in before.rows && row.id in after.rows
      && (before.rows[row.id] == row <==> !gone)
      && (after.rows[row.id] == Claimed(row, worker, now) <==> !gone)
      && before.rows[row.id] == (if gone then row.(webhook := None) else row)
      && after.rows == before.rows[row.id := Claimed(before.rows[row.id], worker, now)]
  {
    hide Next, OutcomeOf, IsDueList, Deleted, PollOps;
    DueIsStored(db.rows, now, limit, due, k);
    PollUnfold(db, due, worker, now, others, k);
    ClaimNoABA(db, PollOps(due, worker, now, others, k) + others(k), due[k].id, worker, now);
  }

  const SUBSCRIBED: seq<Op> := [
    RegisterHook("hook", "adopter", 1), Enqueue("request", "version", "adopter", false, 2)]

  const WAITING: Row :=
    Row("request", "version", "adopter", Pending, None, None, None, 0, 2, Some("hook"), 2)

  lemma Subscribed()
    ensures Run(EMPTY, SUBSCRIBED) == Db(map["request" := WAITING], [Hook("hook", "adopter", Active, 0, 1)], map[])
  {
    var one := Next(EMPTY, SUBSCRIBED[0]);
    assert SUBSCRIBED[..1] == [SUBSCRIBED[0]] && SUBSCRIBED[..1][..0] == [];
    assert one.hooks == [Hook("hook", "adopter", Active, 0, 1)];
    assert SelectHook(one.hooks, "adopter") == Some(one.hooks[0]);
    assert Next(one, SUBSCRIBED[1]).rows == map["request" := WAITING];
  }

  /** Such a poll exists: its one job names an endpoint that the stored row has lost. */
  lemma JobMayNameADeletedEndpoint()
    ensures var db, others := Run(EMPTY, SUBSCRIBED), (k: nat) => [DeleteHook("hook", "adopter", 3)];
      && IsDueList(db.rows, 4, 1, [WAITING])
      && Jobs(db, [WAITING], "worker", 4, others, 1) == [Claimed(WAITING, "worker", 4)]
      && var stored := Run(db, PollOps([WAITING], "worker", 4, others, 1)).rows;
      && "request" in stored && stored["request"] == Claimed(WAITING, "worker", 4).(webhook := None)
      && stored["request"] != Claimed(WAITING, "worker", 4)
  {
    var db, others := Run(EMPTY, SUBSCRIBED), (k: nat) => [DeleteHook("hook", "adopter", 3)];
    Subscribed();
    hide Run, SUBSCRIBED;
    assert IsDueList(db.rows, 4, 1, [WAITING]);
    var deleted := Next(db, DeleteHook("hook", "adopter", 3));
    assert Owns(db.hooks, "hook", "adopter") by {
      assert db.hooks[0].id == "hook";
    }
    assert deleted.rows == map["request" := WAITING.(webhook := None)];
    assert BeforeClaim(db, [WAITING], "worker", 4, others, 0) == deleted by {
      PollUnfold(db, [WAITING], "worker", 4, others, 0);
      PollNone(db, [WAITING], "worker", 4, others);
      RunUnfold(db, others(0));
      RunNothing(db);
    }
    assert ClaimOutcome(db, [WAITING], "worker", 4, others, 0) == Changed;
    PollUnfold(db, [WAITING], "worker", 4, others, 0);
    JobsUnfold(db, [WAITING], "worker", 4, others, 0);
    PollNone(db, [WAITING], "worker", 4, others);
  }

  lemma RunNothing(db: Db)
    ensures Run(db, []) == db
  {
  }

  lemma DueIsStored(rows: map<Id, Row>, now: int, limit: nat, due: seq<Row>, k: nat)
    requires IsDueList(rows, now, limit, due) && k < |due|
    ensures due[k].id in rows && rows[due[k].id] == due[k] && due[k].state == Pending
  {
  }

  // ------------------------------------------------------------ the sweep's lists

  ghost predicate Lists(ids: seq<Id>, members: set<Id>) {
    && (forall i, j :: 0 <= i < j < |ids| ==> ids[i] != ids[j])
    && (forall id :: id in ids <==> id in members)
  }

  function ReclaimedIds(db: Db, now: int): set<Id> {
    set id | id in db.rows && Expired(db.rows[id], now)
  }

  function AgedIds(db: Db, now: int): set<Id> {
    set id | id in db.rows && Aged(Reclaim(db.rows[id], now), now)
  }

  function AbandonedIds(db: Db, now: int): set<Id> {
    set id | id in db.rows && PointsAtDead(AgeOut(Reclaim(db.rows[id], now), now), db.hooks)
  }

  /** A request changes in a sweep exactly when a list names it, and the last list that does says where it went. */
  lemma SweepListsAreExact(db: Db, now: Clock, id: Id)
    requires Inv(db) && id in db.rows
    ensures id in Next(db, Sweep(now)).rows
    ensures var row, after := db.rows[id], Next(db, Sweep(now)).rows[id];
      && (after != row <==> id in ReclaimedIds(db, now) + AgedIds(db, now) + AbandonedIds(db, now))
      && AgedIds(db, now) !! AbandonedIds(db, now)
      && (id in AgedIds(db, now) <==> !Terminal(row) && after.reason == Some(StaleLease))
      && (id in AbandonedIds(db, now) <==> !Terminal(row) && after.reason == Some(EndpointDead))
      && (id in ReclaimedIds(db, now) - AgedIds(db, now) - AbandonedIds(db, now) <==>
            row.state == Leased && after == Released(row, Pending))
  {
    hide HooksOk, ApprovalsOk;
    forall other | other in db.rows
      ensures other !in AgedIds(db, now) || other !in AbandonedIds(db, now)
    {
      AgedIsClosed(db.rows[other], now, db.hooks);
    }
    SweptPasses(db.rows[id], now, db.hooks);
  }

  lemma AgedIsClosed(row: Row, now: int, hooks: seq<Hook>)
    ensures Aged(row, now) ==> !PointsAtDead(AgeOut(row, now), hooks)
  {
  }

  lemma SweptPasses(row: Row, now: int, hooks: seq<Hook>)
    requires RowOk(row)
    ensures var after, aged, dead := Swept(row, now, hooks), Aged(Reclaim(row, now), now),
                                     PointsAtDead(AgeOut(Reclaim(row, now), now), hooks);
      && (after != row <==> Expired(row, now) || aged || dead)
      && (aged <==> !Terminal(row) && after.reason == Some(StaleLease))
      && (dead <==> !Terminal(row) && after.reason == Some(EndpointDead))
      && (Expired(row, now) && !aged && !dead <==> row.state == Leased && after == Released(row, Pending))
  {
  }

  // ------------------------------------------------------------ the tables in place

  /** Identifiers are distinct, so DELETE … WHERE id=? removes one endpoint. */
  lemma DeletesOne(hooks: seq<Hook>, k: nat, id: Id)
    requires HooksOk(hooks) && k < |hooks| && hooks[k].id == id
    ensures Unlisted(hooks, id) == hooks[..k] + hooks[k + 1..]
  {
    var before, after := hooks[..k], hooks[k + 1..];
    assert forall i :: 0 <= i < |before| ==> before[i].id != id;
    assert forall i :: 0 <= i < |after| ==> after[i].id != id;
    assert hooks == before + [hooks[k]] + after;
    hide HooksOk, Filter;
    FilterAllButOne(before, hooks[k], after, (hook: Hook) => hook.id != id);
  }

  class Store {
    var rows: map<Id, Row>
    var hooks: seq<Hook>
    var approvals: map<Id, Approval>

    function Tables(): Db
      reads this
    {
      Db(rows, hooks, approvals)
    }

    constructor ()
      ensures Tables() == EMPTY
    {
      rows, hooks, approvals := map[], [], map[];
    }

    method EnqueueRequest(id: Id, version: Id, adopter: Id, held: bool, now: Clock) returns (answer: Outcome)
      modifies this
      ensures var op := Enqueue(id, version, adopter, held, now);
        answer == OutcomeOf(old(Tables()), op) && Tables() == Next(old(Tables()), op)
    {
      if id in rows {
        return Refused(ConstraintFailed);
      }
      var hook := SelectHook(hooks, adopter);
      var webhook := if hook.Some? then Some(hook.value.id) else None;
      var state := if held then ApprovalPending else Pending;
      rows := rows[id := Row(id, version, adopter, state, None, None, None, 0, now, webhook, now)];
      answer := Changed;
    }

    method ClaimRow(id: Id, observed: nat, worker: Id, now: Clock) returns (answer: Outcome)
      modifies this
      ensures var op := Claim(id, observed, worker, now);
        answer == OutcomeOf(old(Tables()), op) && Tables() == Next(old(Tables()), op)
    {
      if id !in rows {
        return NotWon;
      }
      var row := rows[id];
      if row.state != Pending || row.nextAttempt > now || row.attempts != observed {
        return NotWon;
      }
      if row.attempts + 1 > MAX_ATTEMPTS {
        return Refused(ConstraintFailed);
      }
      rows := rows[id := row.(state := Leased, owner := Some(worker), expires := Some(now + LEASE_MS),
                              attempts := row.attempts + 1)];
      answer := Changed;
    }

    method RenewLease(id: Id, worker: Id, now: Clock) returns (answer: Outcome)
      modifies this
      ensures var op := Renew(id, worker, now);
        answer == OutcomeOf(old(Tables()), op) && Tables() == Next(old(Tables()), op)
    {
      if id !in rows || !Live(rows[id], worker, now) {
        return NotWon;
      }
      rows := rows[id := rows[id].(expires := Some(now + LEASE_MS))];
      answer := Changed;
    }

    /** UPDATE … WHERE the lease is live and mine; no row changed is a lost race that reports the current state. */
    method UpdateLive(id: Id, worker: Id, now: Clock, updated: Row) returns (answer: Outcome)
      modifies this
      ensures answer == LiveOutcome(old(Tables()), id, worker, now)
      ensures Tables() == if answer == Changed then old(Tables()).(rows := old(rows)[id := updated]) else old(Tables())
    {
      if id !in rows {
        return Refused(NotFound);
      }
      if !Live(rows[id], worker, now) {
        return Refused(LostRace(rows[id].state));
      }
      rows := rows[id := updated];
      answer := Changed;
    }

    method CompleteDelivery(id: Id, worker: Id, now: Clock) returns (answer: Outcome)
      modifies this
      ensures var op := Complete(id, worker, now);
        answer == OutcomeOf(old(Tables()), op) && Tables() == Next(old(Tables()), op)
    {
      if id !in rows {
        return Refused(NotFound);
      }
      answer := UpdateLive(id, worker, now, rows[id].(state := Pushed, owner := None, expires := None));
    }

    /** The attempt limit is looked at before anything else, so the fifth failure dead-letters. */
    method FailDelivery(id: Id, worker: Id, now: Clock) returns (answer: Outcome)
      modifies this
      ensures var op := Fail(id, worker, now);
        answer == OutcomeOf(old(Tables()), op) && Tables() == Next(old(Tables()), op)
    {
      if id !in rows {
        return Refused(NotFound);
      }
      var row := rows[id];
      var next: Row;
      if row.attempts >= MAX_ATTEMPTS {
        next := row.(state := DeadLetter, reason := Some(MaxAttempts), owner := None, expires := None);
      } else {
        next := row.(state := Pending, owner := None, expires := None, nextAttempt := now + Backoff(row.attempts));
      }
      answer := UpdateLive(id, worker, now, next);
    }

    method MarkEndpoint(id: Id, worker: Id, missing: bool, now: Clock) returns (answer: Outcome)
      modifies this
      ensures var op := if missing then MarkMissing(id, worker, now) else MarkDead(id, worker, now);
        answer == OutcomeOf(old(Tables()), op) && Tables() == Next(old(Tables()), op)
    {
      if id !in rows {
        return Refused(NotFound);
      }
      var why := if missing then EndpointMissing else EndpointDead;
      answer := UpdateLive(id, worker, now,
                           rows[id].(state := DeadLetter, reason := Some(why), owner := None, expires := None));
    }

    /** One transaction: the decision is recorded and a held request is released, or neither happens. */
    method RecordApproval(human: bool, id: Id, version: Id, decision: Decision, now: Clock) returns (answer: Outcome)
      modifies this
      ensures var op := Decide(human, id, version, decision, now);
        answer == OutcomeOf(old(Tables()), op) && Tables() == Next(old(Tables()), op)
    {
      if !human {
        return Refused(Forbidden);
      }
      if id !in rows {
        return Refused(NotFound);
      }
      if rows[id].version != version {
        return Refused(OtherVersion(rows[id].version));
      }
      if id in approvals {
        if approvals[id].decision == decision && approvals[id].version == version {
          return Noop;
        }
        return Refused(Conflict(approvals[id].decision));
      }
      approvals := approvals[id := Approval(version, decision)];
      var row := rows[id];
      if row.state == ApprovalPending {
        if decision == Approved {
          row := row.(state := Pending);
        } else {
          row := row.(state := DeadLetter, reason := Some(ApprovalDenied));
        }
      }
      rows := rows[id := row];
      answer := Changed;
    }

    /** The result of one push; a dead endpoint is left alone, the fifth failure in a row kills one. */
    method RecordWebhookResult(hook: Id, ok: bool, now: Clock) returns (answer: Outcome)
      requires HooksOk(hooks)
      modifies this
      ensures var op := HookResult(hook, ok, now);
        answer == OutcomeOf(old(Tables()), op) && Tables() == Next(old(Tables()), op)
    {
      var k := 0;
      while k < |hooks| && hooks[k].id != hook
        invariant 0 <= k <= |hooks|
        invariant forall i :: 0 <= i < k ==> hooks[i].id != hook
      {
        k := k + 1;
      }
      if k == |hooks| {
        return Refused(NotFound);
      }
      var row := hooks[k];
      if row.health == Dead {
        return Noop;
      }
      if ok {
        row := row.(health := Active, failures := 0, updated := now);
      } else {
        var count := row.failures + 1;
        row := row.(health := if count >= MAX_ATTEMPTS then Dead else Failing, failures := count, updated := now);
      }
      assert Reported(hooks, hook, ok, now) == hooks[k := row];
      hooks := hooks[k := row];
      answer := Changed;
    }

    method RegisterWebhook(hook: Id, agent: Id, now: Clock) returns (answer: Outcome)
      modifies this
      ensures var op := RegisterHook(hook, agent, now);
        answer == OutcomeOf(old(Tables()), op) && Tables() == Next(old(Tables()), op)
    {
      if HasHook(hooks, hook) {
        return Refused(ConstraintFailed);
      }
      var before := hooks;
      var k := 0;
      while k < |hooks|
        invariant 0 <= k <= |hooks| == |before|
        invariant rows == old(rows) && approvals == old(approvals)
        invariant forall i :: 0 <= i < |hooks| ==>
          hooks[i] == if i < k then Retired(before[i], agent, now) else before[i]
      {
        if hooks[k].agent == agent && hooks[k].health != Dead {
          hooks := hooks[k := hooks[k].(health := Dead, updated := now)];
        }
        k := k + 1;
      }
      assert hooks == RetireAll(before, agent, now);
      hooks := hooks + [Hook(hook, agent, Active, 0, now)];
      answer := Changed;
    }

    /** Own endpoints only; the foreign key then clears the endpoint of every request that names it. */
    method DeleteWebhook(hook: Id, agent: Id, now: Clock) returns (answer: Outcome)
      requires HooksOk(hooks)
      modifies this
      ensures var op := DeleteHook(hook, agent, now);
        answer == OutcomeOf(old(Tables()), op) && Tables() == Next(old(Tables()), op)
    {
      var k := 0;
      while k < |hooks| && hooks[k].id != hook
        invariant 0 <= k <= |hooks|
        invariant forall i :: 0 <= i < k ==> hooks[i].id != hook
      {
        k := k + 1;
      }
      if k == |hooks| || hooks[k].agent != agent {
        return Refused(NotFound);
      }
      DeletesOne(hooks, k, hook);
      hooks := hooks[..k] + hooks[k + 1..];
      rows := map id | id in rows :: if rows[id].webhook == Some(hook) then rows[id].(webhook := None) else rows[id];
      answer := Changed;
    }

    // ---------------------------------------------------------- the sweeper's three passes

    method ReclaimExpired(now: Clock) returns (ids: seq<Id>)
      modifies this`rows
      ensures rows == map id | id in old(rows) :: Reclaim(old(rows)[id], now)
      ensures Lists(ids, set id | id in old(rows) && Expired(old(rows)[id], now))
    {
      ids := [];
      var found := set id | id in rows && Expired(rows[id], now);
      var todo := found;
      while todo != {}
        invariant todo <= found && rows.Keys == old(rows).Keys
        invariant Lists(ids, found - todo)
        invariant forall id :: id in rows ==>
          rows[id] == if id in found - todo then Released(old(rows)[id], Pending) else old(rows)[id]
        decreases |todo|
      {
        var id :| id in todo;
        rows := rows[id := rows[id].(state := Pending, owner := None, expires := None)];
        ids := ids + [id];
        todo := todo - {id};
      }
    }

    method KillAll(found: set<Id>, why: Reason) returns (ids: seq<Id>)
      requires found <= rows.Keys
      modifies this`rows
      ensures rows == map id | id in old(rows) :: if id in found then Killed(old(rows)[id], why) else old(rows)[id]
      ensures Lists(ids, found)
    {
      ids := [];
      var todo := found;
      while todo != {}
        invariant todo <= found && rows.Keys == old(rows).Keys
        invariant Lists(ids, found - todo)
        invariant forall id :: id in rows ==>
          rows[id] == if id in found - todo then Killed(old(rows)[id], why) else old(rows)[id]
        decreases |todo|
      {
        var id :| id in todo;
        rows := rows[id := rows[id].(state := DeadLetter, reason := Some(why), owner := None, expires := None)];
        ids := ids + [id];
        todo := todo - {id};
      }
    }

    /** Reclaim, then age out, then abandon: the three lists name exactly the rows each pass changed. */
    method SweepQueue(now: Clock) returns (reclaimed: seq<Id>, agedOut: seq<Id>, endpointDead: seq<Id>)
      modifies this
      ensures Tables() == Next(old(Tables()), Sweep(now))
      ensures Lists(reclaimed, ReclaimedIds(old(Tables()), now))
      ensures Lists(agedOut, AgedIds(old(Tables()), now))
      ensures Lists(endpointDead, AbandonedIds(old(Tables()), now))
    {
      hide PointsAtDead, Expired, Aged, Lists;
      reclaimed := ReclaimExpired(now);
      ghost var first := rows;
      var aged := set id | id in rows && Aged(rows[id], now);
      assert aged == AgedIds(old(Tables()), now);
      agedOut := KillAll(aged, StaleLease);
      assert forall id :: id in rows ==> rows[id] == AgeOut(first[id], now);
      ghost var second := rows;
      var dead := set id | id in rows && PointsAtDead(rows[id], hooks);
      assert dead == AbandonedIds(old(Tables()), now);
      endpointDead := KillAll(dead, EndpointDead);
      assert forall id :: id in rows ==> rows[id] == Abandon(second[id], hooks);
      assert rows == Next(old(Tables()), Sweep(now)).rows;
    }

    // ---------------------------------------------------------- polling

    /** The due request no other due request of the set comes before. */
    method FirstDue(ids: set<Id>) returns (first: Id)
      requires ids != {} && ids <= rows.Keys && RowsOk(rows)
      ensures first in ids && forall id :: id in ids && id != first ==> Earlier(rows[first], rows[id])
    {
      first :| first in ids;
      var todo := ids - {first};
      while todo != {}
        invariant todo <= ids && first in ids && first !in todo
        invariant forall id :: id in ids - todo && id != first ==> Earlier(rows[first], rows[id])
        decreases |todo|
      {
        var next :| next in todo;
        EarlierTotal(rows[first], rows[next]);
        if Earlier(rows[next], rows[first]) {
          forall id | id in ids - todo && id != first {
            EarlierTransitive(rows[next], rows[first], rows[id]);
          }
          first := next;
        }
        todo := todo - {next};
      }
    }

    method SelectDue(now: Clock, limit: nat) returns (due: seq<Row>)
      requires Inv(Tables())
      ensures IsDueList(rows, now, limit, due)
    {
      hide Earlier, Due, RowOk, HooksOk, ApprovalsOk;
      due := [];
      var todo := set id | id in rows && Due(rows[id], now);
      while |due| < limit && todo != {}
        invariant |due| <= limit && todo <= rows.Keys && forall id :: id in todo ==> Due(rows[id], now)
        invariant forall k :: 0 <= k < |due| ==> due[k].id in rows && rows[due[k].id] == due[k] && Due(due[k], now)
        invariant forall i, j :: 0 <= i < j < |due| ==> Earlier(due[i], due[j])
        invariant forall id, k :: id in todo && 0 <= k < |due| ==> Earlier(due[k], rows[id])
        invariant forall id :: id in rows && Due(rows[id], now) ==> id in todo || rows[id] in due
        decreases |todo|
      {
        var first := FirstDue(todo);
        due := due + [rows[first]];
        todo := todo - {first};
      }
    }

    /** One call of the interface, by name. */
    method Perform(op: Op) returns (answer: Outcome)
      requires Inv(Tables())
      modifies this
      ensures answer == OutcomeOf(old(Tables()), op) && Tables() == Next(old(Tables()), op)
    {
      hide OutcomeOf, Next;
      match op {
        case Enqueue(id, version, adopter, held, now) => answer := EnqueueRequest(id, version, adopter, held, now);
        case Claim(id, observed, worker, now) => answer := ClaimRow(id, observed, worker, now);
        case Renew(id, worker, now) => answer := RenewLease(id, worker, now);
        case Complete(id, worker, now) => answer := CompleteDelivery(id, worker, now);
        case Fail(id, worker, now) => answer := FailDelivery(id, worker, now);
        case MarkDead(id, worker, now) => answer := MarkEndpoint(id, worker, false, now);
        case MarkMissing(id, worker, now) => answer := MarkEndpoint(id, worker, true, now);
        case Sweep(now) =>
          var reclaimed, agedOut, endpointDead := SweepQueue(now);
          SweepAnswers(old(Tables()), now);
          answer := Changed;
        case Decide(human, id, version, decision, now) => answer := RecordApproval(human, id, version, decision, now);
        case HookResult(hook, ok, now) => answer := RecordWebhookResult(hook, ok, now);
        case RegisterHook(hook, agent, now) => answer := RegisterWebhook(hook, agent, now);
        case DeleteHook(hook, agent, now) => answer := DeleteWebhook(hook, agent, now);
      }
    }

    method PerformAll(ops: seq<Op>)
      requires Inv(Tables())
      modifies this
      ensures Tables() == Run(old(Tables()), ops) && Inv(Tables())
    {
      hide Next, Inv;
      var k := 0;
      while k < |ops|
        invariant 0 <= k <= |ops|
        invariant Inv(Tables()) && Tables() == Run(old(Tables()), ops[..k])
      {
        assert ops[..k + 1][..k] == ops[..k];
        InvStep(Tables(), ops[k]);
        var answer := Perform(ops[k]);
        k := k + 1;
      }
      assert ops[..|ops|] == ops;
    }

    /** Whatever the others do in between, and then this poll's next update. */
    method PollStep(ghost before: Db, due: seq<Row>, worker: Id, now: Clock, others: nat -> seq<Op>, k: nat)
      returns (answer: Outcome)
      requires k < |due| && Inv(Tables()) && Tables() == Run(before, PollOps(due, worker, now, others, k))
      modifies this
      ensures Inv(Tables()) && Tables() == Run(before, PollOps(due, worker, now, others, k + 1))
      ensures answer == ClaimOutcome(before, due, worker, now, others, k)
    {
      hide Next, OutcomeOf, Inv, Run, PollOps;
      PollUnfold(before, due, worker, now, others, k);
      PerformAll(others(k));
      InvStep(Tables(), PollClaim(due, worker, now, k));
      answer := ClaimRow(due[k].id, due[k].attempts, worker, now);
    }

    /**
     * One read, then one guarded update per row, with the other workers' calls between them. A lost race is skipped;
     * a constraint failure ends the poll with the earlier claims in place.
     */
    method PollDelivery(worker: Id, now: Clock, limit: nat, others: nat -> seq<Op>)
      returns (jobs: seq<Row>, raised: bool, ghost due: seq<Row>, ghost steps: nat)
      requires Inv(Tables())
      modifies this
      ensures IsDueList(old(rows), now, limit, due) && steps <= |due|
      ensures Tables() == Run(old(Tables()), PollOps(due, worker, now, others, steps)) && Inv(Tables())
      ensures jobs == Jobs(old(Tables()), due, worker, now, others, steps)
      ensures raised <==> steps > 0 && ClaimOutcome(old(Tables()), due, worker, now, others, steps - 1).Refused?
      ensures !raised ==> steps == |due|
    {
      hide *;
      ghost var before := Tables();
      var found := SelectDue(now, limit);
      due, jobs, steps := found, [], 0;
      PollNone(before, due, worker, now, others);
      var k := 0;
      while k < |found|
        invariant 0 <= k == steps <= |found|
        invariant Inv(Tables()) && Tables() == Run(before, PollOps(due, worker, now, others, k))
        invariant jobs == Jobs(before, due, worker, now, others, k)
        invariant k > 0 ==> !ClaimOutcome(before, due, worker, now, others, k - 1).Refused?
      {
        var row := found[k];
        JobsUnfold(before, due, worker, now, others, k);
        var answer := PollStep(before, found, worker, now, others, k);
        k, steps := k + 1, steps + 1;
        if answer.Refused? {
          return jobs, true, due, steps;
        }
        if answer == Changed {
          jobs := jobs + [Claimed(row, worker, now)];
        }
      }
      raised := false;
    }
  }

  lemma SweepAnswers(db: Db, now: Clock)
    ensures OutcomeOf(db, Sweep(now)) == Changed
  {
  }
}
