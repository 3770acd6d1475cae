/** What holds over whole runs of the delivery queue, whatever the workers and their clocks do. */
module DeliveryRuns {
  import opened Common
  import opened Delivery

  // ------------------------------------------------------------ deleted endpoints

  /** Some call of the run deleted this endpoint. */
  predicate Deleted(db: Db, ops: seq<Op>, hook: Id) {
    && ops != []
    && var init, last := ops[..|ops| - 1], ops[|ops| - 1];
    Deleted(db, init, hook) || Deletes(Run(db, init), last, hook)
  }

  /** The run deletes the endpoint this request was given. */
  predicate LosesEndpoint(db: Db, ops: seq<Op>, row: Row) {
    row.webhook.Some? && Deleted(db, ops, row.webhook.value)
  }

  /** A request as a run leaves it when nothing but a deletion of its endpoint reaches it. */
  function UpToDeletion(db: Db, ops: seq<Op>, id: Id): Row
    requires id in db.rows
  {
    if LosesEndpoint(db, ops, db.rows[id]) then db.rows[id].(webhook := None) else db.rows[id]
  }

  lemma UpToDeletionStep(db: Db, ops: seq<Op>, id: Id)
    requires id in db.rows && ops != []
    ensures var init, last := ops[..|ops| - 1], ops[|ops| - 1];
      UpToDeletion(db, ops, id)
        == if last.DeleteHook? && Deletes(Run(db, init), last, last.hook)
           then Detached(UpToDeletion(db, init, id), last.hook)
           else UpToDeletion(db, init, id)
  {
    hide Run, OutcomeOf;
  }

  /** One step seen from a request that only deletions have reached so far. */
  lemma DeletionStep(db: Db, ops: seq<Op>, id: Id)
    requires id in db.rows && ops != []
    requires var init := Run(db, ops[..|ops| - 1]);
      id in init.rows && init.rows[id] == UpToDeletion(db, ops[..|ops| - 1], id)
    ensures id in Run(db, ops).rows
    ensures var init, last, after := Run(db, ops[..|ops| - 1]), ops[|ops| - 1], Run(db, ops).rows[id];
      || after == UpToDeletion(db, ops, id)
      || (&& UpToDeletion(db, ops, id) == init.rows[id]
          && (|| (last.Sweep? && after == Swept(init.rows[id], last.now, init.hooks))
              || (&& TouchesRow(last) && last.id == id && OutcomeOf(init, last) == Changed
                  && after == RowAfter(init.rows[id], last))))
  {
    var init, last := ops[..|ops| - 1], ops[|ops| - 1];
    RunUnfold(db, ops);
    UpToDeletionStep(db, ops, id);
    RowStep(Run(db, init), last, id);
    EndpointStep(Run(db, init), last, id);
    hide Run, Next, OutcomeOf, Swept, RowAfter, UpToDeletion;
  }

  lemma RunUnfold(db: Db, ops: seq<Op>)
    requires ops != []
    ensures Run(db, ops) == Next(Run(db, ops[..|ops| - 1]), ops[|ops| - 1])
  {
  }

  // ------------------------------------------------------------ a row only moves forward

  function Phase(s: State): nat {
    match s
    case ApprovalPending => 0
    case Leased => 1
    case Pending => 2
    case Pushed => 3
    case DeadLetter => 3
  }

  /**
   * Attempts never fall; within one attempt the phase rises, or a lease is renewed in place. A terminal row is frozen.
   * The endpoint may be lost at any point, and is never replaced.
   */
  predicate Evolves(row: Row, later: Row) {
    && later.id == row.id && later.version == row.version && later.adopter == row.adopter
    && later.created == row.created && (later.webhook == row.webhook || later.webhook.None?)
    && var same := later.(webhook := row.webhook);
    || same == row
    || (row.state == Leased && same == row.(expires := later.expires))
    || (&& !Terminal(row)
        && (row.attempts < later.attempts
            || (row.attempts == later.attempts && Phase(row.state) < Phase(later.state))))
  }

  lemma EvolvesTransitive(a: Row, b: Row, c: Row)
    requires Evolves(a, b) && Evolves(b, c)
    ensures Evolves(a, c)
  {
  }

  lemma EvolvesUpdate(db: Db, op: Op)
    requires TouchesRow(op) && OutcomeOf(db, op) == Changed
    ensures op.id in db.rows && Evolves(db.rows[op.id], RowAfter(db.rows[op.id], op))
  {
    hide Backoff;
  }

  lemma EvolvesSwept(row: Row, now: int, hooks: seq<Hook>)
    ensures Evolves(row, Swept(row, now, hooks))
  {
  }

  lemma EvolvesStep(db: Db, op: Op, id: Id)
    requires id in db.rows
    ensures id in Next(db, op).rows && Evolves(db.rows[id], Next(db, op).rows[id])
  {
    hide Next, RowAfter, Swept, OutcomeOf;
    RowStep(db, op, id);
    if op.Sweep? {
      EvolvesSwept(db.rows[id], op.now, db.hooks);
    } else if TouchesRow(op) && OutcomeOf(db, op) == Changed {
      EvolvesUpdate(db, op);
    }
  }

  /**
   * Along any run every request keeps its identity and only moves forward. Its endpoint is the one it was given until
   * that endpoint is deleted; beyond that pushed and dead_letter rows never change.
   */
  lemma {:induction false} EvolvesAlways(db: Db, ops: seq<Op>, id: Id)
    requires id in db.rows
    ensures id in Run(db, ops).rows && Evolves(db.rows[id], Run(db, ops).rows[id])
    ensures Run(db, ops).rows[id].webhook == UpToDeletion(db, ops, id).webhook
    ensures Terminal(db.rows[id]) ==> Run(db, ops).rows[id] == UpToDeletion(db, ops, id)
  {
    hide Next, Deletes;
    if ops != [] {
      var before := Run(db, ops[..|ops| - 1]);
      EvolvesAlways(db, ops[..|ops| - 1], id);
      EvolvesStep(before, ops[|ops| - 1], id);
      EvolvesTransitive(db.rows[id], before.rows[id], Run(db, ops).rows[id]);
      EndpointStep(before, ops[|ops| - 1], id);
    }
  }

  // ------------------------------------------------------------ claims

  /**
   * A claim made from a snapshot wins, after anything else has happened, only on that very snapshot, but for one
   * column: the row is the snapshot field for field if and only if its endpoint was not deleted in between, and
   * otherwise it is the snapshot without an endpoint.
   */
  lemma ClaimNoABA(db: Db, others: seq<Op>, id: Id, worker: Id, now: Clock)
    requires id in db.rows && db.rows[id].state == Pending
    requires OutcomeOf(Run(db, others), Claim(id, db.rows[id].attempts, worker, now)) == Changed
    ensures id in Run(db, others).rows && Run(db, others).rows[id] == UpToDeletion(db, others, id)
    ensures Run(db, others).rows[id] == db.rows[id] <==> !LosesEndpoint(db, others, db.rows[id])
    ensures LosesEndpoint(db, others, db.rows[id]) ==> Run(db, others).rows[id] == db.rows[id].(webhook := None)
    ensures Next(Run(db, others), Claim(id, db.rows[id].attempts, worker, now)).rows
      == Run(db, others).rows[id := Claimed(UpToDeletion(db, others, id), worker, now)]
  {
    EvolvesAlways(db, others, id);
    hide Run, Deleted;
  }

  /** Of all claims made from one snapshot, in any order and with anything between them, at most one wins. */
  lemma OneWinnerPerSnapshot(db: Db, first: Op, others: seq<Op>, second: Op)
    requires first.Claim? && second.Claim? && first.id == second.id && first.observed == second.observed
    requires OutcomeOf(db, first) == Changed
    ensures OutcomeOf(Run(Next(db, first), others), second) == NotWon
  {
    EvolvesAlways(Next(db, first), others, first.id);
  }

  /** Ended by the sweeper, or untouched but for a deletion of its endpoint. */
  predicate KeptOrSweptAway(db: Db, ops: seq<Op>, id: Id)
    requires id in db.rows
  {
    && id in Run(db, ops).rows
    && var row, kept := Run(db, ops).rows[id], UpToDeletion(db, ops, id);
    row == kept || row == Killed(kept, StaleLease) || row == Killed(kept, EndpointDead)
  }

  lemma SweptAwayStays(db: Db, ops: seq<Op>, id: Id)
    requires id in db.rows && ops != [] && KeptOrSweptAway(db, ops[..|ops| - 1], id)
    requires Terminal(Run(db, ops[..|ops| - 1]).rows[id])
    ensures KeptOrSweptAway(db, ops, id)
  {
    var before, last := Run(db, ops[..|ops| - 1]), ops[|ops| - 1];
    RunUnfold(db, ops);
    UpToDeletionStep(db, ops, id);
    EvolvesStep(before, last, id);
    EndpointStep(before, last, id);
    hide Run, Next, Deletes, UpToDeletion;
  }

  /**
   * A pending row with five attempts spent is never claimed again; only the sweeper can end it, and only a deletion of
   * its endpoint changes it otherwise.
   */
  lemma {:induction false} SpentRowStays(db: Db, ops: seq<Op>, id: Id)
    requires id in db.rows && db.rows[id].state == Pending && db.rows[id].attempts >= MAX_ATTEMPTS
    ensures KeptOrSweptAway(db, ops, id)
  {
    if ops != [] {
      SpentRowStays(db, ops[..|ops| - 1], id);
      hide Run, Deleted;
      if Terminal(Run(db, ops[..|ops| - 1]).rows[id]) {
        SweptAwayStays(db, ops, id);
      } else {
        DeletionStep(db, ops, id);
      }
    }
  }

  /** One request whose worker dies k times in a row, each lease reclaimed by the sweeper. */
  function Abandoned(k: nat): seq<Op> {
    if k == 0 then [Enqueue("request", "version", "adopter", false, 1)]
    else Abandoned(k - 1) + [Claim("request", k - 1, "worker", 20_000 * k), Sweep(20_000 * k + LEASE_MS + 1)]
  }

  function Waiting(k: nat): Row {
    Row("request", "version", "adopter", Pending, None, None, None, k, 1, None, 1)
  }

  lemma SweepAlone(db: Db, row: Row, now: Clock)
    requires db.hooks == [] && db.rows == map["request" := row]
    ensures Next(db, Sweep(now)).hooks == [] && Next(db, Sweep(now)).rows == map["request" := Swept(row, now, [])]
  {
    hide Swept;
  }

  lemma ClaimAlone(db: Db, k: nat)
    requires 0 < k <= MAX_ATTEMPTS && db.hooks == [] && db.rows == map["request" := Waiting(k - 1)]
    ensures var claimed := Next(db, Claim("request", k - 1, "worker", 20_000 * k));
      claimed.hooks == [] && claimed.rows == map["request" := Claimed(Waiting(k - 1), "worker", 20_000 * k)]
  {
  }

  lemma AbandonedUnfold(k: nat)
    requires k > 0
    ensures Run(EMPTY, Abandoned(k))
      == Next(Next(Run(EMPTY, Abandoned(k - 1)), Claim("request", k - 1, "worker", 20_000 * k)),
              Sweep(20_000 * k + LEASE_MS + 1))
  {
    hide Next;
    var was, claim := Abandoned(k - 1), Claim("request", k - 1, "worker", 20_000 * k);
    assert Abandoned(k)[..|Abandoned(k)| - 1] == was + [claim];
    assert (was + [claim])[..|was|] == was;
  }

  lemma ReclaimedRow(k: nat)
    requires 0 < k <= MAX_ATTEMPTS
    ensures Swept(Claimed(Waiting(k - 1), "worker", 20_000 * k), 20_000 * k + LEASE_MS + 1, []) == Waiting(k)
  {
  }

  lemma {:induction false} AbandonedRow(k: nat)
    requires k <= MAX_ATTEMPTS
    ensures Run(EMPTY, Abandoned(k)).hooks == []
    ensures Run(EMPTY, Abandoned(k)).rows == map["request" := Waiting(k)]
  {
    var expiry: int := 20_000 * k + LEASE_MS + 1;
    assert expiry > 0;
    hide *;
    if k == 0 {
      FirstRow();
    } else {
      AbandonedRow(k - 1);
      AbandonedUnfold(k);
      ClaimAlone(Run(EMPTY, Abandoned(k - 1)), k);
      var claimed := Next(Run(EMPTY, Abandoned(k - 1)), Claim("request", k - 1, "worker", 20_000 * k));
      SweepAlone(claimed, Claimed(Waiting(k - 1), "worker", 20_000 * k), expiry);
      ReclaimedRow(k);
    }
  }

  lemma FirstRow()
    ensures Run(EMPTY, Abandoned(0)).hooks == []
    ensures Run(EMPTY, Abandoned(0)).rows == map["request" := Waiting(0)]
  {
    assert Abandoned(0)[..0] == [];
  }

  /** Reachable: after five abandoned claims the sixth raises the constraint, so `attempt_count` never exceeds five. */
  lemma SixthClaimIsReachable()
    ensures OutcomeOf(Run(EMPTY, Abandoned(5)), Claim("request", 5, "worker", 120_000)) == Refused(ConstraintFailed)
  {
    AbandonedRow(5);
  }

  // ------------------------------------------------------------ leases

  /** A call made on this request under this worker's name. */
  predicate CallBy(op: Op, id: Id, worker: Id) {
    match op
    case Renew(i, w, _) => i == id && w == worker
    case Complete(i, w, _) => i == id && w == worker
    case Fail(i, w, _) => i == id && w == worker
    case MarkDead(i, w, _) => i == id && w == worker
    case MarkMissing(i, w, _) => i == id && w == worker
    case _ => false
  }

  /**
   * Until it expires a lease is its owner's alone: no other worker, stale call or claim changes the row, only the
   * sweeper may end it, and a deletion of its endpoint leaves the lease as it is.
   */
  lemma {:induction false} LeaseIsExclusive(db: Db, ops: seq<Op>, id: Id)
    requires id in db.rows && db.rows[id].state == Leased && db.rows[id].owner.Some? && db.rows[id].expires.Some?
    requires forall k :: 0 <= k < |ops| ==>
      !CallBy(ops[k], id, db.rows[id].owner.value) && ops[k].now <= db.rows[id].expires.value
    ensures KeptOrSweptAway(db, ops, id)
  {
    if ops != [] {
      var init := ops[..|ops| - 1];
      assert forall k :: 0 <= k < |init| ==> init[k] == ops[k];
      LeaseIsExclusive(db, init, id);
      hide Run, Deleted;
      if Terminal(Run(db, init).rows[id]) {
        SweptAwayStays(db, ops, id);
      } else {
        DeletionStep(db, ops, id);
      }
    }
  }

  predicate LiveFor(hook: Hook, agent: Id) {
    hook.agent == agent && hook.health != Dead
  }

  /**
   * A new request is due at once unless it is held, and carries the one live endpoint of its adopter, if there is one.
   */
  lemma NewRequest(db: Db, op: Op)
    requires Inv(db) && op.Enqueue? && op.id !in db.rows
    ensures op.id in Next(db, op).rows
    ensures var row := Next(db, op).rows[op.id];
      && (Due(row, op.now) <==> !op.held) && (row.state == ApprovalPending <==> op.held)
      && row.version == op.version && row.adopter == op.adopter && row.attempts == 0 && !PointsAtDead(row, db.hooks)
      && (forall i :: 0 <= i < |db.hooks| && LiveFor(db.hooks[i], op.adopter) ==> row.webhook == Some(db.hooks[i].id))
      && (row.webhook.Some? ==>
            exists i :: 0 <= i < |db.hooks| && LiveFor(db.hooks[i], op.adopter) && row.webhook == Some(db.hooks[i].id))
  {
    SelectsTheLiveEndpoint(db.hooks, op.adopter);
    hide SelectHook;
    var pick := SelectHook(db.hooks, op.adopter);
    if pick.Some? {
      var i :| 0 <= i < |db.hooks| && db.hooks[i] == pick.value;
    }
  }

  // ------------------------------------------------------------ counting what was accepted

  datatype Kind = Claims | Fails | Completes

  predicate IsKind(op: Op, id: Id, kind: Kind) {
    match kind
    case Claims => op.Claim? && op.id == id
    case Fails => op.Fail? && op.id == id
    case Completes => op.Complete? && op.id == id
  }

  /** How many calls of one kind a run accepted for one request. */
  function Tally(db: Db, ops: seq<Op>, id: Id, kind: Kind): nat {
    if ops == [] then 0
    else
      var init, last := ops[..|ops| - 1], ops[|ops| - 1];
      Tally(db, init, id, kind)
      + if IsKind(last, id, kind) && OutcomeOf(Run(db, init), last) == Changed then 1 else 0
  }

  /** The failures a row can still take. */
  function Budget(row: Row): int {
    if Terminal(row) then 0
    else MAX_ATTEMPTS - row.attempts + if row.state == Leased then 1 else 0
  }

  /** The claims, failures and pushes of a run are all readable from the row they leave behind. */
  ghost predicate Balanced(db: Db, id: Id, claims: nat, fails: nat, completes: nat) {
    if id !in db.rows then claims == fails == completes == 0
    else
      var row := db.rows[id];
      && claims == row.attempts
      && fails + Budget(row) <= MAX_ATTEMPTS
      && (fails == MAX_ATTEMPTS ==> row.state == DeadLetter && row.reason == Some(MaxAttempts))
      && completes == if row.state == Pushed then 1 else 0
  }

  lemma BalancedStep(db: Db, op: Op, id: Id, claims: nat, fails: nat, completes: nat)
    requires RowsOk(db.rows) && Balanced(db, id, claims, fails, completes)
    ensures var one := (kind: Kind) => if IsKind(op, id, kind) && OutcomeOf(db, op) == Changed then 1 else 0;
      Balanced(Next(db, op), id, claims + one(Claims), fails + one(Fails), completes + one(Completes))
  {
    if id in db.rows {
      RowStep(db, op, id);
      if IsKind(op, id, Claims) || IsKind(op, id, Fails) || IsKind(op, id, Completes) {
        if OutcomeOf(db, op) == Changed {
          assert Next(db, op).rows[id] == RowAfter(db.rows[id], op);
        }
      } else {
        hide Next, OutcomeOf;
      }
    } else if id in Next(db, op).rows {
      NewRowStep(db, op, id);
    }
  }

  lemma {:induction false} AlwaysBalanced(ops: seq<Op>, id: Id)
    ensures Balanced(Run(EMPTY, ops), id,
      Tally(EMPTY, ops, id, Claims), Tally(EMPTY, ops, id, Fails), Tally(EMPTY, ops, id, Completes))
  {
    if ops != [] {
      var init := ops[..|ops| - 1];
      AlwaysBalanced(init, id);
      InvAlways(init);
      hide Next, Balanced, OutcomeOf, IsKind;
      BalancedStep(Run(EMPTY, init), ops[|ops| - 1], id,
        Tally(EMPTY, init, id, Claims), Tally(EMPTY, init, id, Fails), Tally(EMPTY, init, id, Completes));
    }
  }

  /** One push and five failures at most; the fifth failure dead-letters; attempts count the claims that won. */
  lemma DeliveryIsBounded(ops: seq<Op>, id: Id)
    ensures var db := Run(EMPTY, ops);
      && Tally(EMPTY, ops, id, Fails) <= MAX_ATTEMPTS
      && (Tally(EMPTY, ops, id, Fails) == MAX_ATTEMPTS ==>
            id in db.rows && db.rows[id].state == DeadLetter && db.rows[id].reason == Some(MaxAttempts))
      && Tally(EMPTY, ops, id, Completes) == (if id in db.rows && db.rows[id].state == Pushed then 1 else 0)
      && Tally(EMPTY, ops, id, Claims) == (if id in db.rows then db.rows[id].attempts else 0)
      && Tally(EMPTY, ops, id, Claims) <= MAX_ATTEMPTS
  {
    hide Run, Tally;
    AlwaysBalanced(ops, id);
    InvAlways(ops);
  }

  /** A claim raises the column constraint exactly on a due row that five earlier claims of the run have won. */
  lemma SixthClaim(ops: seq<Op>, id: Id, observed: nat, worker: Id, now: Clock)
    ensures var db := Run(EMPTY, ops);
      OutcomeOf(db, Claim(id, observed, worker, now)) == Refused(ConstraintFailed) <==>
        id in db.rows && Due(db.rows[id], now) && observed == MAX_ATTEMPTS == Tally(EMPTY, ops, id, Claims)
  {
    hide Run, Tally;
    DeliveryIsBounded(ops, id);
  }

  // ------------------------------------------------------------ backoff

  lemma {:induction false} Pow2Monotone(a: nat, b: nat)
    requires a <= b
    ensures Pow2(a) <= Pow2(b)
  {
    if a < b {
      Pow2Monotone(a, b - 1);
    }
  }

  /** Below the attempt limit the cap never binds: the wait is exactly 2^attempts seconds. */
  lemma BackoffIsExponential(attempts: nat)
    ensures attempts < MAX_ATTEMPTS ==> Backoff(attempts) == Pow2(attempts) * 1000
    ensures attempts > MAX_ATTEMPTS ==> Backoff(attempts) == MAX_BACKOFF_MS
    ensures 0 < Backoff(attempts) <= MAX_BACKOFF_MS
  {
    assert Pow2(4) == 16 && Pow2(6) == 64 && Pow2(0) == 1;
    Pow2Monotone(0, attempts);
    if attempts < MAX_ATTEMPTS {
      Pow2Monotone(attempts, 4);
    } else if attempts > MAX_ATTEMPTS {
      Pow2Monotone(6, attempts);
    }
  }

  /** Waiting: at least this many attempts made, and no claim due before this instant. */
  predicate Waits(row: Row, attempts: nat, until: int) {
    row.attempts >= attempts && row.nextAttempt >= until && row.state != ApprovalPending
  }

  lemma WaitUpdate(row: Row, op: Op, attempts: nat, until: int)
    requires TouchesRow(op) && attempts < MAX_ATTEMPTS
    requires Waits(row, attempts, until) && until <= op.now + Pow2(attempts) * 1000
    ensures Waits(RowAfter(row, op), attempts, until)
  {
    hide Backoff, Pow2;
    if row.attempts < MAX_ATTEMPTS {
      BackoffIsExponential(row.attempts);
      Pow2Monotone(attempts, row.attempts);
    }
  }

  lemma WaitStep(db: Db, op: Op, id: Id, attempts: nat, until: int)
    requires id in db.rows && attempts < MAX_ATTEMPTS
    requires Waits(db.rows[id], attempts, until) && until <= op.now + Pow2(attempts) * 1000
    ensures id in Next(db, op).rows && Waits(Next(db, op).rows[id], attempts, until)
  {
    hide Next, RowAfter, OutcomeOf, Pow2;
    RowStep(db, op, id);
    if TouchesRow(op) {
      WaitUpdate(db.rows[id], op, attempts, until);
    }
  }

  lemma {:induction false} WaitRun(db: Db, ops: seq<Op>, id: Id, attempts: nat, failedAt: int)
    requires id in db.rows && attempts < MAX_ATTEMPTS
    requires Waits(db.rows[id], attempts, failedAt + Pow2(attempts) * 1000)
    requires forall k :: 0 <= k < |ops| ==> ops[k].now >= failedAt
    ensures id in Run(db, ops).rows && Waits(Run(db, ops).rows[id], attempts, failedAt + Pow2(attempts) * 1000)
  {
    hide Next, Pow2, Waits;
    if ops != [] {
      var init := ops[..|ops| - 1];
      assert forall k :: 0 <= k < |init| ==> init[k] == ops[k];
      WaitRun(db, init, id, attempts, failedAt);
      WaitStep(Run(db, init), ops[|ops| - 1], id, attempts, failedAt + Pow2(attempts) * 1000);
    }
  }

  lemma FailWaits(db: Db, fail: Op)
    requires fail.Fail? && OutcomeOf(db, fail) == Changed
    ensures fail.id in db.rows && fail.id in Next(db, fail).rows
    ensures db.rows[fail.id].attempts < MAX_ATTEMPTS ==>
      Waits(Next(db, fail).rows[fail.id], db.rows[fail.id].attempts,
            fail.now + Pow2(db.rows[fail.id].attempts) * 1000)
  {
    BackoffIsExponential(db.rows[fail.id].attempts);
    hide Backoff, Pow2;
  }

  /** After a failure at attempt a, however many operations follow, no claim wins for 2^a seconds. */
  lemma BackoffHolds(db: Db, fail: Op, ops: seq<Op>, claim: Op)
    requires fail.Fail? && OutcomeOf(db, fail) == Changed
    requires fail.id in db.rows && db.rows[fail.id].attempts < MAX_ATTEMPTS
    requires forall k :: 0 <= k < |ops| ==> ops[k].now >= fail.now
    requires claim.Claim? && claim.id == fail.id
    requires OutcomeOf(Run(Next(db, fail), ops), claim) == Changed
    ensures claim.now >= fail.now + Pow2(db.rows[fail.id].attempts) * 1000
  {
    hide Next, Pow2, Run;
    FailWaits(db, fail);
    WaitRun(Next(db, fail), ops, fail.id, db.rows[fail.id].attempts, fail.now);
  }

  // ------------------------------------------------------------ the human hold

  lemma HoldStep(db: Db, ops: seq<Op>, id: Id)
    requires id in db.rows && db.rows[id].state == ApprovalPending && ops != []
    requires var before := Run(db, ops[..|ops| - 1]);
      Inv(before) && id in before.rows && before.rows[id] == UpToDeletion(db, ops[..|ops| - 1], id)
    ensures id in Run(db, ops).rows
    ensures id !in Run(db, ops).approvals ==> Run(db, ops).rows[id] == UpToDeletion(db, ops, id)
  {
    RunUnfold(db, ops);
    DeletionStep(db, ops, id);
    ApprovalsAfter(Run(db, ops[..|ops| - 1]), ops[|ops| - 1]);
    hide Next, Run, Deleted, HooksOk, PointersOk;
  }

  /** A held request leaves the hold exactly when a decision on it has been recorded; until then it may only lose a
      deleted endpoint. */
  lemma {:induction false} HeldUntilDecided(db: Db, ops: seq<Op>, id: Id)
    requires Inv(db) && id in db.rows && db.rows[id].state == ApprovalPending
    ensures id in Run(db, ops).rows && Inv(Run(db, ops))
    ensures id !in Run(db, ops).approvals <==> Run(db, ops).rows[id].state == ApprovalPending
    ensures id !in Run(db, ops).approvals <==> Run(db, ops).rows[id] == UpToDeletion(db, ops, id)
  {
    if ops != [] {
      var before, last := Run(db, ops[..|ops| - 1]), ops[|ops| - 1];
      HeldUntilDecided(db, ops[..|ops| - 1], id);
      RunUnfold(db, ops);
      InvStep(before, last);
      ApprovalsAfter(before, last);
      RowStep(before, last, id);
      hide Next, Run, Deleted, RowsOk, HooksOk, PointersOk, Deletes, OutcomeOf, RowAfter, Swept;
      if id !in before.approvals {
        HoldStep(db, ops, id);
      }
    }
  }

  // ------------------------------------------------------------ the sweep

  /** After one sweep no lease has expired, nothing open is past its age and nothing open points at a dead endpoint. */
  lemma SweepClosure(db: Db, now: Clock)
    requires Inv(db)
    ensures var after := Next(db, Sweep(now));
      && after.rows.Keys == db.rows.Keys && after.hooks == db.hooks && after.approvals == db.approvals
      && (forall id :: id in after.rows ==>
            && !Expired(after.rows[id], now) && !Aged(after.rows[id], now)
            && !PointsAtDead(after.rows[id], after.hooks)
            && after.rows[id].attempts == db.rows[id].attempts
            && (db.rows[id].state == ApprovalPending || Terminal(db.rows[id]) ==> after.rows[id] == db.rows[id]))
  {
    hide PointsAtDead;
    forall id | id in db.rows {
      SweptIsSettled(db.rows[id], now, db.hooks);
    }
  }

  lemma SweptIsSettled(row: Row, now: int, hooks: seq<Hook>)
    requires RowOk(row)
    ensures var after := Swept(row, now, hooks);
      && !Expired(after, now) && !Aged(after, now) && !PointsAtDead(after, hooks)
      && after.attempts == row.attempts
      && (row.state == ApprovalPending || Terminal(row) ==> after == row)
      && Swept(after, now, hooks) == after
  {
  }

  lemma SweptTwice(row: Row, now: int, hooks: seq<Hook>)
    requires RowOk(row)
    ensures Swept(Swept(row, now, hooks), now, hooks) == Swept(row, now, hooks)
  {
    hide PointsAtDead, Swept;
    SweptIsSettled(row, now, hooks);
  }

  /** Sweeping again at the same instant changes nothing. */
  lemma SweepIdempotent(db: Db, now: Clock)
    requires Inv(db)
    ensures Next(Next(db, Sweep(now)), Sweep(now)) == Next(db, Sweep(now))
  {
    hide Swept, HooksOk, ApprovalsOk, RowOk;
    forall id | id in db.rows
      ensures Swept(Swept(db.rows[id], now, db.hooks), now, db.hooks) == Swept(db.rows[id], now, db.hooks)
    {
      SweptTwice(db.rows[id], now, db.hooks);
    }
    assert Next(Next(db, Sweep(now)), Sweep(now)).rows == Next(db, Sweep(now)).rows;
  }

  // ------------------------------------------------------------ endpoint health

  function HealthAfter(hook: Hook, results: seq<(bool, Clock)>): Hook {
    if results == [] then hook
    else
      var last := results[|results| - 1];
      AfterResult(HealthAfter(hook, results[..|results| - 1]), last.0, last.1)
  }

  /** Five failures with nothing between them. */
  ghost predicate FiveInARow(results: seq<(bool, Clock)>) {
    exists i {:trigger RunOfFive(results, i)} :: RunOfFive(results, i)
  }

  predicate RunOfFive(results: seq<(bool, Clock)>, i: int) {
    0 <= i && i + 5 <= |results| && forall j :: i <= j < i + 5 ==> !results[j].0
  }

  function TrailingFailures(results: seq<(bool, Clock)>): nat {
    if results == [] || results[|results| - 1].0 then 0 else 1 + TrailingFailures(results[..|results| - 1])
  }

  lemma {:induction false} TrailingAreFailures(results: seq<(bool, Clock)>)
    ensures TrailingFailures(results) <= |results|
    ensures forall j :: |results| - TrailingFailures(results) <= j < |results| ==> !results[j].0
    ensures TrailingFailures(results) < |results| ==> results[|results| - 1 - TrailingFailures(results)].0
  {
    if results != [] && !results[|results| - 1].0 {
      TrailingAreFailures(results[..|results| - 1]);
    }
  }

  lemma FiveSnoc(init: seq<(bool, Clock)>, last: (bool, Clock))
    ensures FiveInARow(init + [last]) <==> FiveInARow(init) || TrailingFailures(init + [last]) >= 5
  {
    var results := init + [last];
    TrailingAreFailures(results);
    if TrailingFailures(results) >= 5 {
      assert RunOfFive(results, |results| - 5);
    }
    if i :| RunOfFive(init, i) {
      assert forall j :: i <= j < i + 5 ==> results[j] == init[j];
      assert RunOfFive(results, i);
    }
    if i :| RunOfFive(results, i) {
      if i + 5 < |results| {
        assert forall j :: i <= j < i + 5 ==> results[j] == init[j];
        assert RunOfFive(init, i);
      } else {
        assert forall j :: |results| - 5 <= j < |results| ==> !results[j].0;
      }
    }
  }

  /** An endpoint is dead exactly when five consecutive failures occurred; until then it counts the latest streak. */
  lemma {:induction false} HealthRefinesHistory(hook: Hook, results: seq<(bool, Clock)>)
    requires hook.health == Active && hook.failures == 0
    ensures var after := HealthAfter(hook, results);
      && after.id == hook.id && after.agent == hook.agent
      && (after.health == Dead <==> FiveInARow(results))
      && (after.health != Dead ==> after.failures == TrailingFailures(results) < 5)
      && (after.health == Failing <==> !FiveInARow(results) && TrailingFailures(results) > 0)
  {
    if results != [] {
      var init, last := results[..|results| - 1], results[|results| - 1];
      HealthRefinesHistory(hook, init);
      assert results == init + [last];
      FiveSnoc(init, last);
    }
  }

  /** The results a run reported about one endpoint. */
  function ResultsOf(ops: seq<Op>, hook: Id): seq<(bool, Clock)> {
    if ops == [] then []
    else
      var last := ops[|ops| - 1];
      ResultsOf(ops[..|ops| - 1], hook) + if last.HookResult? && last.hook == hook then [(last.ok, last.now)] else []
  }

  lemma {:induction false} HealthKeepsIdentity(hook: Hook, results: seq<(bool, Clock)>)
    ensures HealthAfter(hook, results).id == hook.id && HealthAfter(hook, results).agent == hook.agent
  {
    if results != [] {
      HealthKeepsIdentity(hook, results[..|results| - 1]);
    }
  }

  lemma HookStep(db: Db, op: Op, hook: Hook)
    requires HooksOk(db.hooks) && hook in db.hooks
    requires op.RegisterHook? ==> op.agent != hook.agent
    ensures if Deletes(db, op, hook.id) then !Owns(Next(db, op).hooks, hook.id, hook.agent)
            else (if op.HookResult? && op.hook == hook.id then AfterResult(hook, op.ok, op.now) else hook)
                   in Next(db, op).hooks
  {
    hide Swept, RowAfter, NewRow, LiveOutcome, Unlisted;
    var k :| 0 <= k < |db.hooks| && db.hooks[k] == hook;
    if op.DeleteHook? && Deletes(db, op, op.hook) {
      UnlistedKeeps(db.hooks, op.hook);
    } else {
      assert k < |Next(db, op).hooks| && Next(db, op).hooks[k]
        == if op.HookResult? && op.hook == hook.id then AfterResult(hook, op.ok, op.now) else hook;
    }
  }

  lemma UnownedStep(db: Db, op: Op, hook: Id, agent: Id)
    requires HooksOk(db.hooks) && !Owns(db.hooks, hook, agent)
    requires op.RegisterHook? ==> op.agent != agent
    ensures !Owns(Next(db, op).hooks, hook, agent)
  {
    hide Swept, RowAfter, NewRow, LiveOutcome, Unlisted;
    if op.DeleteHook? && Deletes(db, op, op.hook) {
      UnlistedKeeps(db.hooks, op.hook);
    }
  }

  /**
   * Until its agent registers a replacement, an endpoint is the fold of its own results and of nothing else for as long
   * as it is not deleted; once deleted its agent has it no more.
   */
  lemma {:induction false} HookFollowsItsResults(db: Db, ops: seq<Op>, hook: Hook)
    requires HooksOk(db.hooks) && hook in db.hooks
    requires forall i :: 0 <= i < |ops| && ops[i].RegisterHook? ==> ops[i].agent != hook.agent
    ensures HooksOk(Run(db, ops).hooks)
    ensures HealthAfter(hook, ResultsOf(ops, hook.id)) in Run(db, ops).hooks <==> !Deleted(db, ops, hook.id)
    ensures Owns(Run(db, ops).hooks, hook.id, hook.agent) <==> !Deleted(db, ops, hook.id)
  {
    hide Next, HooksOk, Deletes;
    HealthKeepsIdentity(hook, ResultsOf(ops, hook.id));
    if ops != [] {
      var init, last := ops[..|ops| - 1], ops[|ops| - 1];
      HookFollowsItsResults(db, init, hook);
      HooksStep(Run(db, init), last);
      if Deleted(db, init, hook.id) {
        UnownedStep(Run(db, init), last, hook.id, hook.agent);
      } else {
        var results := ResultsOf(init, hook.id);
        HealthKeepsIdentity(hook, results);
        HookStep(Run(db, init), last, HealthAfter(hook, results));
        if last.HookResult? && last.hook == hook.id {
          assert ResultsOf(ops, hook.id)[..|results|] == results;
        } else {
          assert results + [] == results;
        }
      }
    }
  }

  /** The endpoint a new request is given is the one live endpoint of its adopter, or none when there is none. */
  lemma {:induction false} SelectsTheLiveEndpoint(hooks: seq<Hook>, agent: Id)
    requires HooksOk(hooks)
    ensures var pick := SelectHook(hooks, agent);
      && (pick.Some? ==> pick.value in hooks && pick.value.agent == agent && pick.value.health != Dead)
      && (forall i :: 0 <= i < |hooks| && hooks[i].agent == agent && hooks[i].health != Dead ==> pick == Some(hooks[i]))
  {
    if hooks != [] {
      var init, last := hooks[..|hooks| - 1], hooks[|hooks| - 1];
      SelectsTheLiveEndpoint(init, agent);
      assert hooks == init + [last];
    }
  }
}
