/** Journals over whole runs, and the displayed actions as exactly what the commands do. */
module LifecycleRuns {
  import opened Common
  import opened Rows
  import opened Lifecycle
  import D = Drafts
  import R = DraftRuns

  // ------------------------------------------------------------ lookups

  lemma {:induction false} FindIs(assignments: seq<Assignment>, id: Id)
    ensures var r := Find(assignments, id);
      && (r.Some? ==> r.value in assignments && r.value.id == id)
      && (r.None? <==> forall i :: 0 <= i < |assignments| ==> assignments[i].id != id)
  {
    if assignments != [] && assignments[0].id != id {
      FindIs(assignments[1..], id);
    }
  }

  lemma {:induction false} FindApprovalIs(approvals: seq<D.Approval>, revision: Id)
    ensures var r := FindApproval(approvals, revision);
      && (r.Some? ==> r.value in approvals && r.value.revision == revision)
      && (r.None? <==> forall i :: 0 <= i < |approvals| ==> approvals[i].revision != revision)
  {
    if approvals != [] && approvals[0].revision != revision {
      FindApprovalIs(approvals[1..], revision);
    }
  }

  /** The first approval of a revision stays the first as approvals are added. */
  lemma {:induction false} FindApprovalStable(approvals: seq<D.Approval>, more: seq<D.Approval>, revision: Id)
    requires FindApproval(approvals, revision).Some?
    ensures FindApproval(approvals + more, revision) == FindApproval(approvals, revision)
  {
    if approvals[0].revision != revision {
      FindApprovalStable(approvals[1..], more, revision);
      assert (approvals + more)[1..] == approvals[1..] + more;
    }
  }

  /** Found over the whole table or within its own draft, an approval is the same one. */
  lemma ApprovalInDraft(s: D.Store, revision: Id)
    requires D.Inv(s) && FindApproval(s.approvals, revision).Some?
    ensures var a := FindApproval(s.approvals, revision).value;
      FindApproval(D.ApprovalsOf(s, a.draft), revision) == Some(a)
  {
    hide D.Inv, D.ApprovalsOf;
    var a := FindApproval(s.approvals, revision).value;
    FindApprovalIs(s.approvals, revision);
    R.ApprovalMembers(s, a.draft);
    FindApprovalIs(D.ApprovalsOf(s, a.draft), revision);
    var i :| 0 <= i < |D.ApprovalsOf(s, a.draft)| && D.ApprovalsOf(s, a.draft)[i] == a;
    var b := FindApproval(D.ApprovalsOf(s, a.draft), revision).value;
    SameApproval(s, a.draft, a, b);
  }

  /** A draft holds at most one approval of a revision. */
  lemma SameApproval(s: D.Store, draft: Id, a: D.Approval, b: D.Approval)
    requires D.Inv(s) && a in D.ApprovalsOf(s, draft) && b in D.ApprovalsOf(s, draft) && a.revision == b.revision
    ensures a == b
  {
    hide D.Inv, D.Lineage, D.ApprovalsOf, D.ApprovalsOk;
    R.DraftSound(s, draft);
    R.ListedApproval(s, draft, a);
    R.ListedApproval(s, draft, b);
    var l := D.Lineage(s, draft);
    R.NumberOf(s, draft, a.number - 1);
    R.NumberOf(s, draft, b.number - 1);
    R.SameRevision(s, l[a.number - 1], l[b.number - 1]);
    ByNumber(l, D.ApprovalsOf(s, draft), a, b);
  }

  lemma ByNumber(l: seq<D.Revision>, approvals: seq<D.Approval>, a: D.Approval, b: D.Approval)
    requires D.ApprovalsOk(l, approvals) && a in approvals && b in approvals && a.number == b.number
    ensures a == b
  {
    var i :| 0 <= i < |approvals| && approvals[i] == a;
    var j :| 0 <= j < |approvals| && approvals[j] == b;
  }

  // ------------------------------------------------------------ one journal

  lemma JournalSnoc(events: seq<Event>, e: Event, id: Id)
    ensures EventsOf(events + [e], id) == EventsOf(events, id) + if e.assignment == id then [e] else []
  {
    FilterSnoc(events, e, (x: Event) => x.assignment == id);
  }

  lemma GrowJournal(j: seq<Event>, e: Event)
    requires JournalOk(j) && j != [] && e.number == |j| + 1 && StepOk(j[|j| - 1], e)
    ensures JournalOk(j + [e])
  {
    forall k | 0 <= k < |j + [e]|
      ensures EventAt(j + [e], k)
    {
      if k < |j| {
        assert EventAt(j, k);
      }
    }
  }

  lemma GrowBacking(approved: seq<D.Approval>, j: seq<Event>, e: Event)
    requires BackedBy(approved, j) && IsApproved(approved, e) && j != [] && DirectionOk(approved, j[|j| - 1], e)
    ensures BackedBy(approved, j + [e])
  {
    hide IsApproved, DirectionOk;
    forall k | 0 < k < |j + [e]|
      ensures DirectionOk(approved, (j + [e])[k - 1], (j + [e])[k])
    {
      assert k < |j| ==> DirectionOk(approved, j[k - 1], j[k]);
    }
  }

  lemma MoreApprovals(approved: seq<D.Approval>, more: seq<D.Approval>, j: seq<Event>)
    requires BackedBy(approved, j)
    ensures BackedBy(approved + more, j)
  {
    forall k | 0 <= k < |j|
      ensures FindApproval(approved + more, j[k].revision) == FindApproval(approved, j[k].revision)
      ensures IsApproved(approved, j[k])
    {
      assert IsApproved(approved, j[k]);
      FindApprovalStable(approved, more, j[k].revision);
    }
    forall k | 0 < k < |j|
      ensures DirectionOk(approved + more, j[k - 1], j[k])
    {
      assert DirectionOk(approved, j[k - 1], j[k]);
      assert IsApproved(approved, j[k - 1]);
    }
  }

  lemma HeadSeq(j: seq<Event>)
    requires JournalOk(j) && j != []
    ensures j[|j| - 1].number == |j|
  {
    assert EventAt(j, |j| - 1);
  }

  // ------------------------------------------------------------ what one step changes

  predicate Appends(op: Op) {
    op.Assign? || op.Act? || op.Select?
  }

  lemma StepTables(s: Store, op: Op)
    requires AnswerOf(s, op) == Written
    ensures Next(s, op).events == s.events + if Appends(op) then [NewEvent(s, op)] else []
    ensures Next(s, op).assignments == s.assignments + if op.Assign? then
        [Assignment(op.id, op.agent, FindApproval(s.drafts.approvals, op.revision).value.draft)] else []
    ensures Next(s, op).drafts == if op.OnDrafts? then D.Next(s.drafts, op.op) else s.drafts
  {
    hide AnswerOf, NewEvent, D.Next;
  }

  lemma NewEventTo(s: Store, op: Op)
    requires Appends(op) && AnswerOf(s, op) == Written
    ensures NewEvent(s, op).assignment == op.id
  {
  }

  /** A written command extends its own journal by its event and leaves every other journal alone. */
  lemma JournalAfter(s: Store, op: Op, id: Id)
    ensures Journal(Next(s, op), id)
      == Journal(s, id) + if Appends(op) && op.id == id && AnswerOf(s, op) == Written then [NewEvent(s, op)] else []
  {
    hide AnswerOf, NewEvent, EventsOf, Next;
    if AnswerOf(s, op) == Written {
      StepTables(s, op);
      if Appends(op) {
        NewEventTo(s, op);
        JournalSnoc(s.events, NewEvent(s, op), id);
      } else {
        assert s.events + [] == s.events && Journal(s, id) + [] == Journal(s, id);
      }
    } else {
      NotWritten(s, op);
    }
  }

  lemma NotWritten(s: Store, op: Op)
    requires AnswerOf(s, op) != Written
    ensures Next(s, op) == s
  {
  }

  // ------------------------------------------------------------ each assignment stays sound

  lemma CommandEvent(s: Store, op: Op, a: Assignment)
    requires (op.Act? || op.Select?) && AnswerOf(s, op) == Written && a.id == op.id && AssignmentOk(s, a)
    requires Find(s.assignments, op.id) == Some(a)
    ensures AssignmentOk(s.(events := s.events + [NewEvent(s, op)]), a)
  {
    var e, j := NewEvent(s, op), Journal(s, a.id);
    var approved := D.ApprovalsOf(s.drafts, a.draft);
    HeadSeq(j);
    FindApprovalIs(approved, e.revision);
    assert IsApproved(approved, j[|j| - 1]);
    JournalSnoc(s.events, e, a.id);
    hide EventsOf, D.ApprovalsOf, D.Inv;
    GrowJournal(j, e);
    assert IsApproved(approved, e);
    GrowBacking(approved, j, e);
  }

  lemma AssignedEvents(s: Store, op: Op)
    requires D.Inv(s.drafts) && TablesOk(s) && op.Assign? && AnswerOf(s, op) == Written
    ensures Journal(s, op.id) == []
    ensures JournalOk([NewEvent(s, op)])
    ensures BackedBy(D.ApprovalsOf(s.drafts, FindApproval(s.drafts.approvals, op.revision).value.draft),
                     [NewEvent(s, op)])
  {
    NoEventsYet(s, op.id);
    ApprovalInDraft(s.drafts, op.revision);
    hide D.ApprovalsOf, D.Inv;
    assert EventAt([NewEvent(s, op)], 0);
  }

  lemma NoEventsYet(s: Store, id: Id)
    requires TablesOk(s) && Find(s.assignments, id).None?
    ensures Journal(s, id) == []
  {
    FilterNone(s.events, (e: Event) => e.assignment == id);
  }

  lemma FindFirst(assignments: seq<Assignment>, i: nat)
    requires i < |assignments|
    requires forall k, l :: 0 <= k < l < |assignments| ==> assignments[k].id != assignments[l].id
    ensures Find(assignments, assignments[i].id) == Some(assignments[i])
  {
    FindIs(assignments, assignments[i].id);
    var a := Find(assignments, assignments[i].id).value;
    var k :| 0 <= k < |assignments| && assignments[k] == a;
  }

  lemma DraftsStepKeeps(s: Store, op: Op, a: Assignment)
    requires op.OnDrafts? && AssignmentOk(s, a)
    ensures AssignmentOk(Next(s, op), a)
  {
    var before, after := D.ApprovalsOf(s.drafts, a.draft), D.ApprovalsOf(Next(s, op).drafts, a.draft);
    R.LineageOnlyGrowsStep(s.drafts, op.op, a.draft);
    JournalAfter(s, op, a.id);
    hide EventsOf, D.ApprovalsOf, D.Next;
    assert before <= after;
    assert after == before + after[|before|..];
    MoreApprovals(before, after[|before|..], Journal(s, a.id));
  }

  lemma AssignmentStep(s: Store, op: Op, a: Assignment)
    requires Inv(s) && a in s.assignments
    ensures AssignmentOk(Next(s, op), a)
  {
    hide D.Inv, OneStands, EventsOf, D.ApprovalsOf, NewEvent, JournalOk, BackedBy;
    var i :| 0 <= i < |s.assignments| && s.assignments[i] == a;
    FindFirst(s.assignments, i);
    assert AssignmentOk(s, a);
    if op.OnDrafts? {
      DraftsStepKeeps(s, op, a);
    } else if AnswerOf(s, op) == Written && (op.Act? || op.Select?) && op.id == a.id {
      CommandEvent(s, op, a);
    } else {
      JournalAfter(s, op, a.id);
      OtherDrafts(s, op);
      if op.Assign? && AnswerOf(s, op) == Written {
        AssignIsFresh(s, op, a);
      }
      assert Journal(s, a.id) + [] == Journal(s, a.id);
      hide Next, AnswerOf;
    }
  }

  lemma OtherDrafts(s: Store, op: Op)
    requires !op.OnDrafts?
    ensures Next(s, op).drafts == s.drafts
  {
    hide AnswerOf, NewEvent;
  }

  lemma AssignIsFresh(s: Store, op: Op, a: Assignment)
    requires a in s.assignments && op.Assign? && AnswerOf(s, op) == Written
    ensures op.id != a.id
  {
    FindIs(s.assignments, op.id);
  }

  // ------------------------------------------------------------ the invariant

  lemma NewAssignmentOk(s: Store, op: Op)
    requires Inv(s) && op.Assign? && AnswerOf(s, op) == Written
    ensures var draft := FindApproval(s.drafts.approvals, op.revision).value.draft;
      AssignmentOk(Next(s, op), Assignment(op.id, op.agent, draft))
  {
    AssignedEvents(s, op);
    JournalAfter(s, op, op.id);
    OtherDrafts(s, op);
    hide Next, AnswerOf, NewEvent, EventsOf, D.Inv, OneStands;
    assert [] + [NewEvent(s, op)] == [NewEvent(s, op)];
  }

  lemma FindAppend(assignments: seq<Assignment>, a: Assignment, id: Id)
    ensures Find(assignments + [a], id).Some? <==> Find(assignments, id).Some? || a.id == id
  {
    FindIs(assignments, id);
    FindIs(assignments + [a], id);
    var all := assignments + [a];
    assert all[|assignments|] == a;
    assert forall i :: 0 <= i < |assignments| ==> all[i] == assignments[i];
  }

  lemma TablesStep(s: Store, op: Op)
    requires TablesOk(s)
    ensures TablesOk(Next(s, op))
  {
    hide NewEvent, FindApproval, D.ApprovalsOf;
    if AnswerOf(s, op) != Written {
      NotWritten(s, op);
    } else {
      StepTables(s, op);
      hide Next;
      if Appends(op) {
        NewEventTo(s, op);
      }
      if op.Assign? {
        FindIs(s.assignments, op.id);
        var a := Assignment(op.id, op.agent, FindApproval(s.drafts.approvals, op.revision).value.draft);
        forall id: Id
          ensures Find(s.assignments + [a], id).Some? <==> Find(s.assignments, id).Some? || a.id == id
        {
          FindAppend(s.assignments, a, id);
        }
      }
      hide Find;
    }
  }

  /** A revoked assignment is never standing again, and a command never makes another one stand. */
  lemma StandingStep(s: Store, op: Op, id: Id)
    requires Find(s.assignments, id).Some? && Standing(Next(s, op), id) && Journal(s, id) != []
    ensures Standing(s, id)
  {
    JournalAfter(s, op, id);
    hide Next, EventsOf, D.ApprovalsOf;
    if Appends(op) && op.id == id && AnswerOf(s, op) == Written && op.Assign? {
      assert false;
    }
  }

  lemma OneStandsStep(s: Store, op: Op)
    requires Inv(s)
    ensures OneStands(Next(s, op))
  {
    var after := Next(s, op);
    hide D.Inv, Next, AnswerOf, NewEvent, EventsOf, D.ApprovalsOf, JournalOk, BackedBy;
    forall i | 0 <= i < |s.assignments| && Standing(after, s.assignments[i].id)
      ensures Standing(s, s.assignments[i].id)
    {
      assert AssignmentOk(s, s.assignments[i]);
      FindFirst(s.assignments, i);
      StandingStep(s, op, s.assignments[i].id);
    }
    hide Standing;
    if AnswerOf(s, op) != Written {
      NotWritten(s, op);
    } else {
      StepTables(s, op);
      if op.Assign? {
        AssignedWhereNoneStands(s, op);
      }
    }
  }

  lemma AssignedWhereNoneStands(s: Store, op: Op)
    requires op.Assign? && AnswerOf(s, op) == Written
    ensures var draft := FindApproval(s.drafts.approvals, op.revision).value.draft;
      forall i :: 0 <= i < |s.assignments| && s.assignments[i].agent == op.agent && s.assignments[i].draft == draft ==>
        !Standing(s, s.assignments[i].id)
  {
    hide Standing;
  }

  lemma DraftsStep(s: Store, op: Op)
    requires D.Inv(s.drafts)
    ensures D.Inv(Next(s, op).drafts)
  {
    hide D.Inv, D.Next, NewEvent;
    if op.OnDrafts? {
      R.InvStep(s.drafts, op.op);
    }
  }

  lemma InvStep(s: Store, op: Op)
    requires Inv(s)
    ensures Inv(Next(s, op))
  {
    DraftsStep(s, op);
    TablesStep(s, op);
    OneStandsStep(s, op);
    forall i | 0 <= i < |s.assignments|
      ensures AssignmentOk(Next(s, op), s.assignments[i])
    {
      AssignmentStep(s, op, s.assignments[i]);
    }
    if AnswerOf(s, op) == Written {
      StepTables(s, op);
      if op.Assign? {
        NewAssignmentOk(s, op);
      }
    } else {
      NotWritten(s, op);
    }
    hide Next, AnswerOf, AssignmentOk, TablesOk, OneStands, D.Inv;
  }

  /** In every reachable store: journals 1..n that obey the table, backed by approvals, and one standing assignment. */
  lemma {:induction false} InvAlways(ops: seq<Op>)
    ensures Inv(Run(EMPTY, ops))
  {
    if ops == [] {
      R.EmptyInv();
    } else {
      InvAlways(ops[..|ops| - 1]);
      hide Next, Inv;
      InvStep(Run(EMPTY, ops[..|ops| - 1]), ops[|ops| - 1]);
    }
  }

  // ------------------------------------------------------------ displayed actions are what the commands do

  /** An action is offered exactly when the command, sent with the displayed version or with none, returns. */
  lemma ActionVerdictIsEnforced(s: Store, a: Assignment, role: D.Role, action: Action, ifVersion: Option<int>)
    requires Inv(s) && a in s.assignments && D.Decides(role)
    ensures Journal(s, a.id) != []
    ensures var offered := match action
                           case Activate => ActionsOf(s, a).activate
                           case Pause => ActionsOf(s, a).pause
                           case Revoke => ActionsOf(s, a).revoke;
      !AnswerOf(s, Act(role, a.id, action, ifVersion)).Refused? <==>
        offered && VersionHolds(ifVersion, Desired(s, a.id))
  {
    hide D.Inv, D.ApprovalsOf, EventsOf, JournalOk, BackedBy;
    var i :| 0 <= i < |s.assignments| && s.assignments[i] == a;
    FindFirst(s.assignments, i);
    assert AssignmentOk(s, s.assignments[i]);
  }

  /** Selection is offered exactly when some revision exists whose selection would append an event. */
  lemma SelectVerdictIsEnforced(s: Store, a: Assignment, role: D.Role)
    requires Inv(s) && a in s.assignments && D.Decides(role)
    ensures Journal(s, a.id) != []
    ensures ActionsOf(s, a).select <==> exists revision :: AnswerOf(s, Select(role, a.id, revision, None)) == Written
  {
    var i :| 0 <= i < |s.assignments| && s.assignments[i] == a;
    FindFirst(s.assignments, i);
    assert AssignmentOk(s, s.assignments[i]);
    var approved, j := D.ApprovalsOf(s.drafts, a.draft), Journal(s, a.id);
    hide D.Inv, D.ApprovalsOf, EventsOf, JournalOk;
    var head := Desired(s, a.id);
    assert IsApproved(approved, j[|j| - 1]);
    if ActionsOf(s, a).select {
      OtherApproval(s.drafts, a.draft, head.revision);
      var other :| FindApproval(approved, other).Some? && other != head.revision;
      assert AnswerOf(s, Select(role, a.id, other, None)) == Written;
    }
    if revision :| AnswerOf(s, Select(role, a.id, revision, None)) == Written {
      FindApprovalIs(approved, revision);
      FindApprovalIs(approved, head.revision);
      TwoApprovals(approved, FindApproval(approved, revision).value, FindApproval(approved, head.revision).value);
    }
  }

  lemma TwoApprovals(approved: seq<D.Approval>, a: D.Approval, b: D.Approval)
    requires a in approved && b in approved && a != b
    ensures |approved| > 1
  {
  }

  lemma OtherApproval(s: D.Store, draft: Id, revision: Id)
    requires D.Inv(s) && |D.ApprovalsOf(s, draft)| > 1
    ensures exists other :: FindApproval(D.ApprovalsOf(s, draft), other).Some? && other != revision
  {
    var approved := D.ApprovalsOf(s, draft);
    R.DraftSound(s, draft);
    hide D.Inv, D.ApprovalsOf, D.LineageOk;
    FindApprovalIs(approved, approved[0].revision);
    FindApprovalIs(approved, approved[1].revision);
    if approved[0].revision == approved[1].revision {
      SameApproval(s, draft, approved[0], approved[1]);
    }
  }

  /**
   * Nothing that was ever in force is lost: while the assignment stands, every revision of its journal can be selected.
   */
  lemma RollbackIsAlwaysPossible(s: Store, a: Assignment, role: D.Role, k: nat)
    requires Inv(s) && a in s.assignments && D.Decides(role) && Standing(s, a.id) && k < |Journal(s, a.id)|
    ensures !AnswerOf(s, Select(role, a.id, Journal(s, a.id)[k].revision, None)).Refused?
  {
    var i :| 0 <= i < |s.assignments| && s.assignments[i] == a;
    FindFirst(s.assignments, i);
    assert AssignmentOk(s, s.assignments[i]);
    hide D.Inv, D.ApprovalsOf, EventsOf, JournalOk;
    assert IsApproved(D.ApprovalsOf(s.drafts, a.draft), Journal(s, a.id)[k]);
  }

  /**
   * The revision in force is an approved revision of the lineage, with the digest that was approved and nothing
   * blocking.
   */
  lemma DesiredIsApproved(s: Store, a: Assignment, k: nat)
    requires Inv(s) && a in s.assignments && k < |Journal(s, a.id)|
    ensures var e := Journal(s, a.id)[k];
      exists n :: 0 <= n < |D.Lineage(s.drafts, a.draft)|
        && var r := D.Lineage(s.drafts, a.draft)[n];
           r.id == e.revision && r.digest == e.digest && r.semantic.blocking == 0 == r.security.blocking
  {
    var i :| 0 <= i < |s.assignments| && s.assignments[i] == a;
    assert AssignmentOk(s, s.assignments[i]);
    R.DraftSound(s.drafts, a.draft);
    hide D.Inv, D.ApprovalsOf, D.Lineage, EventsOf, JournalOk;
    var e, approved := Journal(s, a.id)[k], D.ApprovalsOf(s.drafts, a.draft);
    assert IsApproved(approved, e);
    FindApprovalIs(approved, e.revision);
    var approval := FindApproval(approved, e.revision).value;
    R.ListedApproval(s.drafts, a.draft, approval);
    assert D.Lineage(s.drafts, a.draft)[approval.number - 1].id == e.revision;
  }

  // ------------------------------------------------------------ optimistic versions

  predicate Claims(op: Op, id: Id, version: int) {
    (op.Act? || op.Select?) && op.id == id && op.ifVersion == Some(version)
  }

  /** How many commands of a run that named this version of this assignment appended an event. */
  function AppendsAt(s: Store, ops: seq<Op>, id: Id, version: int): nat {
    if ops == [] then 0
    else
      var init, last := ops[..|ops| - 1], ops[|ops| - 1];
      AppendsAt(s, init, id, version)
      + if Claims(last, id, version) && AnswerOf(Run(s, init), last) == Written then 1 else 0
  }

  lemma ClaimAppends(s: Store, op: Op, id: Id, version: int)
    requires Inv(s) && Claims(op, id, version) && AnswerOf(s, op) == Written
    ensures version == |Journal(s, id)| && |Journal(Next(s, op), id)| == version + 1
  {
    JournalAfter(s, op, id);
    FindIs(s.assignments, id);
    var a := Find(s.assignments, id).value;
    var i :| 0 <= i < |s.assignments| && s.assignments[i] == a;
    assert AssignmentOk(s, s.assignments[i]);
    hide Next, D.Inv, D.ApprovalsOf, EventsOf, BackedBy;
    HeadSeq(Journal(s, id));
  }

  /** Of all commands that name one version of one assignment, in any run, at most one appends. */
  lemma {:induction false} OneWriterPerVersion(s: Store, ops: seq<Op>, id: Id, version: int)
    requires Inv(s)
    ensures Inv(Run(s, ops)) && AppendsAt(s, ops, id, version) <= 1
    ensures AppendsAt(s, ops, id, version) == 1 ==> |Journal(Run(s, ops), id)| > version
  {
    hide Next, Inv, AnswerOf, Journal, Claims;
    if ops != [] {
      var init, last := ops[..|ops| - 1], ops[|ops| - 1];
      OneWriterPerVersion(s, init, id, version);
      InvStep(Run(s, init), last);
      JournalAfter(Run(s, init), last, id);
      if Claims(last, id, version) && AnswerOf(Run(s, init), last) == Written {
        ClaimAppends(Run(s, init), last, id, version);
      }
    }
  }

  /** Journals only grow, whatever happens. */
  lemma {:induction false} JournalOnlyGrows(s: Store, ops: seq<Op>, id: Id)
    ensures Journal(s, id) <= Journal(Run(s, ops), id)
  {
    hide Next, AnswerOf, Journal;
    if ops != [] {
      JournalOnlyGrows(s, ops[..|ops| - 1], id);
      JournalAfter(Run(s, ops[..|ops| - 1]), ops[|ops| - 1], id);
    }
  }

  /** A revoked assignment stays as it was for good; taking the capability back is a new assignment. */
  lemma {:induction false} RevokedIsFinal(s: Store, ops: seq<Op>, a: Assignment)
    requires Inv(s) && a in s.assignments && Journal(s, a.id) != [] && Desired(s, a.id).state == Revoked
    ensures Inv(Run(s, ops)) && a in Run(s, ops).assignments
    ensures Journal(Run(s, ops), a.id) == Journal(s, a.id)
  {
    hide Next, Inv, EventsOf;
    if ops != [] {
      var init, last := ops[..|ops| - 1], ops[|ops| - 1];
      RevokedIsFinal(s, init, a);
      InvStep(Run(s, init), last);
      RevokedStep(Run(s, init), last, a);
    }
  }

  lemma RevokedStep(s: Store, op: Op, a: Assignment)
    requires a in s.assignments && Journal(s, a.id) != [] && Desired(s, a.id).state == Revoked
    ensures a in Next(s, op).assignments && Journal(Next(s, op), a.id) == Journal(s, a.id)
  {
    JournalAfter(s, op, a.id);
    hide EventsOf, NewEvent;
    if AnswerOf(s, op) == Written {
      StepTables(s, op);
      if op.Assign? {
        FindIs(s.assignments, op.id);
      }
    } else {
      NotWritten(s, op);
    }
    hide Next;
  }
}
