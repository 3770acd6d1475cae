/** The registry's tables in place: each call reads, refuses or inserts rows, inside one transaction. */
module Registry {
  import opened Common
  import opened Rows
  import opened Findings
  import D = Drafts
  import L = Lifecycle
  import R = DraftRuns

  class Store {
    var captures: seq<D.Capture>
    var revisions: seq<D.Revision>
    var decisions: map<D.Id, D.Decision>
    var approvals: seq<D.Approval>
    var agents: map<L.Id, bool>
    var assignments: seq<L.Assignment>
    var events: seq<L.Event>

    function Drafts(): D.Store
      reads this
    {
      D.Store(captures, revisions, decisions, approvals)
    }

    function Tables(): L.Store
      reads this
    {
      L.Store(Drafts(), agents, assignments, events)
    }

    constructor ()
      ensures Tables() == L.EMPTY
    {
      captures, revisions, decisions, approvals := [], [], map[], [];
      agents, assignments, events := map[], [], [];
    }

    /** One `draft_revisions` row; a taken identifier or revision number is a constraint failure. */
    method InsertRevision(r: D.Revision) returns (ok: bool)
      modifies this`revisions
      ensures ok <==> !D.HasRevision(old(Drafts()), r.id)
                      && !exists x :: x in D.OfDraft(old(revisions), r.draft) && x.number == r.number
      ensures revisions == if ok then old(revisions) + [r] else old(revisions)
    {
      ok := true;
      var k := 0;
      while k < |revisions|
        invariant 0 <= k <= |revisions|
        invariant ok <==> forall i :: 0 <= i < k ==>
          revisions[i].id != r.id && !(revisions[i].draft == r.draft && revisions[i].number == r.number)
      {
        if revisions[k].id == r.id || (revisions[k].draft == r.draft && revisions[k].number == r.number) {
          ok := false;
        }
        k := k + 1;
      }
      FilterMembers(revisions, (x: D.Revision) => x.draft == r.draft);
      if ok {
        revisions := revisions + [r];
      }
    }

    /** The arrival and its first revision are one transaction: a failed insert takes the arrival back with it. */
    method SubmitCapture(role: D.Role, capture: D.Id, draft: D.Id, revision: D.Id, intake: D.Intake)
      returns (answer: Option<D.Refusal>)
      modifies this
      ensures var op := D.Submit(role, capture, draft, revision, intake);
        answer == D.RefusalOf(old(Drafts()), op) && Drafts() == D.Next(old(Drafts()), op)
      ensures agents == old(agents) && assignments == old(assignments) && events == old(events)
    {
      hide ReviewOf, D.OfDraft;
      if role == D.NoRole {
        return Some(D.Forbidden);
      }
      if D.HasCapture(Drafts(), capture) {
        return Some(D.ConstraintFailed);
      }
      var before := captures;
      var drafted := intake.Compiled? && !intake.content.oversize;
      captures := captures + [D.Capture(capture, drafted)];
      if drafted {
        var listed := Cap(intake.redactions).listed;
        var row := D.NewRevision(revision, draft, 1, None, capture, intake.content, listed, |intake.redactions|);
        var ok := InsertRevision(row);
        if !ok {
          captures := before;
          return Some(D.ConstraintFailed);
        }
      }
      answer := None;
    }

    /** Every edited section adds what its own redaction found, in section order. */
    method CollectRedactions(found: seq<seq<string>>) returns (added: seq<string>)
      ensures added == Flatten(found)
    {
      added := [];
      for k := 0 to |found|
        invariant added == Flatten(found[..k])
      {
        assert found[..k + 1][..k] == found[..k];
        added := added + found[k];
      }
      assert found[..|found|] == found;
    }

    /** An edit or a recompile, always as one more revision of the head. */
    method ReviseDraft(role: D.Role, draft: D.Id, revision: D.Id, recompile: bool, misshapen: bool, content: D.Content,
                       found: seq<seq<string>>)
      returns (answer: Option<D.Refusal>)
      requires D.Inv(Drafts())
      modifies this
      ensures var change := if misshapen then D.Misshapen
                            else if recompile then D.Recompile(content)
                            else D.Edit(content, Flatten(found));
        var op := D.Revise(role, draft, revision, change);
        answer == D.RefusalOf(old(Drafts()), op) && Drafts() == D.Next(old(Drafts()), op)
      ensures agents == old(agents) && assignments == old(assignments) && events == old(events)
    {
      hide ReviewOf, D.OfDraft, D.Inv, Flatten;
      if !D.Decides(role) {
        return Some(D.Forbidden);
      }
      var lineage := D.OfDraft(revisions, draft);
      if lineage == [] {
        return Some(D.NotFound);
      }
      if draft in decisions && decisions[draft].verdict == D.Rejected {
        return Some(D.Conflict(Some(D.Rejected)));
      }
      if misshapen {
        return Some(D.InvalidSchema);
      }
      if content.oversize {
        return Some(D.LimitExceeded);
      }
      var head := lineage[|lineage| - 1];
      var redactions, total := head.redactions, head.redactionsTotal;
      if !recompile {
        var added := CollectRedactions(found);
        redactions, total := redactions + added, total + |added|;
      }
      var row := D.NewRevision(revision, head.draft, head.number + 1, Some(head.id), head.capture, content,
                               Cap(redactions).listed, total);
      R.NextNumberIsFree(Drafts(), draft);
      var ok := InsertRevision(row);
      if !ok {
        return Some(D.ConstraintFailed);
      }
      answer := None;
    }

    /** The first decision writes both tables; a later approval writes only the approval of its revision. */
    method DecideDraft(role: D.Role, draft: D.Id, verdict: D.Verdict, named: Option<D.Id>, reason: Option<D.Prose>)
      returns (answer: Option<D.Refusal>)
      modifies this
      ensures var op := D.Decide(role, draft, verdict, named, reason);
        answer == D.RefusalOf(old(Drafts()), op) && Drafts() == D.Next(old(Drafts()), op)
      ensures agents == old(agents) && assignments == old(assignments) && events == old(events)
    {
      hide ReviewOf, D.OfDraft;
      if !D.Decides(role) {
        return Some(D.Forbidden);
      }
      var lineage := D.OfDraft(revisions, draft);
      if lineage == [] {
        return Some(D.NotFound);
      }
      var head := lineage[|lineage| - 1];
      if named.Some? && named.value != head.id {
        return Some(D.Conflict(None));
      }
      var already := draft in decisions;
      if already && (decisions[draft].verdict == D.Rejected || verdict == D.Rejected) {
        return Some(D.Conflict(Some(decisions[draft].verdict)));
      }
      if D.RevisionApproved(Drafts(), head.id) {
        return Some(D.Conflict(Some(D.Approved)));
      }
      var eligibility := D.EligibilityFrom(head.semantic.blocking, head.security.blocking, true, false);
      if verdict == D.Approved && eligibility != D.Approvable {
        return Some(D.PreconditionFailed(eligibility));
      }
      var text := D.ReasonText(reason);
      if text.Err? {
        return Some(text.error);
      }
      if verdict == D.Rejected && text.value.None? {
        return Some(D.InvalidSchema);
      }
      if !already {
        if !D.FitsColumn(text.value) {
          return Some(D.ConstraintFailed);
        }
        decisions := decisions[draft := D.Decision(head.id, verdict, head.digest, text.value)];
      }
      if verdict == D.Approved {
        approvals := approvals + [D.Approval(draft, head.id, head.number, head.digest)];
      }
      answer := None;
    }

    // ---------------------------------------------------------- assignments

    /** The first assignment of the lineage at the agent whose journal does not end in `revoked`. */
    method LiveAssignment(agent: L.Id, draft: L.Id) returns (live: bool)
      ensures live == L.LiveAt(Tables(), agent, draft)
    {
      var k := 0;
      while k < |assignments|
        invariant 0 <= k <= |assignments|
        invariant forall i :: 0 <= i < k && assignments[i].agent == agent && assignments[i].draft == draft ==>
          !L.Standing(Tables(), assignments[i].id)
      {
        if assignments[k].agent == agent && assignments[k].draft == draft && L.Standing(Tables(), assignments[k].id) {
          return true;
        }
        k := k + 1;
      }
      live := false;
    }

    method AppendEvent(id: L.Id, number: nat, kind: L.Kind, state: L.State, revision: L.Id, digest: string,
                       direction: Option<L.Direction>)
      modifies this`events
      ensures events == old(events) + [L.Event(id, number, kind, state, revision, digest, direction)]
    {
      events := events + [L.Event(id, number, kind, state, revision, digest, direction)];
    }

    /** Eligibility first, then the assignment and its first event together. */
    method AssignRevision(role: D.Role, id: L.Id, agent: L.Id, revision: L.Id) returns (answer: L.Answer)
      modifies this
      ensures var op := L.Assign(role, id, agent, revision);
        answer == L.AnswerOf(old(Tables()), op) && Tables() == L.Next(old(Tables()), op)
    {
      if !D.Decides(role) {
        return L.Refused(L.Forbidden);
      }
      if agent !in agents {
        return L.Refused(L.NotAssignable(L.AgentNotInFleet));
      }
      if !agents[agent] {
        return L.Refused(L.NotAssignable(L.AgentNotActive));
      }
      var approval := L.FindApproval(approvals, revision);
      if approval.None? {
        return L.Refused(L.NotAssignable(L.RevisionNotApproved));
      }
      var live := LiveAssignment(agent, approval.value.draft);
      if live {
        return L.Refused(L.NotAssignable(L.AlreadyAssigned));
      }
      if L.Find(assignments, id).Some? {
        return L.Refused(L.ConstraintFailed);
      }
      assignments := assignments + [L.Assignment(id, agent, approval.value.draft)];
      AppendEvent(id, 1, L.AssignedEvent, L.Assigned, revision, approval.value.digest, None);
      answer := L.Written;
    }

    /** Activate, pause or revoke against the transition table; the state already asked for is a convergent answer. */
    method ApplyAction(role: D.Role, id: L.Id, action: L.Action, ifVersion: Option<int>) returns (answer: L.Answer)
      modifies this
      ensures var op := L.Act(role, id, action, ifVersion);
        answer == L.AnswerOf(old(Tables()), op) && Tables() == L.Next(old(Tables()), op)
    {
      if !D.Decides(role) {
        return L.Refused(L.Forbidden);
      }
      var journal := L.EventsOf(events, id);
      if L.Find(assignments, id).None? || journal == [] {
        return L.Refused(L.NotFound);
      }
      var head := journal[|journal| - 1];
      if ifVersion.Some? && ifVersion.value != head.number {
        return L.Refused(L.StaleVersion(head.state));
      }
      var target := L.TargetOf(action);
      if head.state == target {
        return L.Unchanged;
      }
      if !L.Legal(head.state, target) {
        return L.Refused(L.IllegalTransition(head.state));
      }
      AppendEvent(id, head.number + 1, L.EventOf(action), target, head.revision, head.digest, None);
      answer := L.Written;
    }

    /** Choose an approved revision of the lineage; going back to a lower number is recorded as a rollback. */
    method SelectRevision(role: D.Role, id: L.Id, revision: L.Id, ifVersion: Option<int>) returns (answer: L.Answer)
      modifies this
      ensures var op := L.Select(role, id, revision, ifVersion);
        answer == L.AnswerOf(old(Tables()), op) && Tables() == L.Next(old(Tables()), op)
    {
      if !D.Decides(role) {
        return L.Refused(L.Forbidden);
      }
      var journal, row := L.EventsOf(events, id), L.Find(assignments, id);
      if row.None? || journal == [] {
        return L.Refused(L.NotFound);
      }
      var head := journal[|journal| - 1];
      if ifVersion.Some? && ifVersion.value != head.number {
        return L.Refused(L.StaleVersion(head.state));
      }
      if head.state == L.Revoked {
        return L.Refused(L.IllegalTransition(L.Revoked));
      }
      var approved := D.ForDraft(approvals, row.value.draft);
      var target := L.FindApproval(approved, revision);
      if target.None? {
        return L.Refused(L.NotApproved(head.state));
      }
      if revision == head.revision {
        return L.Unchanged;
      }
      var back := target.value.number < L.RevisionNumberOf(approved, head.revision);
      AppendEvent(id, head.number + 1, L.RevisionSelected, head.state, revision, target.value.digest,
                  Some(if back then L.Rollback else L.Update));
      answer := L.Written;
    }
  }

  function Flatten(found: seq<seq<string>>): seq<string> {
    if found == [] then [] else Flatten(found[..|found| - 1]) + found[|found| - 1]
  }
}
