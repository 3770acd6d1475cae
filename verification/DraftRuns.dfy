/** What every run of captures, revisions and decisions keeps, and why the displayed verdicts are the enforced ones. */
module DraftRuns {
  import opened Common
  import opened Rows
  import opened Findings
  import opened Drafts

  // ------------------------------------------------------------ how one step changes the selections

  lemma LineageSnoc(revisions: seq<Revision>, r: Revision, draft: Id)
    ensures OfDraft(revisions + [r], draft) == OfDraft(revisions, draft) + if r.draft == draft then [r] else []
  {
    FilterSnoc(revisions, r, (x: Revision) => x.draft == draft);
  }

  lemma ApprovalsSnoc(approvals: seq<Approval>, a: Approval, draft: Id)
    ensures ForDraft(approvals + [a], draft) == ForDraft(approvals, draft) + if a.draft == draft then [a] else []
  {
    FilterSnoc(approvals, a, (x: Approval) => x.draft == draft);
  }

  /** An accepted operation seen from one draft: what its lineage, approvals and decision become. */
  lemma StepEffect(s: Store, op: Op, draft: Id)
    requires RefusalOf(s, op).None?
    ensures Lineage(Next(s, op), draft) == Lineage(s, draft) + AddedRevisions(s, op, draft)
    ensures ApprovalsOf(Next(s, op), draft) == ApprovalsOf(s, draft) + AddedApprovals(s, op, draft)
    ensures DecisionOf(Next(s, op), draft)
      == if op.Decide? && op.draft == draft && draft !in s.decisions then
           Some(Decision(HeadOf(s, draft).id, op.verdict, HeadOf(s, draft).digest, ReasonText(op.reason).value))
         else DecisionOf(s, draft)
  {
    hide ReviewOf, OfDraft, ForDraft;
    match op
    case Submit(_, _, _, _, _) =>
      if MakesDraft(op) {
        LineageSnoc(s.revisions, FirstRevision(op), draft);
      }
    case Revise(_, d, _, _) =>
      HeadInDraft(s, d);
      LineageSnoc(s.revisions, NextRevision(HeadOf(s, d), op), draft);
    case Decide(_, d, _, _, _) =>
      var head := HeadOf(s, d);
      ApprovalsSnoc(s.approvals, Approval(d, head.id, head.number, head.digest), draft);
  }

  lemma HeadInDraft(s: Store, draft: Id)
    requires Lineage(s, draft) != []
    ensures HeadOf(s, draft).draft == draft && HeadOf(s, draft) in s.revisions
  {
    LineageMembers(s, draft);
  }

  lemma LineageMembers(s: Store, draft: Id)
    ensures forall r :: r in Lineage(s, draft) <==> r in s.revisions && r.draft == draft
    ensures forall k :: 0 <= k < |Lineage(s, draft)| ==> Lineage(s, draft)[k] in s.revisions
    ensures forall k :: 0 <= k < |Lineage(s, draft)| ==> Lineage(s, draft)[k].draft == draft
  {
    FilterMembers(s.revisions, (r: Revision) => r.draft == draft);
    assert forall k :: 0 <= k < |Lineage(s, draft)| ==> Lineage(s, draft)[k] in Lineage(s, draft);
  }

  lemma ApprovalMembers(s: Store, draft: Id)
    ensures forall a :: a in ApprovalsOf(s, draft) <==> a in s.approvals && a.draft == draft
  {
    FilterMembers(s.approvals, (a: Approval) => a.draft == draft);
  }

  /** Revision identifiers are unique across drafts. */
  lemma SameRevision(s: Store, a: Revision, b: Revision)
    requires RowsOk(s) && a in s.revisions && b in s.revisions && a.id == b.id
    ensures a == b
  {
    var i :| 0 <= i < |s.revisions| && s.revisions[i] == a;
    var j :| 0 <= j < |s.revisions| && s.revisions[j] == b;
  }

  /** A revision of a sound lineage is approved exactly when its draft's approvals name its number. */
  lemma ApprovedIsListed(s: Store, draft: Id, k: nat)
    requires Inv(s) && k < |Lineage(s, draft)|
    ensures RevisionApproved(s, Lineage(s, draft)[k].id) <==>
      exists a :: a in ApprovalsOf(s, draft) && a.number == k + 1
  {
    var r := Lineage(s, draft)[k];
    assert DraftOk(s, draft);
    if i :| 0 <= i < |s.approvals| && s.approvals[i].revision == r.id {
      hide *;
      ApprovalNames(s, s.approvals[i], draft, k);
    }
    if a :| a in ApprovalsOf(s, draft) && a.number == k + 1 {
      ListedApproval(s, draft, a);
    }
  }

  lemma ListedApproval(s: Store, draft: Id, a: Approval)
    requires DraftOk(s, draft) && a in ApprovalsOf(s, draft)
    ensures ApprovalAt(Lineage(s, draft), a) && RevisionApproved(s, a.revision)
  {
    ApprovalMembers(s, draft);
    hide OfDraft, ForDraft, LineageOk, DecisionOk;
    var i :| 0 <= i < |s.approvals| && s.approvals[i] == a;
    assert s.approvals[i].revision == a.revision;
  }

  lemma DraftSound(s: Store, draft: Id)
    requires Inv(s)
    ensures DraftOk(s, draft) && RowsOk(s)
  {
  }

  lemma NumberOf(s: Store, draft: Id, k: nat)
    requires DraftOk(s, draft) && k < |Lineage(s, draft)|
    ensures Lineage(s, draft)[k].number == k + 1 && Lineage(s, draft)[k].draft == draft
    ensures Lineage(s, draft)[k] in s.revisions
  {
    assert RevisionAt(Lineage(s, draft), k);
    LineageMembers(s, draft);
  }

  lemma ApprovalNames(s: Store, a: Approval, draft: Id, k: nat)
    requires Inv(s) && a in s.approvals && k < |Lineage(s, draft)| && a.revision == Lineage(s, draft)[k].id
    ensures a in ApprovalsOf(s, draft) && a.number == k + 1
  {
    hide Inv, Lineage, ApprovalsOf, DraftOk, RowsOk;
    DraftSound(s, a.draft);
    DraftSound(s, draft);
    ApprovalMembers(s, a.draft);
    ListedApproval(s, a.draft, a);
    NumberOf(s, a.draft, a.number - 1);
    NumberOf(s, draft, k);
    SameRevision(s, Lineage(s, a.draft)[a.number - 1], Lineage(s, draft)[k]);
  }

  // ------------------------------------------------------------ the invariant

  lemma GrowLineage(l: seq<Revision>, r: Revision)
    requires LineageOk(l) && r.number == |l| + 1 && CappedList(r)
    requires if l == [] then r.parent == None else Follows(l[|l| - 1], r) && r.capture == l[0].capture
    ensures LineageOk(l + [r])
  {
    hide Follows, CappedList;
    var all := l + [r];
    forall k | 0 <= k < |all|
      ensures RevisionAt(all, k)
    {
      if k < |l| {
        assert RevisionAt(l, k);
      }
    }
  }

  lemma NextRevisionFollows(l: seq<Revision>, op: Op)
    requires LineageOk(l) && l != [] && op.Revise? && !op.change.Misshapen?
    ensures LineageOk(l + [NextRevision(l[|l| - 1], op)])
  {
    hide ReviewOf;
    assert RevisionAt(l, |l| - 1);
    var head := l[|l| - 1];
    var r := NextRevision(head, op);
    assert head.redactions <= r.redactions;
    GrowLineage(l, r);
  }

  lemma SubmitKeepsDraft(s: Store, op: Op, draft: Id)
    requires DraftOk(s, draft) && op.Submit? && RefusalOf(s, op).None?
    ensures DraftOk(Next(s, op), draft)
  {
    hide ReviewOf, OfDraft, ForDraft;
    StepEffect(s, op, draft);
    Unchanged(Lineage(s, draft), ApprovalsOf(s, draft));
    if MakesDraft(op) && op.draft == draft {
      FirstOfLineage(s, draft);
      NoApprovalsYet(s, draft);
      var r := FirstRevision(op);
      GrowLineage([], r);
      assert [] + [r] == [r];
      EmptyApprovalsOk([r]);
      hide LineageOk, ApprovalsOk, Next;
    } else {
      hide *;
      SameDraft(s, Next(s, op), draft);
    }
  }

  lemma Unchanged(l: seq<Revision>, a: seq<Approval>)
    ensures l + [] == l && a + [] == a
  {
  }

  lemma SameDraft(s: Store, after: Store, draft: Id)
    requires DraftOk(s, draft)
    requires Lineage(after, draft) == Lineage(s, draft) && ApprovalsOf(after, draft) == ApprovalsOf(s, draft)
    requires DecisionOf(after, draft) == DecisionOf(s, draft)
    ensures DraftOk(after, draft)
  {
  }

  lemma EmptyApprovalsOk(l: seq<Revision>)
    ensures ApprovalsOk(l, [])
  {
  }

  lemma LineageStarts(s: Store, draft: Id)
    requires DraftOk(s, draft) && Lineage(s, draft) != []
    ensures exists r :: r in Lineage(s, draft) && r.number == 1
  {
    assert RevisionAt(Lineage(s, draft), 0);
    assert Lineage(s, draft)[0] in Lineage(s, draft);
  }

  lemma FirstOfLineage(s: Store, draft: Id)
    requires DraftOk(s, draft) && !exists r :: r in Lineage(s, draft) && r.number == 1
    ensures Lineage(s, draft) == []
  {
    if Lineage(s, draft) != [] {
      LineageStarts(s, draft);
    }
  }

  lemma NoApprovalsYet(s: Store, draft: Id)
    requires DraftOk(s, draft) && Lineage(s, draft) == []
    ensures ApprovalsOf(s, draft) == [] && draft !in s.decisions
  {
    var a := ApprovalsOf(s, draft);
    assert forall k :: 0 <= k < |a| ==> ApprovalAt([], a[k]);
    assert |a| > 0 ==> ApprovalAt([], a[0]);
  }

  /** The number after the head's is never taken in its draft. */
  lemma NextNumberIsFree(s: Store, draft: Id)
    requires Inv(s) && Lineage(s, draft) != []
    ensures HeadOf(s, draft).draft == draft
    ensures !exists r :: r in Lineage(s, draft) && r.number == HeadOf(s, draft).number + 1
  {
    hide Inv, Lineage;
    DraftSound(s, draft);
    var l := Lineage(s, draft);
    NumberOf(s, draft, |l| - 1);
    forall r | r in l
      ensures r.number <= |l|
    {
      var k :| 0 <= k < |l| && l[k] == r;
      NumberOf(s, draft, k);
    }
  }

  lemma ReviseKeepsDraft(s: Store, op: Op, draft: Id)
    requires DraftOk(s, draft) && op.Revise? && RefusalOf(s, op).None?
    ensures DraftOk(Next(s, op), draft)
  {
    hide ReviewOf, OfDraft, ForDraft, LineageOk, ApprovalsOk;
    StepEffect(s, op, draft);
    Unchanged(Lineage(s, draft), ApprovalsOf(s, draft));
    if draft == op.draft {
      NextRevisionFollows(Lineage(s, draft), op);
      LongerLineage(Lineage(s, draft), NextRevision(HeadOf(s, draft), op), ApprovalsOf(s, draft));
      hide NextRevision, Next;
    } else {
      hide *;
      SameDraft(s, Next(s, op), draft);
    }
  }

  lemma LongerLineage(l: seq<Revision>, r: Revision, a: seq<Approval>)
    requires ApprovalsOk(l, a)
    ensures ApprovalsOk(l + [r], a)
  {
    forall k | 0 <= k < |a|
      ensures ApprovalAt(l + [r], a[k])
    {
      assert ApprovalAt(l, a[k]);
    }
  }

  /** The head may be approved once: its number is above every approval already given. */
  lemma ApproveHead(l: seq<Revision>, a: seq<Approval>, next: Approval)
    requires LineageOk(l) && ApprovalsOk(l, a) && l != [] && ApprovalAt(l, next) && next.number == |l|
    requires !exists b :: b in a && b.number == |l|
    ensures ApprovalsOk(l, a + [next])
  {
    forall j | 0 <= j < |a|
      ensures a[j].number < next.number
    {
      assert a[j] in a && ApprovalAt(l, a[j]);
    }
  }

  lemma DecisionAfter(s: Store, op: Op)
    requires DraftOk(s, op.draft) && op.Decide? && RefusalOf(s, op).None?
    ensures DecisionOk(DecisionOf(Next(s, op), op.draft), Lineage(s, op.draft),
                       ApprovalsOf(s, op.draft) + AddedApprovals(s, op, op.draft))
  {
    hide ApprovalsOk, LineageOk, OfDraft, ForDraft;
    StepEffect(s, op, op.draft);
    hide Next;
  }

  lemma ApprovalsAfter(s: Store, op: Op)
    requires Inv(s) && op.Decide? && RefusalOf(s, op).None?
    ensures ApprovalsOk(Lineage(s, op.draft), ApprovalsOf(s, op.draft) + AddedApprovals(s, op, op.draft))
  {
    hide OfDraft, ForDraft, DecisionOk, RowsOk;
    assert DraftOk(s, op.draft);
    var l := Lineage(s, op.draft);
    if op.verdict == Approved {
      ApprovedIsListed(s, op.draft, |l| - 1);
      assert RevisionAt(l, |l| - 1);
      ApproveHead(l, ApprovalsOf(s, op.draft), AddedApprovals(s, op, op.draft)[0]);
    }
  }

  lemma DecideKeepsDraft(s: Store, op: Op, draft: Id)
    requires Inv(s) && op.Decide? && RefusalOf(s, op).None?
    ensures DraftOk(Next(s, op), draft)
  {
    assert DraftOk(s, draft);
    StepEffect(s, op, draft);
    Unchanged(Lineage(s, draft), ApprovalsOf(s, draft));
    if draft == op.draft {
      DecisionAfter(s, op);
      ApprovalsAfter(s, op);
      hide Next, OfDraft, ForDraft, LineageOk, ApprovalsOk, DecisionOk, RefusalOf;
    } else {
      hide *;
      SameDraft(s, Next(s, op), draft);
    }
  }

  lemma RowsStep(s: Store, op: Op)
    requires Inv(s)
    ensures RowsOk(Next(s, op))
  {
    hide ReviewOf, LineageOk, ApprovalsOk, DecisionOk;
    if RefusalOf(s, op).None? {
      match op
      case Submit(_, capture, _, _, _) => SubmitKeepsRows(s, op);
      case Revise(_, draft, _, _) =>
        LineageMembers(s, draft);
        assert HeadOf(s, draft) in s.revisions;
        ReviseKeepsRows(s, NextRevision(HeadOf(s, draft), op), HeadOf(s, draft));
      case Decide(_, _, _, _, _) =>
        var after := Next(s, op);
        assert after.captures == s.captures && after.revisions == s.revisions;
        SameRows(s, after);
    }
  }

  lemma SameRows(s: Store, after: Store)
    requires RowsOk(s) && after.captures == s.captures && after.revisions == s.revisions
    ensures RowsOk(after)
  {
    forall i | 0 <= i < |s.captures|
      ensures CaptureHasRevision(s, s.captures[i].id) <==> CaptureHasRevision(after, s.captures[i].id)
    {
    }
    forall i | 0 <= i < |s.revisions|
      ensures HasCapture(after, s.revisions[i].capture)
    {
      assert HasCapture(s, s.revisions[i].capture);
    }
  }

  lemma SubmitKeepsRows(s: Store, op: Op)
    requires RowsOk(s) && op.Submit? && RefusalOf(s, op).None?
    ensures RowsOk(Next(s, op))
  {
    var after := Next(s, op);
    var c := Capture(op.capture, MakesDraft(op));
    forall i | 0 <= i < |after.captures|
      ensures after.captures[i].drafted <==> CaptureHasRevision(after, after.captures[i].id)
    {
      RevisionOfCapture(s, op, after.captures[i].id);
      if i == |s.captures| {
        if MakesDraft(op) {
          assert after.revisions[|s.revisions|].capture == op.capture;
        }
      }
    }
    forall i | 0 <= i < |after.revisions|
      ensures HasCapture(after, after.revisions[i].capture)
    {
      if i < |s.revisions| {
        assert HasCapture(s, s.revisions[i].capture);
        var k :| 0 <= k < |s.captures| && s.captures[k].id == s.revisions[i].capture;
        assert after.captures[k] == s.captures[k];
      } else {
        assert after.captures[|s.captures|] == c;
      }
    }
  }

  lemma RevisionOfCapture(s: Store, op: Op, capture: Id)
    requires RowsOk(s) && op.Submit? && RefusalOf(s, op).None?
    ensures CaptureHasRevision(Next(s, op), capture) <==>
      CaptureHasRevision(s, capture) || (MakesDraft(op) && capture == op.capture)
    ensures !CaptureHasRevision(s, op.capture)
  {
    var after := Next(s, op);
    if i :| 0 <= i < |s.revisions| && s.revisions[i].capture == capture {
      assert after.revisions[i] == s.revisions[i];
    }
    if MakesDraft(op) && capture == op.capture {
      assert after.revisions[|s.revisions|].capture == capture;
    }
    assert forall i :: 0 <= i < |s.revisions| ==> HasCapture(s, s.revisions[i].capture);
  }

  lemma ReviseKeepsRows(s: Store, r: Revision, head: Revision)
    requires RowsOk(s) && head in s.revisions && r.capture == head.capture && !HasRevision(s, r.id)
    ensures RowsOk(s.(revisions := s.revisions + [r]))
  {
    var after := s.(revisions := s.revisions + [r]);
    var h :| 0 <= h < |s.revisions| && s.revisions[h] == head;
    assert HasCapture(s, s.revisions[h].capture);
    forall capture: Id
      ensures CaptureHasRevision(after, capture) <==> CaptureHasRevision(s, capture)
    {
      if i :| 0 <= i < |s.revisions| && s.revisions[i].capture == capture {
        assert after.revisions[i] == s.revisions[i];
      }
      if i :| 0 <= i < |after.revisions| && after.revisions[i].capture == capture {
        assert i < |s.revisions| ==> s.revisions[i].capture == capture;
        assert i == |s.revisions| ==> s.revisions[h].capture == capture;
      }
    }
    forall i | 0 <= i < |after.revisions|
      ensures HasCapture(after, after.revisions[i].capture)
    {
      assert HasCapture(s, s.revisions[if i < |s.revisions| then i else h].capture);
    }
  }

  lemma InvStep(s: Store, op: Op)
    requires Inv(s)
    ensures Inv(Next(s, op))
  {
    RowsStep(s, op);
    if RefusalOf(s, op).None? {
      hide DraftOk, RefusalOf, Next, RowsOk;
      forall draft: Id
        ensures DraftOk(Next(s, op), draft)
      {
        match op
        case Submit(_, _, _, _, _) => SubmitKeepsDraft(s, op, draft);
        case Revise(_, _, _, _) => ReviseKeepsDraft(s, op, draft);
        case Decide(_, _, _, _, _) => DecideKeepsDraft(s, op, draft);
      }
    }
  }

  lemma EmptyInv()
    ensures Inv(EMPTY)
  {
    forall draft: Id
      ensures DraftOk(EMPTY, draft)
    {
      assert Lineage(EMPTY, draft) == [] && ApprovalsOf(EMPTY, draft) == [];
    }
  }

  /** In every reachable store the lineages, decisions and approvals of every draft are sound. */
  lemma {:induction false} InvAlways(ops: seq<Op>)
    ensures Inv(Run(EMPTY, ops))
  {
    hide Inv, Next;
    EmptyInv();
    if ops != [] {
      InvAlways(ops[..|ops| - 1]);
      InvStep(Run(EMPTY, ops[..|ops| - 1]), ops[|ops| - 1]);
    }
  }

  // ------------------------------------------------------------ displayed verdicts are the enforced ones

  predicate ValidReason(reason: Option<Prose>) {
    reason.Some? && reason.value.trimmed != "" && |reason.value.trimmed| <= 2000
    && 1 <= |reason.value.redacted| <= 2000
  }

  /** Approve is offered beside a revision exactly when approving that revision, by name, would be accepted. */
  lemma ApproveVerdictIsEnforced(s: Store, draft: Id, k: nat, role: Role, reason: Option<Prose>)
    requires Inv(s) && k < |Lineage(s, draft)| && Decides(role) && ValidReason(reason)
    ensures var shown := Lineage(s, draft)[k];
      ActionsFor(s, shown).approve <==>
        RefusalOf(s, Decide(role, draft, Approved, Some(shown.id), reason)).None?
  {
    hide LineageOk, ApprovalsOk, RowsOk, OfDraft, ForDraft;
    LineageMembers(s, draft);
    var l := Lineage(s, draft);
    if RevisionApproved(s, l[k].id) {
      DecidedWhenApproved(s, draft, k);
    }
    if l[k].id == l[|l| - 1].id {
      SameRevision(s, l[k], l[|l| - 1]);
    }
  }

  /** An approved revision belongs to a decided draft that was not rejected. */
  lemma DecidedWhenApproved(s: Store, draft: Id, k: nat)
    requires Inv(s) && k < |Lineage(s, draft)| && RevisionApproved(s, Lineage(s, draft)[k].id)
    ensures draft in s.decisions && s.decisions[draft].verdict == Approved
  {
    ApprovedIsListed(s, draft, k);
    assert DraftOk(s, draft);
  }

  /** Reject is offered exactly when rejecting the head, named or not, with a valid reason would be accepted. */
  lemma RejectVerdictIsEnforced(s: Store, draft: Id, role: Role, named: bool, reason: Option<Prose>)
    requires Inv(s) && Lineage(s, draft) != [] && Decides(role) && ValidReason(reason)
    ensures var head := HeadOf(s, draft);
      ActionsFor(s, head).reject <==>
        RefusalOf(s, Decide(role, draft, Rejected, if named then Some(head.id) else None, reason)).None?
  {
    hide LineageOk, ApprovalsOk, RowsOk;
    LineageMembers(s, draft);
    var l := Lineage(s, draft);
    if RevisionApproved(s, l[|l| - 1].id) {
      DecidedWhenApproved(s, draft, |l| - 1);
    }
  }

  /** Beside an older revision the offer to reject is for the draft: naming that revision is refused as stale. */
  lemma RejectOfOlderRevision(s: Store, draft: Id, k: nat, role: Role, reason: Option<Prose>)
    requires Inv(s) && k < |Lineage(s, draft)| && Decides(role) && ValidReason(reason)
    ensures var shown := Lineage(s, draft)[k];
      RefusalOf(s, Decide(role, draft, Rejected, Some(shown.id), reason)).None? <==>
        ActionsFor(s, shown).reject && k == |Lineage(s, draft)| - 1
  {
    hide ApprovalsOk, DecisionOk, LineageOk, OfDraft, ForDraft;
    var l := Lineage(s, draft);
    LineageMembers(s, draft);
    if l[k].id == l[|l| - 1].id {
      SameRevision(s, l[k], l[|l| - 1]);
      Distinct(s, draft, k);
    }
    if RevisionApproved(s, l[|l| - 1].id) {
      DecidedWhenApproved(s, draft, |l| - 1);
    }
  }

  lemma Distinct(s: Store, draft: Id, k: nat)
    requires DraftOk(s, draft) && k < |Lineage(s, draft)| && Lineage(s, draft)[k] == HeadOf(s, draft)
    ensures k == |Lineage(s, draft)| - 1
  {
    var l := Lineage(s, draft);
    assert RevisionAt(l, k) && RevisionAt(l, |l| - 1);
  }

  /** Revise is offered exactly when a well-formed revision that fits its columns would be accepted. */
  lemma ReviseVerdictIsEnforced(s: Store, draft: Id, role: Role, revision: Id, change: Change)
    requires Lineage(s, draft) != [] && Decides(role) && !HasRevision(s, revision)
    requires !change.Misshapen? && !change.content.oversize
    ensures ActionsFor(s, HeadOf(s, draft)).revise <==> RefusalOf(s, Revise(role, draft, revision, change)).None?
  {
    LineageMembers(s, draft);
  }

  // ------------------------------------------------------------ lineages over runs

  lemma LineageOnlyGrowsStep(s: Store, op: Op, draft: Id)
    ensures Lineage(s, draft) <= Lineage(Next(s, op), draft)
    ensures ApprovalsOf(s, draft) <= ApprovalsOf(Next(s, op), draft)
    ensures draft in s.decisions ==> DecisionOf(Next(s, op), draft) == DecisionOf(s, draft)
  {
    if RefusalOf(s, op).None? {
      StepEffect(s, op, draft);
      hide Next, Lineage, ApprovalsOf;
    }
  }

  /** Nothing is rewritten: along any run lineages and approvals only grow and a decision stays what it was. */
  lemma {:induction false} HistoryOnlyGrows(s: Store, ops: seq<Op>, draft: Id)
    ensures Lineage(s, draft) <= Lineage(Run(s, ops), draft)
    ensures ApprovalsOf(s, draft) <= ApprovalsOf(Run(s, ops), draft)
    ensures draft in s.decisions ==> DecisionOf(Run(s, ops), draft) == DecisionOf(s, draft)
  {
    hide Next, Lineage, ApprovalsOf;
    if ops != [] {
      var before := Run(s, ops[..|ops| - 1]);
      HistoryOnlyGrows(s, ops[..|ops| - 1], draft);
      LineageOnlyGrowsStep(before, ops[|ops| - 1], draft);
    }
  }

  lemma RejectedStep(s: Store, op: Op, draft: Id)
    requires draft in s.decisions && s.decisions[draft].verdict == Rejected && DraftOk(s, draft)
    ensures (op.Decide? || op.Revise?) && op.draft == draft ==> RefusalOf(s, op).Some?
    ensures Lineage(Next(s, op), draft) == Lineage(s, draft)
    ensures ApprovalsOf(Next(s, op), draft) == ApprovalsOf(s, draft)
  {
    hide OfDraft, ForDraft, ReviewOf;
    if RefusalOf(s, op).None? {
      StepEffect(s, op, draft);
      hide Next;
      if MakesDraft(op) && op.draft == draft {
        FirstOfLineage(s, draft);
      }
    }
  }

  /**
   * A rejected draft is closed for good: no approval, no further revision, no further decision, however the run goes
   * on.
   */
  lemma {:induction false} RejectionIsFinal(s: Store, ops: seq<Op>, draft: Id)
    requires Inv(s) && draft in s.decisions && s.decisions[draft].verdict == Rejected
    ensures var after := Run(s, ops);
      && Inv(after) && DecisionOf(after, draft) == DecisionOf(s, draft)
      && ApprovalsOf(after, draft) == []
      && Lineage(after, draft) == Lineage(s, draft)
      && forall op: Op :: (op.Decide? || op.Revise?) && op.draft == draft ==> RefusalOf(after, op).Some?
  {
    assert DraftOk(s, draft);
    hide Next, RowsOk, LineageOk, ApprovalsOk, OfDraft, ForDraft, RefusalOf;
    if ops != [] {
      var before := Run(s, ops[..|ops| - 1]);
      RejectionIsFinal(s, ops[..|ops| - 1], draft);
      InvStep(before, ops[|ops| - 1]);
      assert DraftOk(before, draft);
      HistoryOnlyGrows(s, ops, draft);
      RejectedStep(before, ops[|ops| - 1], draft);
    }
    forall op: Op | (op.Decide? || op.Revise?) && op.draft == draft
      ensures RefusalOf(Run(s, ops), op).Some?
    {
      RejectedStep(Run(s, ops), op, draft);
    }
  }
}
