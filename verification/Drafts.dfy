/** Captures, immutable draft revisions, the two-table approval model, and the verdicts a console displays. */
module Drafts {
  import opened Common
  import opened Rows
  import opened Findings

  type Id = string

  datatype Role = Owner | Admin | Reviewer | Member | NoRole

  predicate Decides(role: Role) {
    role == Owner || role == Admin
  }

  /** What the compiler and the reviewers make of a text; the text classifiers themselves are not modelled. */
  datatype Content = Content(digest: string, semantic: seq<Finding>, risks: seq<Finding>, oversize: bool)

  datatype Intake =
    | Unreadable
    | Unstorable
    | NotSkillable
    | Compiled(content: Content, redactions: seq<string>)

  datatype Change =
    | Recompile(content: Content)
    | Edit(content: Content, added: seq<string>)
    | Misshapen

  datatype Verdict = Approved | Rejected

  /** What trimming and redaction make of the reason a caller sent. */
  datatype Prose = Prose(trimmed: string, redacted: string)

  datatype Capture = Capture(id: Id, drafted: bool)

  datatype Revision = Revision(
    id: Id,
    draft: Id,
    number: nat,
    parent: Option<Id>,
    capture: Id,
    digest: string,
    redactions: seq<string>,
    redactionsTotal: nat,
    semantic: Review,
    security: Review)

  datatype Decision = Decision(revision: Id, verdict: Verdict, digest: string, reason: Option<string>)

  datatype Approval = Approval(draft: Id, revision: Id, number: nat, digest: string)

  /** `captures`, `draft_revisions`, `draft_decisions` (one per draft) and `revision_approvals`. */
  datatype Store = Store(
    captures: seq<Capture>,
    revisions: seq<Revision>,
    decisions: map<Id, Decision>,
    approvals: seq<Approval>)

  const EMPTY: Store := Store([], [], map[], [])

  datatype Op =
    | Submit(role: Role, capture: Id, draft: Id, revision: Id, intake: Intake)
    | Revise(role: Role, draft: Id, revision: Id, change: Change)
    | Decide(role: Role, draft: Id, verdict: Verdict, named: Option<Id>, reason: Option<Prose>)

  datatype Refusal =
    | Forbidden | NotFound | InvalidSchema | LimitExceeded | ConstraintFailed
    | Conflict(current: Option<Verdict>)
    | PreconditionFailed(code: Eligibility)

  // ------------------------------------------------------------ queries

  function OfDraft(revisions: seq<Revision>, draft: Id): seq<Revision> {
    Filter(revisions, (r: Revision) => r.draft == draft)
  }

  function ForDraft(approvals: seq<Approval>, draft: Id): seq<Approval> {
    Filter(approvals, (a: Approval) => a.draft == draft)
  }

  /** SELECT … WHERE draft_id=? ORDER BY revision: insertion order, which the invariant makes revision order. */
  function Lineage(s: Store, draft: Id): seq<Revision> {
    OfDraft(s.revisions, draft)
  }

  function ApprovalsOf(s: Store, draft: Id): seq<Approval> {
    ForDraft(s.approvals, draft)
  }

  function HeadOf(s: Store, draft: Id): Revision
    requires Lineage(s, draft) != []
  {
    Lineage(s, draft)[|Lineage(s, draft)| - 1]
  }

  predicate RevisionApproved(s: Store, revision: Id) {
    exists i :: 0 <= i < |s.approvals| && s.approvals[i].revision == revision
  }

  predicate HasCapture(s: Store, id: Id) {
    exists i :: 0 <= i < |s.captures| && s.captures[i].id == id
  }

  predicate HasRevision(s: Store, id: Id) {
    exists i :: 0 <= i < |s.revisions| && s.revisions[i].id == id
  }

  // ------------------------------------------------------------ the rule both sides compute

  datatype Eligibility =
    | Approvable | AlreadyDecided | NotLatestRevision | BlockingSemanticFindings | BlockingSecurityFindings

  function EligibilityFrom(semanticBlocking: nat, securityBlocking: nat, isLatest: bool, decided: bool): Eligibility {
    if decided then AlreadyDecided
    else if !isLatest then NotLatestRevision
    else if semanticBlocking > 0 then BlockingSemanticFindings
    else if securityBlocking > 0 then BlockingSecurityFindings
    else Approvable
  }

  // ------------------------------------------------------------ what the console displays

  /** The decision that closes this revision: a rejection of the lineage, or this revision's own approval. */
  predicate Closed(decision: Option<Decision>, revisionApproved: bool) {
    decision.Some? && (decision.value.verdict == Rejected || revisionApproved)
  }

  function DecisionOf(s: Store, draft: Id): Option<Decision> {
    if draft in s.decisions then Some(s.decisions[draft]) else None
  }

  /** The verdict beside one shown revision of a draft. */
  function ShownEligibility(s: Store, shown: Revision): Eligibility {
    var lineage := Lineage(s, shown.draft);
    EligibilityFrom(shown.semantic.blocking, shown.security.blocking,
                    lineage == [] || lineage[|lineage| - 1].id == shown.id,
                    Closed(DecisionOf(s, shown.draft), RevisionApproved(s, shown.id)))
  }

  datatype Actions = Actions(approve: bool, reject: bool, revise: bool)

  function ActionsFor(s: Store, shown: Revision): Actions {
    var decision := DecisionOf(s, shown.draft);
    Actions(ShownEligibility(s, shown) == Approvable, decision.None?,
            !(decision.Some? && decision.value.verdict == Rejected))
  }

  // ------------------------------------------------------------ capture and revision rows

  /** `semanticReview` and `securityReview`, with the warning the second adds when anything was redacted. */
  function NewRevision(id: Id, draft: Id, number: nat, parent: Option<Id>, capture: Id, content: Content,
                       redactions: seq<string>, total: nat): Revision
  {
    var risks := content.risks + if total > 0 then [Finding("credential_material_removed", false)] else [];
    Revision(id, draft, number, parent, capture, content.digest, redactions, total,
             ReviewOf(content.semantic), ReviewOf(risks))
  }

  function FirstRevision(op: Op): Revision
    requires op.Submit? && op.intake.Compiled?
  {
    NewRevision(op.revision, op.draft, 1, None, op.capture, op.intake.content,
                Cap(op.intake.redactions).listed, |op.intake.redactions|)
  }

  function NextRevision(head: Revision, op: Op): Revision
    requires op.Revise? && !op.change.Misshapen?
  {
    match op.change
    case Recompile(content) =>
      NewRevision(op.revision, head.draft, head.number + 1, Some(head.id), head.capture, content,
                  Cap(head.redactions).listed, head.redactionsTotal)
    case Edit(content, added) =>
      NewRevision(op.revision, head.draft, head.number + 1, Some(head.id), head.capture, content,
                  Cap(head.redactions + added).listed, head.redactionsTotal + |added|)
  }

  // ------------------------------------------------------------ refusals

  function SubmitRefusal(s: Store, op: Op): Option<Refusal>
    requires op.Submit?
  {
    if op.role == NoRole then Some(Forbidden)
    else if HasCapture(s, op.capture) then Some(ConstraintFailed)
    else if op.intake.Compiled? && !op.intake.content.oversize
            && (HasRevision(s, op.revision) || exists r :: r in Lineage(s, op.draft) && r.number == 1)
    then Some(ConstraintFailed)
    else None
  }

  function ReviseRefusal(s: Store, op: Op): Option<Refusal>
    requires op.Revise?
  {
    if !Decides(op.role) then Some(Forbidden)
    else if Lineage(s, op.draft) == [] then Some(NotFound)
    else if op.draft in s.decisions && s.decisions[op.draft].verdict == Rejected then Some(Conflict(Some(Rejected)))
    else if op.change.Misshapen? then Some(InvalidSchema)
    else if op.change.content.oversize then Some(LimitExceeded)
    else if HasRevision(s, op.revision) then Some(ConstraintFailed)
    else None
  }

  /** The reason as it would be stored: absent or blank is none, too long is refused. */
  function ReasonText(reason: Option<Prose>): Result<Option<string>, Refusal> {
    if reason.None? || reason.value.trimmed == "" then Ok(None)
    else if |reason.value.trimmed| > 2000 then Err(LimitExceeded)
    else Ok(Some(reason.value.redacted))
  }

  predicate FitsColumn(reason: Option<string>) {
    reason.None? || 1 <= |reason.value| <= 2000
  }

  function DecideRefusal(s: Store, op: Op): Option<Refusal>
    requires op.Decide?
  {
    if !Decides(op.role) then Some(Forbidden)
    else if Lineage(s, op.draft) == [] then Some(NotFound)
    else
      var head := HeadOf(s, op.draft);
      var already := DecisionOf(s, op.draft);
      var eligibility := EligibilityFrom(head.semantic.blocking, head.security.blocking, true, false);
      var reason := ReasonText(op.reason);
      if op.named.Some? && op.named.value != head.id then Some(Conflict(None))
      else if already.Some? && (already.value.verdict == Rejected || op.verdict == Rejected) then
        Some(Conflict(Some(already.value.verdict)))
      else if RevisionApproved(s, head.id) then Some(Conflict(Some(Approved)))
      else if op.verdict == Approved && eligibility != Approvable then Some(PreconditionFailed(eligibility))
      else if reason.Err? then Some(reason.error)
      else if op.verdict == Rejected && reason.value.None? then Some(InvalidSchema)
      else if already.None? && !FitsColumn(reason.value) then Some(ConstraintFailed)
      else None
  }

  function RefusalOf(s: Store, op: Op): Option<Refusal> {
    match op
    case Submit(_, _, _, _, _) => SubmitRefusal(s, op)
    case Revise(_, _, _, _) => ReviseRefusal(s, op)
    case Decide(_, _, _, _, _) => DecideRefusal(s, op)
  }

  // ------------------------------------------------------------ transitions

  predicate MakesDraft(op: Op) {
    op.Submit? && op.intake.Compiled? && !op.intake.content.oversize
  }

  function Next(s: Store, op: Op): Store {
    if RefusalOf(s, op).Some? then s
    else match op
      case Submit(_, capture, _, _, _) =>
        s.(captures := s.captures + [Capture(capture, MakesDraft(op))],
           revisions := if MakesDraft(op) then s.revisions + [FirstRevision(op)] else s.revisions)
      case Revise(_, draft, _, _) => s.(revisions := s.revisions + [NextRevision(HeadOf(s, draft), op)])
      case Decide(_, draft, verdict, _, reason) =>
        var head := HeadOf(s, draft);
        s.(decisions := if draft in s.decisions then s.decisions
                        else s.decisions[draft := Decision(head.id, verdict, head.digest, ReasonText(reason).value)],
           approvals := if verdict == Approved then s.approvals + [Approval(draft, head.id, head.number, head.digest)]
                        else s.approvals)
  }

  /** What an accepted operation adds to one draft's lineage, and to its approvals. */
  function AddedRevisions(s: Store, op: Op, draft: Id): seq<Revision>
    requires RefusalOf(s, op).None?
  {
    if MakesDraft(op) && op.draft == draft then [FirstRevision(op)]
    else if op.Revise? && op.draft == draft then [NextRevision(HeadOf(s, draft), op)]
    else []
  }

  function AddedApprovals(s: Store, op: Op, draft: Id): seq<Approval>
    requires RefusalOf(s, op).None?
  {
    if op.Decide? && op.draft == draft && op.verdict == Approved then
      var head := HeadOf(s, draft);
      [Approval(draft, head.id, head.number, head.digest)]
    else []
  }

  function Run(s: Store, ops: seq<Op>): Store {
    if ops == [] then s else Next(Run(s, ops[..|ops| - 1]), ops[|ops| - 1])
  }

  // ------------------------------------------------------------ what every run keeps

  predicate Follows(before: Revision, r: Revision) {
    r.parent == Some(before.id) && before.redactions <= r.redactions && before.redactionsTotal <= r.redactionsTotal
  }

  predicate CappedList(r: Revision) {
    |r.redactions| == if r.redactionsTotal <= MAX_LISTED_FINDINGS then r.redactionsTotal else MAX_LISTED_FINDINGS
  }

  predicate RevisionAt(l: seq<Revision>, k: nat)
    requires k < |l|
  {
    && l[k].number == k + 1 && l[k].capture == l[0].capture && CappedList(l[k])
    && if k == 0 then l[k].parent == None else Follows(l[k - 1], l[k])
  }

  /** Revisions 1..n, each from the one before, with redactions that only grow and a list capped to the count. */
  ghost predicate LineageOk(l: seq<Revision>) {
    forall k :: 0 <= k < |l| ==> RevisionAt(l, k)
  }

  predicate ApprovalAt(l: seq<Revision>, a: Approval) {
    && 1 <= a.number <= |l|
    && var r := l[a.number - 1];
       r.id == a.revision && r.digest == a.digest && r.semantic.blocking == 0 == r.security.blocking
  }

  /** Approvals of unblocked revisions of this lineage, in strictly increasing revision number. */
  ghost predicate ApprovalsOk(l: seq<Revision>, a: seq<Approval>) {
    && (forall k :: 0 <= k < |a| ==> ApprovalAt(l, a[k]))
    && (forall j, k :: 0 <= j < k < |a| ==> a[j].number < a[k].number)
  }

  /**
   * No decision, no approval; a rejection is of the head and leaves none; an approval is of the first approved
   * revision.
   */
  ghost predicate DecisionOk(d: Option<Decision>, l: seq<Revision>, a: seq<Approval>) {
    match d
    case None => a == []
    case Some(Decision(revision, Rejected, _, reason)) =>
      a == [] && l != [] && revision == l[|l| - 1].id && reason.Some?
    case Some(Decision(revision, Approved, digest, _)) =>
      a != [] && a[0].revision == revision && a[0].digest == digest
  }

  ghost predicate DraftOk(s: Store, draft: Id) {
    && LineageOk(Lineage(s, draft))
    && ApprovalsOk(Lineage(s, draft), ApprovalsOf(s, draft))
    && DecisionOk(DecisionOf(s, draft), Lineage(s, draft), ApprovalsOf(s, draft))
  }

  ghost predicate CaptureHasRevision(s: Store, capture: Id) {
    exists i :: 0 <= i < |s.revisions| && s.revisions[i].capture == capture
  }

  ghost predicate RowsOk(s: Store) {
    && (forall i, j :: 0 <= i < j < |s.captures| ==> s.captures[i].id != s.captures[j].id)
    && (forall i, j :: 0 <= i < j < |s.revisions| ==> s.revisions[i].id != s.revisions[j].id)
    && (forall i :: 0 <= i < |s.captures| ==> (s.captures[i].drafted <==> CaptureHasRevision(s, s.captures[i].id)))
    && (forall i :: 0 <= i < |s.revisions| ==> HasCapture(s, s.revisions[i].capture))
  }

  ghost predicate Inv(s: Store) {
    RowsOk(s) && forall draft :: DraftOk(s, draft)
  }
}
