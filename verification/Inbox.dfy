/** The Approval Inbox: several row tables projected into one list of items that no row order can change. */
module Inbox {
  import opened Common
  import opened Lex
  import opened Rows
  import opened Sorting

  type Id = string

  datatype Row<T> = Row(id: Id, at: int, data: T)

  datatype VersionData = VersionData(author: Id, owner: Id, state: string, manifest: string)

  datatype ReviewData = ReviewData(version: Id, reviewer: Id, verdict: string, note: Option<string>)

  datatype ActivityData = ActivityData(subject: Id)

  /** A publish approval names no request; an adoption approval names exactly one. */
  datatype ApprovalData = ApprovalData(
    version: Id,
    request: Option<Id>,
    approver: Id,
    decision: string,
    note: Option<string>)

  datatype RequestData = RequestData(version: Id, adopter: Id, state: string, reason: Option<string>)

  datatype Tables = Tables(
    versions: seq<Row<VersionData>>,
    reviews: seq<Row<ReviewData>>,
    activity: seq<Row<ActivityData>>,
    approvals: seq<Row<ApprovalData>>,
    adoptions: seq<Row<RequestData>>)

  datatype Actor = Actor(kind: string, role: string)

  /** Who is asking, what the deployment knows of actors, and the approval matrix, which is not modelled. */
  datatype Context = Context(
    viewer: Id,
    role: string,
    actors: map<Id, Actor>,
    humans: set<Id>,
    conditions: Row<VersionData> -> seq<string>)

  datatype Kind = Review | Publish | AdoptHighRisk

  datatype Status = Pending | Approved | Denied | Conditional

  datatype ReasonCode =
    | Approvable | AlreadyDecided | NotHumanApprover
    | SelfReviewAuthor | SelfReviewSkillOwner | RoleMayNotReview | StateNotReviewable

  datatype Decision = Decision(decision: string, actor: Id, kind: string, role: string, note: Option<string>, at: int)

  datatype Item = Item(
    id: string,
    kind: Kind,
    status: Status,
    version: Row<VersionData>,
    request: Option<Row<RequestData>>,
    conditions: seq<string>,
    eligibility: ReasonCode,
    decision: Option<Decision>,
    history: seq<Decision>,
    updated: int)

  const DECISION_HISTORY_MAX: nat := 20

  // ------------------------------------------------------------ the order of rows

  /** (created_at_ms, id), ascending. */
  function RowKey<T>(r: Row<T>): seq<int> {
    [r.at] + Codes(r.id)
  }

  function IdKey<T>(r: Row<T>): seq<int> {
    Codes(r.id)
  }

  function LaterOf<T>(a: Option<Row<T>>, b: Row<T>): Row<T> {
    if a.None? then b
    else if b.at != a.value.at then if b.at > a.value.at then b else a.value
    else if Less(Codes(a.value.id), Codes(b.id)) then b
    else a.value
  }

  lemma RowOrder<T>(a: Row<T>, b: Row<T>)
    ensures Less(RowKey(a), RowKey(b)) <==> a.at < b.at || (a.at == b.at && Less(Codes(a.id), Codes(b.id)))
  {
    assert RowKey(a)[1..] == Codes(a.id) && RowKey(b)[1..] == Codes(b.id);
  }

  /** The fold of `laterOf` over rows as they come. */
  function LatestOf<T>(rows: seq<Row<T>>): Option<Row<T>> {
    if rows == [] then None else Some(LaterOf(LatestOf(rows[..|rows| - 1]), rows[|rows| - 1]))
  }

  method LatestRow<T>(rows: seq<Row<T>>) returns (latest: Option<Row<T>>)
    ensures latest == LatestOf(rows)
  {
    latest := None;
    for k := 0 to |rows|
      invariant latest == LatestOf(rows[..k])
    {
      assert rows[..k + 1][..k] == rows[..k];
      latest := Some(LaterOf(latest, rows[k]));
    }
    assert rows[..|rows|] == rows;
  }

  /** The fold yields a member that no member comes after. */
  lemma {:induction false} LatestIsMaximum<T>(rows: seq<Row<T>>)
    ensures LatestOf(rows).None? <==> rows == []
    ensures LatestOf(rows).Some? ==>
      LatestOf(rows).value in rows && forall r :: r in rows ==> Leq(RowKey(r), RowKey(LatestOf(rows).value))
  {
    if rows != [] {
      var init, last := rows[..|rows| - 1], rows[|rows| - 1];
      assert rows == init + [last];
      LatestIsMaximum(init);
      LeqTotal(RowKey(last), RowKey(last));
      if init != [] {
        var best := LatestOf(init).value;
        RowOrder(best, last);
        RowOrder(last, best);
        LeqTotal(RowKey(best), RowKey(last));
        if LaterOf(Some(best), last) == last {
          forall r | r in init
            ensures Leq(RowKey(r), RowKey(last))
          {
            LaterDominates(r, best, last);
          }
        } else {
          EarlierIsLeq(best, last);
        }
      }
    }
  }

  lemma LaterDominates<T>(r: Row<T>, best: Row<T>, last: Row<T>)
    requires Leq(RowKey(r), RowKey(best)) && LaterOf(Some(best), last) == last
    ensures Leq(RowKey(r), RowKey(last))
  {
    RowOrder(best, last);
    LeqTotal(RowKey(best), RowKey(best));
    if Less(RowKey(best), RowKey(last)) {
      LessAsymmetric(RowKey(best), RowKey(last));
      LeqTransitive(RowKey(r), RowKey(best), RowKey(last));
    }
  }

  lemma EarlierIsLeq<T>(best: Row<T>, last: Row<T>)
    requires LaterOf(Some(best), last) != last
    ensures Leq(RowKey(last), RowKey(best))
  {
    RowOrder(best, last);
  }

  ghost predicate UniqueIds<T>(rows: seq<Row<T>>) {
    forall i, j :: 0 <= i < j < |rows| ==> rows[i].id != rows[j].id
  }

  lemma SameId<T>(rows: seq<Row<T>>, a: Row<T>, b: Row<T>)
    requires UniqueIds(rows) && a in rows && b in rows && a.id == b.id
    ensures a == b
  {
    var i :| 0 <= i < |rows| && rows[i] == a;
    var j :| 0 <= j < |rows| && rows[j] == b;
  }

  lemma RowKeysDistinct<T(!new)>(rows: seq<Row<T>>)
    requires UniqueIds(rows)
    ensures KeysDistinct(rows, (r: Row<T>) => RowKey(r))
    ensures KeysDistinct(rows, (r: Row<T>) => IdKey(r))
  {
    forall a, b | a in rows && b in rows && Codes(a.id) == Codes(b.id)
      ensures a == b
    {
      CodesInjective(a.id, b.id);
      SameId(rows, a, b);
    }
    forall a, b | a in rows && b in rows && Leq(RowKey(a), RowKey(b)) && Leq(RowKey(b), RowKey(a))
      ensures a == b
    {
      LeqAntisymmetric(RowKey(a), RowKey(b));
      assert RowKey(a)[1..] == Codes(a.id) && RowKey(b)[1..] == Codes(b.id);
    }
    forall a, b | a in rows && b in rows && Leq(IdKey(a), IdKey(b)) && Leq(IdKey(b), IdKey(a))
      ensures a == b
    {
      LeqAntisymmetric(IdKey(a), IdKey(b));
    }
  }

  function ByRow<T>(rows: seq<Row<T>>): seq<Row<T>> {
    SortBy(rows, (r: Row<T>) => RowKey(r))
  }

  function ById<T>(rows: seq<Row<T>>): seq<Row<T>> {
    SortBy(rows, (r: Row<T>) => IdKey(r))
  }

  /** Both tables hold the same rows, each once. */
  ghost predicate Permuted<T>(a: seq<Row<T>>, b: seq<Row<T>>) {
    multiset(a) == multiset(b) && UniqueIds(a) && UniqueIds(b)
  }

  lemma SortedAlike<T(!new)>(a: seq<Row<T>>, b: seq<Row<T>>)
    requires Permuted(a, b)
    ensures ByRow(a) == ByRow(b) && ById(a) == ById(b)
  {
    RowKeysDistinct(a);
    SortForgetsOrder(a, b, (r: Row<T>) => RowKey(r));
    SortForgetsOrder(a, b, (r: Row<T>) => IdKey(r));
  }

  lemma {:induction false} FilterCounts<T>(s: seq<T>, keep: T -> bool, x: T)
    ensures multiset(Filter(s, keep))[x] == if keep(x) then multiset(s)[x] else 0
  {
    if s != [] {
      FilterCounts(s[..|s| - 1], keep, x);
      assert s == s[..|s| - 1] + [s[|s| - 1]];
    }
  }

  lemma FilterMember<T>(s: seq<T>, keep: T -> bool, x: T)
    requires x in Filter(s, keep)
    ensures x in s && keep(x)
  {
    FilterMembers(s, keep);
  }

  lemma {:induction false} FilterUnique<T>(rows: seq<Row<T>>, keep: Row<T> -> bool)
    requires UniqueIds(rows)
    ensures UniqueIds(Filter(rows, keep))
  {
    if rows != [] {
      var init, last := rows[..|rows| - 1], rows[|rows| - 1];
      FilterUnique(init, keep);
      FilterMembers(init, keep);
      var kept := Filter(init, keep);
      forall i | 0 <= i < |kept|
        ensures kept[i].id != last.id
      {
        assert kept[i] in kept;
        FilterMember(init, keep, kept[i]);
        var j :| 0 <= j < |init| && init[j] == kept[i];
        assert rows[j] == kept[i];
      }
    }
  }

  lemma FilterPermuted<T(!new)>(a: seq<Row<T>>, b: seq<Row<T>>, keep: Row<T> -> bool)
    requires Permuted(a, b)
    ensures Permuted(Filter(a, keep), Filter(b, keep))
  {
    FilterUnique(a, keep);
    FilterUnique(b, keep);
    forall x: Row<T>
      ensures multiset(Filter(a, keep))[x] == multiset(Filter(b, keep))[x]
    {
      FilterCounts(a, keep, x);
      FilterCounts(b, keep, x);
    }
  }

  /** The latest row does not depend on the order the rows were read in. */
  lemma LatestForgetsOrder<T(!new)>(a: seq<Row<T>>, b: seq<Row<T>>)
    requires Permuted(a, b)
    ensures LatestOf(a) == LatestOf(b)
  {
    LatestIsMaximum(a);
    LatestIsMaximum(b);
    SameMembers(a, b);
    if a != [] {
      var x, y := LatestOf(a).value, LatestOf(b).value;
      LeqAntisymmetric(RowKey(x), RowKey(y));
      assert RowKey(x)[1..] == Codes(x.id) && RowKey(y)[1..] == Codes(y.id);
      CodesInjective(x.id, y.id);
      SameId(a, x, y);
    }
  }

  // ------------------------------------------------------------ item identifiers

  function KindName(k: Kind): string {
    match k
    case Review => "review"
    case Publish => "publish"
    case AdoptHighRisk => "adopt_high_risk"
  }

  function ItemId(k: Kind, subject: Id): string {
    KindName(k) + ":" + subject
  }

  function KindNamed(name: string): Option<Kind> {
    if name == "review" then Some(Review)
    else if name == "publish" then Some(Publish)
    else if name == "adopt_high_risk" then Some(AdoptHighRisk)
    else None
  }

  function ParseItemId(id: string): Option<(Kind, Id)> {
    var at := IndexOf(id, ':');
    if at == 0 || at >= |id| - 1 then None
    else
      var kind := KindNamed(id[..at]);
      if kind.None? then None else Some((kind.value, id[at + 1..]))
  }

  /** The parser accepts exactly the identifiers that name a kind and a non-empty subject, and takes them apart. */
  lemma ItemIdRoundTrip(id: string, k: Kind, subject: Id)
    ensures ParseItemId(id) == Some((k, subject)) <==> id == ItemId(k, subject) && subject != ""
  {
    if id == ItemId(k, subject) {
      assert id == KindName(k) + [':'] + subject;
      IndexOfIs(KindName(k), ':', subject);
      assert id[..|KindName(k)|] == KindName(k) && id[|KindName(k)| + 1..] == subject;
    }
    if ParseItemId(id) == Some((k, subject)) {
      var at := IndexOf(id, ':');
      assert id == id[..at] + [id[at]] + id[at + 1..];
    }
  }

  lemma ItemIdInjective(k: Kind, a: Id, l: Kind, b: Id)
    requires ItemId(k, a) == ItemId(l, b)
    ensures k == l && a == b
  {
    assert ItemId(k, a) == KindName(k) + [':'] + a && ItemId(l, b) == KindName(l) + [':'] + b;
    IndexOfIs(KindName(k), ':', a);
    IndexOfIs(KindName(l), ':', b);
    var n := |KindName(k)|;
    assert n == |KindName(l)|;
    assert ItemId(k, a)[..n] == KindName(k) && ItemId(l, b)[..n] == KindName(l);
    assert ItemId(k, a)[n + 1..] == a && ItemId(l, b)[n + 1..] == b;
  }

  // ------------------------------------------------------------ the rules of one item

  function ReviewEligibility(c: Context, v: VersionData): ReasonCode {
    if v.author == c.viewer then SelfReviewAuthor
    else if v.owner == c.viewer then SelfReviewSkillOwner
    else if c.role != "reviewer" && c.role != "admin" && c.role != "owner" then RoleMayNotReview
    else if v.state != "linted" && v.state != "reviewed" then StateNotReviewable
    else Approvable
  }

  function HumanGateEligibility(c: Context, status: Status): ReasonCode {
    if c.viewer !in c.humans then NotHumanApprover
    else if status != Pending then AlreadyDecided
    else Approvable
  }

  function DecisionView(c: Context, decision: string, actor: Id, note: Option<string>, at: int): Decision {
    var known := actor in c.actors;
    Decision(decision, actor, if known then c.actors[actor].kind else "unknown",
             if known then c.actors[actor].role else "unknown", note, at)
  }

  function ReviewView(c: Context, r: Row<ReviewData>): Decision {
    DecisionView(c, r.data.verdict, r.data.reviewer, r.data.note, r.at)
  }

  function ApprovalView(c: Context, a: Row<ApprovalData>): Decision {
    DecisionView(c, a.data.decision, a.data.approver, a.data.note, a.at)
  }

  function ReviewViews(c: Context, rows: seq<Row<ReviewData>>): (r: seq<Decision>)
    ensures |r| == |rows|
  {
    seq(|rows|, i requires 0 <= i < |rows| => ReviewView(c, rows[i]))
  }

  function ApprovalViews(c: Context, rows: seq<Row<ApprovalData>>): (r: seq<Decision>)
    ensures |r| == |rows|
  {
    seq(|rows|, i requires 0 <= i < |rows| => ApprovalView(c, rows[i]))
  }

  /** At most the twenty most recent, oldest first. */
  function Bounded(all: seq<Decision>): (r: seq<Decision>)
    ensures |r| <= DECISION_HISTORY_MAX && |r| <= |all| && r == all[|all| - |r|..]
    ensures |all| >= DECISION_HISTORY_MAX ==> |r| == DECISION_HISTORY_MAX
    ensures |all| <= DECISION_HISTORY_MAX ==> r == all
  {
    if |all| <= DECISION_HISTORY_MAX then all else all[|all| - DECISION_HISTORY_MAX..]
  }

  function MaxAt<T>(rows: seq<Row<T>>, floor: int): int {
    if rows == [] then floor
    else
      var rest := MaxAt(rows[..|rows| - 1], floor);
      if rows[|rows| - 1].at > rest then rows[|rows| - 1].at else rest
  }

  function ReviewStatus(latest: Option<Row<ReviewData>>, request: Option<Row<ActivityData>>): Status {
    if latest.None? then Pending
    else if request.Some? && Less(RowKey(latest.value), RowKey(request.value)) then Pending
    else if latest.value.data.verdict == "approve" then Approved
    else if latest.value.data.verdict == "reject" then Denied
    else Conditional
  }

  function ReviewItem(c: Context, v: Row<VersionData>, reviews: seq<Row<ReviewData>>,
                      requests: seq<Row<ActivityData>>): Item
    requires reviews != [] || requests != []
  {
    var latest, request := LatestOf(reviews), LatestOf(requests);
    var floor := if reviews != [] then reviews[0].at else requests[0].at;
    Item(ItemId(Review, v.id), Review, ReviewStatus(latest, request), v, None, [],
         ReviewEligibility(c, v.data),
         if latest.None? then None else Some(ReviewView(c, latest.value)),
         Bounded(ReviewViews(c, reviews)),
         MaxAt(requests, MaxAt(reviews, floor)))
  }

  /** The publish gate's own predicate: some approval that was given by someone who still passes the human gate. */
  predicate PublishSatisfied(c: Context, approvals: seq<Row<ApprovalData>>) {
    exists i :: 0 <= i < |approvals| &&
      approvals[i].data.decision == "approved" && approvals[i].data.approver in c.humans
  }

  predicate SomeDenied(approvals: seq<Row<ApprovalData>>) {
    exists i :: 0 <= i < |approvals| && approvals[i].data.decision == "denied"
  }

  function PublishStatus(c: Context, approvals: seq<Row<ApprovalData>>): Status {
    if PublishSatisfied(c, approvals) then Approved else if SomeDenied(approvals) then Denied else Pending
  }

  function PublishItem(c: Context, v: Row<VersionData>, approvals: seq<Row<ApprovalData>>): Item {
    var latest, status := LatestOf(approvals), PublishStatus(c, approvals);
    Item(ItemId(Publish, v.id), Publish, status, v, None, c.conditions(v), HumanGateEligibility(c, status),
         if latest.None? then None else Some(ApprovalView(c, latest.value)),
         Bounded(ApprovalViews(c, approvals)),
         if approvals == [] then v.at else MaxAt(approvals, approvals[0].at))
  }

  predicate OpenToPublication(state: string) {
    state == "draft" || state == "linted" || state == "reviewed" || state == "verified"
  }

  function AdoptStatus(r: Row<RequestData>, bound: Option<Row<ApprovalData>>): Status {
    if r.data.state == "approval_pending" then Pending
    else if bound.Some? then if bound.value.data.decision == "approved" then Approved else Denied
    else Denied
  }

  function AdoptItem(c: Context, v: Row<VersionData>, r: Row<RequestData>, bound: Option<Row<ApprovalData>>): Item {
    var status := AdoptStatus(r, bound);
    Item(ItemId(AdoptHighRisk, r.id), AdoptHighRisk, status, v, Some(r), c.conditions(v),
         HumanGateEligibility(c, status),
         if bound.None? then None else Some(ApprovalView(c, bound.value)),
         if bound.None? then [] else [ApprovalView(c, bound.value)],
         if bound.Some? && bound.value.at > r.at then bound.value.at else r.at)
  }

  // ------------------------------------------------------------ the projection

  function ReviewsOf(t: Tables, v: Id): seq<Row<ReviewData>> {
    Filter(t.reviews, (r: Row<ReviewData>) => r.data.version == v)
  }

  function ActivityOf(t: Tables, v: Id): seq<Row<ActivityData>> {
    Filter(t.activity, (r: Row<ActivityData>) => r.data.subject == v)
  }

  function PublishApprovalsOf(t: Tables, v: Id): seq<Row<ApprovalData>> {
    Filter(t.approvals, (a: Row<ApprovalData>) => a.data.request.None? && a.data.version == v)
  }

  function BoundTo(t: Tables, request: Id): Option<Row<ApprovalData>> {
    LatestOf(Filter(t.approvals, (a: Row<ApprovalData>) => a.data.request == Some(request)))
  }

  predicate AdoptSubject(t: Tables, r: Row<RequestData>) {
    || r.data.state == "approval_pending" || BoundTo(t, r.id).Some?
    || (r.data.state == "dead_letter" && r.data.reason == Some("approval_denied"))
  }

  function ReviewItems(c: Context, t: Tables, vs: seq<Row<VersionData>>): seq<Item> {
    if vs == [] then []
    else
      var v := vs[|vs| - 1];
      var reviews, requests := ByRow(ReviewsOf(t, v.id)), ByRow(ActivityOf(t, v.id));
      ReviewItems(c, t, vs[..|vs| - 1])
      + if reviews == [] && requests == [] then [] else [ReviewItem(c, v, reviews, requests)]
  }

  function PublishItems(c: Context, t: Tables, vs: seq<Row<VersionData>>): seq<Item> {
    if vs == [] then []
    else
      var v := vs[|vs| - 1];
      var approvals := ByRow(PublishApprovalsOf(t, v.id));
      PublishItems(c, t, vs[..|vs| - 1])
      + if approvals == [] && !(OpenToPublication(v.data.state) && c.conditions(v) != []) then []
        else [PublishItem(c, v, approvals)]
  }

  function FindRow<T>(rows: seq<Row<T>>, id: Id): Option<Row<T>> {
    if rows == [] then None
    else if rows[|rows| - 1].id == id then Some(rows[|rows| - 1])
    else FindRow(rows[..|rows| - 1], id)
  }

  /** Requests are read joined to their versions, so one without a version is not read at all. */
  function AdoptItems(c: Context, t: Tables, rs: seq<Row<RequestData>>): seq<Item> {
    if rs == [] then []
    else
      var r := rs[|rs| - 1];
      var v := FindRow(t.versions, r.data.version);
      AdoptItems(c, t, rs[..|rs| - 1])
      + if v.None? || !AdoptSubject(t, r) then [] else [AdoptItem(c, v.value, r, BoundTo(t, r.id))]
  }

  function Project(c: Context, t: Tables): seq<Item> {
    ReviewItems(c, t, ById(t.versions)) + PublishItems(c, t, ById(t.versions)) + AdoptItems(c, t, ById(t.adoptions))
  }

  // ------------------------------------------------------------ order independence

  ghost predicate SameRows(a: Tables, b: Tables) {
    && Permuted(a.versions, b.versions)
    && Permuted(a.reviews, b.reviews)
    && Permuted(a.activity, b.activity)
    && Permuted(a.approvals, b.approvals)
    && Permuted(a.adoptions, b.adoptions)
  }

  lemma SameReviewRows(a: Tables, b: Tables, v: Id)
    requires SameRows(a, b)
    ensures ByRow(ReviewsOf(a, v)) == ByRow(ReviewsOf(b, v)) && ByRow(ActivityOf(a, v)) == ByRow(ActivityOf(b, v))
  {
    FilterPermuted(a.reviews, b.reviews, (r: Row<ReviewData>) => r.data.version == v);
    FilterPermuted(a.activity, b.activity, (r: Row<ActivityData>) => r.data.subject == v);
    SortedAlike(ReviewsOf(a, v), ReviewsOf(b, v));
    SortedAlike(ActivityOf(a, v), ActivityOf(b, v));
  }

  lemma SamePublishRows(a: Tables, b: Tables, v: Id)
    requires SameRows(a, b)
    ensures ByRow(PublishApprovalsOf(a, v)) == ByRow(PublishApprovalsOf(b, v))
  {
    FilterPermuted(a.approvals, b.approvals, (r: Row<ApprovalData>) => r.data.request.None? && r.data.version == v);
    SortedAlike(PublishApprovalsOf(a, v), PublishApprovalsOf(b, v));
  }

  lemma SameBound(a: Tables, b: Tables, request: Id)
    requires SameRows(a, b)
    ensures BoundTo(a, request) == BoundTo(b, request)
  {
    var keep := (x: Row<ApprovalData>) => x.data.request == Some(request);
    FilterPermuted(a.approvals, b.approvals, keep);
    LatestForgetsOrder(Filter(a.approvals, keep), Filter(b.approvals, keep));
  }

  lemma {:induction false} FindRowIs<T>(rows: seq<Row<T>>, id: Id)
    ensures var r := FindRow(rows, id);
      && (r.Some? ==> r.value in rows && r.value.id == id)
      && (r.None? <==> forall x :: x in rows ==> x.id != id)
  {
    if rows != [] {
      FindRowIs(rows[..|rows| - 1], id);
      assert rows == rows[..|rows| - 1] + [rows[|rows| - 1]];
    }
  }

  lemma SameFound<T(!new)>(a: seq<Row<T>>, b: seq<Row<T>>, id: Id)
    requires Permuted(a, b)
    ensures FindRow(a, id) == FindRow(b, id)
  {
    FindRowIs(a, id);
    FindRowIs(b, id);
    SameMembers(a, b);
    if FindRow(a, id).Some? {
      SameId(a, FindRow(a, id).value, FindRow(b, id).value);
    }
  }

  lemma {:induction false} SameReviewItems(c: Context, a: Tables, b: Tables, vs: seq<Row<VersionData>>)
    requires SameRows(a, b)
    ensures ReviewItems(c, a, vs) == ReviewItems(c, b, vs)
  {
    hide SameRows, ByRow, ReviewsOf, ActivityOf, ReviewItem;
    if vs != [] {
      SameReviewItems(c, a, b, vs[..|vs| - 1]);
      SameReviewRows(a, b, vs[|vs| - 1].id);
    }
  }

  lemma {:induction false} SamePublishItems(c: Context, a: Tables, b: Tables, vs: seq<Row<VersionData>>)
    requires SameRows(a, b)
    ensures PublishItems(c, a, vs) == PublishItems(c, b, vs)
  {
    hide SameRows, ByRow, PublishApprovalsOf, PublishItem, OpenToPublication;
    if vs != [] {
      SamePublishItems(c, a, b, vs[..|vs| - 1]);
      SamePublishRows(a, b, vs[|vs| - 1].id);
    }
  }

  lemma {:induction false} SameAdoptItems(c: Context, a: Tables, b: Tables, rs: seq<Row<RequestData>>)
    requires SameRows(a, b)
    ensures AdoptItems(c, a, rs) == AdoptItems(c, b, rs)
  {
    if rs != [] {
      var r := rs[|rs| - 1];
      SameAdoptItems(c, a, b, rs[..|rs| - 1]);
      SameBound(a, b, r.id);
      SameFound(a.versions, b.versions, r.data.version);
      hide SameRows, BoundTo, FindRow, AdoptItem;
    }
  }

  /** Whatever order the five tables are read in, the projection is the same list. */
  lemma ProjectionForgetsOrder(c: Context, a: Tables, b: Tables)
    requires SameRows(a, b)
    ensures Project(c, a) == Project(c, b)
  {
    SortedAlike(a.versions, b.versions);
    SortedAlike(a.adoptions, b.adoptions);
    hide SameRows, ById, ReviewItems, PublishItems, AdoptItems;
    SameReviewItems(c, a, b, ById(a.versions));
    SamePublishItems(c, a, b, ById(a.versions));
    SameAdoptItems(c, a, b, ById(a.adoptions));
  }

  // ------------------------------------------------------------ one item per subject

  ghost predicate DistinctItems(items: seq<Item>) {
    forall i, j :: 0 <= i < j < |items| ==> items[i].id != items[j].id
  }

  /** Every item is of this kind, for one of these rows. */
  ghost predicate ItemsOf<T>(items: seq<Item>, k: Kind, rows: seq<Row<T>>) {
    forall i :: 0 <= i < |items| ==> exists j :: 0 <= j < |rows| && items[i].id == ItemId(k, rows[j].id)
  }

  lemma NextItem<T>(items: seq<Item>, k: Kind, rows: seq<Row<T>>, item: Item)
    requires rows != [] && UniqueIds(rows) && DistinctItems(items) && ItemsOf(items, k, rows[..|rows| - 1])
    requires item.id == ItemId(k, rows[|rows| - 1].id)
    ensures DistinctItems(items) && ItemsOf(items, k, rows)
    ensures DistinctItems(items + [item]) && ItemsOf(items + [item], k, rows)
  {
    hide ItemId;
    var init, last := rows[..|rows| - 1], rows[|rows| - 1];
    forall i | 0 <= i < |items|
      ensures items[i].id != item.id
      ensures exists j :: 0 <= j < |rows| && items[i].id == ItemId(k, rows[j].id)
    {
      var j :| 0 <= j < |init| && items[i].id == ItemId(k, init[j].id);
      assert init[j] == rows[j];
      if ItemId(k, init[j].id) == ItemId(k, last.id) {
        ItemIdInjective(k, init[j].id, k, last.id);
      }
    }
    forall i | 0 <= i < |items + [item]|
      ensures exists j :: 0 <= j < |rows| && (items + [item])[i].id == ItemId(k, rows[j].id)
    {
      assert i == |items| ==> (items + [item])[i].id == ItemId(k, rows[|rows| - 1].id);
    }
  }

  lemma {:induction false} ReviewItemsDistinct(c: Context, t: Tables, vs: seq<Row<VersionData>>)
    requires UniqueIds(vs)
    ensures DistinctItems(ReviewItems(c, t, vs)) && ItemsOf(ReviewItems(c, t, vs), Review, vs)
  {
    hide ItemId, ByRow, ReviewsOf, ActivityOf;
    if vs != [] {
      ReviewItemsDistinct(c, t, vs[..|vs| - 1]);
      var v := vs[|vs| - 1];
      var reviews, requests := ByRow(ReviewsOf(t, v.id)), ByRow(ActivityOf(t, v.id));
      if reviews != [] || requests != [] {
        NextItem(ReviewItems(c, t, vs[..|vs| - 1]), Review, vs, ReviewItem(c, v, reviews, requests));
      } else {
        NextItem(ReviewItems(c, t, vs[..|vs| - 1]), Review, vs, Blank(Review, v));
      }
    }
  }

  lemma PublishItemId(c: Context, v: Row<VersionData>, approvals: seq<Row<ApprovalData>>)
    ensures PublishItem(c, v, approvals).id == ItemId(Publish, v.id)
  {
  }

  lemma NoItems<T>(k: Kind, rows: seq<Row<T>>)
    ensures DistinctItems([]) && ItemsOf([], k, rows)
  {
  }

  function Blank(k: Kind, v: Row<VersionData>): Item {
    Item(ItemId(k, v.id), k, Pending, v, None, [], Approvable, None, [], 0)
  }

  lemma {:induction false} PublishItemsDistinct(c: Context, t: Tables, vs: seq<Row<VersionData>>)
    requires UniqueIds(vs)
    ensures DistinctItems(PublishItems(c, t, vs)) && ItemsOf(PublishItems(c, t, vs), Publish, vs)
  {
    hide ItemId, ByRow, PublishApprovalsOf, OpenToPublication, PublishItem, DistinctItems, ItemsOf;
    if vs == [] {
      NoItems(Publish, vs);
    } else {
      PublishItemsDistinct(c, t, vs[..|vs| - 1]);
      PublishItemId(c, vs[|vs| - 1], ByRow(PublishApprovalsOf(t, vs[|vs| - 1].id)));
      assert PublishItems(c, t, vs[..|vs| - 1]) + [] == PublishItems(c, t, vs[..|vs| - 1]);
      NextItem(PublishItems(c, t, vs[..|vs| - 1]), Publish, vs,
               PublishItem(c, vs[|vs| - 1], ByRow(PublishApprovalsOf(t, vs[|vs| - 1].id))));
    }
  }

  lemma {:induction false} AdoptItemsDistinct(c: Context, t: Tables, rs: seq<Row<RequestData>>)
    requires UniqueIds(rs)
    ensures DistinctItems(AdoptItems(c, t, rs)) && ItemsOf(AdoptItems(c, t, rs), AdoptHighRisk, rs)
  {
    hide ItemId, AdoptSubject, FindRow, BoundTo;
    if rs != [] {
      var r := rs[|rs| - 1];
      AdoptItemsDistinct(c, t, rs[..|rs| - 1]);
      var v := FindRow(t.versions, r.data.version).GetOr(Row("", 0, VersionData("", "", "", "")));
      NextItem(AdoptItems(c, t, rs[..|rs| - 1]), AdoptHighRisk, rs, AdoptItem(c, v, r, BoundTo(t, r.id)));
    }
  }

  lemma KindsApart<S, T>(a: seq<Item>, k: Kind, xs: seq<Row<S>>, b: seq<Item>, l: Kind, ys: seq<Row<T>>)
    requires DistinctItems(a) && DistinctItems(b) && ItemsOf(a, k, xs) && ItemsOf(b, l, ys) && k != l
    ensures DistinctItems(a + b)
    ensures forall i, j :: 0 <= i < |a| && 0 <= j < |b| ==> a[i].id != b[j].id
  {
    hide ItemId;
    forall i, j | 0 <= i < |a| && 0 <= j < |b|
      ensures a[i].id != b[j].id
    {
      var x :| 0 <= x < |xs| && a[i].id == ItemId(k, xs[x].id);
      var y :| 0 <= y < |ys| && b[j].id == ItemId(l, ys[y].id);
      if ItemId(k, xs[x].id) == ItemId(l, ys[y].id) {
        ItemIdInjective(k, xs[x].id, l, ys[y].id);
      }
    }
  }

  /** One current item per subject: no two items of a projection share an identifier, within a kind or across kinds. */
  lemma ItemsAreDistinct(c: Context, t: Tables)
    requires UniqueIds(t.versions) && UniqueIds(t.adoptions)
    ensures DistinctItems(Project(c, t))
  {
    hide ItemsOf, ReviewItems, PublishItems, AdoptItems, ItemId;
    var vs, rs := ById(t.versions), ById(t.adoptions);
    SortedUniqueIds(t.versions);
    SortedUniqueIds(t.adoptions);
    ReviewItemsDistinct(c, t, vs);
    PublishItemsDistinct(c, t, vs);
    AdoptItemsDistinct(c, t, rs);
    var a, b, d := ReviewItems(c, t, vs), PublishItems(c, t, vs), AdoptItems(c, t, rs);
    KindsApart(a, Review, vs, b, Publish, vs);
    KindsApart(a, Review, vs, d, AdoptHighRisk, rs);
    KindsApart(b, Publish, vs, d, AdoptHighRisk, rs);
    hide ById;
    assert DistinctItems(a + b + d);
  }

  lemma SortedUniqueIds<T>(rows: seq<Row<T>>)
    requires UniqueIds(rows)
    ensures UniqueIds(ById(rows))
  {
    SortPermutes(rows, (r: Row<T>) => IdKey(r));
    PermutedUnique(rows, ById(rows));
  }

  /** A rearrangement of rows with unique identifiers has unique identifiers. */
  lemma PermutedUnique<T>(a: seq<Row<T>>, b: seq<Row<T>>)
    requires UniqueIds(a) && multiset(a) == multiset(b)
    ensures UniqueIds(b)
  {
    SameMembers(a, b);
    forall i, j | 0 <= i < j < |b|
      ensures b[i].id != b[j].id
    {
      if b[i].id == b[j].id {
        SameId(a, b[i], b[j]);
        TwoCopies(b, i, j);
        OneCopy(a, b[i]);
      }
    }
  }

  lemma TwoCopies<T>(s: seq<T>, i: nat, j: nat)
    requires i < j < |s| && s[i] == s[j]
    ensures multiset(s)[s[i]] >= 2
  {
    assert s == s[..i + 1] + s[i + 1..];
    assert s[i] in s[..i + 1] && s[j] == s[i + 1..][j - i - 1] && s[j] in s[i + 1..];
    assert multiset(s) == multiset(s[..i + 1]) + multiset(s[i + 1..]);
  }

  lemma {:induction false} OneCopy<T>(rows: seq<Row<T>>, r: Row<T>)
    requires UniqueIds(rows)
    ensures multiset(rows)[r] <= 1
  {
    if rows != [] {
      var init, last := rows[..|rows| - 1], rows[|rows| - 1];
      assert rows == init + [last];
      OneCopy(init, r);
      assert forall i :: 0 <= i < |init| ==> rows[i] == init[i] && init[i].id != last.id;
      assert last !in init;
    }
  }

  // ------------------------------------------------------------ what a status means

  /** A version awaits a verdict exactly when it has none or some request came after every one it has. */
  lemma ReviewPendingMeans(reviews: seq<Row<ReviewData>>, requests: seq<Row<ActivityData>>)
    ensures ReviewStatus(LatestOf(reviews), LatestOf(requests)) == Pending <==>
      reviews == [] || exists q :: q in requests && forall r :: r in reviews ==> Less(RowKey(r), RowKey(q))
  {
    LatestIsMaximum(reviews);
    LatestIsMaximum(requests);
    if reviews != [] {
      var latest := LatestOf(reviews).value;
      if q :| q in requests && forall r :: r in reviews ==> Less(RowKey(r), RowKey(q)) {
        LessThenLeq(latest, q, LatestOf(requests).value);
      }
      if LatestOf(requests).Some? && Less(RowKey(latest), RowKey(LatestOf(requests).value)) {
        forall r | r in reviews
          ensures Less(RowKey(r), RowKey(LatestOf(requests).value))
        {
          LeqThenLess(r, latest, LatestOf(requests).value);
        }
      }
    }
  }

  lemma LessThenLeq<S, T>(a: Row<S>, b: Row<T>, c: Row<T>)
    requires Less(RowKey(a), RowKey(b)) && Leq(RowKey(b), RowKey(c))
    ensures Less(RowKey(a), RowKey(c))
  {
    LessTotal(RowKey(b), RowKey(c));
    if RowKey(b) != RowKey(c) {
      LessTransitive(RowKey(a), RowKey(b), RowKey(c));
    }
  }

  lemma LeqThenLess<S, T>(a: Row<S>, b: Row<S>, c: Row<T>)
    requires Leq(RowKey(a), RowKey(b)) && Less(RowKey(b), RowKey(c))
    ensures Less(RowKey(a), RowKey(c))
  {
    LessTotal(RowKey(a), RowKey(b));
    if RowKey(a) != RowKey(b) {
      LessTransitive(RowKey(a), RowKey(b), RowKey(c));
    }
  }

  // ------------------------------------------------------------ the loops

  lemma {:induction false} FilterAgrees<T>(s: seq<T>, f: T -> bool, g: T -> bool)
    requires forall i :: 0 <= i < |s| ==> f(s[i]) == g(s[i])
    ensures Filter(s, f) == Filter(s, g)
  {
    if s != [] {
      FilterAgrees(s[..|s| - 1], f, g);
    }
  }

  function ListAt<T>(groups: map<Id, seq<Row<T>>>, k: Id): seq<Row<T>> {
    if k in groups then groups[k] else []
  }

  ghost predicate Grouped<T>(groups: map<Id, seq<Row<T>>>, rows: seq<Row<T>>, subject: Row<T> -> Option<Id>, k: Id) {
    ListAt(groups, k) == Filter(rows, (r: Row<T>) => subject(r) == Some(k))
  }

  lemma GroupedNext<T>(groups: map<Id, seq<Row<T>>>, rows: seq<Row<T>>, r: Row<T>, subject: Row<T> -> Option<Id>, k: Id)
    requires Grouped(groups, rows, subject, k)
    ensures Grouped(if subject(r).None? then groups
                    else groups[subject(r).value := ListAt(groups, subject(r).value) + [r]], rows + [r], subject, k)
  {
    FilterSnoc(rows, r, (x: Row<T>) => subject(x) == Some(k));
  }

  /** Rows into lists by subject, each list in the order the rows came; a row without one is passed over. */
  method GroupBy<T>(rows: seq<Row<T>>, subject: Row<T> -> Option<Id>) returns (groups: map<Id, seq<Row<T>>>)
    ensures forall k :: Grouped(groups, rows, subject, k)
  {
    groups := map[];
    for i := 0 to |rows|
      invariant forall k :: Grouped(groups, rows[..i], subject, k)
    {
      hide Grouped;
      ghost var before := groups;
      var key := subject(rows[i]);
      if key.Some? {
        groups := groups[key.value := ListAt(groups, key.value) + [rows[i]]];
      }
      assert rows[..i + 1] == rows[..i] + [rows[i]];
      ghost var seen := rows[..i + 1];
      forall k: Id
        ensures Grouped(groups, seen, subject, k)
      {
        GroupedNext(before, rows[..i], rows[i], subject, k);
      }
    }
    assert rows[..|rows|] == rows;
  }

  function BoundAt(bound: map<Id, Row<ApprovalData>>, k: Id): Option<Row<ApprovalData>> {
    if k in bound then Some(bound[k]) else None
  }

  ghost predicate BoundLatest(bound: map<Id, Row<ApprovalData>>, rows: seq<Row<ApprovalData>>, k: Id) {
    BoundAt(bound, k) == LatestOf(Filter(rows, (a: Row<ApprovalData>) => a.data.request == Some(k)))
  }

  lemma BoundNext(bound: map<Id, Row<ApprovalData>>, rows: seq<Row<ApprovalData>>, a: Row<ApprovalData>, k: Id)
    requires BoundLatest(bound, rows, k)
    ensures BoundLatest(if a.data.request.None? then bound
                        else bound[a.data.request.value := LaterOf(BoundAt(bound, a.data.request.value), a)],
                        rows + [a], k)
  {
    var keep := (x: Row<ApprovalData>) => x.data.request == Some(k);
    FilterSnoc(rows, a, keep);
    var found := Filter(rows, keep);
    assert found + [] == found && (found + [a])[..|found|] == found;
    assert BoundAt(bound, k) == LatestOf(found);
  }

  method LatestByRequest(rows: seq<Row<ApprovalData>>) returns (bound: map<Id, Row<ApprovalData>>)
    ensures forall k :: BoundLatest(bound, rows, k)
  {
    bound := map[];
    for i := 0 to |rows|
      invariant forall k :: BoundLatest(bound, rows[..i], k)
    {
      hide BoundLatest;
      ghost var before := bound;
      var request := rows[i].data.request;
      if request.Some? {
        bound := bound[request.value := LaterOf(BoundAt(bound, request.value), rows[i])];
      }
      assert rows[..i + 1] == rows[..i] + [rows[i]];
      ghost var seen := rows[..i + 1];
      forall k: Id
        ensures BoundLatest(bound, seen, k)
      {
        BoundNext(before, rows[..i], rows[i], k);
      }
    }
    assert rows[..|rows|] == rows;
  }

  function ReviewSubject(r: Row<ReviewData>): Option<Id> {
    Some(r.data.version)
  }

  function ActivitySubject(r: Row<ActivityData>): Option<Id> {
    Some(r.data.subject)
  }

  function PublishSubject(a: Row<ApprovalData>): Option<Id> {
    if a.data.request.None? then Some(a.data.version) else None
  }

  lemma GroupedAgrees<T>(groups: map<Id, seq<Row<T>>>, rows: seq<Row<T>>,
                                            subject: Row<T> -> Option<Id>, k: Id, keep: Row<T> -> bool)
    requires Grouped(groups, rows, subject, k)
    requires forall i :: 0 <= i < |rows| ==> (subject(rows[i]) == Some(k) <==> keep(rows[i]))
    ensures ListAt(groups, k) == Filter(rows, keep)
  {
    FilterAgrees(rows, (r: Row<T>) => subject(r) == Some(k), keep);
  }

  lemma ReviewLists(t: Tables, reviews: map<Id, seq<Row<ReviewData>>>, requests: map<Id, seq<Row<ActivityData>>>, v: Id)
    requires Grouped(reviews, t.reviews, ReviewSubject, v) && Grouped(requests, t.activity, ActivitySubject, v)
    ensures ListAt(reviews, v) == ReviewsOf(t, v) && ListAt(requests, v) == ActivityOf(t, v)
  {
    GroupedAgrees(reviews, t.reviews, ReviewSubject, v, (r: Row<ReviewData>) => r.data.version == v);
    GroupedAgrees(requests, t.activity, ActivitySubject, v, (r: Row<ActivityData>) => r.data.subject == v);
  }

  lemma PublishLists(t: Tables, publish: map<Id, seq<Row<ApprovalData>>>, v: Id)
    requires Grouped(publish, t.approvals, PublishSubject, v)
    ensures ListAt(publish, v) == PublishApprovalsOf(t, v)
  {
    GroupedAgrees(publish, t.approvals, PublishSubject, v,
                  (a: Row<ApprovalData>) => a.data.request.None? && a.data.version == v);
  }

  lemma ItemsUnfold(c: Context, t: Tables, vs: seq<Row<VersionData>>, i: nat)
    requires i < |vs|
    ensures var v := vs[i];
      var reviews, requests := ByRow(ReviewsOf(t, v.id)), ByRow(ActivityOf(t, v.id));
      ReviewItems(c, t, vs[..i + 1]) == ReviewItems(c, t, vs[..i])
        + if reviews == [] && requests == [] then [] else [ReviewItem(c, v, reviews, requests)]
    ensures var approvals := ByRow(PublishApprovalsOf(t, vs[i].id));
      PublishItems(c, t, vs[..i + 1]) == PublishItems(c, t, vs[..i])
        + if approvals == [] && !(OpenToPublication(vs[i].data.state) && c.conditions(vs[i]) != []) then []
          else [PublishItem(c, vs[i], approvals)]
  {
    hide ReviewItem, PublishItem, ByRow, ReviewsOf, ActivityOf, PublishApprovalsOf;
    assert vs[..i + 1][..i] == vs[..i];
  }

  /** One item per reviewed or requested version, in version order. */
  method ProjectReviews(c: Context, t: Tables) returns (items: seq<Item>)
    ensures items == ReviewItems(c, t, ById(t.versions))
  {
    var reviews := GroupBy(t.reviews, ReviewSubject);
    var requests := GroupBy(t.activity, ActivitySubject);
    var vs := ById(t.versions);
    items := [];
    for i := 0 to |vs|
      invariant items == ReviewItems(c, t, vs[..i])
    {
      hide *;
      var v := vs[i];
      ReviewLists(t, reviews, requests, v.id);
      var versionReviews, versionRequests := ByRow(ListAt(reviews, v.id)), ByRow(ListAt(requests, v.id));
      ItemsUnfold(c, t, vs, i);
      if versionReviews != [] || versionRequests != [] {
        items := items + [ReviewItem(c, v, versionReviews, versionRequests)];
      }
    }
    assert vs[..|vs|] == vs;
  }

  /** One item per version with a publish approval, or whose publish gate is still ahead of it. */
  method ProjectPublishes(c: Context, t: Tables) returns (items: seq<Item>)
    ensures items == PublishItems(c, t, ById(t.versions))
  {
    var publish := GroupBy(t.approvals, PublishSubject);
    var vs := ById(t.versions);
    items := [];
    for i := 0 to |vs|
      invariant items == PublishItems(c, t, vs[..i])
    {
      hide *;
      var v := vs[i];
      PublishLists(t, publish, v.id);
      var rows := ByRow(ListAt(publish, v.id));
      ItemsUnfold(c, t, vs, i);
      if rows != [] || (OpenToPublication(v.data.state) && c.conditions(v) != []) {
        items := items + [PublishItem(c, v, rows)];
      }
    }
    assert vs[..|vs|] == vs;
  }

  /** One item per adoption request that is held, decided or was denied, in request order. */
  method ProjectAdoptions(c: Context, t: Tables) returns (items: seq<Item>)
    ensures items == AdoptItems(c, t, ById(t.adoptions))
  {
    hide AdoptItem, ById, FindRow;
    var bound := LatestByRequest(t.approvals);
    var rs := ById(t.adoptions);
    items := [];
    for i := 0 to |rs|
      invariant items == AdoptItems(c, t, rs[..i])
    {
      var r := rs[i];
      assert BoundLatest(bound, t.approvals, r.id);
      var v := FindRow(t.versions, r.data.version);
      assert rs[..i + 1][..i] == rs[..i];
      var denied := r.data.state == "dead_letter" && r.data.reason == Some("approval_denied");
      if v.Some? && (r.data.state == "approval_pending" || r.id in bound || denied) {
        items := items + [AdoptItem(c, v.value, r, BoundAt(bound, r.id))];
      }
    }
    assert rs[..|rs|] == rs;
  }

  method ProjectInbox(c: Context, t: Tables) returns (items: seq<Item>)
    ensures items == Project(c, t)
  {
    var reviews := ProjectReviews(c, t);
    var publishes := ProjectPublishes(c, t);
    var adoptions := ProjectAdoptions(c, t);
    items := reviews + publishes + adoptions;
  }
}
