/** Deployments pushed to agents: one journal each, a head derived from it, and supersession by a successor. */
module Deployments {
  import opened Common
  import opened Rows

  type Id = string

  datatype State = Assigned | Queued | Activating | Active | Drifted | Failed | Paused | Revoked

  datatype Copy = Written | Removed | Absent | Retained

  /** Composed keys never collide with a caller's own. */
  datatype Key = AssignedKey(id: Id) | SupersededKey(successor: Id) | CallerKey(text: string)

  datatype Row = Row(id: Id, skill: Id, agent: Id)

  datatype Event = Event(
    assignment: Id,
    number: nat,
    state: State,
    supersededBy: Option<Id>,
    target: Option<string>,
    relpath: Option<string>,
    copy: Option<Copy>,
    key: Key)

  datatype Store = Store(rows: seq<Row>, events: seq<Event>)

  const EMPTY: Store := Store([], [])

  datatype Op =
    | Append(id: Id, state: State, target: Option<string>, relpath: Option<string>, copy: Option<Copy>, text: string)
    | Push(id: Id, skill: Id, agent: Id)

  datatype Refusal = NoJournal | IllegalTransition(current: State) | ConstraintFailed

  predicate Legal(from: State, to: State) {
    match from
    case Assigned => to == Queued || to == Activating || to == Paused || to == Revoked
    case Queued => to == Activating || to == Paused || to == Revoked
    case Activating => to == Active || to == Failed
    case Active => to == Drifted || to == Activating || to == Paused || to == Revoked
    case Drifted => to == Activating || to == Paused || to == Revoked
    case Failed => to == Activating || to == Paused || to == Revoked
    case Paused => to == Activating || to == Revoked
    case Revoked => false
  }

  function EventsOf(events: seq<Event>, id: Id): seq<Event> {
    Filter(events, (e: Event) => e.assignment == id)
  }

  function Journal(s: Store, id: Id): seq<Event> {
    EventsOf(s.events, id)
  }

  predicate HasRow(rows: seq<Row>, id: Id) {
    exists i :: 0 <= i < |rows| && rows[i].id == id
  }

  // ------------------------------------------------------------ the head

  datatype Head = Head(state: State, number: nat, target: Option<string>, relpath: Option<string>, copy: Option<Copy>)

  function Latest<T>(before: Option<T>, now: Option<T>): Option<T> {
    if now.Some? then now else before
  }

  /** The state of the last event, and the last value each placement field was given. */
  function HeadOf(j: seq<Event>): Head
    requires j != []
  {
    var e := j[|j| - 1];
    if |j| == 1 then Head(e.state, e.number, e.target, e.relpath, e.copy)
    else
      var before := HeadOf(j[..|j| - 1]);
      Head(e.state, e.number, Latest(before.target, e.target), Latest(before.relpath, e.relpath),
           Latest(before.copy, e.copy))
  }

  /** A placement field of the head is the value of the last event that gave it one. */
  lemma {:induction false} HeadCopyIsLast(j: seq<Event>, k: nat)
    requires k < |j| && j[k].copy.Some? && forall i :: k < i < |j| ==> j[i].copy.None?
    ensures HeadOf(j).copy == j[k].copy
  {
    if k < |j| - 1 {
      HeadCopyIsLast(j[..|j| - 1], k);
    }
  }

  /** The loop over the journal: the highest sequence number seen, and each placement as it is overwritten. */
  method HeadFrom(j: seq<Event>) returns (head: Head)
    requires JournalOk(j) && j != []
    ensures head == HeadOf(j)
  {
    hide Latest, StepOk;
    var top := j[0];
    var target, relpath, copy: Option<Copy> := None, None, None;
    for k := 0 to |j|
      invariant k == 0 ==> top == j[0] && target == None && relpath == None && copy == None
      invariant k > 0 ==> HeadOf(j[..k]) == Head(top.state, top.number, target, relpath, copy) && top == j[k - 1]
    {
      assert EventAt(j, k) && (k > 0 ==> EventAt(j, k - 1));
      if j[k].number >= top.number {
        top := j[k];
      }
      LatestStep(j, k);
      if j[k].target.Some? {
        target := j[k].target;
      }
      if j[k].relpath.Some? {
        relpath := j[k].relpath;
      }
      if j[k].copy.Some? {
        copy := j[k].copy;
      }
    }
    assert j[..|j|] == j;
    head := Head(top.state, top.number, target, relpath, copy);
  }

  lemma LatestStep(j: seq<Event>, k: nat)
    requires k < |j|
    ensures var e := j[k];
      HeadOf(j[..k + 1]) ==
        if k == 0 then Head(e.state, e.number, e.target, e.relpath, e.copy)
        else
          var before := HeadOf(j[..k]);
          Head(e.state, e.number, if e.target.Some? then e.target else before.target,
               if e.relpath.Some? then e.relpath else before.relpath, if e.copy.Some? then e.copy else before.copy)
  {
    assert j[..k + 1][..k] == j[..k];
  }

  // ------------------------------------------------------------ answers and transitions

  predicate KeyUsed(j: seq<Event>, key: Key) {
    exists i :: 0 <= i < |j| && j[i].key == key
  }

  /** Appending to a journal that exists: the table first, then the unique key. */
  function AppendRefusal(j: seq<Event>, state: State, key: Key): Option<Refusal> {
    if j == [] then Some(NoJournal)
    else if !Legal(HeadOf(j).state, state) then Some(IllegalTransition(HeadOf(j).state))
    else if KeyUsed(j, key) then Some(ConstraintFailed)
    else None
  }

  predicate Standing(s: Store, id: Id) {
    Journal(s, id) != [] && HeadOf(Journal(s, id)).state != Revoked
  }

  function Rivals(s: Store, op: Op): seq<Row>
    requires op.Push?
  {
    Filter(s.rows, (r: Row) => r.skill == op.skill && r.agent == op.agent && Standing(s, r.id))
  }

  function RevokedBy(j: seq<Event>, id: Id, successor: Id): Event
    requires j != []
  {
    var head := HeadOf(j);
    Event(id, head.number + 1, Revoked, Some(successor), None, None,
          Some(if head.copy == Some(Written) then Retained else Absent), SupersededKey(successor))
  }

  function FirstEvent(id: Id): Event {
    Event(id, 1, Assigned, None, None, None, None, AssignedKey(id))
  }

  function Revocations(s: Store, rivals: seq<Row>, successor: Id): seq<Event> {
    if rivals == [] then []
    else
      var last := rivals[|rivals| - 1];
      Revocations(s, rivals[..|rivals| - 1], successor)
      + if Journal(s, last.id) == [] then [] else [RevokedBy(Journal(s, last.id), last.id, successor)]
  }

  /** An activation has begun and has neither succeeded nor failed. */
  predicate InProgress(s: Store, id: Id) {
    Journal(s, id) != [] && HeadOf(Journal(s, id)).state == Activating
  }

  predicate Busy(s: Store, rivals: seq<Row>) {
    exists i :: 0 <= i < |rivals| && InProgress(s, rivals[i].id)
  }

  predicate Accepted(s: Store, op: Op) {
    match op
    case Append(id, state, _, _, _, text) => AppendRefusal(Journal(s, id), state, CallerKey(text)).None?
    case Push(id, _, _) => !HasRow(s.rows, id) && !Busy(s, Rivals(s, op))
  }

  function Next(s: Store, op: Op): Store {
    if !Accepted(s, op) then s
    else match op
      case Append(id, state, target, relpath, copy, text) =>
        var number := HeadOf(Journal(s, id)).number + 1;
        s.(events := s.events + [Event(id, number, state, None, target, relpath, copy, CallerKey(text))])
      case Push(id, skill, agent) =>
        Store(s.rows + [Row(id, skill, agent)], s.events + [FirstEvent(id)] + Revocations(s, Rivals(s, op), id))
  }

  function Run(s: Store, ops: seq<Op>): Store {
    if ops == [] then s else Next(Run(s, ops[..|ops| - 1]), ops[|ops| - 1])
  }

  // ------------------------------------------------------------ what every run keeps

  predicate StepOk(before: State, e: Event) {
    Legal(before, e.state) && (e.supersededBy.Some? ==> e.state == Revoked)
  }

  predicate EventAt(j: seq<Event>, k: nat)
    requires k < |j|
  {
    j[k].number == k + 1 && if k == 0 then j[k].state == Assigned else StepOk(j[k - 1].state, j[k])
  }

  ghost predicate JournalOk(j: seq<Event>) {
    forall k :: 0 <= k < |j| ==> EventAt(j, k)
  }

  /** Superseded keys name assignments that exist. */
  ghost predicate KeysOk(s: Store) {
    forall i :: 0 <= i < |s.events| ==>
      && HasRow(s.rows, s.events[i].assignment)
      && (s.events[i].key.SupersededKey? ==> HasRow(s.rows, s.events[i].key.successor))
  }

  ghost predicate OneStands(s: Store) {
    forall i, j :: 0 <= i < j < |s.rows| && s.rows[i].skill == s.rows[j].skill && s.rows[i].agent == s.rows[j].agent ==>
      !Standing(s, s.rows[i].id)
  }

  ghost predicate Inv(s: Store) {
    && (forall i, j :: 0 <= i < j < |s.rows| ==> s.rows[i].id != s.rows[j].id)
    && (forall id :: JournalOk(Journal(s, id)))
    && (forall i :: 0 <= i < |s.rows| ==> Journal(s, s.rows[i].id) != [])
    && KeysOk(s)
    && OneStands(s)
  }

  // ------------------------------------------------------------ one journal under one operation

  lemma JournalSnoc(events: seq<Event>, e: Event, id: Id)
    ensures EventsOf(events + [e], id) == EventsOf(events, id) + if e.assignment == id then [e] else []
  {
    FilterSnoc(events, e, (x: Event) => x.assignment == id);
  }

  lemma JournalConcat(a: seq<Event>, b: seq<Event>, id: Id)
    ensures EventsOf(a + b, id) == EventsOf(a, id) + EventsOf(b, id)
  {
    FilterConcat(a, b, (x: Event) => x.assignment == id);
  }

  ghost predicate DistinctRows(rows: seq<Row>) {
    forall i, j :: 0 <= i < j < |rows| ==> rows[i].id != rows[j].id
  }

  lemma HasRowSnoc(init: seq<Row>, last: Row, id: Id)
    ensures HasRow(init + [last], id) <==> HasRow(init, id) || last.id == id
  {
    var rows := init + [last];
    assert rows[|init|] == last && forall i :: 0 <= i < |init| ==> rows[i] == init[i];
  }

  lemma RevocationsSnoc(s: Store, init: seq<Row>, last: Row, successor: Id)
    ensures Revocations(s, init + [last], successor) == Revocations(s, init, successor)
      + if Journal(s, last.id) == [] then [] else [RevokedBy(Journal(s, last.id), last.id, successor)]
  {
    assert (init + [last])[..|init|] == init;
  }

  lemma NoEvents(id: Id)
    ensures EventsOf([], id) == []
  {
  }

  /** The revocations hold one event for each rival and nothing for anyone else. */
  lemma {:induction false} RevocationsOf(s: Store, rivals: seq<Row>, successor: Id, id: Id)
    requires DistinctRows(rivals)
    ensures EventsOf(Revocations(s, rivals, successor), id)
      == if HasRow(rivals, id) && Journal(s, id) != [] then [RevokedBy(Journal(s, id), id, successor)] else []
  {
    NoEvents(id);
    if rivals != [] {
      var init, last := rivals[..|rivals| - 1], rivals[|rivals| - 1];
      assert rivals == init + [last];
      assert last.id == id ==> !HasRow(init, id);
      hide RevokedBy, HeadOf, EventsOf, HasRow, Revocations;
      RevocationsOf(s, init, successor, id);
      HasRowSnoc(init, last, id);
      RevocationsSnoc(s, init, last, successor);
      if Journal(s, last.id) != [] {
        JournalConcat(Revocations(s, init, successor), [RevokedBy(Journal(s, last.id), last.id, successor)], id);
        OneEvent(s, last.id, successor, id);
      } else {
        assert Revocations(s, init, successor) + [] == Revocations(s, init, successor);
      }
    }
  }

  lemma OneEvent(s: Store, rival: Id, successor: Id, id: Id)
    requires Journal(s, rival) != []
    ensures EventsOf([RevokedBy(Journal(s, rival), rival, successor)], id)
      == if rival == id then [RevokedBy(Journal(s, rival), rival, successor)] else []
  {
    var e := RevokedBy(Journal(s, rival), rival, successor);
    JournalSnoc([], e, id);
    assert [] + [e] == [e];
  }

  lemma {:induction false} FilterDistinct(rows: seq<Row>, keep: Row -> bool)
    requires DistinctRows(rows)
    ensures DistinctRows(Filter(rows, keep))
  {
    if rows != [] {
      var init, last := rows[..|rows| - 1], rows[|rows| - 1];
      FilterDistinct(init, keep);
      FilterMembers(init, keep);
      var kept := Filter(init, keep);
      forall i | 0 <= i < |kept|
        ensures kept[i].id != last.id
      {
        assert kept[i] in kept;
      }
    }
  }

  lemma RivalsAre(s: Store, op: Op)
    requires DistinctRows(s.rows) && op.Push?
    ensures DistinctRows(Rivals(s, op))
    ensures forall r :: r in Rivals(s, op) <==>
      r in s.rows && r.skill == op.skill && r.agent == op.agent && Standing(s, r.id)
  {
    var keep := (r: Row) => r.skill == op.skill && r.agent == op.agent && Standing(s, r.id);
    FilterDistinct(s.rows, keep);
    FilterMembers(s.rows, keep);
  }

  lemma FreshHasNoJournal(s: Store, id: Id)
    requires KeysOk(s) && !HasRow(s.rows, id)
    ensures Journal(s, id) == []
  {
    FilterNone(s.events, (e: Event) => e.assignment == id);
  }

  /** What an accepted operation adds to one journal: the caller's event, a first event, or a revocation. */
  function Added(s: Store, op: Op, id: Id): seq<Event>
    requires Accepted(s, op)
  {
    match op
    case Append(a, state, target, relpath, copy, text) =>
      if a == id then
        [Event(id, HeadOf(Journal(s, id)).number + 1, state, None, target, relpath, copy, CallerKey(text))]
      else []
    case Push(a, _, _) =>
      if a == id then [FirstEvent(id)]
      else if HasRow(Rivals(s, op), id) && Journal(s, id) != [] then [RevokedBy(Journal(s, id), id, a)]
      else []
  }

  lemma JournalAfter(s: Store, op: Op, id: Id)
    requires Inv(s) && Accepted(s, op)
    ensures Journal(Next(s, op), id) == Journal(s, id) + Added(s, op, id)
  {
    hide HeadOf, RevokedBy, EventsOf, Standing, Rivals, Busy, JournalOk, OneStands;
    match op
    case Append(a, state, target, relpath, copy, text) =>
      var number := HeadOf(Journal(s, a)).number + 1;
      JournalSnoc(s.events, Event(a, number, state, None, target, relpath, copy, CallerKey(text)), id);
    case Push(a, _, _) =>
      RivalsAre(s, op);
      JournalConcat(s.events + [FirstEvent(a)], Revocations(s, Rivals(s, op), a), id);
      JournalSnoc(s.events, FirstEvent(a), id);
      RevocationsOf(s, Rivals(s, op), a, id);
      if a == id {
        FreshHasNoJournal(s, id);
      }
      assert Journal(s, id) + [] == Journal(s, id);
  }

  lemma HeadIsLast(j: seq<Event>)
    requires JournalOk(j) && j != []
    ensures HeadOf(j).number == |j| && HeadOf(j).state == j[|j| - 1].state
  {
    assert EventAt(j, |j| - 1);
  }

  lemma GrowJournal(j: seq<Event>, e: Event)
    requires JournalOk(j) && e.number == |j| + 1
    requires if j == [] then e.state == Assigned else StepOk(j[|j| - 1].state, e)
    ensures JournalOk(j + [e])
  {
    hide StepOk;
    forall k | 0 <= k < |j + [e]|
      ensures EventAt(j + [e], k)
    {
      if k < |j| {
        assert EventAt(j, k);
      }
    }
  }

  lemma JournalStep(s: Store, op: Op, id: Id)
    requires Inv(s) && Accepted(s, op)
    ensures JournalOk(Journal(Next(s, op), id))
  {
    JournalAfter(s, op, id);
    var j := Journal(s, id);
    assert JournalOk(j);
    hide Next, EventsOf, HeadOf, JournalOk;
    if j != [] {
      HeadIsLast(j);
    }
    if Added(s, op, id) == [] {
      assert j + [] == j;
    } else if op.Push? {
      if op.id == id {
        FreshHasNoJournal(s, id);
      } else {
        RivalsAre(s, op);
        assert Standing(s, id) && HeadOf(j).state != Activating;
      }
      GrowJournal(j, Added(s, op, id)[0]);
    } else {
      GrowJournal(j, Added(s, op, id)[0]);
    }
  }

  /** Nothing makes a revoked assignment stand again. */
  lemma StandingStep(s: Store, op: Op, id: Id)
    requires Inv(s) && Accepted(s, op) && Journal(s, id) != [] && Standing(Next(s, op), id)
    ensures Standing(s, id)
    ensures op.Push? ==> !HasRow(Rivals(s, op), id)
  {
    JournalAfter(s, op, id);
    JournalStep(s, op, id);
    var j, after := Journal(s, id), Journal(Next(s, op), id);
    assert JournalOk(j);
    hide Next, EventsOf, HeadOf, JournalOk, Rivals;
    HeadIsLast(j);
    HeadIsLast(after);
    if op.Push? && op.id == id {
      FreshHasNoJournal(s, id);
    }
  }

  lemma OneStandsStep(s: Store, op: Op)
    requires Inv(s) && Accepted(s, op)
    ensures OneStands(Next(s, op))
  {
    var after := Next(s, op);
    forall i | 0 <= i < |s.rows| && Standing(after, s.rows[i].id)
      ensures Standing(s, s.rows[i].id)
      ensures op.Push? ==> s.rows[i].skill != op.skill || s.rows[i].agent != op.agent
    {
      assert Journal(s, s.rows[i].id) != [];
      StandingStep(s, op, s.rows[i].id);
      if op.Push? {
        RivalsAre(s, op);
        NotRival(s, op, s.rows[i]);
      }
    }
    hide Standing, Accepted;
  }

  lemma NotRival(s: Store, op: Op, r: Row)
    requires op.Push? && !HasRow(Rivals(s, op), r.id) && r in s.rows && Standing(s, r.id)
    requires forall x :: x in Rivals(s, op) <==>
      x in s.rows && x.skill == op.skill && x.agent == op.agent && Standing(s, x.id)
    ensures r.skill != op.skill || r.agent != op.agent
  {
    hide Rivals, Standing;
  }

  lemma EventsStep(s: Store, op: Op)
    requires Inv(s) && Accepted(s, op)
    ensures KeysOk(Next(s, op))
    ensures forall i :: 0 <= i < |Next(s, op).rows| ==> Journal(Next(s, op), Next(s, op).rows[i].id) != []
  {
    var after := Next(s, op);
    forall i | 0 <= i < |after.rows|
      ensures Journal(after, after.rows[i].id) != []
    {
      JournalAfter(s, op, after.rows[i].id);
    }
    hide Standing, HeadOf, EventsOf, JournalOk, OneStands;
    forall id: Id | HasRow(s.rows, id)
      ensures HasRow(after.rows, id)
    {
      var i :| 0 <= i < |s.rows| && s.rows[i].id == id;
      assert after.rows[i] == s.rows[i];
    }
    match op
    case Append(id, _, _, _, _, _) =>
      RowOfJournal(s, id);
    case Push(id, _, _) =>
      assert after.rows[|s.rows|].id == id;
      RivalsAre(s, op);
      RevocationRows(s, Rivals(s, op), id);
  }

  lemma RowOfJournal(s: Store, id: Id)
    requires KeysOk(s) && Journal(s, id) != []
    ensures HasRow(s.rows, id)
  {
    if !HasRow(s.rows, id) {
      FreshHasNoJournal(s, id);
    }
  }

  lemma {:induction false} RevocationRows(s: Store, rivals: seq<Row>, successor: Id)
    requires forall r :: r in rivals ==> r in s.rows
    ensures forall i :: 0 <= i < |Revocations(s, rivals, successor)| ==>
      var e := Revocations(s, rivals, successor)[i];
      HasRow(s.rows, e.assignment) && e.key == SupersededKey(successor)
  {
    hide HeadOf;
    if rivals != [] {
      RevocationRows(s, rivals[..|rivals| - 1], successor);
      assert rivals[|rivals| - 1] in s.rows;
    }
  }

  lemma InvStep(s: Store, op: Op)
    requires Inv(s)
    ensures Inv(Next(s, op))
  {
    if Accepted(s, op) {
      forall id: Id
        ensures JournalOk(Journal(Next(s, op), id))
      {
        JournalStep(s, op, id);
      }
      OneStandsStep(s, op);
      EventsStep(s, op);
      hide JournalOk, OneStands, KeysOk, EventsOf, Busy, AppendRefusal;
    }
  }

  /**
   * Every reachable journal runs 1..n along the table, and at most the newest assignment of a skill stands at an agent.
   */
  lemma {:induction false} InvAlways(ops: seq<Op>)
    ensures Inv(Run(EMPTY, ops))
  {
    if ops == [] {
      assert forall id: Id :: Journal(EMPTY, id) == [];
    } else {
      InvAlways(ops[..|ops| - 1]);
      hide Next, Inv;
      InvStep(Run(EMPTY, ops[..|ops| - 1]), ops[|ops| - 1]);
    }
  }

  // ------------------------------------------------------------ supersession

  /**
   * After a push only the successor stands for that skill at that agent; what it replaced gained one revocation that
   * names it, with the copy retained exactly when the last one recorded was written; every other journal is untouched.
   */
  lemma PushSupersedes(s: Store, op: Op, r: Row)
    requires Inv(s) && op.Push? && Accepted(s, op) && r in s.rows
    ensures Standing(Next(s, op), op.id)
    ensures r.skill == op.skill && r.agent == op.agent ==> !Standing(Next(s, op), r.id)
    ensures var j, after := Journal(s, r.id), Journal(Next(s, op), r.id);
      if r.skill == op.skill && r.agent == op.agent && Standing(s, r.id) then
        && |after| == |j| + 1 && after[..|j|] == j
        && after[|j|].state == Revoked && after[|j|].supersededBy == Some(op.id)
        && (after[|j|].copy == Some(Retained) <==> HeadOf(j).copy == Some(Written))
        && (after[|j|].copy == Some(Absent) <==> HeadOf(j).copy != Some(Written))
      else after == j
  {
    JournalAfter(s, op, r.id);
    JournalAfter(s, op, op.id);
    FreshHasNoJournal(s, op.id);
    RivalsAre(s, op);
    if r in Rivals(s, op) {
      var i :| 0 <= i < |Rivals(s, op)| && Rivals(s, op)[i] == r;
    } else if HasRow(Rivals(s, op), r.id) {
      SameRow(s, op, r);
    }
    hide Next, Rivals, EventsOf, Inv;
  }

  lemma SameRow(s: Store, op: Op, r: Row)
    requires Inv(s) && op.Push? && r in s.rows && HasRow(Rivals(s, op), r.id)
    ensures r in Rivals(s, op)
  {
    RivalsAre(s, op);
    hide Rivals, OneStands, Standing, JournalOk, KeysOk, EventsOf;
    var i :| 0 <= i < |Rivals(s, op)| && Rivals(s, op)[i].id == r.id;
    assert Rivals(s, op)[i] in s.rows;
    var a :| 0 <= a < |s.rows| && s.rows[a] == Rivals(s, op)[i];
    var b :| 0 <= b < |s.rows| && s.rows[b] == r;
  }

  predicate BlocksPush(s: Store, op: Op, r: Row)
    requires op.Push?
  {
    r.skill == op.skill && r.agent == op.agent && InProgress(s, r.id)
  }

  /** A push under a fresh identifier is refused exactly when the assignment it would replace is being activated. */
  lemma PushRefusal(s: Store, op: Op)
    requires Inv(s) && op.Push? && !HasRow(s.rows, op.id)
    ensures !Accepted(s, op) <==> exists r :: r in s.rows && BlocksPush(s, op, r)
  {
    RivalsAre(s, op);
    hide Rivals, EventsOf, HeadOf, OneStands, JournalOk, KeysOk;
    if r :| r in s.rows && BlocksPush(s, op, r) {
      assert r in Rivals(s, op);
      var i :| 0 <= i < |Rivals(s, op)| && Rivals(s, op)[i] == r;
    }
    if Busy(s, Rivals(s, op)) {
      var i :| 0 <= i < |Rivals(s, op)| && InProgress(s, Rivals(s, op)[i].id);
      assert BlocksPush(s, op, Rivals(s, op)[i]);
    }
  }

  /** Superseding keys never collide: the successor is new, and every key in use names an older assignment. */
  lemma SupersedingKeyIsFree(s: Store, id: Id, successor: Id)
    requires KeysOk(s) && !HasRow(s.rows, successor)
    ensures !KeyUsed(Journal(s, id), SupersededKey(successor))
  {
    FilterMembers(s.events, (e: Event) => e.assignment == id);
    var j := Journal(s, id);
    forall i | 0 <= i < |j|
      ensures j[i].key != SupersededKey(successor)
    {
      assert j[i] in j && j[i] in s.events;
      var k :| 0 <= k < |s.events| && s.events[k] == j[i];
    }
  }

  // ------------------------------------------------------------ the tables in place

  class Tables {
    var rows: seq<Row>
    var events: seq<Event>

    function Contents(): Store
      reads this
    {
      Store(rows, events)
    }

    constructor ()
      ensures Contents() == EMPTY
    {
      rows, events := [], [];
    }

    /** Read the journal, check the table against its head, and insert the next event under a unique key. */
    method AppendEvent(id: Id, state: State, supersededBy: Option<Id>, target: Option<string>, relpath: Option<string>,
                       copy: Option<Copy>, key: Key)
      returns (refusal: Option<Refusal>)
      requires JournalOk(EventsOf(events, id)) && EventsOf(events, id) != []
      modifies this`events
      ensures refusal == AppendRefusal(old(EventsOf(events, id)), state, key)
      ensures events == if refusal.Some? then old(events)
        else old(events) + [Event(id, HeadOf(old(EventsOf(events, id))).number + 1, state, supersededBy, target,
                                  relpath, copy, key)]
    {
      hide HeadOf, EventsOf, JournalOk;
      var journal := EventsOf(events, id);
      var head := HeadFrom(journal);
      if !Legal(head.state, state) {
        return Some(IllegalTransition(head.state));
      }
      if KeyUsed(journal, key) {
        return Some(ConstraintFailed);
      }
      events := events + [Event(id, head.number + 1, state, supersededBy, target, relpath, copy, key)];
      refusal := None;
    }

    /** One revocation per standing rival, in order; stops at the first that cannot be revoked. */
    method RevokeRivals(rivals: seq<Row>, id: Id, ghost before: Store, ghost op: Op) returns (ok: bool)
      requires Inv(before) && op.Push? && op.id == id && !HasRow(before.rows, id) && DistinctRows(rivals)
      requires forall i :: 0 <= i < |rivals| ==> rivals[i].id != id && Standing(before, rivals[i].id)
      requires events == before.events + [FirstEvent(id)]
      modifies this`events
      ensures ok <==> !Busy(before, rivals)
      ensures ok ==> events == before.events + [FirstEvent(id)] + Revocations(before, rivals, id)
    {
      hide *;
      var k := 0;
      NoRivalsYet(before, rivals, id);
      while k < |rivals|
        invariant 0 <= k <= |rivals|
        invariant events == before.events + [FirstEvent(id)] + Revocations(before, rivals[..k], id)
        invariant !Busy(before, rivals[..k])
      {
        RivalJournal(before, rivals, k, id);
        var head := HeadFrom(EventsOf(events, rivals[k].id));
        var copy := if head.copy == Some(Written) then Retained else Absent;
        var refusal := AppendEvent(rivals[k].id, Revoked, Some(id), None, None, Some(copy), SupersededKey(id));
        RivalStep(before, op, rivals, k, before.events + [FirstEvent(id)]);
        if refusal.Some? {
          BusyPrefix(before, rivals, k + 1);
          return false;
        }
        k := k + 1;
      }
      assert rivals[..|rivals|] == rivals;
      ok := true;
    }

    /**
     * The assignment, its first event, and one revocation per standing rival, in one transaction: a rival that cannot
     * be revoked takes everything back.
     */
    method PushDeployment(id: Id, skill: Id, agent: Id) returns (ok: bool)
      requires Inv(Contents())
      modifies this
      ensures var op := Push(id, skill, agent);
        ok == Accepted(old(Contents()), op) && Contents() == Next(old(Contents()), op)
    {
      hide HeadOf, EventsOf, Rivals, Revocations, Standing, Busy;
      var op := Push(id, skill, agent);
      if HasRow(rows, id) {
        return false;
      }
      ghost var before := Contents();
      var savedRows, savedEvents := rows, events;
      var rivals := Rivals(Contents(), op);
      RivalsAre(before, op);
      assert forall i :: 0 <= i < |rivals| ==> rivals[i] in rivals;
      rows, events := rows + [Row(id, skill, agent)], events + [FirstEvent(id)];
      ok := RevokeRivals(rivals, id, before, op);
      if !ok {
        rows, events := savedRows, savedEvents;
      }
    }
  }

  lemma NoRivalsYet(s: Store, rivals: seq<Row>, id: Id)
    ensures s.events + [FirstEvent(id)] + Revocations(s, rivals[..0], id) == s.events + [FirstEvent(id)]
    ensures !Busy(s, rivals[..0])
  {
  }

  lemma BusyPrefix(s: Store, rivals: seq<Row>, k: nat)
    requires k <= |rivals| && Busy(s, rivals[..k])
    ensures Busy(s, rivals)
  {
    var i :| 0 <= i < k && InProgress(s, rivals[..k][i].id);
    assert rivals[i] == rivals[..k][i];
  }

  /** Part-way through a push, the next rival's journal is still what it was before. */
  lemma RivalJournal(s: Store, rivals: seq<Row>, k: nat, successor: Id)
    requires Inv(s) && DistinctRows(rivals) && k < |rivals| && rivals[k].id != successor && Standing(s, rivals[k].id)
    ensures EventsOf(s.events + [FirstEvent(successor)] + Revocations(s, rivals[..k], successor), rivals[k].id)
      == Journal(s, rivals[k].id)
    ensures Journal(s, rivals[k].id) != [] && JournalOk(Journal(s, rivals[k].id))
  {
    hide HeadOf, EventsOf, RevokedBy;
    var id := rivals[k].id;
    JournalConcat(s.events + [FirstEvent(successor)], Revocations(s, rivals[..k], successor), id);
    JournalSnoc(s.events, FirstEvent(successor), id);
    RevocationsOf(s, rivals[..k], successor, id);
    assert Journal(s, id) + [] == Journal(s, id);
  }

  lemma RivalStep(s: Store, op: Op, rivals: seq<Row>, k: nat, done: seq<Event>)
    requires Inv(s) && op.Push? && !HasRow(s.rows, op.id) && k < |rivals|
    requires Standing(s, rivals[k].id) && !Busy(s, rivals[..k])
    ensures var j := Journal(s, rivals[k].id);
      && (AppendRefusal(j, Revoked, SupersededKey(op.id)).Some? <==> Busy(s, rivals[..k + 1]))
      && done + Revocations(s, rivals[..k + 1], op.id)
         == done + Revocations(s, rivals[..k], op.id)
            + [Event(rivals[k].id, HeadOf(j).number + 1, Revoked, Some(op.id), None, None,
                     Some(if HeadOf(j).copy == Some(Written) then Retained else Absent), SupersededKey(op.id))]
  {
    hide EventsOf, HeadOf;
    var j := Journal(s, rivals[k].id);
    SupersedingKeyIsFree(s, rivals[k].id, op.id);
    assert rivals[..k + 1][..k] == rivals[..k] && rivals[..k + 1][k] == rivals[k];
    assert forall i :: 0 <= i < k ==> rivals[..k][i] == rivals[..k + 1][i];
  }
}
