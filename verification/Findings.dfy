/** Capped lists beside uncapped counts: what a stored review shows and what it counts. */
module Findings {
  import opened Lex
  import opened Rows
  import opened Sorting

  const MAX_LISTED_FINDINGS: nat := 200

  datatype Capped<T> = Capped(listed: seq<T>, total: nat)

  function Cap<T>(all: seq<T>): Capped<T> {
    Capped(if |all| <= MAX_LISTED_FINDINGS then all else all[..MAX_LISTED_FINDINGS], |all|)
  }

  function ByRank<T>(rank: T -> int): T -> seq<int> {
    (x: T) => [rank(x)]
  }

  /**
   * `capFindings(all, rank)`: the window is filled by rank first and, the sort being stable, by source order within a
   * rank.
   */
  function CapFindings<T>(all: seq<T>, rank: T -> int): Capped<T> {
    Capped(Cap(SortBy(all, ByRank(rank))).listed, |all|)
  }

  // ------------------------------------------------------------ reviews

  /** One finding; `severe` is "blocking" in the semantic review and "fail" in the security review. */
  datatype Finding = Finding(code: string, severe: bool)

  function Rank(f: Finding): int {
    if f.severe then 0 else 1
  }

  datatype Review = Review(listed: seq<Finding>, total: nat, blocking: nat)

  function Severe(all: seq<Finding>): seq<Finding> {
    Filter(all, (f: Finding) => f.severe)
  }

  function Mild(all: seq<Finding>): seq<Finding> {
    Filter(all, (f: Finding) => !f.severe)
  }

  /** The stored review of everything the reviewer found. */
  function ReviewOf(all: seq<Finding>): Review {
    var capped := CapFindings(all, Rank);
    Review(capped.listed, capped.total, |Severe(all)|)
  }

  lemma PartsSnoc(init: seq<Finding>, x: Finding)
    ensures Severe(init + [x]) == Severe(init) + if x.severe then [x] else []
    ensures Mild(init + [x]) == Mild(init) + if x.severe then [] else [x]
  {
    FilterSnoc(init, x, (f: Finding) => f.severe);
    FilterSnoc(init, x, (f: Finding) => !f.severe);
  }

  lemma PartsMembers(all: seq<Finding>)
    ensures forall f :: f in Severe(all) <==> f in all && f.severe
    ensures forall i :: 0 <= i < |Mild(all)| ==> !Mild(all)[i].severe
  {
    FilterMembers(all, (f: Finding) => f.severe);
    FilterMembers(all, (f: Finding) => !f.severe);
    assert forall i :: 0 <= i < |Mild(all)| ==> Mild(all)[i] in Mild(all);
  }

  function Ranked(all: seq<Finding>): seq<Finding> {
    SortBy(all, ByRank(Rank))
  }

  lemma RankOrder(a: Finding, b: Finding)
    ensures Before(a, b, ByRank(Rank)) <==> a.severe || !b.severe
  {
    LessOne(Rank(b), Rank(a));
    assert ByRank(Rank)(a) == [Rank(a)] && ByRank(Rank)(b) == [Rank(b)];
  }

  lemma LessOne(x: int, y: int)
    ensures Less([x], [y]) <==> x < y
  {
    assert [x][1..] == [] && [y][1..] == [];
  }

  /** A severe finding goes behind the severe ones already placed, in front of every other. */
  lemma {:induction false} InsertPartition(x: Finding, severe: seq<Finding>, mild: seq<Finding>)
    requires forall i :: 0 <= i < |severe| ==> severe[i].severe
    requires forall i :: 0 <= i < |mild| ==> !mild[i].severe
    ensures Insert(x, severe + mild, ByRank(Rank))
      == if x.severe then severe + [x] + mild else severe + mild + [x]
  {
    var all := severe + mild;
    if all != [] {
      RankOrder(all[|all| - 1], x);
    }
    if mild != [] && x.severe {
      var init := mild[..|mild| - 1];
      assert all[..|all| - 1] == severe + init && mild == init + [mild[|mild| - 1]];
      InsertPartition(x, severe, init);
      assert severe + [x] + init + [mild[|mild| - 1]] == severe + [x] + mild;
    } else if x.severe {
      assert severe + mild == severe && severe + [x] + mild == severe + [x];
    }
  }

  /** With two ranks the stable sort is the severe findings in source order, then the others in source order. */
  lemma {:induction false} SortPartitions(all: seq<Finding>)
    ensures Ranked(all) == Severe(all) + Mild(all)
    ensures |Severe(all)| + |Mild(all)| == |all|
  {
    if all != [] {
      var init, x := all[..|all| - 1], all[|all| - 1];
      assert all == init + [x];
      SortPartitions(init);
      PartsSnoc(init, x);
      PartsMembers(init);
      hide Severe, Mild, Insert;
      assert forall i :: 0 <= i < |Severe(init)| ==> Severe(init)[i] in Severe(init);
      InsertPartition(x, Severe(init), Mild(init));
      assert Severe(init) + Mild(init) + [x] == Severe(init) + (Mild(init) + [x]);
    }
  }

  /**
   * What a review lists: as many severe findings as fit, in source order, before any other; the counts see everything.
   */
  lemma ReviewShowsSevereFirst(all: seq<Finding>)
    ensures var review := ReviewOf(all);
      && review.total == |all| && review.blocking == |Severe(all)|
      && review.listed <= Severe(all) + Mild(all)
      && |review.listed| == (if |all| <= MAX_LISTED_FINDINGS then |all| else MAX_LISTED_FINDINGS)
      && (review.blocking == 0 <==> forall f :: f in all ==> !f.severe)
      && (review.blocking > 0 ==> |review.listed| > 0 && review.listed[0].severe)
  {
    SortPartitions(all);
    PartsMembers(all);
    hide Severe, Mild, SortBy;
    if Severe(all) != [] {
      assert Severe(all)[0] in Severe(all);
    } else {
      forall f | f in all
        ensures !f.severe
      {
        assert f.severe ==> f in Severe(all);
      }
    }
  }
}
