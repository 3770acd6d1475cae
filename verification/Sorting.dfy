/** One sort for every list: by a lexicographic key, with a canonical result whenever keys tell members apart. */
module Sorting {
  import opened Lex
  import opened Rows

  predicate Before<T>(a: T, b: T, key: T -> seq<int>) {
    Leq(key(a), key(b))
  }

  ghost predicate Sorted<T>(s: seq<T>, key: T -> seq<int>) {
    forall i, j :: 0 <= i < j < |s| ==> Before(s[i], s[j], key)
  }

  /** Stable insertion from the left: an equal key already placed stays in front. */
  function Insert<T>(x: T, s: seq<T>, key: T -> seq<int>): (r: seq<T>)
    ensures |r| == |s| + 1
  {
    if s == [] || Before(s[|s| - 1], x, key) then s + [x]
    else Insert(x, s[..|s| - 1], key) + [s[|s| - 1]]
  }

  function SortBy<T>(s: seq<T>, key: T -> seq<int>): (r: seq<T>)
    ensures |r| == |s|
  {
    if s == [] then [] else Insert(s[|s| - 1], SortBy(s[..|s| - 1], key), key)
  }

  lemma SameMembers<T>(a: seq<T>, b: seq<T>)
    requires multiset(a) == multiset(b)
    ensures |a| == |b| && forall x :: x in a <==> x in b
  {
    assert |a| == |multiset(a)| && |b| == |multiset(b)|;
    assert forall x :: x in a <==> x in multiset(a);
    assert forall x :: x in b <==> x in multiset(b);
  }

  lemma {:induction false} InsertPermutes<T>(x: T, s: seq<T>, key: T -> seq<int>)
    ensures multiset(Insert(x, s, key)) == multiset(s) + multiset{x}
  {
    if s != [] {
      var init, last := s[..|s| - 1], s[|s| - 1];
      assert s == init + [last];
      InsertPermutes(x, init, key);
    }
  }

  lemma {:induction false} SortPermutes<T>(s: seq<T>, key: T -> seq<int>)
    ensures multiset(SortBy(s, key)) == multiset(s)
  {
    if s != [] {
      var init, last := s[..|s| - 1], s[|s| - 1];
      assert s == init + [last];
      SortPermutes(init, key);
      InsertPermutes(last, SortBy(init, key), key);
    }
  }

  lemma SortMembers<T>(s: seq<T>, key: T -> seq<int>)
    ensures forall x :: x in SortBy(s, key) <==> x in s
  {
    SortPermutes(s, key);
    SameMembers(s, SortBy(s, key));
  }

  lemma {:induction false} InsertSorted<T>(x: T, s: seq<T>, key: T -> seq<int>)
    requires Sorted(s, key)
    ensures Sorted(Insert(x, s, key), key)
  {
    if s != [] {
      var init, last := s[..|s| - 1], s[|s| - 1];
      if Before(last, x, key) {
        forall i | 0 <= i < |s|
          ensures Before(s[i], x, key)
        {
          if i < |init| {
            LeqTransitive(key(s[i]), key(last), key(x));
          }
        }
      } else {
        InsertSorted(x, init, key);
        InsertPermutes(x, init, key);
        LeqTotal(key(last), key(x));
        var r := Insert(x, init, key);
        forall i | 0 <= i < |r|
          ensures Before(r[i], last, key)
        {
          assert r[i] in multiset(r);
          assert r[i] == x || r[i] in init;
        }
      }
    }
  }

  lemma {:induction false} SortSorted<T>(s: seq<T>, key: T -> seq<int>)
    ensures Sorted(SortBy(s, key), key)
  {
    if s != [] {
      SortSorted(s[..|s| - 1], key);
      InsertSorted(s[|s| - 1], SortBy(s[..|s| - 1], key), key);
    }
  }

  lemma Without<T>(s: seq<T>, i: nat)
    requires i < |s|
    ensures multiset(s[..i] + s[i + 1..]) == multiset(s) - multiset{s[i]}
  {
    assert s == s[..i] + [s[i]] + s[i + 1..];
    assert multiset(s) == multiset(s[..i]) + multiset{s[i]} + multiset(s[i + 1..]);
  }

  lemma WithoutLast<T>(s: seq<T>)
    requires s != []
    ensures multiset(s[..|s| - 1]) == multiset(s) - multiset{s[|s| - 1]}
  {
    Without(s, |s| - 1);
    assert s[..|s| - 1] + s[|s|..] == s[..|s| - 1];
  }

  /** Two lists with the same members lose the same member together. */
  lemma MatchLast<T>(a: seq<T>, b: seq<T>) returns (i: nat)
    requires a != [] && multiset(a) == multiset(b)
    ensures i < |b| && b[i] == a[|a| - 1]
    ensures multiset(a[..|a| - 1]) == multiset(b[..i] + b[i + 1..])
  {
    SameMembers(a, b);
    assert a[|a| - 1] in b;
    i :| 0 <= i < |b| && b[i] == a[|a| - 1];
    WithoutLast(a);
    Without(b, i);
  }

  /** Equal keys mean equal members. */
  ghost predicate KeysDistinct<T(!new)>(s: seq<T>, key: T -> seq<int>) {
    forall a, b :: a in s && b in s && Before(a, b, key) && Before(b, a, key) ==> a == b
  }

  lemma TopsAgree<T>(a: seq<T>, b: seq<T>, key: T -> seq<int>)
    requires a != [] && multiset(a) == multiset(b) && Sorted(a, key) && Sorted(b, key)
    ensures |a| == |b| && Before(b[|b| - 1], a[|a| - 1], key)
  {
    SameMembers(a, b);
    var top := b[|b| - 1];
    assert top in a;
    var k :| 0 <= k < |a| && a[k] == top;
    LeqTotal(key(top), key(top));
    assert k < |a| - 1 ==> Before(a[k], a[|a| - 1], key);
  }

  lemma SameTop<T(!new)>(a: seq<T>, b: seq<T>, key: T -> seq<int>)
    requires a != [] && multiset(a) == multiset(b) && Sorted(a, key) && Sorted(b, key) && KeysDistinct(a, key)
    ensures |a| == |b| && a[|a| - 1] == b[|b| - 1]
  {
    SameMembers(a, b);
    TopsAgree(a, b, key);
    TopsAgree(b, a, key);
    assert b[|b| - 1] in a;
  }

  lemma Prefix<T(!new)>(s: seq<T>, key: T -> seq<int>)
    requires s != []
    ensures Sorted(s, key) ==> Sorted(s[..|s| - 1], key)
    ensures KeysDistinct(s, key) ==> KeysDistinct(s[..|s| - 1], key)
    ensures s == s[..|s| - 1] + [s[|s| - 1]]
  {
    hide Before;
    assert forall x :: x in s[..|s| - 1] ==> x in s;
  }

  /** A sorted arrangement is unique once equal keys mean equal members. */
  lemma {:induction false} SortedUnique<T(!new)>(a: seq<T>, b: seq<T>, key: T -> seq<int>)
    requires multiset(a) == multiset(b) && Sorted(a, key) && Sorted(b, key) && KeysDistinct(a, key)
    ensures a == b
    decreases |a|
  {
    hide *;
    SameMembers(a, b);
    if a != [] {
      SameTop(a, b, key);
      WithoutLast(a);
      WithoutLast(b);
      Prefix(a, key);
      Prefix(b, key);
      SortedUnique(a[..|a| - 1], b[..|b| - 1], key);
    }
  }

  /** Sorting forgets the order the members came in. */
  lemma SortForgetsOrder<T(!new)>(a: seq<T>, b: seq<T>, key: T -> seq<int>)
    requires multiset(a) == multiset(b) && KeysDistinct(a, key)
    ensures SortBy(a, key) == SortBy(b, key)
  {
    hide SortBy, Before, Sorted;
    SortPermutes(a, key);
    SortPermutes(b, key);
    SortSorted(a, key);
    SortSorted(b, key);
    SameMembers(a, SortBy(a, key));
    assert KeysDistinct(SortBy(a, key), key);
    SortedUnique(SortBy(a, key), SortBy(b, key), key);
  }

  lemma {:induction false} InsertStable<T>(x: T, s: seq<T>, key: T -> seq<int>, k: seq<int>)
    ensures Filter(Insert(x, s, key), (y: T) => key(y) == k) == Filter(s + [x], (y: T) => key(y) == k)
  {
    var keep := (y: T) => key(y) == k;
    if s != [] && !Before(s[|s| - 1], x, key) {
      var init, last := s[..|s| - 1], s[|s| - 1];
      InsertStable(x, init, key, k);
      Irreflexive(key(x));
      FilterSnoc(Insert(x, init, key), last, keep);
      FilterSnoc(init, x, keep);
      FilterSnoc(init, last, keep);
      FilterSnoc(s, x, keep);
      assert s == init + [last];
    }
  }

  lemma SortUnfold<T>(init: seq<T>, last: T, key: T -> seq<int>)
    ensures SortBy(init + [last], key) == Insert(last, SortBy(init, key), key)
  {
    assert (init + [last])[..|init|] == init;
  }

  /** Members with one key keep the order they came in. */
  lemma {:induction false} SortStable<T>(s: seq<T>, key: T -> seq<int>, k: seq<int>)
    ensures Filter(SortBy(s, key), (y: T) => key(y) == k) == Filter(s, (y: T) => key(y) == k)
  {
    if s != [] {
      var init, last := s[..|s| - 1], s[|s| - 1];
      assert s == init + [last];
      SortStable(init, key, k);
      hide Filter, SortBy, Insert;
      SortUnfold(init, last, key);
      InsertStable(last, SortBy(init, key), key, k);
      FilterSnoc(SortBy(init, key), last, (y: T) => key(y) == k);
      FilterSnoc(init, last, (y: T) => key(y) == k);
    }
  }
}
