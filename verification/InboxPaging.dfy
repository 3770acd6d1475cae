/** Filtering, ordering and paging the Approval Inbox by an opaque cursor. */
module InboxPaging {
  import opened Common
  import opened Decimal
  import opened Lex
  import opened Rows
  import opened Sorting
  import opened Inbox

  const MAX_SAFE_INTEGER: int := 9007199254740991

  datatype StatusFilter = AllStatuses | OnlyPending | OnlyDecided

  datatype KindFilter = AllKinds | OnlyKind(kind: Kind)

  /** base64url of UTF-8 (RFC 4648 section 5) and `Number(text)`, taken as given. */
  datatype Wire = Wire(pack: string -> string, unpack: string -> string, number: string -> Option<int>)

  ghost predicate PackLaw(w: Wire, s: string) {
    w.unpack(w.pack(s)) == s && (s != "" ==> w.pack(s) != "")
  }

  ghost predicate NumberLaw(w: Wire, n: nat) {
    w.number(DecimalOf(n)) == Some(n)
  }

  /** Texts the encoding gives back unchanged: in the registry, identifiers and digits. */
  ghost predicate Lawful(w: Wire, texts: iset<string>) {
    && (forall s :: s in texts ==> PackLaw(w, s))
    && (forall n: nat :: n <= MAX_SAFE_INTEGER ==> NumberLaw(w, n))
  }

  datatype Cursor = Cursor(updated: int, id: string)

  // ------------------------------------------------------------ the order of items

  /** updated_at_ms DESC, item_id ASC. */
  function CursorKey(c: Cursor): seq<int> {
    [-c.updated] + Codes(c.id)
  }

  function CursorOf(item: Item): Cursor {
    Cursor(item.updated, item.id)
  }

  function ItemKey(item: Item): seq<int> {
    CursorKey(CursorOf(item))
  }

  /** `compareInboxItems`: negative, zero or positive. */
  function Compare(a: Cursor, b: Cursor): int {
    if a.updated != b.updated then b.updated - a.updated
    else if Less(Codes(a.id), Codes(b.id)) then -1
    else if Less(Codes(b.id), Codes(a.id)) then 1
    else 0
  }

  /** The comparator is the key order, and only equal pairs compare equal. */
  lemma CompareIsKeyOrder(a: Cursor, b: Cursor)
    ensures Compare(a, b) < 0 <==> Less(CursorKey(a), CursorKey(b))
    ensures Compare(a, b) > 0 <==> Less(CursorKey(b), CursorKey(a))
    ensures Compare(a, b) == 0 <==> a == b
  {
    assert CursorKey(a)[1..] == Codes(a.id) && CursorKey(b)[1..] == Codes(b.id);
    Irreflexive(Codes(a.id));
    LessTotal(Codes(a.id), Codes(b.id));
    if Codes(a.id) == Codes(b.id) {
      CodesInjective(a.id, b.id);
    }
    if Less(Codes(a.id), Codes(b.id)) {
      LessAsymmetric(Codes(a.id), Codes(b.id));
    }
  }

  // ------------------------------------------------------------ the cursor

  function CursorText(c: Cursor): string
    requires c.updated >= 0
  {
    DecimalOf(c.updated) + "|" + c.id
  }

  function Encode(w: Wire, c: Cursor): string
    requires c.updated >= 0
  {
    w.pack(CursorText(c))
  }

  /** Cut at the first bar; the front must be a safe integer and the rest must not be empty. */
  function Decode(w: Wire, text: string): Option<Cursor> {
    if text == "" then None
    else
      var decoded := w.unpack(text);
      var at := IndexOf(decoded, '|');
      if at == 0 || at == |decoded| then None
      else
        var ms := w.number(decoded[..at]);
        var id := decoded[at + 1..];
        if ms.None? || ms.value > MAX_SAFE_INTEGER || ms.value < -MAX_SAFE_INTEGER || id == "" then None
        else Some(Cursor(ms.value, id))
  }

  /** A cursor decodes to the pair it encoded, whatever characters the identifier holds. */
  lemma CursorRoundTrip(w: Wire, c: Cursor)
    requires 0 <= c.updated <= MAX_SAFE_INTEGER && c.id != ""
    requires PackLaw(w, CursorText(c)) && NumberLaw(w, c.updated)
    ensures Decode(w, Encode(w, c)) == Some(c)
  {
    var digits := DecimalOf(c.updated);
    var text := CursorText(c);
    assert text == digits + ['|'] + c.id;
    assert '|' !in digits;
    IndexOfIs(digits, '|', c.id);
    assert text[..|digits|] == digits && text[|digits| + 1..] == c.id;
  }

  // ------------------------------------------------------------ one page

  predicate Wanted(item: Item, status: StatusFilter, kind: KindFilter) {
    && (match kind
        case AllKinds => true
        case OnlyKind(k) => item.kind == k)
    && match status
       case AllStatuses => true
       case OnlyPending => item.status == Pending
       case OnlyDecided => item.status != Pending
  }

  /** Filter, then order. */
  function Listing(items: seq<Item>, status: StatusFilter, kind: KindFilter): seq<Item> {
    SortBy(Filter(items, (i: Item) => Wanted(i, status, kind)), ItemKey)
  }

  function After(list: seq<Item>, cursor: Option<Cursor>): seq<Item> {
    if cursor.None? then list else Filter(list, (i: Item) => Compare(CursorOf(i), cursor.value) > 0)
  }

  datatype Page = Page(items: seq<Item>, next: Option<string>)

  function PageOf(w: Wire, list: seq<Item>, cursor: Option<Cursor>, limit: nat): Page
    requires limit > 0
    requires forall i :: 0 <= i < |list| ==> list[i].updated >= 0
  {
    AfterMembers(list, cursor);
    var rest := After(list, cursor);
    if |rest| <= limit then Page(rest, None)
    else
      assert rest[limit - 1] in rest;
      Page(rest[..limit], Some(Encode(w, CursorOf(rest[limit - 1]))))
  }

  lemma AfterMembers(list: seq<Item>, cursor: Option<Cursor>)
    ensures forall i :: i in After(list, cursor) ==> i in list
  {
    if cursor.Some? {
      FilterMembers(list, (i: Item) => Compare(CursorOf(i), cursor.value) > 0);
    }
  }

  // ------------------------------------------------------------ the listing

  /** Each item strictly before the next. */
  ghost predicate Strict(list: seq<Item>) {
    forall i, j :: 0 <= i < j < |list| ==> Less(ItemKey(list[i]), ItemKey(list[j]))
  }

  lemma {:induction false} FilterDistinctItems(items: seq<Item>, keep: Item -> bool)
    requires DistinctItems(items)
    ensures DistinctItems(Filter(items, keep))
  {
    if items != [] {
      var init, last := items[..|items| - 1], items[|items| - 1];
      FilterDistinctItems(init, keep);
      var kept := Filter(init, keep);
      forall i | 0 <= i < |kept|
        ensures kept[i].id != last.id
      {
        assert kept[i] in kept;
        FilterMember(init, keep, kept[i]);
        var j :| 0 <= j < |init| && init[j] == kept[i];
        assert items[j] == kept[i];
      }
    }
  }

  lemma SameItem(items: seq<Item>, a: Item, b: Item)
    requires DistinctItems(items) && a in items && b in items && a.id == b.id
    ensures a == b
  {
    var i :| 0 <= i < |items| && items[i] == a;
    var j :| 0 <= j < |items| && items[j] == b;
  }

  lemma DistinctRearranged(a: seq<Item>, b: seq<Item>)
    requires DistinctItems(a) && multiset(a) == multiset(b)
    ensures DistinctItems(b)
  {
    SameMembers(a, b);
    forall i, j | 0 <= i < j < |b|
      ensures b[i].id != b[j].id
    {
      if b[i].id == b[j].id {
        SameItem(a, b[i], b[j]);
        TwoCopies(b, i, j);
        OneItem(a, b[i]);
      }
    }
  }

  lemma {:induction false} OneItem(items: seq<Item>, x: Item)
    requires DistinctItems(items)
    ensures multiset(items)[x] <= 1
  {
    if items != [] {
      var init, last := items[..|items| - 1], items[|items| - 1];
      assert items == init + [last];
      OneItem(init, x);
      assert forall i :: 0 <= i < |init| ==> items[i] == init[i] && init[i].id != last.id;
      assert last !in init;
    }
  }

  /** The listing holds exactly the wanted items, strictly ordered. */
  lemma ListingIsStrict(items: seq<Item>, status: StatusFilter, kind: KindFilter)
    requires DistinctItems(items)
    ensures Strict(Listing(items, status, kind))
    ensures forall i :: i in Listing(items, status, kind) <==> i in items && Wanted(i, status, kind)
  {
    var kept := Filter(items, (i: Item) => Wanted(i, status, kind));
    var list := Listing(items, status, kind);
    FilterMembers(items, (i: Item) => Wanted(i, status, kind));
    FilterDistinctItems(items, (i: Item) => Wanted(i, status, kind));
    SortMembers(kept, ItemKey);
    SortPermutes(kept, ItemKey);
    SortSorted(kept, ItemKey);
    DistinctRearranged(kept, list);
    forall i, j | 0 <= i < j < |list|
      ensures Less(ItemKey(list[i]), ItemKey(list[j]))
    {
      StrictPair(list, i, j);
    }
  }

  lemma StrictPair(list: seq<Item>, i: nat, j: nat)
    requires i < j < |list| && Sorted(list, ItemKey) && DistinctItems(list)
    ensures Less(ItemKey(list[i]), ItemKey(list[j]))
  {
    assert Before(list[i], list[j], ItemKey);
    LessTotal(ItemKey(list[i]), ItemKey(list[j]));
    if ItemKey(list[i]) == ItemKey(list[j]) {
      SameKeySameId(list[i], list[j]);
    }
  }

  lemma SameKeySameId(a: Item, b: Item)
    requires ItemKey(a) == ItemKey(b)
    ensures a.id == b.id
  {
    assert ItemKey(a)[1..] == Codes(a.id) && ItemKey(b)[1..] == Codes(b.id);
    CodesInjective(a.id, b.id);
  }

  /** The same listing, whatever order the tables were read in. */
  lemma ListingForgetsOrder(c: Context, a: Tables, b: Tables, status: StatusFilter, kind: KindFilter)
    requires SameRows(a, b)
    ensures Listing(Project(c, a), status, kind) == Listing(Project(c, b), status, kind)
  {
    ProjectionForgetsOrder(c, a, b);
  }

  // ------------------------------------------------------------ walking the pages

  /** On a strict list, what comes after the cursor of one item is everything behind it. */
  lemma AfterItem(list: seq<Item>, k: nat)
    requires Strict(list) && k < |list|
    ensures After(list, Some(CursorOf(list[k]))) == list[k + 1..]
  {
    var keep := (i: Item) => Compare(CursorOf(i), CursorOf(list[k])) > 0;
    forall i | 0 <= i < |list|
      ensures keep(list[i]) <==> i > k
    {
      CompareIsKeyOrder(CursorOf(list[i]), CursorOf(list[k]));
      if i < k {
        assert Less(ItemKey(list[i]), ItemKey(list[k]));
        LessAsymmetric(ItemKey(list[i]), ItemKey(list[k]));
      } else if i > k {
        assert Less(ItemKey(list[k]), ItemKey(list[i]));
      }
    }
    FilterSuffix(list, keep, k + 1);
  }

  lemma FilterSuffix<T>(s: seq<T>, keep: T -> bool, from: nat)
    requires from <= |s| && forall i :: 0 <= i < |s| ==> (keep(s[i]) <==> i >= from)
    ensures Filter(s, keep) == s[from..]
  {
    hide Filter;
    var a, b := s[..from], s[from..];
    assert s == a + b;
    assert forall i :: 0 <= i < |a| ==> a[i] == s[i];
    assert forall i :: 0 <= i < |b| ==> b[i] == s[from + i];
    FilterConcat(a, b, keep);
    FilterNone(a, keep);
    FilterAll(b, keep);
    assert [] + b == b;
  }

  /** The list can be paged: strict, with safe timestamps, and cursors the wire gives back. */
  ghost predicate Pageable(w: Wire, list: seq<Item>) {
    && Strict(list)
    && forall i :: 0 <= i < |list| ==>
         && 0 <= list[i].updated <= MAX_SAFE_INTEGER && list[i].id != ""
         && PackLaw(w, CursorText(CursorOf(list[i]))) && NumberLaw(w, list[i].updated)
  }

  lemma NextPage(w: Wire, list: seq<Item>, from: nat, limit: nat)
    requires Pageable(w, list) && limit > 0 && from + limit < |list|
    ensures var cursor := Encode(w, CursorOf(list[from + limit - 1]));
      && Decode(w, cursor) == Some(CursorOf(list[from + limit - 1]))
      && After(list, Decode(w, cursor)) == list[from + limit..]
  {
    CursorRoundTrip(w, CursorOf(list[from + limit - 1]));
    AfterItem(list, from + limit - 1);
  }

  /** The pages a client sees that follows `next` from a position until there is none. */
  function Walk(w: Wire, list: seq<Item>, from: nat, cursor: Option<Cursor>, limit: nat): seq<seq<Item>>
    requires Pageable(w, list) && limit > 0 && from <= |list| && After(list, cursor) == list[from..]
    decreases |list| - from
  {
    var page := PageOf(w, list, cursor, limit);
    if page.next.None? then [page.items]
    else
      NextPage(w, list, from, limit);
      [page.items] + Walk(w, list, from + limit, Decode(w, page.next.value), limit)
  }

  function Flatten(pages: seq<seq<Item>>): seq<Item> {
    if pages == [] then [] else pages[0] + Flatten(pages[1..])
  }

  function Ceiling(n: nat, limit: nat): nat
    requires limit > 0
  {
    (n + limit - 1) / limit
  }

  lemma AtLeastOne(x: int, d: nat)
    requires x >= 1
    ensures x * d >= d
  {
  }

  lemma QuotientIs(a: int, d: nat, q: int, r: int)
    requires d > 0 && a == q * d + r && 0 <= r < d
    ensures a / d == q
  {
    var p := a / d;
    var left := a - p * d;
    assert 0 <= left < d;
    assert (q - p) * d == left - r && (p - q) * d == r - left;
    if q > p {
      AtLeastOne(q - p, d);
    } else if p > q {
      AtLeastOne(p - q, d);
    }
  }

  lemma DivStep(a: int, d: nat)
    requires d > 0
    ensures (a + d) / d == a / d + 1
  {
    var q := a / d;
    var r := a - q * d;
    assert (q + 1) * d == q * d + d;
    QuotientIs(a + d, d, q + 1, r);
  }

  lemma CeilingStep(n: nat, limit: nat)
    requires limit > 0
    ensures n == 0 ==> Ceiling(n, limit) == 0
    ensures 0 < n <= limit ==> Ceiling(n, limit) == 1
    ensures n > limit ==> Ceiling(n, limit) == 1 + Ceiling(n - limit, limit)
  {
    if n > limit {
      DivStep(n - 1, limit);
    } else if n > 0 {
      QuotientIs(n + limit - 1, limit, 1, n - 1);
    } else {
      QuotientIs(limit - 1, limit, 0, limit - 1);
    }
  }

  lemma WalkStep(w: Wire, list: seq<Item>, from: nat, cursor: Option<Cursor>, limit: nat)
    requires Pageable(w, list) && limit > 0 && from <= |list| && After(list, cursor) == list[from..]
    ensures |list| - from <= limit ==> Walk(w, list, from, cursor, limit) == [list[from..]]
    ensures |list| - from > limit ==>
      var next := Decode(w, Encode(w, CursorOf(list[from + limit - 1])));
      && After(list, next) == list[from + limit..]
      && Walk(w, list, from, cursor, limit)
         == [list[from..from + limit]] + Walk(w, list, from + limit, next, limit)
  {
    hide Encode, Decode, After, Strict, PackLaw, NumberLaw;
    if |list| - from > limit {
      NextPage(w, list, from, limit);
      assert list[from..][..limit] == list[from..from + limit];
      assert list[from..][limit - 1] == list[from + limit - 1];
    }
  }

  lemma FlattenCons(page: seq<Item>, pages: seq<seq<Item>>)
    ensures Flatten([page] + pages) == page + Flatten(pages)
    ensures Flatten([page]) == page
  {
    assert ([page] + pages)[1..] == pages;
    assert [page][1..] == [] && page + [] == page;
  }

  lemma CursorIsSafe(w: Wire, list: seq<Item>, k: nat)
    requires Pageable(w, list) && k < |list|
    ensures CursorOf(list[k]).updated >= 0
  {
  }

  lemma {:induction false} WalkCovers(w: Wire, list: seq<Item>, from: nat, cursor: Option<Cursor>, limit: nat)
    requires Pageable(w, list) && limit > 0 && from <= |list| && After(list, cursor) == list[from..]
    ensures Flatten(Walk(w, list, from, cursor, limit)) == list[from..]
    ensures var n := |list| - from;
      |Walk(w, list, from, cursor, limit)| == if n == 0 then 1 else Ceiling(n, limit)
    decreases |list| - from
  {
    hide *;
    CeilingStep(|list| - from, limit);
    WalkStep(w, list, from, cursor, limit);
    if |list| - from <= limit {
      FlattenCons(list[from..], []);
    } else {
      var last := CursorOf(list[from + limit - 1]);
      CursorIsSafe(w, list, from + limit - 1);
      var next := Decode(w, Encode(w, last));
      WalkCovers(w, list, from + limit, next, limit);
      FlattenCons(list[from..from + limit], Walk(w, list, from + limit, next, limit));
      assert list[from..] == list[from..from + limit] + list[from + limit..];
    }
  }

  /** Following the cursors from the start gives the whole listing once, in max(1, ceil(n / limit)) pages. */
  lemma PagingIsExact(w: Wire, list: seq<Item>, limit: nat)
    requires Pageable(w, list) && limit > 0
    ensures After(list, None) == list[0..]
    ensures Flatten(Walk(w, list, 0, None, limit)) == list
    ensures |Walk(w, list, 0, None, limit)| == if list == [] then 1 else Ceiling(|list|, limit)
  {
    WalkCovers(w, list, 0, None, limit);
  }

  /** The projection's listing can be paged as soon as the wire carries its cursors. */
  lemma ListingIsPageable(c: Context, t: Tables, w: Wire, texts: iset<string>,
                                             status: StatusFilter, kind: KindFilter)
    requires UniqueIds(t.versions) && UniqueIds(t.adoptions) && Lawful(w, texts)
    requires forall i :: i in Project(c, t) ==>
      0 <= i.updated <= MAX_SAFE_INTEGER && i.id != "" && CursorText(CursorOf(i)) in texts
    ensures Pageable(w, Listing(Project(c, t), status, kind))
  {
    ItemsAreDistinct(c, t);
    ListingIsStrict(Project(c, t), status, kind);
    hide Listing, Project;
    var list := Listing(Project(c, t), status, kind);
    forall i | 0 <= i < |list|
      ensures PackLaw(w, CursorText(CursorOf(list[i]))) && NumberLaw(w, list[i].updated)
    {
      assert list[i] in list;
    }
  }
}
