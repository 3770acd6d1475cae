/** The packer, its byte-wise sort, and the round trip through the reader. */
module TarWriter {
  import opened Common
  import opened Lex
  import opened Sorting
  import opened TarFormat
  import opened TarProfile
  import opened TarReader

  // ------------------------------------------------------------ order

  /** Members are compared by the bytes of their encoded paths, as `Buffer.compare` does. */
  function PathKey(t: Text): Entry -> bytes {
    (e: Entry) => t.encode(e.path)
  }

  /** The sorted entries, in UTF-8 byte order of their paths. */
  function Sort(t: Text, es: Files): (r: Files)
    ensures |r| == |es|
  {
    SortBy(es, PathKey(t))
  }

  lemma SortMembersOf(t: Text, es: Files)
    ensures |Sort(t, es)| == |es| && forall e :: e in Sort(t, es) <==> e in es
    ensures multiset(Sort(t, es)) == multiset(es)
  {
    SortMembers(es, PathKey(t));
    SortPermutes(es, PathKey(t));
  }

  lemma TotalWithout(es: Files, i: nat)
    requires i < |es|
    ensures TotalBytes(es) == TotalBytes(es[..i] + es[i + 1..]) + |es[i].data|
  {
    var last := |es| - 1;
    if i < last {
      TotalWithout(es[..last], i);
      var rest := es[..i] + es[i + 1..];
      assert rest[..|rest| - 1] == es[..last][..i] + es[..last][i + 1..];
      assert rest[|rest| - 1] == es[last];
    } else {
      assert es[..i] + es[i + 1..] == es[..i];
    }
  }

  lemma {:induction false} TotalOfPermutation(a: Files, b: Files)
    requires multiset(a) == multiset(b)
    ensures TotalBytes(a) == TotalBytes(b)
    decreases |a|
  {
    if a == [] {
      assert |multiset(b)| == 0;
    } else {
      var i := MatchLast(a, b);
      TotalWithout(b, i);
      TotalOfPermutation(a[..|a| - 1], b[..i] + b[i + 1..]);
    }
  }

  // ------------------------------------------------------------ the packer

  const MAX_NAME_BYTES: nat := 100

  predicate Collides(t: Text, files: Files) {
    exists i, j :: 0 <= i < j < |files| && t.foldKey(files[i].path) == t.foldKey(files[j].path)
  }

  predicate Packable(t: Text, e: Entry) {
    CheckPath(t, e.path) && |t.encode(e.path)| <= MAX_NAME_BYTES
  }

  predicate OverLimit(files: Files) {
    || |files| > MAX_FILES
    || (exists i :: 0 <= i < |files| && |files[i].data| > MAX_FILE_BYTES)
    || TotalBytes(files) > MAX_TOTAL_BYTES
  }

  function Block(t: Text, e: Entry): bytes
    requires Packable(t, e) && |e.data| <= MAX_FILE_BYTES
  {
    assert Pow8(11) > MAX_FILE_BYTES;
    HeaderOf(t.encode(e.path), |e.data|) + e.data + Fill(0, Padded(|e.data|) - |e.data|)
  }

  function Pack(t: Text, es: Files): bytes
    requires forall i :: 0 <= i < |es| ==> Packable(t, es[i]) && |es[i].data| <= MAX_FILE_BYTES
  {
    if es == [] then [] else Block(t, es[0]) + Pack(t, es[1..])
  }

  const TRAILER: bytes := Fill(0, 2 * BLOCK)

  /** What the packer answers for a package, whatever order its members were added in. */
  function Archive(t: Text, files: Files): Result<bytes, ArchiveError> {
    SortMembersOf(t, files);
    assert forall i :: 0 <= i < |files| ==> Sort(t, files)[i] in files;
    if OverLimit(files) then Err(LimitExceeded)
    else if Collides(t, files) || exists i :: 0 <= i < |files| && !Packable(t, Sort(t, files)[i]) then Err(Malformed)
    else Ok(Pack(t, Sort(t, files)) + TRAILER)
  }

  method CheckLimits(files: Files) returns (over: bool)
    ensures over == OverLimit(files)
  {
    if |files| > MAX_FILES {
      return true;
    }
    var total := 0;
    for i := 0 to |files|
      invariant total == TotalBytes(files[..i])
      invariant forall k :: 0 <= k < i ==> |files[k].data| <= MAX_FILE_BYTES
    {
      if |files[i].data| > MAX_FILE_BYTES {
        return true;
      }
      assert files[..i + 1][..i] == files[..i];
      total := total + |files[i].data|;
    }
    assert files[..|files|] == files;
    over := total > MAX_TOTAL_BYTES;
  }

  method CheckCollisions(t: Text, files: Files) returns (collides: bool)
    ensures collides == Collides(t, files)
  {
    var seen: set<string> := {};
    for i := 0 to |files|
      invariant forall key :: key in seen <==> exists k :: 0 <= k < i && t.foldKey(files[k].path) == key
      invariant forall k, l :: 0 <= k < l < i ==> t.foldKey(files[k].path) != t.foldKey(files[l].path)
    {
      var key := t.foldKey(files[i].path);
      if key in seen {
        return true;
      }
      seen := seen + {key};
    }
    collides := false;
  }

  lemma NameFits(t: Text, e: Entry)
    requires Packable(t, e)
    ensures |t.encode(e.path)| <= 100 && MAX_FILE_BYTES < Pow8(11)
  {
  }

  /** One header block and padded data per member, in the order given. */
  method PackAll(t: Text, es: Files) returns (r: Result<bytes, ArchiveError>)
    requires forall i :: 0 <= i < |es| ==> |es[i].data| <= MAX_FILE_BYTES
    ensures r == if exists i :: 0 <= i < |es| && !Packable(t, es[i]) then Err(Malformed) else Ok(Pack(t, es) + TRAILER)
  {
    hide CheckPath, HeaderOf, Pow8, Packable;
    var blocks: bytes := [];
    for i := 0 to |es|
      invariant forall k :: 0 <= k < i ==> Packable(t, es[k])
      invariant blocks == Pack(t, es[..i])
    {
      var e := es[i];
      if !Packable(t, e) {
        return Err(Malformed);
      }
      NameFits(t, e);
      var header := BuildHeader(t.encode(e.path), |e.data|);
      PackSnoc(t, es[..i], e);
      assert es[..i + 1] == es[..i] + [e];
      blocks := blocks + (header + e.data + Fill(0, Padded(|e.data|) - |e.data|));
    }
    assert es[..|es|] == es;
    r := Ok(blocks + TRAILER);
  }

  /** The packer: limits, collisions, then the sorted members. */
  method WriteTar(t: Text, files: Files) returns (r: Result<bytes, ArchiveError>)
    ensures r == Archive(t, files)
  {
    var over := CheckLimits(files);
    if over {
      return Err(LimitExceeded);
    }
    var collides := CheckCollisions(t, files);
    if collides {
      return Err(Malformed);
    }
    SortMembersOf(t, files);
    assert forall i :: 0 <= i < |files| ==> Sort(t, files)[i] in files;
    r := PackAll(t, Sort(t, files));
  }

  lemma {:induction false} PackSnoc(t: Text, es: Files, e: Entry)
    requires forall i :: 0 <= i < |es| ==> Packable(t, es[i]) && |es[i].data| <= MAX_FILE_BYTES
    requires Packable(t, e) && |e.data| <= MAX_FILE_BYTES
    ensures Pack(t, es + [e]) == Pack(t, es) + Block(t, e)
  {
    hide Block, Packable;
    if es == [] {
      assert es + [e] == [e] && [e][1..] == [];
    } else {
      PackSnoc(t, es[1..], e);
      assert (es + [e])[1..] == es[1..] + [e];
    }
  }

  // ------------------------------------------------------------ order independence

  function FoldKeys(t: Text, files: Files): set<string> {
    set e | e in files :: t.foldKey(e.path)
  }

  lemma CollidesSnoc(t: Text, init: Files, last: Entry)
    ensures Collides(t, init + [last]) <==> Collides(t, init) || t.foldKey(last.path) in FoldKeys(t, init)
  {
    var all := init + [last];
    if i, j :| 0 <= i < j < |init| && t.foldKey(init[i].path) == t.foldKey(init[j].path) {
      assert all[i] == init[i] && all[j] == init[j];
    }
    if e :| e in init && t.foldKey(e.path) == t.foldKey(last.path) {
      var k :| 0 <= k < |init| && init[k] == e;
      assert all[k] == e && all[|init|] == last;
    }
    if i, j :| 0 <= i < j < |all| && t.foldKey(all[i].path) == t.foldKey(all[j].path) {
      assert all[i] == init[i] && init[i] in init;
    }
  }

  /** Collisions are visible in the number of distinct keys, which does not depend on the order. */
  lemma {:induction false} CollisionCount(t: Text, files: Files)
    ensures |FoldKeys(t, files)| <= |files|
    ensures Collides(t, files) <==> |FoldKeys(t, files)| < |files|
  {
    if files == [] {
      assert FoldKeys(t, files) == {};
    } else {
      var init, last := files[..|files| - 1], files[|files| - 1];
      CollisionCount(t, init);
      assert files == init + [last];
      assert FoldKeys(t, files) == FoldKeys(t, init) + {t.foldKey(last.path)};
      CollidesSnoc(t, init, last);
    }
  }

  /** Equal encoded paths are equal paths, and without a collision a path names one member. */
  lemma DistinctKeys(t: Text, files: Files, e: Entry, f: Entry)
    requires Lawful(t) && !Collides(t, files) && e in files && f in files
    requires t.wellFormed(e.path) && t.wellFormed(f.path)
    requires Before(e, f, PathKey(t)) && Before(f, e, PathKey(t))
    ensures e == f
  {
    LeqAntisymmetric(t.encode(e.path), t.encode(f.path));
    EncodeInjective(t, e.path, f.path);
    var i :| 0 <= i < |files| && files[i] == e;
    var j :| 0 <= j < |files| && files[j] == f;
  }

  lemma SortedEqual(t: Text, a: Files, b: Files)
    requires Lawful(t) && multiset(a) == multiset(b) && !Collides(t, a)
    requires forall e :: e in a ==> t.wellFormed(e.path)
    ensures Sort(t, a) == Sort(t, b)
  {
    hide Before, Collides, Lawful;
    forall e, f | e in a && f in a && Before(e, f, PathKey(t)) && Before(f, e, PathKey(t))
      ensures e == f
    {
      DistinctKeys(t, a, e, f);
    }
    SortForgetsOrder(a, b, PathKey(t));
  }

  lemma SameRefusals(t: Text, a: Files, b: Files)
    requires multiset(a) == multiset(b)
    ensures OverLimit(a) <==> OverLimit(b)
    ensures Collides(t, a) <==> Collides(t, b)
  {
    hide Collides;
    SameMembers(a, b);
    TotalOfPermutation(a, b);
    CollisionCount(t, a);
    CollisionCount(t, b);
    assert FoldKeys(t, a) == FoldKeys(t, b);
    assert forall i :: 0 <= i < |a| ==> a[i] in b;
    assert forall i :: 0 <= i < |b| ==> b[i] in a;
  }

  /** The archive, or the refusal, does not depend on the order the members were added in. */
  lemma ArchiveIgnoresOrder(t: Text, a: Files, b: Files)
    requires Lawful(t) && multiset(a) == multiset(b)
    ensures Archive(t, a) == Archive(t, b)
  {
    hide OverLimit, Collides, Sort, Lawful, CheckPath;
    SameRefusals(t, a, b);
    SameMembers(a, b);
    SortMembersOf(t, a);
    SortMembersOf(t, b);
    if e :| e in a && !Packable(t, e) {
      assert e in Sort(t, a) && e in Sort(t, b);
    } else if !Collides(t, a) {
      AllWellFormed(t, a);
      SortedEqual(t, a, b);
    }
  }

  lemma AllWellFormed(t: Text, files: Files)
    requires forall e :: e in files ==> Packable(t, e)
    ensures forall e :: e in files ==> t.wellFormed(e.path)
  {
  }

  // ------------------------------------------------------------ round trip

  lemma EmptyText(t: Text, k: nat)
    requires Lawful(t)
    ensures ReadStr(t, Fill(0, k)) == Some("")
  {
    assert IndexOf(Fill(0, k), 0) == 0;
    assert TextLaw(t, "") && AsciiBytes("") == [];
    assert Fill(0, k)[..0] == [];
  }

  lemma NameField(t: Text, path: string)
    requires Lawful(t) && CheckPath(t, path) && |t.encode(path)| <= MAX_NAME_BYTES
    ensures ReadStr(t, t.encode(path) + Fill(0, 100 - |t.encode(path)|)) == Some(path)
  {
    assert TextLaw(t, path);
    assert '\0' !in path by {
      assert ControlChar('\0');
    }
    var name := t.encode(path);
    var field := name + Fill(0, 100 - |name|);
    if |name| == 100 {
      assert field == name;
      IndexOfAbsent(name, 0);
    } else {
      assert field == name + [0] + Fill(0, 99 - |name|);
      IndexOfIs(name, 0, Fill(0, 99 - |name|));
    }
    assert field[..|name|] == name;
  }

  lemma HeaderNumbers(size: nat)
    requires size <= MAX_FILE_BYTES
    ensures OctalText(SizeField(size), false) == Some(size)
    ensures OctalText(MODE, false).Some? && OctalText(OWNER, true).Some? && OctalText(EPOCH, true).Some?
  {
    assert Pow8(11) > MAX_FILE_BYTES;
    NumericFieldRoundTrip(size, 11, [0], false);
    TrimEndPadding(MODE[..7], [0]);
    assert MODE == MODE[..7] + [0];
    TrimEndPadding(OWNER[..7], [0]);
    assert OWNER == OWNER[..7] + [0];
    TrimEndPadding(Fill(ZERO, 11), [0]);
  }

  lemma HeaderNames(t: Text, h: bytes, path: string)
    requires Lawful(t) && CheckPath(t, path) && |t.encode(path)| <= MAX_NAME_BYTES && |h| == BLOCK
    requires h[..100] == t.encode(path) + Fill(0, 100 - |t.encode(path)|) && h[157..257] == Fill(0, 100)
    requires h[265..297] == Fill(0, 32) && h[297..329] == Fill(0, 32) && h[345..500] == Fill(0, 155)
    ensures ReadStr(t, h[..100]) == Some(path) && ReadStr(t, h[157..257]) == Some("")
    ensures ReadStr(t, h[265..297]).Some? && ReadStr(t, h[297..329]).Some? && ReadStr(t, h[345..500]) == Some("")
  {
    hide *;
    NameField(t, path);
    EmptyText(t, 100);
    EmptyText(t, 32);
    EmptyText(t, 155);
  }

  /** The reader takes the packer's header apart into exactly what went in. */
  lemma HeaderParses(t: Text, e: Entry)
    requires Lawful(t) && Packable(t, e) && |e.data| <= MAX_FILE_BYTES
    ensures Pow8(11) > |e.data|
    ensures ReadHeader(t, HeaderOf(t.encode(e.path), |e.data|)) == Some(Header(e.path, |e.data|, REGULAR, ""))
  {
    assert Pow8(11) > MAX_FILE_BYTES;
    hide OctalText, ReadStr, ChecksumOk, HeaderOf, CheckPath, Pow8, SizeField, Lawful, Fill;
    var name := t.encode(e.path);
    HeaderFields(name, |e.data|);
    HeaderChecksum(name, |e.data|);
    HeaderNumbers(|e.data|);
    HeaderNames(t, HeaderOf(name, |e.data|), e.path);
    BlankField(8);
  }

  ghost predicate Acceptable(t: Text, files: Files) {
    && (forall i :: 0 <= i < |files| ==> Packable(t, files[i]) && |files[i].data| <= MAX_FILE_BYTES)
    && !Collides(t, files)
    && |files| <= MAX_FILES && TotalBytes(files) <= MAX_TOTAL_BYTES
  }

  lemma {:induction false} TotalMonotone(a: Files, b: Files)
    ensures TotalBytes(a) <= TotalBytes(a + b)
  {
    if b == [] {
      assert a + b == a;
    } else {
      TotalMonotone(a, b[..|b| - 1]);
      assert (a + b)[..|a + b| - 1] == a + b[..|b| - 1];
    }
  }

  ghost function After(t: Text, done: Files): State {
    State(done, FoldKeys(t, done), None, None, false)
  }

  lemma AddNext(t: Text, done: Files, e: Entry, todo: Files)
    requires Acceptable(t, done + [e] + todo)
    ensures AddFile(t, After(t, done), e.path, e.data) == Ok(After(t, done + [e]))
  {
    var all := done + [e] + todo;
    assert all[|done|] == e && all == (done + [e]) + todo;
    TotalMonotone(done + [e], todo);
    forall i | 0 <= i < |done|
      ensures t.foldKey(done[i].path) != t.foldKey(e.path)
    {
      assert all[i] == done[i] && all[|done|] == e;
    }
    assert FoldKeys(t, done + [e]) == FoldKeys(t, done) + {t.foldKey(e.path)};
  }

  lemma HeaderIsNotZero(name: bytes, size: nat)
    requires |name| <= 100 && size < Pow8(11)
    ensures !AllZero(HeaderOf(name, size))
  {
    HeaderFields(name, size);
  }

  lemma HandleRegular(t: Text, st: State, e: Entry)
    requires !st.pendingPax && st.paxPath.None? && st.paxSize.None?
    ensures HandleEntry(t, SettlePending(st, REGULAR), Header(e.path, |e.data|, REGULAR, ""), e.data)
            == AddFile(t, st, e.path, e.data)
  {
    assert SettlePending(st, REGULAR) == st == st.(paxPath := None, paxSize := None);
  }

  lemma StepIs(t: Text, st: State, rest: bytes, h: Header, next: State)
    requires |rest| >= BLOCK && ReadHeader(t, rest[..BLOCK]) == Some(h)
    requires BLOCK + EffectiveSize(h) <= |rest|
    requires HandleEntry(t, SettlePending(st, h.typeflag), h, rest[BLOCK..BLOCK + EffectiveSize(h)]) == Ok(next)
    ensures Step(t, st, rest) == Ok((next, BLOCK + Padded(EffectiveSize(h))))
  {
    hide ReadHeader, HandleEntry;
  }

  /** One packed member is one round of the reader. */
  lemma StepReadsBlock(t: Text, done: Files, e: Entry, todo: Files, rest: bytes)
    requires Lawful(t) && Acceptable(t, done + [e] + todo)
    ensures Packable(t, e) && |e.data| <= MAX_FILE_BYTES
    ensures var all := Block(t, e) + rest;
            && |all| >= BLOCK && !AllZero(all[..BLOCK])
            && Step(t, After(t, done), all) == Ok((After(t, done + [e]), |Block(t, e)|))
  {
    hide ReadHeader, HandleEntry, HeaderOf, AddFile, CheckPath, Step;
    assert (done + [e] + todo)[|done|] == e;
    HeaderParses(t, e);
    HeaderIsNotZero(t.encode(e.path), |e.data|);
    AddNext(t, done, e, todo);
    HandleRegular(t, After(t, done), e);
    var header := HeaderOf(t.encode(e.path), |e.data|);
    var all := Block(t, e) + rest;
    assert all[..BLOCK] == header;
    assert all[BLOCK..BLOCK + |e.data|] == e.data;
    StepIs(t, After(t, done), all, Header(e.path, |e.data|, REGULAR, ""), After(t, done + [e]));
  }

  lemma {:induction false} PackedReadsBack(t: Text, done: Files, todo: Files)
    requires Lawful(t) && Acceptable(t, done + todo)
    requires forall i :: 0 <= i < |todo| ==> Packable(t, todo[i]) && |todo[i].data| <= MAX_FILE_BYTES
    ensures ReadRest(t, Pack(t, todo) + TRAILER, After(t, done)) == Ok(done + todo)
    decreases |todo|
  {
    hide Step, Block, Acceptable, Packable;
    if todo == [] {
      assert Pack(t, todo) + TRAILER == TRAILER;
      assert done + todo == done;
      assert TRAILER[2 * BLOCK..] == [];
    } else {
      var e := todo[0];
      var rest := Pack(t, todo[1..]) + TRAILER;
      assert done + todo == done + [e] + todo[1..];
      StepReadsBlock(t, done, e, todo[1..], rest);
      var all := Pack(t, todo) + TRAILER;
      assert all == Block(t, e) + rest;
      assert Drop(all, |Block(t, e)|) == rest;
      PackedReadsBack(t, done + [e], todo[1..]);
    }
  }

  lemma {:induction false} MapOf(files: Files, path: string, data: bytes)
    requires UniquePaths(files)
    ensures (path in ToMap(files) && ToMap(files)[path] == data) <==> Entry(path, data) in files
    ensures path in ToMap(files) ==> HasPath(files, path)
  {
    if files != [] {
      MapOf(files[..|files| - 1], path, data);
      assert files == files[..|files| - 1] + [files[|files| - 1]];
    }
  }

  lemma SameMap(a: Files, b: Files)
    requires multiset(a) == multiset(b) && UniquePaths(a) && UniquePaths(b)
    ensures ToMap(a) == ToMap(b)
  {
    SameMembers(a, b);
    forall path | path in ToMap(a)
      ensures path in ToMap(b) && ToMap(b)[path] == ToMap(a)[path]
    {
      MapOf(a, path, ToMap(a)[path]);
      MapOf(b, path, ToMap(a)[path]);
    }
    forall path | path in ToMap(b)
      ensures path in ToMap(a)
    {
      MapOf(a, path, ToMap(b)[path]);
      MapOf(b, path, ToMap(b)[path]);
    }
  }

  lemma SortedAcceptable(t: Text, files: Files)
    requires Archive(t, files).Ok?
    ensures Acceptable(t, Sort(t, files)) && !Collides(t, files) && !Collides(t, Sort(t, files))
    ensures Archive(t, files) == Ok(Pack(t, Sort(t, files)) + TRAILER)
  {
    hide Sort, CheckPath, HeaderOf, Block;
    var sorted := Sort(t, files);
    SortMembersOf(t, files);
    TotalOfPermutation(files, sorted);
    CollisionCount(t, files);
    CollisionCount(t, sorted);
    assert FoldKeys(t, files) == FoldKeys(t, sorted);
    assert forall i :: 0 <= i < |sorted| ==> sorted[i] in files;
  }

  lemma UniqueWithoutCollision(t: Text, files: Files)
    requires !Collides(t, files)
    ensures UniquePaths(files)
  {
  }

  lemma PackedArchiveReadsBack(t: Text, es: Files)
    requires Lawful(t) && Acceptable(t, es)
    ensures ReadRest(t, Pack(t, es) + TRAILER, START) == Ok(es)
  {
    assert FoldKeys(t, []) == {} && After(t, []) == START;
    assert [] + es == es;
    PackedReadsBack(t, [], es);
  }

  /** Whatever the packer returns, the reader accepts, and it gives back the same path-to-bytes map. */
  lemma TarRoundTrip(t: Text, files: Files)
    requires Lawful(t) && Archive(t, files).Ok?
    ensures var back := ReadRest(t, Archive(t, files).value, START);
            && back == Ok(Sort(t, files))
            && multiset(back.value) == multiset(files)
            && ToMap(back.value) == ToMap(files)
  {
    hide *;
    var sorted := Sort(t, files);
    SortedAcceptable(t, files);
    SortMembersOf(t, files);
    PackedArchiveReadsBack(t, sorted);
    UniqueWithoutCollision(t, files);
    UniqueWithoutCollision(t, sorted);
    SameMap(files, sorted);
  }
}
