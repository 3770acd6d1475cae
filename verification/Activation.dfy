/** Materializing a package under an activation root, on a disk full of links that may refuse any call. */
module Activation {
  import opened Common
  import opened FileTree

  datatype Reason =
    | RootNotAbsolute | RootMissing | RootNotADirectory
    | BadName | BadRelativePath | BadPackagePath | NoEntryFile
    | MkdirFailed | OutsideRootRefused | ReplaceFailed | WriteFailed

  datatype Target = ClaudePersonal | ClaudeProject | ClaudePlugin | Codex

  function TargetDir(t: Target): string {
    match t
    case ClaudePersonal => ".claude/skills"
    case ClaudeProject => ".claude/skills"
    case ClaudePlugin => "skills"
    case Codex => ".agents/skills"
  }

  const NATIVE_ENTRY := "SKILL.md"

  predicate NameStart(c: char) {
    'a' <= c <= 'z' || '0' <= c <= '9'
  }

  /** /^[a-z0-9][a-z0-9-]{0,63}$/ */
  predicate SkillName(name: string) {
    && 1 <= |name| <= 64
    && NameStart(name[0])
    && forall i :: 0 <= i < |name| ==> NameStart(name[i]) || name[i] == '-'
  }

  /** A package path: 1 to 400 characters, relative, every component a plain name. */
  predicate PackagePath(path: string) {
    1 <= |path| <= 400 && !IsAbsolute(path) && Names(Split(path, '/'))
  }

  function Slash(parts: seq<string>): string
    requires parts != []
  {
    if |parts| == 1 then parts[0] else Slash(parts[..|parts| - 1]) + "/" + parts[|parts| - 1]
  }

  /** `path.dirname` of a path whose components are plain names. */
  function Dirname(path: string): string
    requires '/' in path
  {
    Slash(Split(path, '/')[..|Split(path, '/')| - 1])
  }

  function Basename(path: string): string {
    Split(path, '/')[|Split(path, '/')| - 1]
  }

  lemma {:induction false} SlashSplits(parts: seq<string>)
    requires parts != [] && forall i :: 0 <= i < |parts| ==> '/' !in parts[i]
    ensures Split(Slash(parts), '/') == parts
  {
    var init, last := parts[..|parts| - 1], parts[|parts| - 1];
    assert parts == init + [last];
    SplitWhole(last, '/');
    if |parts| > 1 {
      SlashSplits(init);
      ComponentsConcat(Slash(init), last);
    }
  }

  /** The native directory of one package file, as text the walk is given. */
  function FileDirectory(dir: string, path: string): string {
    if '/' in path then dir + "/" + Dirname(path) else dir
  }

  /** Directory components followed by the file name are the package path's own components. */
  lemma FileDirectorySplits(dir: string, path: string)
    ensures Split(FileDirectory(dir, path), '/') + [Basename(path)] == Split(dir, '/') + Split(path, '/')
  {
    var parts := Split(path, '/');
    assert parts == parts[..|parts| - 1] + [Basename(path)];
    if '/' in path {
      SeveralParts(path);
      hide Split, Slash;
      SlashSplits(parts[..|parts| - 1]);
      ComponentsConcat(dir, Dirname(path));
    } else {
      SplitWhole(path, '/');
    }
  }

  lemma SeveralParts(path: string)
    requires '/' in path
    ensures |Split(path, '/')| > 1
  {
    var i :| 0 <= i < |path| && path[i] == '/';
    SplitConcat(path[..i], '/', path[i + 1..]);
    assert path == path[..i] + ['/'] + path[i + 1..];
  }

  // ------------------------------------------------------------ walking down

  /** Growth: everything there stays as it is, and what is new is an empty directory below the root. */
  ghost predicate Grew(before: Tree, after: Tree, root: Path) {
    && (forall p :: p in before ==> p in after && after[p] == before[p])
    && (forall p :: p in after && p !in before ==> root < p && after[p] == Dir)
  }

  ghost predicate LinkFree(nodes: Tree, root: Path) {
    forall p :: p in nodes && root < p ==> !nodes[p].Link?
  }

  /** The next component, created if absent, resolved, and checked before it is entered. */
  method Descend(disk: Disk, realRoot: string, current: string, part: string, ghost root: Path, ghost dir: Path)
    returns (r: Result<string, Reason>, ghost at: Path)
    requires disk.Valid() && Names(root) && Names(dir) && IsName(part)
    requires realRoot == PathText(root) && current == PathText(dir) && root <= dir && Canonical(disk.nodes, dir)
    modifies disk
    ensures disk.Valid() && Grew(old(disk.nodes), disk.nodes, root)
    ensures r.Ok? ==> r.value == PathText(at) && Names(at) && root <= at && Canonical(disk.nodes, at)
    ensures r.Ok? && LinkFree(disk.nodes, root) ==> at == dir + [part]
    ensures r.Err? ==> r.error == MkdirFailed || r.error == OutsideRootRefused
  {
    at := [];
    var next := Join(current, part);
    JoinIsChild(dir, part);
    PathTextComponents(dir + [part]);
    SkipSlash(disk.nodes, dir + [part], disk.links);
    ResolveChild(disk.nodes, dir, part, disk.links);
    ghost var was := disk.nodes;
    var made := disk.Mkdir(next);
    assert Grew(was, disk.nodes, root) && disk.Valid();
    if made == Failed {
      return Err(MkdirFailed), at;
    }
    var text, found := disk.Realpath(next);
    if text.None? {
      return Err(OutsideRootRefused), at;
    }
    WithinIsPrefix(root, found);
    if !Within(realRoot, text.value) {
      return Err(OutsideRootRefused), at;
    }
    SkipSlash(disk.nodes, dir + [part], disk.links);
    r, at := Ok(text.value), found;
  }

  /** The leading slash of an absolute text is an empty component, which resolution skips. */
  lemma SkipSlash(nodes: Tree, p: Path, links: nat)
    requires ValidTree(nodes) && Names(p) && p != []
    ensures Leaf(nodes, [], Components(PathText(p)), links) == Leaf(nodes, [], p, links)
    ensures Resolve(nodes, [], Components(PathText(p)), links) == Resolve(nodes, [], p, links)
    ensures Canonical(nodes, p) ==> Resolve(nodes, [], p, links) == Some(p)
  {
    PathTextComponents(p);
    assert ([""] + p)[1..] == p;
    assert ([""] + p)[..|p|] == [""] + p[..|p| - 1];
    assert ([""] + p[..|p| - 1])[1..] == p[..|p| - 1];
    if Canonical(nodes, p) {
      ResolveSelf(nodes, p, links);
    }
  }

  lemma PathTextResolves(nodes: Tree, p: Path, links: nat)
    requires ValidTree(nodes) && Names(p) && Canonical(nodes, p)
    ensures Resolve(nodes, [], Components(PathText(p)), links) == Some(p)
  {
    if p == [] {
      assert Components("/") == ["", ""] by {
        assert "/"[1..] == "" && "/"[..0] == "";
        SplitWhole("", '/');
      }
      assert ["", ""][1..] == [""] && [""][1..] == [];
      assert Resolve(nodes, [], [""], links) == Some([]);
    } else {
      SkipSlash(nodes, p, links);
    }
  }

  lemma GrewTransitive(a: Tree, b: Tree, c: Tree, root: Path)
    requires Grew(a, b, root) && Grew(b, c, root)
    ensures Grew(a, c, root)
  {
  }

  lemma GrewLinkFree(before: Tree, after: Tree, root: Path)
    requires Grew(before, after, root)
    ensures LinkFree(before, root) <==> LinkFree(after, root)
  {
  }

  /**
   * Create a native directory one component at a time: the result is a canonical directory path within the root,
   * and nothing that existed is touched, whether it returns or refuses.
   */
  method MkdirWithinRoot(disk: Disk, realRoot: string, relDir: string, ghost root: Path)
    returns (r: Result<string, Reason>, ghost dir: Path)
    requires disk.Valid() && Names(root) && realRoot == PathText(root) && IsDir(disk.nodes, root)
    modifies disk
    ensures disk.Valid() && Grew(old(disk.nodes), disk.nodes, root)
    ensures r.Ok? ==> r.value == PathText(dir) && Names(dir) && root <= dir && Canonical(disk.nodes, dir)
    ensures r.Ok? ==> Names(Split(relDir, '/'))
    ensures r.Ok? && LinkFree(disk.nodes, root) ==> dir == root + Split(relDir, '/')
    ensures r.Err? && r.error == BadRelativePath ==> !Names(Split(relDir, '/'))
    ensures r.Err? ==> r.error == MkdirFailed || r.error == OutsideRootRefused || r.error == BadRelativePath
  {
    hide Resolve, Leaf, PathText, Grew, LinkFree, ValidTree;
    var parts := Split(relDir, '/');
    var current := realRoot;
    dir := root;
    var k := 0;
    GrewSelf(disk.nodes, root);
    while k < |parts|
      invariant 0 <= k <= |parts| && disk.Valid() && Grew(old(disk.nodes), disk.nodes, root)
      invariant current == PathText(dir) && Names(dir) && root <= dir && Canonical(disk.nodes, dir)
      invariant Names(parts[..k])
      invariant LinkFree(disk.nodes, root) ==> dir == root + parts[..k]
    {
      if !IsName(parts[k]) {
        return Err(BadRelativePath), dir;
      }
      ghost var was := disk.nodes;
      var next, at := Descend(disk, realRoot, current, parts[k], root, dir);
      GrewTransitive(old(disk.nodes), was, disk.nodes, root);
      GrewLinkFree(was, disk.nodes, root);
      if next.Err? {
        return next, dir;
      }
      assert parts[..k + 1] == parts[..k] + [parts[k]];
      assert root + parts[..k + 1] == root + parts[..k] + [parts[k]];
      current, dir, k := next.value, at, k + 1;
    }
    assert parts[..|parts|] == parts;
    r := Ok(current);
  }

  lemma GrewSelf(nodes: Tree, root: Path)
    ensures Grew(nodes, nodes, root)
  {
  }

  // ------------------------------------------------------------ one file

  ghost predicate NoNewLinks(before: Tree, after: Tree) {
    forall p :: p in after && after[p].Link? ==> p in before && before[p] == after[p]
  }

  /** What placing one file may do: nothing outside the root, no new link, and no existing file lost but its own. */
  ghost predicate Placed(before: Tree, after: Tree, root: Path, at: Path, data: Bytes) {
    && root < at
    && at in after && after[at] == File(data)
    && forall p :: p in before && p != at ==> p in after && after[p] == before[p]
  }

  method PlaceFile(disk: Disk, realRoot: string, relDir: string, path: string, data: Bytes, ghost root: Path)
    returns (r: Result<(), Reason>, ghost at: Path)
    requires disk.Valid() && Names(root) && realRoot == PathText(root) && IsDir(disk.nodes, root)
    modifies disk
    ensures disk.Valid() && Confined(old(disk.nodes), disk.nodes, root) && NoNewLinks(old(disk.nodes), disk.nodes)
    ensures IsDir(disk.nodes, root)
    ensures r.Ok? ==> PackagePath(path) && Placed(old(disk.nodes), disk.nodes, root, at, data)
    ensures r.Ok? && LinkFree(old(disk.nodes), root) ==> at == root + Split(relDir, '/') + Split(path, '/')
    ensures r.Err? && r.error == BadPackagePath ==> !PackagePath(path)
    ensures r.Err? ==> !r.error.RootNotAbsolute? && !r.error.BadName? && !r.error.NoEntryFile?
  {
    hide *;
    at := [];
    GrewSelf(disk.nodes, root);
    GrewConfines(disk.nodes, disk.nodes, root);
    if !PackagePath(path) {
      return Err(BadPackagePath), at;
    }
    var made, dir := MkdirWithinRoot(disk, realRoot, FileDirectory(relDir, path), root);
    ghost var grown := disk.nodes;
    GrewConfines(old(disk.nodes), grown, root);
    if made.Err? {
      return Err(made.error), at;
    }
    var name := Basename(path);
    BasenameIsName(path);
    at := dir + [name];
    r := Replace(disk, Join(made.value, name), data, root, dir, name);
    FilePlaced(old(disk.nodes), grown, disk.nodes, root, at, data);
    FileDirectorySplits(relDir, path);
    GrewLinkFree(old(disk.nodes), grown, root);
    assert root + Split(FileDirectory(relDir, path), '/') + [name] == root + (Split(relDir, '/') + Split(path, '/'));
  }

  lemma BasenameIsName(path: string)
    requires PackagePath(path)
    ensures IsName(Basename(path))
  {
  }

  lemma FilePlaced(before: Tree, grown: Tree, after: Tree, root: Path, at: Path, data: Bytes)
    requires Grew(before, grown, root) && OnlyAt(grown, after, at) && root < at
    requires IsDir(before, root)
    ensures Confined(before, after, root) && NoNewLinks(before, after) && IsDir(after, root)
    ensures at in after && after[at] == File(data) ==> Placed(before, after, root, at, data)
  {
  }

  lemma GrewConfines(before: Tree, after: Tree, root: Path)
    requires Grew(before, after, root)
    ensures Confined(before, after, root) && NoNewLinks(before, after)
    ensures IsDir(before, root) ==> IsDir(after, root)
  {
  }

  /** Everything but one place below the root is as it was. */
  ghost predicate OnlyAt(before: Tree, after: Tree, at: Path) {
    && (forall p :: p != at ==> (p in before <==> p in after) && (p in before ==> after[p] == before[p]))
    && (at in before && before[at] == Dir ==> at in after && after[at] == Dir)
    && (at in after ==> !after[at].Link? || (at in before && before[at] == after[at]))
  }

  /** Unlink whatever holds the name, then create the file: never written through a link. */
  method Replace(disk: Disk, target: string, data: Bytes, ghost root: Path, ghost dir: Path, ghost name: string)
    returns (r: Result<(), Reason>)
    requires disk.Valid() && Names(dir) && IsName(name) && Canonical(disk.nodes, dir)
    requires target == Join(PathText(dir), name)
    modifies disk
    ensures disk.Valid() && OnlyAt(old(disk.nodes), disk.nodes, dir + [name])
    ensures r.Ok? ==> dir + [name] in disk.nodes && disk.nodes[dir + [name]] == File(data)
    ensures r.Err? ==> r.error == ReplaceFailed || r.error == WriteFailed
  {
    JoinIsChild(dir, name);
    ghost var at := dir + [name];
    SkipSlash(disk.nodes, at, disk.links);
    ResolveChild(disk.nodes, dir, name, disk.links);
    var removed := disk.Remove(target);
    if !removed {
      return Err(ReplaceFailed);
    }
    SkipSlash(disk.nodes, at, disk.links);
    ResolveChild(disk.nodes, dir, name, disk.links);
    LandingAtFreshLeaf(disk.nodes, Components(target), disk.links);
    var ok := disk.Write(target, data);
    r := if ok then Ok(()) else Err(WriteFailed);
  }

  lemma LandingAtFreshLeaf(nodes: Tree, todo: seq<string>, links: nat)
    ensures var leaf := Leaf(nodes, [], todo, links);
      leaf.None? || leaf.value !in nodes ==> Landing(nodes, [], todo, links) == leaf
  {
  }

  // ------------------------------------------------------------ the whole package

  /** The root as the filesystem sees it: it must exist and be a directory. */
  method ResolveRoot(disk: Disk, root: string) returns (r: Result<string, Reason>, ghost at: Path)
    requires disk.Valid()
    modifies disk`calls
    ensures r.Ok? ==>
      && Resolve(disk.nodes, [], Components(root), disk.links) == Some(at)
      && r.value == PathText(at) && Names(at) && IsDir(disk.nodes, at)
    ensures r == Err(RootNotAbsolute) <==> !IsAbsolute(root)
    ensures r.Err? ==> r.error == RootNotAbsolute || r.error == RootMissing || r.error == RootNotADirectory
  {
    at := [];
    if !IsAbsolute(root) {
      return Err(RootNotAbsolute), at;
    }
    var text, found := disk.Realpath(root);
    if text.None? {
      return Err(RootMissing), at;
    }
    PathTextResolves(disk.nodes, found, disk.links);
    var directory := disk.IsDirectory(text.value);
    if !directory {
      return Err(RootNotADirectory), at;
    }
    r, at := Ok(text.value), found;
  }

  predicate HasEntry(files: seq<(string, Bytes)>) {
    exists i :: 0 <= i < |files| && files[i].0 == NATIVE_ENTRY
  }

  predicate DistinctPaths(files: seq<(string, Bytes)>) {
    forall i, j :: 0 <= i < j < |files| ==> files[i].0 != files[j].0
  }

  /** No later file was put in the same place. */
  ghost predicate Latest(places: seq<Path>, i: nat)
    requires i < |places|
  {
    forall j :: i < j < |places| ==> places[j] != places[i]
  }

  /** Each written file is still where it was put, unless a later file was put in the same place. */
  ghost predicate Holds(nodes: Tree, root: Path, files: seq<(string, Bytes)>, places: seq<Path>) {
    && |places| == |files|
    && forall i :: 0 <= i < |files| ==>
      && root < places[i]
      && (Latest(places, i) ==> places[i] in nodes && nodes[places[i]] == File(files[i].1))
  }

  lemma LatestNext(places: seq<Path>, at: Path, i: nat)
    requires i < |places| && Latest(places + [at], i)
    ensures Latest(places, i) && places[i] != at
  {
    var held := places + [at];
    assert held[|places|] == at && held[i] == places[i];
    assert forall j :: i < j < |places| ==> held[j] == places[j];
  }

  lemma HoldsNext(before: Tree, after: Tree, root: Path, files: seq<(string, Bytes)>, places: seq<Path>,
                  file: (string, Bytes), at: Path)
    requires Holds(before, root, files, places) && Placed(before, after, root, at, file.1)
    ensures Holds(after, root, files + [file], places + [at])
  {
    hide Latest;
    var all, held := files + [file], places + [at];
    forall i | 0 <= i < |all|
      ensures root < held[i] && (Latest(held, i) ==> held[i] in after && after[held[i]] == File(all[i].1))
    {
      if i < |files| {
        assert held[i] == places[i] && all[i] == files[i];
        if Latest(held, i) {
          LatestNext(places, at, i);
        }
      }
    }
  }

  lemma ConfinedTransitive(a: Tree, b: Tree, c: Tree, root: Path)
    requires Confined(a, b, root) && Confined(b, c, root)
    ensures Confined(a, c, root)
  {
  }

  lemma StaysLinkFree(before: Tree, after: Tree, root: Path)
    requires NoNewLinks(before, after)
    ensures LinkFree(before, root) ==> LinkFree(after, root)
  {
  }

  /** Where each file belongs when no link is in the way. */
  ghost predicate Straight(root: Path, relDir: string, files: seq<(string, Bytes)>, places: seq<Path>) {
    |places| == |files|
    && forall i :: 0 <= i < |files| ==> places[i] == root + Split(relDir, '/') + Split(files[i].0, '/')
  }

  lemma SplitFirst(s: string)
    ensures var i := IndexOf(s, '/');
      if i < |s| then
        && |Split(s, '/')| > 1 && Split(s, '/')[0] == s[..i] && Split(s, '/')[1..] == Split(s[i + 1..], '/')
        && s == s[..i] + ['/'] + s[i + 1..]
      else Split(s, '/') == [s]
  {
    assert IndexOf(s, '/') == |s| ==> s[..|s|] == s;
  }

  lemma {:induction false} SplitInjective(a: string, b: string)
    requires Split(a, '/') == Split(b, '/')
    ensures a == b
    decreases |a|
  {
    hide *;
    SplitFirst(a);
    SplitFirst(b);
    var i, j := IndexOf(a, '/'), IndexOf(b, '/');
    if i < |a| {
      assert |a[..i]| == |b[..j]|;
      SplitInjective(a[i + 1..], b[i + 1..]);
    }
  }

  /** Without links, distinct package paths have distinct places, so every file is in its own place at the end. */
  lemma StraightHolds(nodes: Tree, root: Path, relDir: string, files: seq<(string, Bytes)>, places: seq<Path>)
    requires Holds(nodes, root, files, places) && Straight(root, relDir, files, places) && DistinctPaths(files)
    ensures forall i :: 0 <= i < |files| ==> places[i] in nodes && nodes[places[i]] == File(files[i].1)
  {
    forall i, j | 0 <= i < j < |files|
      ensures places[i] != places[j]
    {
      var base := root + Split(relDir, '/');
      assert places[i][|base|..] == Split(files[i].0, '/') && places[j][|base|..] == Split(files[j].0, '/');
      if places[i] == places[j] {
        SplitInjective(files[i].0, files[j].0);
      }
    }
  }

  /** File by file, in the package's own order; the first refusal ends it with the earlier files in place. */
  method PlaceAll(disk: Disk, realRoot: string, relDir: string, files: seq<(string, Bytes)>, ghost root: Path)
    returns (r: Result<(), Reason>, ghost places: seq<Path>)
    requires disk.Valid() && Names(root) && realRoot == PathText(root) && IsDir(disk.nodes, root)
    modifies disk
    ensures disk.Valid() && Confined(old(disk.nodes), disk.nodes, root) && NoNewLinks(old(disk.nodes), disk.nodes)
    ensures r.Ok? ==>
      (forall i :: 0 <= i < |files| ==> PackagePath(files[i].0)) && Holds(disk.nodes, root, files, places)
    ensures r.Ok? && LinkFree(old(disk.nodes), root) ==> Straight(root, relDir, files, places)
    ensures r == Err(BadPackagePath) ==> exists i :: 0 <= i < |files| && !PackagePath(files[i].0)
    ensures r.Err? ==> !r.error.RootNotAbsolute? && !r.error.BadName? && !r.error.NoEntryFile?
  {
    hide *;
    ghost var before := disk.nodes;
    places := [];
    SelfConfined(before, root);
    NothingHeld(before, root, relDir);
    var k := 0;
    while k < |files|
      invariant 0 <= k <= |files| && disk.Valid() && IsDir(disk.nodes, root)
      invariant Confined(before, disk.nodes, root) && NoNewLinks(before, disk.nodes)
      invariant Holds(disk.nodes, root, files[..k], places)
      invariant forall i :: 0 <= i < k ==> PackagePath(files[i].0)
      invariant LinkFree(before, root) ==> Straight(root, relDir, files[..k], places)
    {
      ghost var was := disk.nodes;
      var done, place := PlaceFile(disk, realRoot, relDir, files[k].0, files[k].1, root);
      ConfinedTransitive(before, was, disk.nodes, root);
      NoNewLinksTransitive(before, was, disk.nodes);
      if done.Err? {
        return done, places;
      }
      StaysLinkFree(before, was, root);
      HoldsNext(was, disk.nodes, root, files[..k], places, files[k], place);
      StraightNext(root, relDir, files[..k], places, files[k], place);
      assert files[..k + 1] == files[..k] + [files[k]];
      places, k := places + [place], k + 1;
    }
    assert files[..|files|] == files;
    r := Ok(());
  }

  /**
   * Write a package under a root. However it ends, nothing outside the resolved root differs; when it returns, every
   * file is where it was put, and with no link below the root that is exactly root, native directory, package path.
   */
  method Materialize(disk: Disk, siteRoot: string, target: Target, name: string, files: seq<(string, Bytes)>)
    returns (r: Result<nat, Reason>, ghost root: Option<Path>, ghost places: seq<Path>)
    requires disk.Valid()
    modifies disk
    ensures disk.Valid()
    ensures root.None? ==> disk.nodes == old(disk.nodes)
    ensures root.Some? ==>
      && Resolve(old(disk.nodes), [], Components(siteRoot), disk.links) == root
      && Confined(old(disk.nodes), disk.nodes, root.value)
      && NoNewLinks(old(disk.nodes), disk.nodes)
    ensures r.Ok? ==>
      && r.value == |files| && root.Some? && SkillName(name) && HasEntry(files)
      && (forall i :: 0 <= i < |files| ==> PackagePath(files[i].0))
      && Holds(disk.nodes, root.value, files, places)
    ensures r.Ok? && LinkFree(old(disk.nodes), root.value) ==>
      Straight(root.value, TargetDir(target) + "/" + name, files, places)
    ensures r == Err(RootNotAbsolute) <==> !IsAbsolute(siteRoot)
    ensures root.Some? ==> (r == Err(BadName) <==> !SkillName(name))
    ensures root.Some? && SkillName(name) ==> (r == Err(NoEntryFile) <==> !HasEntry(files))
    ensures r == Err(BadPackagePath) ==> exists i :: 0 <= i < |files| && !PackagePath(files[i].0)
  {
    hide *;
    places := [];
    var resolved, at := ResolveRoot(disk, siteRoot);
    if resolved.Err? {
      return Err(resolved.error), None, places;
    }
    root := Some(at);
    SelfConfined(disk.nodes, at);
    if !SkillName(name) {
      return Err(BadName), root, places;
    }
    var relDir := TargetDir(target) + "/" + name;
    if !HasEntry(files) {
      return Err(NoEntryFile), root, places;
    }
    var done;
    done, places := PlaceAll(disk, resolved.value, relDir, files, at);
    r := if done.Ok? then Ok(|files|) else Err(done.error);
  }

  lemma SelfConfined(nodes: Tree, root: Path)
    ensures Confined(nodes, nodes, root) && NoNewLinks(nodes, nodes)
  {
  }

  lemma NothingHeld(nodes: Tree, root: Path, relDir: string)
    ensures Holds(nodes, root, [], []) && Straight(root, relDir, [], [])
  {
  }

  lemma StraightNext(root: Path, relDir: string, files: seq<(string, Bytes)>, places: seq<Path>,
                     file: (string, Bytes), at: Path)
    ensures Straight(root, relDir, files, places) && at == root + Split(relDir, '/') + Split(file.0, '/') ==>
      Straight(root, relDir, files + [file], places + [at])
  {
  }

  lemma NoNewLinksTransitive(a: Tree, b: Tree, c: Tree)
    requires NoNewLinks(a, b) && NoNewLinks(b, c)
    ensures NoNewLinks(a, c)
  {
  }
}
