/** A filesystem with symbolic links: canonical paths, resolution, and calls that may fail at any moment. */
module FileTree {
  import opened Common

  type Bytes = seq<bv8>

  /** The components of a canonical absolute path; the root directory is []. */
  type Path = seq<string>

  datatype Node =
    | Dir
    | File(data: Bytes)
    | Link(absolute: bool, target: seq<string>)

  type Tree = map<Path, Node>

  predicate IsName(s: string) {
    s != "" && s != "." && s != ".." && '/' !in s
  }

  predicate Names(p: Path) {
    forall i :: 0 <= i < |p| ==> IsName(p[i])
  }

  function Parent(p: Path): Path
    requires p != []
  {
    p[..|p| - 1]
  }

  /** A place where a name may be put: inside an existing directory. */
  ghost predicate IsPlace(nodes: Tree, at: Path) {
    at != [] && IsName(at[|at| - 1]) && Parent(at) in nodes && nodes[Parent(at)] == Dir
  }

  /** A tree: the root is a directory and everything else sits in one. Links point anywhere. */
  ghost predicate ValidTree(nodes: Tree) {
    && [] in nodes && nodes[[]] == Dir
    && forall p {:trigger IsPlace(nodes, p)} :: p in nodes && p != [] ==> IsPlace(nodes, p)
  }

  /** A path with no link in it: what realpath returns. */
  ghost predicate Canonical(nodes: Tree, p: Path) {
    p in nodes && !nodes[p].Link?
  }

  /** The path is a directory, reached without a link. */
  ghost predicate IsDir(nodes: Tree, p: Path) {
    p in nodes && nodes[p] == Dir
  }

  // ------------------------------------------------------------ resolution

  /** Follow `todo` from the directory `cur`, through at most `links` links. */
  function Resolve(nodes: Tree, cur: Path, todo: seq<string>, links: nat): Option<Path>
    decreases links, |todo|
  {
    if todo == [] then Some(cur)
    else if cur !in nodes || nodes[cur] != Dir then None
    else if todo[0] == "" || todo[0] == "." then Resolve(nodes, cur, todo[1..], links)
    else if todo[0] == ".." then Resolve(nodes, if cur == [] then [] else Parent(cur), todo[1..], links)
    else
      var next := cur + [todo[0]];
      if next !in nodes then None
      else match nodes[next]
        case Link(absolute, target) =>
          if links == 0 then None
          else Resolve(nodes, if absolute then [] else cur, target + todo[1..], links - 1)
        case _ => Resolve(nodes, next, todo[1..], links)
  }

  /** Where the last name of a path lives, links before it followed and itself not. */
  function Leaf(nodes: Tree, cur: Path, todo: seq<string>, links: nat): Option<Path> {
    if todo == [] || !IsName(todo[|todo| - 1]) then None
    else
      var dir := Resolve(nodes, cur, todo[..|todo| - 1], links);
      if dir.None? || dir.value !in nodes || nodes[dir.value] != Dir then None
      else Some(dir.value + [todo[|todo| - 1]])
  }

  /** Where opening a path for writing ends up: a link at the last name is followed too. */
  function Landing(nodes: Tree, cur: Path, todo: seq<string>, links: nat): Option<Path>
    decreases links
  {
    var leaf := Leaf(nodes, cur, todo, links);
    if leaf.None? || leaf.value !in nodes then leaf
    else match nodes[leaf.value]
      case Link(absolute, target) =>
        if links == 0 then None
        else Landing(nodes, if absolute then [] else Parent(leaf.value), target, links - 1)
      case _ => leaf
  }

  lemma {:induction false} PrefixesAreDirectories(nodes: Tree, p: Path, i: nat)
    requires ValidTree(nodes) && p in nodes && i <= |p|
    ensures p[..i] in nodes
    ensures i < |p| ==> nodes[p[..i]] == Dir && IsName(p[i])
  {
    if i == |p| {
      assert p[..i] == p;
    } else {
      assert IsPlace(nodes, p);
      PrefixesAreDirectories(nodes, Parent(p), i);
      assert p[..i] == Parent(p)[..i];
      if i == |p| - 1 {
        assert p[..i] == Parent(p);
      }
    }
  }

  lemma ResolveName(nodes: Tree, cur: Path, todo: seq<string>, links: nat)
    requires todo != [] && IsName(todo[0]) && cur in nodes && nodes[cur] == Dir
    requires Canonical(nodes, cur + [todo[0]])
    ensures Resolve(nodes, cur, todo, links) == Resolve(nodes, cur + [todo[0]], todo[1..], links)
  {
  }

  lemma NextComponent(nodes: Tree, cur: Path, todo: seq<string>)
    requires ValidTree(nodes) && todo != [] && Canonical(nodes, cur + todo)
    ensures cur in nodes && nodes[cur] == Dir && IsName(todo[0]) && Canonical(nodes, cur + [todo[0]])
  {
    var p := cur + todo;
    PrefixesAreDirectories(nodes, p, |cur|);
    PrefixesAreDirectories(nodes, p, |cur| + 1);
    assert p[..|cur|] == cur && p[..|cur| + 1] == cur + [todo[0]];
    assert |todo| == 1 ==> cur + [todo[0]] == p;
  }

  lemma {:induction false} ResolveOnward(nodes: Tree, cur: Path, todo: seq<string>, links: nat)
    requires ValidTree(nodes) && Canonical(nodes, cur + todo)
    ensures Resolve(nodes, cur, todo, links) == Some(cur + todo)
    decreases |todo|
  {
    if todo == [] {
      assert cur + todo == cur;
    } else {
      hide *;
      NextComponent(nodes, cur, todo);
      ResolveName(nodes, cur, todo, links);
      assert (cur + [todo[0]]) + todo[1..] == cur + todo;
      ResolveOnward(nodes, cur + [todo[0]], todo[1..], links);
    }
  }

  /** A canonical path resolves to itself without following any link. */
  lemma ResolveSelf(nodes: Tree, p: Path, links: nat)
    requires ValidTree(nodes) && Canonical(nodes, p)
    ensures Resolve(nodes, [], p, links) == Some(p)
  {
    assert [] + p == p;
    ResolveOnward(nodes, [], p, links);
  }

  /** Whatever the links do, what comes out of resolution is canonical. */
  lemma {:induction false} ResolveIsCanonical(nodes: Tree, cur: Path, todo: seq<string>, links: nat)
    requires ValidTree(nodes) && Canonical(nodes, cur)
    ensures var r := Resolve(nodes, cur, todo, links); r.Some? ==> Canonical(nodes, r.value)
    decreases links, |todo|
  {
    if todo != [] && nodes[cur] == Dir {
      if todo[0] == "" || todo[0] == "." {
        ResolveIsCanonical(nodes, cur, todo[1..], links);
      } else if todo[0] == ".." {
        assert cur != [] ==> IsPlace(nodes, cur);
        ResolveIsCanonical(nodes, if cur == [] then [] else Parent(cur), todo[1..], links);
      } else if cur + [todo[0]] in nodes {
        var next := cur + [todo[0]];
        if nodes[next].Link? {
          if links > 0 {
            var base := if nodes[next].absolute then [] else cur;
            ResolveIsCanonical(nodes, base, nodes[next].target + todo[1..], links - 1);
          }
        } else {
          ResolveIsCanonical(nodes, next, todo[1..], links);
        }
      }
    }
  }

  /** Below a canonical path a plain name lives right there, if the path is a directory at all. */
  lemma ResolveChild(nodes: Tree, dir: Path, name: string, links: nat)
    requires ValidTree(nodes) && Canonical(nodes, dir) && IsName(name)
    ensures Leaf(nodes, [], dir + [name], links) == if nodes[dir] == Dir then Some(dir + [name]) else None
    ensures dir + [name] in nodes ==> nodes[dir] == Dir
  {
    hide Resolve;
    ResolveSelf(nodes, dir, links);
    assert Parent(dir + [name]) == dir;
    if dir + [name] in nodes {
      assert IsPlace(nodes, dir + [name]);
    }
  }

  // ------------------------------------------------------------ paths as text

  /** "/" before every component. */
  function Slashed(p: Path): string {
    if p == [] then "" else Slashed(p[..|p| - 1]) + "/" + p[|p| - 1]
  }

  function PathText(p: Path): string {
    if p == [] then "/" else Slashed(p)
  }

  /** The components of an absolute path text, as the kernel reads it. */
  function Components(text: string): seq<string> {
    Split(text, '/')
  }

  predicate IsAbsolute(text: string) {
    |text| > 0 && text[0] == '/'
  }

  /** `path.join` of a normalized absolute directory and one plain name. */
  function Join(dir: string, name: string): string {
    if |dir| > 0 && dir[|dir| - 1] == '/' then dir + name else dir + "/" + name
  }

  lemma {:induction false} SlashedComponents(p: Path)
    requires Names(p)
    ensures Components(Slashed(p)) == [""] + p
  {
    if p == [] {
      SplitWhole("", '/');
    } else {
      var init, last := p[..|p| - 1], p[|p| - 1];
      SlashedComponents(init);
      SplitConcat(Slashed(init), '/', last);
      assert Slashed(p) == Slashed(init) + ['/'] + last;
      SplitWhole(last, '/');
      assert [""] + p == [""] + init + [last];
    }
  }

  lemma {:induction false} SlashedAppend(a: Path, b: Path)
    ensures Slashed(a + b) == Slashed(a) + Slashed(b)
  {
    if b == [] {
      assert a + b == a;
    } else {
      SlashedAppend(a, b[..|b| - 1]);
      assert (a + b)[..|a + b| - 1] == a + b[..|b| - 1];
    }
  }

  lemma {:induction false} SlashedShape(p: Path)
    requires p != [] && Names(p)
    ensures |Slashed(p)| > 1 && Slashed(p)[0] == '/' && Slashed(p)[|Slashed(p)| - 1] != '/'
  {
    if |p| > 1 {
      SlashedShape(p[..|p| - 1]);
    }
    assert p[|p| - 1][|p[|p| - 1]| - 1] in p[|p| - 1];
  }

  lemma JoinIsChild(dir: Path, name: string)
    requires Names(dir) && IsName(name)
    ensures Join(PathText(dir), name) == PathText(dir + [name])
  {
    assert (dir + [name])[..|dir|] == dir;
    if dir != [] {
      SlashedShape(dir);
    } else {
      assert dir + [name] == [name] && Slashed(dir + [name]) == "" + "/" + name;
    }
  }

  lemma PathTextComponents(p: Path)
    requires Names(p)
    ensures IsAbsolute(PathText(p))
    ensures p != [] ==> Components(PathText(p)) == [""] + p
  {
    if p != [] {
      SlashedComponents(p);
      SlashedShape(p);
    }
  }

  // ------------------------------------------------------------ staying within

  /** `candidate === root || candidate.startsWith(root.endsWith(sep) ? root : root + sep)`. */
  predicate Within(root: string, candidate: string) {
    candidate == root || (if |root| > 0 && root[|root| - 1] == '/' then root else root + "/") <= candidate
  }

  /** On canonical texts the string test is exactly containment of component paths. */
  lemma WithinIsPrefix(root: Path, p: Path)
    requires Names(root) && Names(p)
    ensures Within(PathText(root), PathText(p)) <==> root <= p
  {
    hide Names, Slashed;
    if root == [] {
      PathTextComponents(p);
    } else {
      if root <= p {
        PrefixGivesWithin(root, p);
      }
      if Within(PathText(root), PathText(p)) {
        WithinGivesPrefix(root, p);
      }
    }
  }

  lemma PrefixGivesWithin(root: Path, p: Path)
    requires Names(root) && Names(p) && root != [] && root <= p
    ensures Within(PathText(root), PathText(p))
  {
    var rest := p[|root|..];
    assert root + rest == p;
    if rest == [] {
      assert root == p;
    } else {
      SlashedShape(root);
      SlashedShape(rest);
      SlashedAppend(root, rest);
      hide Slashed;
      assert Slashed(rest) == "/" + Slashed(rest)[1..];
      assert Slashed(p) == Slashed(root) + "/" + Slashed(rest)[1..];
    }
  }

  lemma WithinGivesPrefix(root: Path, p: Path)
    requires Names(root) && Names(p) && root != [] && Within(PathText(root), PathText(p))
    ensures root <= p
  {
    SlashedShape(root);
    if p != [] {
      if PathText(p) == PathText(root) {
        SlashedComponents(root);
        SlashedComponents(p);
        assert ([""] + p)[1..] == p && ([""] + root)[1..] == root;
      } else {
        assert Slashed(root) + "/" <= Slashed(p);
        SlashedPrefix(root, p, Slashed(p)[|Slashed(root)| + 1..]);
      }
    }
  }

  lemma SlashedPrefix(root: Path, p: Path, rest: string)
    requires Names(root) && Names(p) && Slashed(p) == Slashed(root) + "/" + rest
    ensures root <= p
  {
    hide *;
    SlashedComponents(root);
    SlashedComponents(p);
    assert Components(Slashed(p)) == Components(Slashed(root)) + Components(rest) by {
      ComponentsConcat(Slashed(root), rest);
    }
    assert [""] + p == [""] + (root + Components(rest));
    assert p == ([""] + p)[1..] == root + Components(rest);
  }

  lemma ComponentsConcat(a: string, b: string)
    ensures Components(a + "/" + b) == Components(a) + Components(b)
  {
    SplitConcat(a, '/', b);
    assert a + "/" + b == a + ['/'] + b;
  }

  // ------------------------------------------------------------ the calls

  /** What the operating system adds to a call: nothing, a refusal, or a refusal after some bytes were written. */
  datatype Fault = Fine | Refuse | Partial(written: Bytes)

  datatype Made = Created | Exists | Failed

  /** Only nodes strictly below `root` differ. */
  ghost predicate Confined(before: Tree, after: Tree, root: Path) {
    forall p :: !(root < p) ==> (p in before <==> p in after) && (p in before ==> after[p] == before[p])
  }

  class Disk {
    var nodes: Tree
    var calls: nat
    const links: nat
    const faults: nat -> Fault

    ghost predicate Valid()
      reads this`nodes
    {
      ValidTree(nodes)
    }

    method Tick() returns (fault: Fault)
      modifies this`calls
    {
      fault := faults(calls);
      calls := calls + 1;
    }

    /** mkdir(2): the name may exist as anything at all, even as a dangling link. */
    method Mkdir(path: string) returns (made: Made)
      requires Valid()
      modifies this
      ensures Valid()
      ensures nodes == old(nodes) ||
        (var at := Leaf(old(nodes), [], Components(path), links);
         at.Some? && at.value !in old(nodes) && nodes == old(nodes)[at.value := Dir])
      ensures made == Created ==> nodes != old(nodes)
      ensures made == Exists ==>
        var at := Leaf(old(nodes), [], Components(path), links); at.Some? && at.value in old(nodes)
    {
      var fault := Tick();
      var at := Leaf(nodes, [], Components(path), links);
      if fault != Fine || !IsAbsolute(path) || at.None? {
        return Failed;
      }
      if at.value in nodes {
        return Exists;
      }
      LeafIsPlace(nodes, [], Components(path), links);
      PutKeepsTree(nodes, at.value, Dir);
      nodes := nodes[at.value := Dir];
      made := Created;
    }

    /** realpath(3). */
    method Realpath(path: string) returns (text: Option<string>, ghost at: Path)
      requires Valid()
      modifies this`calls
      ensures text.Some? ==>
        && Resolve(nodes, [], Components(path), links) == Some(at)
        && text.value == PathText(at) && Canonical(nodes, at) && Names(at)
    {
      at := [];
      var fault := Tick();
      var spot := Resolve(nodes, [], Components(path), links);
      if fault != Fine || !IsAbsolute(path) || spot.None? {
        return None, at;
      }
      ResolveIsCanonical(nodes, [], Components(path), links);
      forall i | 0 <= i < |spot.value|
        ensures IsName(spot.value[i])
      {
        PrefixesAreDirectories(nodes, spot.value, i);
      }
      return Some(PathText(spot.value)), spot.value;
    }

    /** lstat(2) of a canonical path. */
    method IsDirectory(path: string) returns (directory: bool)
      modifies this`calls
      ensures directory ==>
        var at := Resolve(nodes, [], Components(path), links); at.Some? && at.value in nodes && nodes[at.value] == Dir
    {
      var fault := Tick();
      var at := Resolve(nodes, [], Components(path), links);
      directory := fault == Fine && at.Some? && at.value in nodes && nodes[at.value] == Dir;
    }

    /** unlink without following, where absence is success and a directory is refused. */
    method Remove(path: string) returns (ok: bool)
      requires Valid()
      modifies this
      ensures Valid()
      ensures nodes == old(nodes) ||
        (var at := Leaf(old(nodes), [], Components(path), links);
         at.Some? && at.value in old(nodes) && old(nodes)[at.value] != Dir && nodes == old(nodes) - {at.value})
      ensures ok ==> var at := Leaf(old(nodes), [], Components(path), links); at.Some? ==> at.value !in nodes
    {
      var fault := Tick();
      var at := Leaf(nodes, [], Components(path), links);
      if fault != Fine || (at.Some? && at.value in nodes && nodes[at.value] == Dir) {
        return false;
      }
      if at.Some? && at.value in nodes {
        DropKeepsTree(nodes, at.value);
        nodes := nodes - {at.value};
      }
      ok := true;
    }

    /** open(O_CREAT | O_TRUNC) and write: a link at the last name is written through. */
    method Write(path: string, data: Bytes) returns (ok: bool)
      requires Valid()
      modifies this
      ensures Valid()
      ensures nodes == old(nodes) ||
        (var at := Landing(old(nodes), [], Components(path), links);
         && at.Some? && (at.value in old(nodes) ==> old(nodes)[at.value].File?)
         && exists bytes :: nodes == old(nodes)[at.value := File(bytes)])
      ensures ok ==>
        var at := Landing(old(nodes), [], Components(path), links);
        at.Some? && nodes == old(nodes)[at.value := File(data)]
    {
      hide Landing, Components, IsAbsolute, ValidTree, IsPlace;
      var fault := Tick();
      var at := Landing(nodes, [], Components(path), links);
      if fault == Refuse || !IsAbsolute(path) || at.None? || (at.value in nodes && nodes[at.value] == Dir) {
        return false;
      }
      LandingIsPlace(nodes, [], Components(path), links);
      var bytes := if fault.Partial? then fault.written else data;
      PutKeepsTree(nodes, at.value, File(bytes));
      nodes := nodes[at.value := File(bytes)];
      ok := fault == Fine;
    }
  }

  lemma LeafIsPlace(nodes: Tree, cur: Path, todo: seq<string>, links: nat)
    ensures var at := Leaf(nodes, cur, todo, links); at.Some? ==> IsPlace(nodes, at.value)
  {
    hide Resolve;
    var at := Leaf(nodes, cur, todo, links);
    if at.Some? {
      var dir := Resolve(nodes, cur, todo[..|todo| - 1], links);
      assert Parent(dir.value + [todo[|todo| - 1]]) == dir.value;
    }
  }

  lemma {:induction false} LandingIsPlace(nodes: Tree, cur: Path, todo: seq<string>, links: nat)
    ensures var at := Landing(nodes, cur, todo, links);
      at.Some? ==> IsPlace(nodes, at.value) && (at.value in nodes ==> !nodes[at.value].Link?)
    decreases links
  {
    hide Leaf;
    var leaf := Leaf(nodes, cur, todo, links);
    LeafIsPlace(nodes, cur, todo, links);
    if leaf.Some? && leaf.value in nodes && nodes[leaf.value].Link? && links > 0 {
      var base := if nodes[leaf.value].absolute then [] else Parent(leaf.value);
      LandingIsPlace(nodes, base, nodes[leaf.value].target, links - 1);
    }
  }

  /** Putting a file or a new directory where a name may be put keeps the tree a tree. */
  lemma PutKeepsTree(nodes: Tree, at: Path, node: Node)
    requires ValidTree(nodes) && IsPlace(nodes, at) && (at in nodes ==> nodes[at] != Dir)
    ensures ValidTree(nodes[at := node])
  {
    var after := nodes[at := node];
    forall p | p in after && p != []
      ensures IsPlace(after, p)
    {
      assert IsPlace(nodes, p);
    }
  }

  lemma DropKeepsTree(nodes: Tree, at: Path)
    requires ValidTree(nodes) && at in nodes && nodes[at] != Dir
    ensures ValidTree(nodes - {at})
  {
    forall p | p in nodes - {at} && p != []
      ensures IsPlace(nodes - {at}, p)
    {
      assert IsPlace(nodes, p);
    }
  }
}
