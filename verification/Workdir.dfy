/** Private copies of the source tree (internal/engine/workdir/workdir.go). A path is the
    sequence of its components, relative to the root of the tree. */
module Workdir {
  import opened Mutation

  type RelPath = seq<string>

  // ---- Source trees and their walk ----

  datatype Node = Directory(children: seq<Child>) | Regular(content: Bytes) | Special

  datatype Child = Child(name: string, node: Node)

  datatype Info = IsDir | IsRegular(content: Bytes) | IsOther

  datatype Visit = Visit(path: RelPath, info: Info)

  /** filepath.Walk: a directory before its children, children in order. */
  function Walk(path: RelPath, node: Node): seq<Visit>
    decreases node, 1
  {
    match node
    case Directory(children) => [Visit(path, IsDir)] + WalkAll(path, children)
    case Regular(content) => [Visit(path, IsRegular(content))]
    case Special => [Visit(path, IsOther)]
  }

  function WalkAll(path: RelPath, children: seq<Child>): seq<Visit>
    decreases children, 0
  {
    if children == [] then []
    else Walk(path + [children[0].name], children[0].node) + WalkAll(path, children[1..])
  }

  /** Siblings have different names. */
  ghost predicate WellFormed(node: Node)
    decreases node, 1
  {
    node.Directory? ==> WellFormedAll(node.children)
  }

  ghost predicate WellFormedAll(children: seq<Child>)
    decreases children, 0
  {
    children == [] ||
    (&& WellFormed(children[0].node)
     && (forall i :: 1 <= i < |children| ==> children[i].name != children[0].name)
     && WellFormedAll(children[1..]))
  }

  // ---- Reference: what the copy should hold ----

  datatype Object = ADir | AFile(content: Bytes)

  type Objects = map<RelPath, Object>

  /** The directory or regular file a path leads to; other kinds of files are left out. */
  function Lookup(node: Node, path: RelPath): Option<Object>
    decreases node, 1
  {
    match node
    case Directory(children) => if path == [] then Some(ADir) else LookupIn(children, path)
    case Regular(content) => if path == [] then Some(AFile(content)) else None
    case Special => None
  }

  function LookupIn(children: seq<Child>, path: RelPath): Option<Object>
    requires path != []
    decreases children, 0
  {
    if children == [] then None
    else if children[0].name == path[0] then Lookup(children[0].node, path[1..])
    else LookupIn(children[1..], path)
  }

  predicate SameAs(o: Option<Object>, objs: Objects, p: RelPath) {
    o == if p in objs then Some(objs[p]) else None
  }

  /** objs holds exactly the directories and regular files of the tree. */
  ghost predicate Rebuilds(objs: Objects, root: Node) {
    forall p :: SameAs(Lookup(root, p), objs, p)
  }

  // ---- The copy ----

  function Parent(p: RelPath): RelPath
    requires p != []
  {
    p[..|p| - 1]
  }

  predicate ParentExists(objs: Objects, p: RelPath) {
    p != [] && Parent(p) in objs && objs[Parent(p)] == ADir
  }

  /** io.Copy into a file opened without truncation. */
  function Overlay(present: Bytes, content: Bytes): Bytes {
    content + if |present| > |content| then present[|content|..] else []
  }

  /** What one call of copyTo's callback does; None is its error. */
  function CopyOne(objs: Objects, v: Visit): Option<Objects> {
    if v.path == [] then Some(objs)
    else match v.info
      case IsDir =>
        if v.path in objs then Some(objs)
        else if ParentExists(objs, v.path) then Some(objs[v.path := ADir]) else None
      case IsRegular(content) =>
        if v.path in objs then
          if objs[v.path] == ADir then None else Some(objs[v.path := AFile(Overlay(objs[v.path].content, content))])
        else if ParentExists(objs, v.path) then Some(objs[v.path := AFile(content)]) else None
      case IsOther => Some(objs)
  }

  /** A file that is already there is not truncated: behind the copied content what was there
      stays. */
  lemma CopyDoesNotTruncate(objs: Objects, path: RelPath, content: Bytes)
    requires path != [] && path in objs && objs[path].AFile?
    ensures var present, after := objs[path].content, CopyOne(objs, Visit(path, IsRegular(content)));
            && after.Some? && after.value.Keys == objs.Keys
            && (forall p :: p in objs && p != path ==> after.value[p] == objs[p])
            && after.value[path].AFile?
            && var now := after.value[path].content;
               |now| == (if |present| > |content| then |present| else |content|)
               && forall i :: 0 <= i < |now| ==> now[i] == if i < |content| then content[i] else present[i]
  {
  }

  function Replay(objs: Objects, vs: seq<Visit>): Option<Objects>
    decreases |vs|
  {
    if vs == [] then Some(objs)
    else match CopyOne(objs, vs[0])
      case None => None
      case Some(next) => Replay(next, vs[1..])
  }

  lemma {:induction false} ReplayConcat(objs: Objects, a: seq<Visit>, b: seq<Visit>)
    ensures Replay(objs, a + b) == match Replay(objs, a) case None => None case Some(mid) => Replay(mid, b)
    decreases |a|
  {
    if a == [] {
      assert a + b == b;
    } else {
      assert (a + b)[1..] == a[1..] + b;
      var next := CopyOne(objs, a[0]);
      if next.Some? {
        ReplayConcat(next.value, a[1..], b);
      }
    }
  }

  lemma ReplayNext(objs: Objects, vs: seq<Visit>, i: nat)
    requires i < |vs| && Replay(objs, vs).Some? && Replay(objs, vs[..i]).Some?
    ensures CopyOne(Replay(objs, vs[..i]).value, vs[i]).Some?
    ensures Replay(objs, vs[..i + 1]) == CopyOne(Replay(objs, vs[..i]).value, vs[i])
  {
    assert vs == vs[..i] + vs[i..];
    ReplayConcat(objs, vs[..i], vs[i..]);
    assert vs[..i + 1] == vs[..i] + [vs[i]];
    ReplayConcat(objs, vs[..i], [vs[i]]);
  }

  /** Nothing at p or below. */
  ghost predicate Clear(objs: Objects, p: RelPath) {
    forall q :: q in objs ==> !(p <= q)
  }

  /** What stands at q when the objects of node are put at p. */
  ghost function PutAt(before: Objects, p: RelPath, node: Node, q: RelPath): Option<Object> {
    if p <= q && Lookup(node, q[|p|..]).Some? then Lookup(node, q[|p|..])
    else if q in before then Some(before[q]) else None
  }

  ghost function PutAllAt(before: Objects, p: RelPath, children: seq<Child>, q: RelPath): Option<Object> {
    if p < q && LookupIn(children, q[|p|..]).Some? then LookupIn(children, q[|p|..])
    else if q in before then Some(before[q]) else None
  }

  ghost predicate Added(before: Objects, after: Objects, p: RelPath, node: Node) {
    forall q :: SameAs(PutAt(before, p, node, q), after, q)
  }

  ghost predicate AddedAll(before: Objects, after: Objects, p: RelPath, children: seq<Child>) {
    forall q :: SameAs(PutAllAt(before, p, children, q), after, q)
  }

  /** Copying the walk of a node below an existing directory never fails and adds exactly
      the node's objects. */
  lemma {:induction false} CopyNode(objs: Objects, p: RelPath, node: Node) returns (after: Objects)
    requires ParentExists(objs, p) && Clear(objs, p) && WellFormed(node)
    ensures Replay(objs, Walk(p, node)) == Some(after) && Added(objs, after, p, node)
    decreases node, 1
  {
    assert p <= p;
    match node
    case Directory(children) =>
      var mid := objs[p := ADir];
      assert Walk(p, node)[1..] == WalkAll(p, children);
      forall c | c in children ensures Clear(mid, p + [c.name]) {
        ClearBelow(objs, p, c.name);
      }
      after := CopyChildren(mid, p, children);
      forall q ensures SameAs(PutAt(objs, p, node, q), after, q) {
        assert SameAs(PutAllAt(mid, p, children, q), after, q);
        if p <= q && !(p < q) {
          assert q == p && q[|p|..] == [];
        }
      }
    case Regular(content) =>
      after := objs[p := AFile(content)];
      forall q ensures SameAs(PutAt(objs, p, node, q), after, q) {
        if p <= q && q[|p|..] == [] {
          assert q == p;
        }
      }
    case Special =>
      after := objs;
  }

  lemma ClearBelow(objs: Objects, p: RelPath, name: string)
    requires Clear(objs, p)
    ensures Clear(objs[p := ADir], p + [name])
  {
    var after, below := objs[p := ADir], p + [name];
    forall q | q in after ensures !(below <= q) {
      assert below <= q ==> p <= q;
    }
  }

  lemma {:induction false} CopyChildren(objs: Objects, p: RelPath, children: seq<Child>) returns (after: Objects)
    requires p in objs && objs[p] == ADir && WellFormedAll(children)
    requires forall c :: c in children ==> Clear(objs, p + [c.name])
    ensures Replay(objs, WalkAll(p, children)) == Some(after) && AddedAll(objs, after, p, children)
    decreases children, 0
  {
    if children == [] {
      return objs;
    }
    var c := children[0];
    var here := p + [c.name];
    assert Parent(here) == p;
    assert c in children;
    var mid := CopyNode(objs, here, c.node);
    forall d | d in children[1..] ensures Clear(mid, p + [d.name]) {
      SiblingStaysClear(objs, mid, p, children, d);
    }
    assert SameAs(PutAt(objs, here, c.node, p), mid, p);
    after := CopyChildren(mid, p, children[1..]);
    ReplayConcat(objs, Walk(here, c.node), WalkAll(p, children[1..]));
    forall q ensures SameAs(PutAllAt(objs, p, children, q), after, q) {
      AddedTogether(objs, mid, after, p, children, q);
    }
  }

  lemma SiblingStaysClear(objs: Objects, mid: Objects, p: RelPath, children: seq<Child>, d: Child)
    requires children != [] && d in children[1..] && WellFormedAll(children)
    requires Clear(objs, p + [d.name]) && Added(objs, mid, p + [children[0].name], children[0].node)
    ensures Clear(mid, p + [d.name])
  {
    var here, there := p + [children[0].name], p + [d.name];
    var i :| 0 <= i < |children[1..]| && children[1..][i] == d;
    assert children[i + 1] == d && here[|p|] != there[|p|];
    forall q | q in mid ensures !(there <= q) {
      assert SameAs(PutAt(objs, here, children[0].node, q), mid, q);
    }
  }

  lemma AddedTogether(objs: Objects, mid: Objects, after: Objects, p: RelPath, children: seq<Child>, q: RelPath)
    requires children != [] && WellFormedAll(children)
    requires Clear(objs, p + [children[0].name])
    requires Added(objs, mid, p + [children[0].name], children[0].node) && AddedAll(mid, after, p, children[1..])
    ensures SameAs(PutAllAt(objs, p, children, q), after, q)
  {
    var c := children[0];
    var here := p + [c.name];
    assert SameAs(PutAt(objs, here, c.node, q), mid, q);
    assert SameAs(PutAllAt(mid, p, children[1..], q), after, q);
    assert here <= q ==> p < q && q[|p|] == c.name;
    if p < q {
      var rel := q[|p|..];
      assert rel[0] == q[|p|] && rel[1..] == q[|p| + 1..];
      if rel[0] == c.name {
        assert here <= q && q[|here|..] == rel[1..];
        LookupAbsent(children[1..], rel);
      }
    }
  }

  lemma {:induction false} LookupAbsent(children: seq<Child>, path: RelPath)
    requires path != [] && forall i :: 0 <= i < |children| ==> children[i].name != path[0]
    ensures LookupIn(children, path) == None
  {
    if children != [] {
      LookupAbsent(children[1..], path);
    }
  }

  const EMPTY_DIR: Objects := map[[] := ADir]

  /** Replaying the walk of a tree into a fresh directory succeeds and rebuilds exactly its
      directories and regular files. */
  lemma CopyRebuildsTree(root: Node)
    requires root.Directory? && WellFormed(root)
    ensures Replay(EMPTY_DIR, Walk([], root)).Some?
    ensures Rebuilds(Replay(EMPTY_DIR, Walk([], root)).value, root)
  {
    assert Walk([], root)[1..] == WalkAll([], root.children);
    var after := CopyChildren(EMPTY_DIR, [], root.children);
    forall p ensures SameAs(Lookup(root, p), after, p) {
      assert p[0..] == p;
      assert SameAs(PutAllAt(EMPTY_DIR, [], root.children, p), after, p);
    }
  }

  // ---- The dealer ----

  /** disk holds the directories that exist below workDir. */
  class CachedDealer {
    const source: Node
    var cache: map<string, Path>
    var disk: map<Path, Objects>

    /** Cached directories exist and are not shared. */
    ghost predicate Valid()
      reads this
    {
      && source.Directory? && WellFormed(source)
      && (forall idf :: idf in cache ==> cache[idf] in disk)
      && (forall idf, idf' :: idf in cache && idf' in cache && cache[idf] == cache[idf'] ==> idf == idf')
    }

    constructor (source: Node, disk: map<Path, Objects>)
      requires source.Directory? && WellFormed(source)
      ensures Valid() && cache == map[] && this.disk == disk && this.source == source
    {
      this.source, this.disk, cache := source, disk, map[];
    }

    method FromCache(idf: string) returns (dir: Option<Path>)
      ensures dir == if idf in cache then Some(cache[idf]) else None
    {
      dir := if idf in cache then Some(cache[idf]) else None;
    }

    method SetCache(idf: string, folder: Path)
      modifies `cache
      ensures cache == old(cache)[idf := folder]
    {
      cache := cache[idf := folder];
    }

    /** The walk over the source tree into dir; faultAt is the visit at which the file
        system fails, if it does. */
    method CopyTree(dir: Path, faultAt: Option<nat>) returns (ok: bool)
      requires dir in disk && disk[dir] == EMPTY_DIR && source.Directory? && WellFormed(source)
      modifies `disk
      ensures ok <==> faultAt == None || faultAt.value >= |Walk([], source)|
      ensures disk.Keys == old(disk).Keys && forall d :: d in disk && d != dir ==> disk[d] == old(disk)[d]
      ensures ok ==> Rebuilds(disk[dir], source)
    {
      var visits := Walk([], source);
      var objs := disk[dir];
      CopyRebuildsTree(source);
      for i := 0 to |visits|
        invariant faultAt == None || faultAt.value >= i
        invariant disk == old(disk)[dir := objs]
        invariant Replay(EMPTY_DIR, visits[..i]) == Some(objs)
      {
        if faultAt == Some(i) {
          return false;
        }
        ReplayNext(EMPTY_DIR, visits, i);
        objs := CopyOne(objs, visits[i]).value;
        disk := disk[dir := objs];
      }
      assert visits[..|visits|] == visits;
      ok := true;
    }

    /** temp is what MkdirTemp yields: None is its error, otherwise a name not in use.
        A cached directory is given out again; a new one is a full copy under a fresh name;
        a failure leaves the cache as it was. */
    method Get(idf: string, temp: Option<Path>, faultAt: Option<nat>) returns (dir: Option<Path>)
      requires Valid() && (temp.Some? ==> temp.value !in disk)
      modifies this
      ensures Valid()
      ensures idf in old(cache) ==> dir == Some(old(cache)[idf]) && cache == old(cache) && disk == old(disk)
      ensures idf !in old(cache) && dir.Some? ==>
                && dir == temp
                && cache == old(cache)[idf := dir.value]
                && dir.value in disk && Rebuilds(disk[dir.value], source)
      ensures dir == None ==> cache == old(cache)
      ensures dir == None <==> idf !in old(cache)
                               && (temp == None || (faultAt.Some? && faultAt.value < |Walk([], source)|))
      ensures forall d :: d in old(disk) ==> d in disk && disk[d] == old(disk)[d]
    {
      dir := FromCache(idf);
      if dir.Some? {
        return;
      }
      if temp == None {
        return None;
      }
      disk := disk[temp.value := EMPTY_DIR];
      var ok := CopyTree(temp.value, faultAt);
      if !ok {
        return None;
      }
      SetCache(idf, temp.value);
      dir := temp;
    }

    /** stuck are the folders RemoveAll fails on. Afterwards nothing is cached, so every
        identifier gets a new directory. */
    method Clean(stuck: set<Path>)
      requires Valid()
      modifies this
      ensures Valid() && cache == map[]
      ensures disk == old(disk) - (old(cache).Values - stuck)
    {
      var rest := cache.Values;
      while rest != {}
        invariant rest <= cache.Values && cache == old(cache)
        invariant disk == old(disk) - ((cache.Values - rest) - stuck)
        decreases rest
      {
        var v :| v in rest;
        if v !in stuck {
          disk := disk - {v};
        }
        rest := rest - {v};
      }
      cache := map[];
    }
  }
}
