/** BuildFSTree: a tree of nodes rebuilt from the flat visits of a directory walk.

    The walk calls back with one path at a time.  The builder finds the parent by looking up
    filepath.Dir of the path in an index of the directories seen so far, and appends a node to it. */
module FsTree {
  import opened Wrappers
  import opened Paths
  import opened PathLaws

  datatype Info = Info(size: int, mode: int, modTime: int)

  /** One call of the walk callback.  `info` is None when d.Info() fails. */
  datatype Visit = Visit(path: string, name: string, isDir: bool, info: Option<Info>, failed: bool)

  /** What the disk holds.  `listOk` is false when a folder cannot be read completely; `children`
      are then the entries that could be read. */
  datatype Entry =
    | File(name: string, info: Option<Info>)
    | Folder(name: string, info: Option<Info>, listOk: bool, children: seq<Entry>)

  function ChildrenOf(e: Entry): seq<Entry> {
    if e.Folder? then e.children else []
  }

  // ----- the walk -----

  /** filepath.WalkDir below an entry: the entry, a second failing call if it cannot be listed,
      then the children in order. */
  function Walk(path: string, e: Entry): seq<Visit>
    decreases e, 1
  {
    match e
    case File(name, info) => [Visit(path, name, false, info, false)]
    case Folder(name, info, listOk, children) =>
      [Visit(path, name, true, info, false)]
      + (if listOk then [] else [Visit(path, name, true, info, true)])
      + WalkAll(path, children)
  }

  function WalkAll(path: string, es: seq<Entry>): seq<Visit>
    decreases es, 0
  {
    if es == [] then []
    else Walk(Join(path, es[0].name), es[0]) + WalkAll(path, es[1..])
  }

  ghost predicate WellNamed(e: Entry)
    decreases e, 1
  {
    EntryName(e.name) && (e.Folder? ==> AllWellNamed(e.children))
  }

  ghost predicate AllWellNamed(es: seq<Entry>)
    decreases es, 0
  {
    es == [] || (WellNamed(es[0]) && AllWellNamed(es[1..]))
  }

  /** Info succeeds on the entry and on everything below it. */
  ghost predicate HasInfo(e: Entry)
    decreases e, 1
  {
    e.info.Some? && (e.Folder? ==> AllHaveInfo(e.children))
  }

  ghost predicate AllHaveInfo(es: seq<Entry>)
    decreases es, 0
  {
    es == [] || (HasInfo(es[0]) && AllHaveInfo(es[1..]))
  }

  // ----- the builder, with nodes numbered in creation order -----

  datatype Record = Record(name: string, path: string, isDir: bool, info: Info, children: seq<nat>)

  /** The nodes made so far and nodeMap. */
  datatype Arena = Arena(nodes: seq<Record>, index: map<string, nat>)

  const NO_INFO := Info(0, 0, 0)

  function Init(root: string): Arena {
    Arena([Record(Base(root), root, true, NO_INFO, [])], map[root := 0])
  }

  function RecordOf(v: Visit): Record
    requires v.info.Some?
  {
    Record(v.name, v.path, v.isDir, v.info.value, [])
  }

  /** nodeMap leads from the path of a directory to the node of that directory. */
  ghost predicate ValidArena(a: Arena) {
    forall p :: p in a.index ==>
      a.index[p] < |a.nodes| && a.nodes[a.index[p]].path == p && a.nodes[a.index[p]].isDir
  }

  /** A visit that makes a node. */
  predicate Accepted(a: Arena, root: string, v: Visit) {
    !v.failed && v.path != root && Dir(v.path) in a.index
  }

  function Attach(a: Arena, v: Visit): (b: Arena)
    requires ValidArena(a) && Dir(v.path) in a.index && v.info.Some?
    ensures ValidArena(b)
  {
    var d := a.index[Dir(v.path)];
    var id := |a.nodes|;
    var parent := a.nodes[d].(children := a.nodes[d].children + [id]);
    Arena(a.nodes[d := parent] + [RecordOf(v)], if v.isDir then a.index[v.path := id] else a.index)
  }

  /** The callback on a list of visits; None when it panics on a missing Info. */
  function Process(a: Arena, root: string, visits: seq<Visit>): (r: Option<Arena>)
    requires ValidArena(a)
    ensures r.Some? ==> ValidArena(r.value)
    decreases |visits|
  {
    if visits == [] then Some(a)
    else if !Accepted(a, root, visits[0]) then Process(a, root, visits[1..])
    else if visits[0].info.None? then None
    else Process(Attach(a, visits[0]), root, visits[1..])
  }

  function Build(root: string, visits: seq<Visit>): Option<Arena> {
    Process(Init(root), root, visits)
  }

  lemma {:induction false} ProcessConcat(a: Arena, root: string, v: seq<Visit>, w: seq<Visit>)
    requires ValidArena(a)
    ensures Process(a, root, v + w) ==
            match Process(a, root, v) case None => None case Some(b) => Process(b, root, w)
    decreases |v|
  {
    if v == [] {
      assert v + w == w;
    } else {
      assert (v + w)[1..] == v[1..] + w;
      var next := if Accepted(a, root, v[0]) && v[0].info.Some? then Attach(a, v[0]) else a;
      ProcessConcat(next, root, v[1..], w);
    }
  }

  // ----- what it means that a node is an entry -----

  function Size(e: Entry): (n: nat)
    ensures n >= 1
    decreases e, 1
  {
    match e
    case File(_, _) => 1
    case Folder(_, _, _, children) => 1 + SizeOfAll(children)
  }

  function SizeOfAll(es: seq<Entry>): nat
    decreases es, 0
  {
    if es == [] then 0 else Size(es[0]) + SizeOfAll(es[1..])
  }

  /** The numbers of sibling nodes laid out in pre-order from k on. */
  function Ids(k: nat, es: seq<Entry>): seq<nat>
    decreases |es|
  {
    if es == [] then [] else [k] + Ids(k + Size(es[0]), es[1..])
  }

  /** Nodes id, id+1, ..., one per entry in pre-order, are the entry `e` at `path`: same names,
      kinds and attributes, the same children in the same order, all the way down. */
  ghost predicate Represents(a: Arena, id: nat, path: string, e: Entry)
    decreases e, 1
  {
    && id + Size(e) <= |a.nodes|
    && a.nodes[id].name == e.name && a.nodes[id].path == path
    && a.nodes[id].isDir == e.Folder? && Some(a.nodes[id].info) == e.info
    && (if e.Folder? then
          a.nodes[id].children == Ids(id + 1, e.children) && RepresentsAll(a, id + 1, path, e.children)
        else
          a.nodes[id].children == [])
  }

  ghost predicate RepresentsAll(a: Arena, id: nat, path: string, es: seq<Entry>)
    decreases es, 0
  {
    es == [] ||
    (Represents(a, id, Join(path, es[0].name), es[0]) && RepresentsAll(a, id + Size(es[0]), path, es[1..]))
  }

  /** The directories among the visits below an entry. */
  function Folders(path: string, e: Entry): set<string>
    decreases e, 1
  {
    match e
    case File(_, _) => {}
    case Folder(_, _, _, children) => {path} + FoldersOfAll(path, children)
  }

  function FoldersOfAll(path: string, es: seq<Entry>): set<string>
    decreases es, 0
  {
    if es == [] then {} else Folders(Join(path, es[0].name), es[0]) + FoldersOfAll(path, es[1..])
  }

  lemma {:induction false} Carry(a: Arena, b: Arena, id: nat, path: string, e: Entry)
    requires Represents(a, id, path, e) && |a.nodes| <= |b.nodes|
    requires forall i :: id <= i < id + Size(e) ==> b.nodes[i] == a.nodes[i]
    ensures Represents(b, id, path, e)
    decreases e, 1
  {
    if e.Folder? { CarryAll(a, b, id + 1, path, e.children); }
  }

  lemma {:induction false} CarryAll(a: Arena, b: Arena, id: nat, path: string, es: seq<Entry>)
    requires RepresentsAll(a, id, path, es) && id + SizeOfAll(es) <= |a.nodes| <= |b.nodes|
    requires forall i :: id <= i < id + SizeOfAll(es) ==> b.nodes[i] == a.nodes[i]
    ensures RepresentsAll(b, id, path, es)
    decreases es, 0
  {
    if es != [] {
      Carry(a, b, id, Join(path, es[0].name), es[0]);
      CarryAll(a, b, id + Size(es[0]), path, es[1..]);
    }
  }

  // ----- where the visits of a subtree lie -----

  /** q is p or below it. */
  ghost predicate Under(p: string, q: string) {
    Rooted(p) == Rooted(q) && Elements(p) <= Elements(q)
  }

  lemma {:induction false} FoldersUnder(path: string, e: Entry)
    requires WellNamed(e)
    ensures forall q :: q in Folders(path, e) ==> Under(path, q)
    decreases e, 1
  {
    if e.Folder? { FoldersStrictlyUnder(path, e.children); }
  }

  lemma {:induction false} FoldersStrictlyUnder(path: string, es: seq<Entry>)
    requires AllWellNamed(es)
    ensures forall q :: q in FoldersOfAll(path, es) ==> Under(path, q) && q != path
    decreases es, 0
  {
    if es != [] {
      FoldersUnder(Join(path, es[0].name), es[0]);
      JoinAppends(path, es[0].name);
      FoldersStrictlyUnder(path, es[1..]);
    }
  }

  // ----- the rebuild -----

  /** From a to b, node d gained the children `ids`, the index gained the folders `fs`, and nothing
      else that was there changed. */
  ghost predicate Extends(a: Arena, b: Arena, d: nat, ids: seq<nat>, fs: set<string>) {
    && d < |a.nodes| <= |b.nodes|
    && (forall i :: 0 <= i < |a.nodes| && i != d ==> b.nodes[i] == a.nodes[i])
    && b.nodes[d] == a.nodes[d].(children := a.nodes[d].children + ids)
    && b.index.Keys == a.index.Keys + fs
    && (forall q :: q in a.index && q !in fs ==> b.index[q] == a.index[q])
  }

  /** The builder stands at the clean directory path p, at or below the root. */
  ghost predicate At(a: Arena, root: string, p: string) {
    ValidArena(a) && Clean(p) == p && Under(root, p) && p in a.index
  }

  lemma {:induction false} JoinedVisit(a: Arena, root: string, p: string, n: string)
    requires At(a, root, p) && EntryName(n)
    ensures var q := Join(p, n);
      q != root && Dir(q) == p && Clean(q) == q && Under(root, q) && q != p
  {
    JoinAppends(p, n);
    DirOfJoin(p, n);
    CleanIsIdempotent(if p == "" then n else p + "/" + n);
  }

  /** One accepted visit makes one node. */
  lemma {:induction false} VisitAttaches(a: Arena, root: string, p: string, v: Visit, n: string)
    requires At(a, root, p) && EntryName(n) && v.path == Join(p, n) && !v.failed && v.info.Some?
    ensures Dir(v.path) == p && Process(a, root, [v]) == Some(Attach(a, v))
    ensures Extends(a, Attach(a, v), a.index[p], [|a.nodes|], if v.isDir then {v.path} else {})
    ensures v.isDir ==> At(Attach(a, v), root, v.path)
  {
    JoinedVisit(a, root, p, n);
    var b := Attach(a, v);
    assert Process(a, root, [v]) == Process(b, root, []);
  }

  /** A visit reporting that a folder cannot be listed changes nothing. */
  lemma {:induction false} FailedVisitIgnored(a: Arena, root: string, v: Visit)
    requires ValidArena(a) && v.failed
    ensures Process(a, root, [v]) == Some(a)
  {
    assert Process(a, root, [v]) == Process(a, root, []);
  }

  lemma {:induction false} ExtendsDown(a: Arena, b: Arena, c: Arena, d: nat, k: nat, ids: seq<nat>, fs: set<string>, gs: set<string>)
    requires Extends(a, b, d, [k], fs) && Extends(b, c, k, ids, gs) && k == |a.nodes|
    ensures Extends(a, c, d, [k], fs + gs)
  {
  }

  lemma {:induction false} ExtendsAcross(a: Arena, b: Arena, c: Arena, d: nat, ids: seq<nat>, more: seq<nat>, fs: set<string>, gs: set<string>)
    requires Extends(a, b, d, ids, fs) && Extends(b, c, d, more, gs)
    ensures Extends(a, c, d, ids + more, fs + gs)
  {
    assert a.nodes[d].children + (ids + more) == (a.nodes[d].children + ids) + more;
  }

  /** The callbacks for one entry below p build one node for each entry of its subtree. */
  ghost predicate Builds(a: Arena, root: string, p: string, e: Entry)
    requires ValidArena(a) && p in a.index
  {
    var q := Join(p, e.name);
    var r := Process(a, root, Walk(q, e));
    && r.Some?
    && |r.value.nodes| == |a.nodes| + Size(e)
    && Extends(a, r.value, a.index[p], [|a.nodes|], Folders(q, e))
    && Represents(r.value, |a.nodes|, q, e)
  }

  ghost predicate BuildsAll(a: Arena, root: string, p: string, es: seq<Entry>)
    requires ValidArena(a) && p in a.index
  {
    var r := Process(a, root, WalkAll(p, es));
    && r.Some?
    && |r.value.nodes| == |a.nodes| + SizeOfAll(es)
    && Extends(a, r.value, a.index[p], Ids(|a.nodes|, es), FoldersOfAll(p, es))
    && RepresentsAll(r.value, |a.nodes|, p, es)
  }

  lemma {:induction false} WalkBuilds(a: Arena, root: string, p: string, e: Entry)
    requires At(a, root, p) && WellNamed(e) && HasInfo(e)
    ensures Builds(a, root, p, e)
    decreases e, 1
  {
    var q := Join(p, e.name);
    var v := Visit(q, e.name, e.Folder?, e.info, false);
    VisitAttaches(a, root, p, v, e.name);
    match e
    case File(_, _) =>
    case Folder(_, _, listOk, children) =>
      WalkAllBuilds(Attach(a, v), root, q, children);
      FolderBuilds(a, root, p, e);
  }

  /** The visits of a folder make its node and then those of its children. */
  lemma {:induction false} FolderVisits(a: Arena, root: string, p: string, e: Entry)
    requires At(a, root, p) && e.Folder? && EntryName(e.name) && e.info.Some?
    ensures var q := Join(p, e.name); var v := Visit(q, e.name, true, e.info, false);
      Dir(q) == p && At(Attach(a, v), root, q) &&
      Process(a, root, Walk(q, e)) == Process(Attach(a, v), root, WalkAll(q, e.children))
  {
    var q := Join(p, e.name);
    var v := Visit(q, e.name, true, e.info, false);
    var again := v.(failed := true);
    var extra := if e.listOk then [] else [again];
    VisitAttaches(a, root, p, v, e.name);
    FailedVisitIgnored(Attach(a, v), root, again);
    ProcessConcat(a, root, [v], extra);
    ProcessConcat(a, root, [v] + extra, WalkAll(q, e.children));
  }

  lemma {:induction false} FolderBuilds(a: Arena, root: string, p: string, e: Entry)
    requires At(a, root, p) && e.Folder? && EntryName(e.name) && e.info.Some?
    requires var q := Join(p, e.name); var v := Visit(q, e.name, true, e.info, false);
      Dir(q) == p && At(Attach(a, v), root, q) && BuildsAll(Attach(a, v), root, q, e.children)
    ensures Builds(a, root, p, e)
  {
    var q := Join(p, e.name);
    var v := Visit(q, e.name, true, e.info, false);
    var b := Attach(a, v);
    FolderVisits(a, root, p, e);
    VisitAttaches(a, root, p, v, e.name);
    FolderJoins(a, b, Process(b, root, WalkAll(q, e.children)).value, a.index[p], q, e);
  }

  /** A folder's node in b, then its children from b to c, make the folder from a to c. */
  lemma {:induction false} FolderJoins(a: Arena, b: Arena, c: Arena, d: nat, q: string, e: Entry)
    requires e.Folder? && e.info.Some?
    requires |b.nodes| == |a.nodes| + 1 && b.nodes[|a.nodes|] == Record(e.name, q, true, e.info.value, [])
    requires Extends(a, b, d, [|a.nodes|], {q})
    requires |c.nodes| == |b.nodes| + SizeOfAll(e.children)
    requires Extends(b, c, |a.nodes|, Ids(|b.nodes|, e.children), FoldersOfAll(q, e.children))
    requires RepresentsAll(c, |b.nodes|, q, e.children)
    ensures |c.nodes| == |a.nodes| + Size(e)
    ensures Extends(a, c, d, [|a.nodes|], Folders(q, e))
    ensures Represents(c, |a.nodes|, q, e)
  {
    var ids := Ids(|b.nodes|, e.children);
    ExtendsDown(a, b, c, d, |a.nodes|, ids, {q}, FoldersOfAll(q, e.children));
    FolderRepresents(c, |a.nodes|, q, e);
  }

  lemma {:induction false} FolderRepresents(c: Arena, id: nat, q: string, e: Entry)
    requires e.Folder? && e.info.Some? && id + Size(e) <= |c.nodes|
    requires c.nodes[id] == Record(e.name, q, true, e.info.value, [] + Ids(id + 1, e.children))
    requires RepresentsAll(c, id + 1, q, e.children)
    ensures Represents(c, id, q, e)
  {
    assert [] + Ids(id + 1, e.children) == Ids(id + 1, e.children);
  }

  lemma {:induction false} WalkAllBuilds(a: Arena, root: string, p: string, es: seq<Entry>)
    requires At(a, root, p) && AllWellNamed(es) && AllHaveInfo(es)
    ensures BuildsAll(a, root, p, es)
    decreases es, 0
  {
    if es != [] {
      var q := Join(p, es[0].name);
      WalkBuilds(a, root, p, es[0]);
      NotAmongFolders(p, es[0]);
      WalkAllBuilds(Process(a, root, Walk(q, es[0])).value, root, p, es[1..]);
      SiblingsBuild(a, root, p, es);
    }
  }

  lemma {:induction false} NotAmongFolders(p: string, e: Entry)
    requires WellNamed(e)
    ensures p !in Folders(Join(p, e.name), e)
  {
    FoldersUnder(Join(p, e.name), e);
    JoinAppends(p, e.name);
  }

  lemma {:induction false} SiblingsBuild(a: Arena, root: string, p: string, es: seq<Entry>)
    requires ValidArena(a) && p in a.index && es != [] && Builds(a, root, p, es[0])
    requires p !in Folders(Join(p, es[0].name), es[0])
    requires var b := Process(a, root, Walk(Join(p, es[0].name), es[0])).value; BuildsAll(b, root, p, es[1..])
    ensures BuildsAll(a, root, p, es)
  {
    var q := Join(p, es[0].name);
    var b := Process(a, root, Walk(q, es[0])).value;
    ProcessConcat(a, root, Walk(q, es[0]), WalkAll(p, es[1..]));
    SiblingsJoin(a, b, Process(b, root, WalkAll(p, es[1..])).value, a.index[p], p, es);
  }

  /** The first sibling's subtree from a to b, then the others' from b to c, make all of them. */
  lemma {:induction false} SiblingsJoin(a: Arena, b: Arena, c: Arena, d: nat, p: string, es: seq<Entry>)
    requires es != []
    requires |b.nodes| == |a.nodes| + Size(es[0])
    requires Extends(a, b, d, [|a.nodes|], Folders(Join(p, es[0].name), es[0]))
    requires Represents(b, |a.nodes|, Join(p, es[0].name), es[0])
    requires |c.nodes| == |b.nodes| + SizeOfAll(es[1..])
    requires Extends(b, c, d, Ids(|b.nodes|, es[1..]), FoldersOfAll(p, es[1..]))
    requires RepresentsAll(c, |b.nodes|, p, es[1..])
    ensures |c.nodes| == |a.nodes| + SizeOfAll(es)
    ensures Extends(a, c, d, Ids(|a.nodes|, es), FoldersOfAll(p, es))
    ensures RepresentsAll(c, |a.nodes|, p, es)
  {
    ExtendsAcross(a, b, c, d, [|a.nodes|], Ids(|b.nodes|, es[1..]), Folders(Join(p, es[0].name), es[0]), FoldersOfAll(p, es[1..]));
    FirstStays(a, b, c, d, Join(p, es[0].name), es[0], Ids(|b.nodes|, es[1..]), FoldersOfAll(p, es[1..]));
    IdsAndFolders(|a.nodes|, p, es);
    SiblingsRepresent(c, |a.nodes|, p, es);
  }

  lemma {:induction false} IdsAndFolders(id: nat, p: string, es: seq<Entry>)
    requires es != []
    ensures Ids(id, es) == [id] + Ids(id + Size(es[0]), es[1..])
    ensures FoldersOfAll(p, es) == Folders(Join(p, es[0].name), es[0]) + FoldersOfAll(p, es[1..])
    ensures SizeOfAll(es) == Size(es[0]) + SizeOfAll(es[1..])
  {
  }

  lemma {:induction false} SiblingsRepresent(c: Arena, id: nat, p: string, es: seq<Entry>)
    requires es != [] && Represents(c, id, Join(p, es[0].name), es[0])
    requires RepresentsAll(c, id + Size(es[0]), p, es[1..])
    ensures RepresentsAll(c, id, p, es)
  {
  }

  lemma {:induction false} FirstStays(a: Arena, b: Arena, c: Arena, d: nat, q: string, e: Entry, more: seq<nat>, fs: set<string>)
    requires d < |a.nodes| && |b.nodes| == |a.nodes| + Size(e)
    requires Represents(b, |a.nodes|, q, e) && Extends(b, c, d, more, fs)
    ensures Represents(c, |a.nodes|, q, e)
  {
    Carry(b, c, |a.nodes|, q, e);
  }

  /** The arena is the folder `tree` rooted at `root`: node 0 is the root, named after the last part
      of its path and without attributes, nodes 1, 2, ... are its entries in pre-order, each
      entry once, and nodeMap holds exactly the folders, each leading to its own node. */
  ghost predicate IsTree(a: Arena, root: string, tree: Entry) {
    && |a.nodes| == 1 + SizeOfAll(ChildrenOf(tree))
    && a.nodes[0] == Record(RootName(root), root, true, NO_INFO, Ids(1, ChildrenOf(tree)))
    && RepresentsAll(a, 1, root, ChildrenOf(tree))
    && a.index.Keys == {root} + FoldersOfAll(root, ChildrenOf(tree))
    && ValidArena(a)
  }

  /** The visits of the root itself make no node. */
  lemma {:induction false} RootIsSkipped(root: string, tree: Entry)
    ensures Build(root, Walk(root, tree)) == Process(Init(root), root, WalkAll(root, ChildrenOf(tree)))
  {
    var v := Visit(root, tree.name, tree.Folder?, tree.info, false);
    var again := v.(failed := true);
    var a := Init(root);
    assert Process(a, root, [v]) == Process(a, root, []);
    assert Process(a, root, [again]) == Process(a, root, []);
    var extra := if tree.File? || tree.listOk then [] else [again];
    assert Walk(root, tree) == [v] + extra + WalkAll(root, ChildrenOf(tree));
    ProcessConcat(a, root, [v], extra);
    ProcessConcat(a, root, [v] + extra, WalkAll(root, ChildrenOf(tree)));
  }

  /** Rebuild inverts the walk: from the visits of any tree below a clean root path, BuildFSTree
      rebuilds that tree, entry for entry and in order. */
  lemma {:induction false} RebuildInvertsWalk(root: string, tree: Entry)
    requires Clean(root) == root
    requires AllWellNamed(ChildrenOf(tree)) && AllHaveInfo(ChildrenOf(tree))
    ensures var r := Build(root, Walk(root, tree)); r.Some? && IsTree(r.value, root, tree)
    ensures Build(root, Walk(root, tree)).value.nodes[0].name ==
            if Elements(root) != [] then Elements(root)[|Elements(root)| - 1] else if Rooted(root) then "/" else "."
  {
    CleanRootName(root);
    RootIsSkipped(root, tree);
    WalkAllBuilds(Init(root), root, root, ChildrenOf(tree));
    BuiltFromInit(root, tree, Build(root, Walk(root, tree)).value);
  }

  lemma {:induction false} BuiltFromInit(root: string, tree: Entry, b: Arena)
    requires |b.nodes| == 1 + SizeOfAll(ChildrenOf(tree)) && ValidArena(b)
    requires Extends(Init(root), b, 0, Ids(1, ChildrenOf(tree)), FoldersOfAll(root, ChildrenOf(tree)))
    requires RepresentsAll(b, 1, root, ChildrenOf(tree))
    ensures IsTree(b, root, tree)
  {
    var ids := Ids(1, ChildrenOf(tree));
    BaseIsRootName(root);
    assert [] + ids == ids;
  }

  /** Below a root path that is not clean, no visit ever finds its parent: whatever is visited,
      the result is the bare root. */
  lemma {:induction false} UncleanRootSeesNothing(root: string, visits: seq<Visit>)
    requires Clean(root) != root
    ensures Build(root, visits) == Some(Init(root))
    ensures Init(root).nodes == [Record(RootName(root), root, true, NO_INFO, [])]
    decreases |visits|
  {
    BaseIsRootName(root);
    if visits != [] {
      DirIsClean(visits[0].path);
      UncleanRootSeesNothing(root, visits[1..]);
    }
  }

  /** BuildFSTree gives back the tree exactly when the root path is clean or there is nothing
      below the root. */
  lemma {:induction false} RebuildExactlyWhenClean(root: string, tree: Entry)
    requires AllWellNamed(ChildrenOf(tree)) && AllHaveInfo(ChildrenOf(tree))
    ensures var r := Build(root, Walk(root, tree));
      (r.Some? && IsTree(r.value, root, tree)) <==> (Clean(root) == root || ChildrenOf(tree) == [])
  {
    if Clean(root) == root {
      RebuildInvertsWalk(root, tree);
    } else {
      UncleanRootSeesNothing(root, Walk(root, tree));
      BaseIsRootName(root);
    }
  }

  // ----- the panic on a missing Info -----

  /** On a clean root, the callback panics exactly when Info fails on some entry below the root. */
  lemma {:induction false} PanicsExactlyWithoutInfo(root: string, tree: Entry)
    requires Clean(root) == root && AllWellNamed(ChildrenOf(tree))
    ensures Build(root, Walk(root, tree)).None? <==> !AllHaveInfo(ChildrenOf(tree))
  {
    RootIsSkipped(root, tree);
    if AllHaveInfo(ChildrenOf(tree)) {
      RebuildInvertsWalk(root, tree);
    } else {
      MissingInfoPanicsAll(Init(root), root, root, ChildrenOf(tree));
    }
  }

  lemma {:induction false} MissingInfoPanics(a: Arena, root: string, p: string, e: Entry)
    requires At(a, root, p) && WellNamed(e) && !HasInfo(e)
    ensures Process(a, root, Walk(Join(p, e.name), e)).None?
    decreases e, 1
  {
    var q := Join(p, e.name);
    JoinedVisit(a, root, p, e.name);
    if e.info.Some? {
      var v := Visit(q, e.name, true, e.info, false);
      FolderVisits(a, root, p, e);
      MissingInfoPanicsAll(Attach(a, v), root, q, e.children);
    }
  }

  lemma {:induction false} MissingInfoPanicsAll(a: Arena, root: string, p: string, es: seq<Entry>)
    requires At(a, root, p) && AllWellNamed(es) && !AllHaveInfo(es)
    ensures Process(a, root, WalkAll(p, es)).None?
    decreases es, 0
  {
    var q := Join(p, es[0].name);
    ProcessConcat(a, root, Walk(q, es[0]), WalkAll(p, es[1..]));
    if HasInfo(es[0]) {
      WalkBuilds(a, root, p, es[0]);
      NotAmongFolders(p, es[0]);
      MissingInfoPanicsAll(Process(a, root, Walk(q, es[0])).value, root, p, es[1..]);
    } else {
      MissingInfoPanics(a, root, p, es[0]);
    }
  }
}
