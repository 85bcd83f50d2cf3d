/** BuildFSTree over heap nodes, as the program runs it. */
module FsTreeBuilder {
  import opened Wrappers
  import opened Paths
  import opened FsTree

  class Node {
    const name: string
    const path: string
    const isDir: bool
    const info: Info
    var children: seq<Node>

    constructor (name: string, path: string, isDir: bool, info: Info)
      ensures this.name == name && this.path == path && this.isDir == isDir && this.info == info
      ensures children == []
    {
      this.name, this.path, this.isDir, this.info := name, path, isDir, info;
      this.children := [];
    }
  }

  ghost predicate IdsBelow(ids: seq<nat>, n: nat) {
    forall k :: 0 <= k < |ids| ==> ids[k] < n
  }

  /** The nodes with the given numbers. */
  ghost function Refs(made: seq<Node>, ids: seq<nat>): seq<Node>
    requires IdsBelow(ids, |made|)
  {
    seq(|ids|, k requires 0 <= k < |ids| => made[ids[k]])
  }

  /** The heap node is what the record says, its children being the nodes numbered there. */
  ghost predicate IsRecord(node: Node, made: seq<Node>, r: Record)
    reads node
  {
    && node.name == r.name && node.path == r.path && node.isDir == r.isDir && node.info == r.info
    && IdsBelow(r.children, |made|) && node.children == Refs(made, r.children)
  }

  /** `made`, all different, are the nodes of the arena in creation order. */
  ghost predicate Holds(made: seq<Node>, nodes: seq<Record>)
    reads made
  {
    && |made| == |nodes|
    && (forall i, j :: 0 <= i < j < |made| ==> made[i] != made[j])
    && (forall i :: 0 <= i < |made| ==> IsRecord(made[i], made, nodes[i]))
  }

  lemma {:induction false} RefsGrow(made: seq<Node>, node: Node, ids: seq<nat>)
    requires IdsBelow(ids, |made|)
    ensures Refs(made + [node], ids) == Refs(made, ids)
    ensures Refs(made + [node], ids + [|made|]) == Refs(made, ids) + [node]
  {
  }

  /** nodeMap is the arena's index. */
  ghost predicate Indexes(nodeMap: map<string, Node>, made: seq<Node>, arena: Arena)
    requires ValidArena(arena) && |made| == |arena.nodes|
  {
    nodeMap.Keys == arena.index.Keys && forall p :: p in nodeMap ==> nodeMap[p] == made[arena.index[p]]
  }

  lemma {:induction false} IndexGrows(nodeMap: map<string, Node>, made: seq<Node>, node: Node, arena: Arena, v: Visit)
    requires ValidArena(arena) && |made| == |arena.nodes| && Indexes(nodeMap, made, arena)
    requires Dir(v.path) in arena.index && v.info.Some?
    ensures Indexes(if v.isDir then nodeMap[v.path := node] else nodeMap, made + [node], Attach(arena, v))
  {
  }

  /** Appending a new node to its parent's children is what Attach does to the arena. */
  method AppendChild(parentNode: Node, node: Node, ghost made: seq<Node>, ghost arena: Arena, ghost v: Visit)
    requires ValidArena(arena) && Holds(made, arena.nodes) && node !in made
    requires Dir(v.path) in arena.index && parentNode == made[arena.index[Dir(v.path)]] && v.info.Some?
    requires IsRecord(node, made, RecordOf(v))
    modifies parentNode
    ensures Holds(made + [node], Attach(arena, v).nodes)
  {
    AttachRefs(made, node, arena, v);
    ghost var d := arena.index[Dir(v.path)];
    parentNode.children := parentNode.children + [node];
    forall i | 0 <= i < |made| ensures IsRecord(made[i], made + [node], Attach(arena, v).nodes[i]) {
      assert i != d ==> made[i] != parentNode;
    }
  }

  /** The builder's state: nodeMap and the nodes behind it are the arena. */
  ghost predicate IsArena(nodeMap: map<string, Node>, made: seq<Node>, repr: set<Node>, arena: Arena)
    reads made
  {
    && (forall i :: 0 <= i < |made| ==> made[i] in repr)
    && ValidArena(arena) && Holds(made, arena.nodes) && Indexes(nodeMap, made, arena)
  }

  /** The walk callback: skips the visit, panics on a missing Info, or attaches a node. */
  method Callback(root: string, v: Visit, nodeMap: map<string, Node>,
                  ghost made: seq<Node>, ghost repr: set<Node>, ghost arena: Arena)
    returns (panicked: bool, nodeMap': map<string, Node>,
             ghost made': seq<Node>, ghost repr': set<Node>, ghost arena': Arena)
    requires IsArena(nodeMap, made, repr, arena)
    modifies repr
    ensures fresh(repr' - repr) && made <= made'
    ensures panicked <==> Accepted(arena, root, v) && v.info.None?
    ensures !panicked ==> arena' == if Accepted(arena, root, v) then Attach(arena, v) else arena
    ensures !panicked ==> IsArena(nodeMap', made', repr', arena')
  {
    panicked, nodeMap', made', repr', arena' := false, nodeMap, made, repr, arena;
    if v.failed || v.path == root {
      return;
    }
    var parent := Dir(v.path);
    if parent !in nodeMap {
      return;
    }
    var parentNode := nodeMap[parent];
    assert parentNode == made[arena.index[parent]];
    if v.info.None? {
      panicked := true;
      return;
    }
    var node := new Node(v.name, v.path, v.isDir, v.info.value);
    AppendChild(parentNode, node, made, arena, v);
    IndexGrows(nodeMap, made, node, arena, v);
    if v.isDir {
      nodeMap' := nodeMap[v.path := node];
    }
    made', repr', arena' := made + [node], repr + {node}, Attach(arena, v);
  }

  /** The walk callback over all visits.  When Info is missing the program panics; otherwise the
      nodes reachable from the returned root are exactly those of `Build`. */
  method BuildFSTree(root: string, visits: seq<Visit>)
    returns (rootNode: Node, panicked: bool, ghost made: seq<Node>)
    ensures panicked <==> Build(root, visits).None?
    ensures !panicked ==> Holds(made, Build(root, visits).value.nodes) && made != [] && rootNode == made[0]
  {
    rootNode := new Node(Base(root), root, true, NO_INFO);
    var nodeMap: map<string, Node> := map[root := rootNode];
    made := [rootNode];
    ghost var repr := {rootNode};
    ghost var arena := Init(root);
    var todo := visits;
    while todo != []
      invariant fresh(repr) && [rootNode] <= made
      invariant IsArena(nodeMap, made, repr, arena)
      invariant Process(arena, root, todo) == Build(root, visits)
      decreases |todo|
    {
      panicked, nodeMap, made, repr, arena := Callback(root, todo[0], nodeMap, made, repr, arena);
      if panicked {
        return;
      }
      todo := todo[1..];
    }
    panicked := false;
  }

  lemma {:induction false} AttachRefs(made: seq<Node>, node: Node, arena: Arena, v: Visit)
    requires ValidArena(arena) && Holds(made, arena.nodes)
    ensures forall i :: 0 <= i < |made| ==>
      var ids := arena.nodes[i].children;
      && IdsBelow(ids, |made|)
      && Refs(made + [node], ids) == made[i].children
      && Refs(made + [node], ids + [|made|]) == made[i].children + [node]
  {
    forall i | 0 <= i < |made|
      ensures var ids := arena.nodes[i].children;
        && IdsBelow(ids, |made|)
        && Refs(made + [node], ids) == made[i].children
        && Refs(made + [node], ids + [|made|]) == made[i].children + [node]
    {
      assert IsRecord(made[i], made, arena.nodes[i]);
      RefsGrow(made, node, arena.nodes[i].children);
    }
  }
}
