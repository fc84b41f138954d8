/** The syntax-tree arena and the deep copy of a subtree. */
module AstArena {
  import opened Options

  /** Everything a node stores but its children. Kinds and types are known by their names. */
  datatype Label = Label(
    kind: string,
    text: Option<string>,
    line: nat,
    col: nat,
    ty: Option<string>,
    modifiers: seq<string>,
    argLabel: Option<string>)

  datatype NodeData = NodeData(info: Label, children: seq<nat>)

  /** The tree a node stands for. */
  datatype Tree = Tree(info: Label, children: seq<Tree>)

  const MAX_NODES: nat := 0x1_0000_0000

  // ----- acyclic arenas -----

  ghost predicate Below(ids: seq<nat>, rank: seq<nat>, bound: nat) {
    forall i | 0 <= i < |ids| :: ids[i] < |rank| && rank[ids[i]] < bound
  }

  /** Every child ranks below its parent: the arena has no cycle. */
  ghost predicate Ranked(nodes: seq<NodeData>, rank: seq<nat>) {
    |rank| == |nodes| && forall n | 0 <= n < |nodes| :: Below(nodes[n].children, rank, rank[n])
  }

  ghost function TreeOf(nodes: seq<NodeData>, rank: seq<nat>, id: nat): Tree
    requires Ranked(nodes, rank) && id < |nodes|
    decreases rank[id], |nodes[id].children| + 1
  {
    Tree(nodes[id].info, TreesOf(nodes, rank, nodes[id].children, rank[id]))
  }

  ghost function TreesOf(nodes: seq<NodeData>, rank: seq<nat>, ids: seq<nat>, bound: nat): (r: seq<Tree>)
    requires Ranked(nodes, rank) && Below(ids, rank, bound)
    ensures |r| == |ids|
    decreases bound, |ids|
  {
    if ids == [] then [] else [TreeOf(nodes, rank, ids[0])] + TreesOf(nodes, rank, ids[1..], bound)
  }

  function Size(t: Tree): nat
    decreases t
  {
    1 + SizeAll(t.children)
  }

  function SizeAll(ts: seq<Tree>): nat
    decreases ts
  {
    if ts == [] then 0 else Size(ts[0]) + SizeAll(ts[1..])
  }

  lemma {:induction false} SizeOfTwo(a: seq<Tree>, b: seq<Tree>)
    ensures SizeAll(a + b) == SizeAll(a) + SizeAll(b)
    decreases |a|
  {
    if a == [] {
      assert a + b == b;
    } else {
      assert (a + b)[1..] == a[1..] + b;
      SizeOfTwo(a[1..], b);
    }
  }

  lemma {:induction false} TreesOfTwo(nodes: seq<NodeData>, rank: seq<nat>, a: seq<nat>, b: seq<nat>, bound: nat)
    requires Ranked(nodes, rank) && Below(a, rank, bound) && Below(b, rank, bound)
    ensures Below(a + b, rank, bound)
    ensures TreesOf(nodes, rank, a + b, bound) == TreesOf(nodes, rank, a, bound) + TreesOf(nodes, rank, b, bound)
    decreases |a|
  {
    if a == [] {
      assert a + b == b;
    } else {
      assert (a + b)[1..] == a[1..] + b;
      TreesOfTwo(nodes, rank, a[1..], b, bound);
    }
  }

  /** A tree does not depend on how the arena is ranked, nor on how high it is bounded. */
  lemma {:induction false} RankDoesNotMatter(nodes: seq<NodeData>, rank: seq<nat>, other: seq<nat>, id: nat)
    requires Ranked(nodes, rank) && Ranked(nodes, other) && id < |nodes|
    ensures TreeOf(nodes, rank, id) == TreeOf(nodes, other, id)
    decreases rank[id], |nodes[id].children| + 1
  {
    RanksDoNotMatter(nodes, rank, other, nodes[id].children, rank[id], other[id]);
  }

  lemma {:induction false} RanksDoNotMatter(nodes: seq<NodeData>, rank: seq<nat>, other: seq<nat>, ids: seq<nat>,
                                            bound: nat, otherBound: nat)
    requires Ranked(nodes, rank) && Ranked(nodes, other) && Below(ids, rank, bound) && Below(ids, other, otherBound)
    ensures TreesOf(nodes, rank, ids, bound) == TreesOf(nodes, other, ids, otherBound)
    decreases bound, |ids|
  {
    if ids != [] {
      RankDoesNotMatter(nodes, rank, other, ids[0]);
      RanksDoNotMatter(nodes, rank, other, ids[1..], bound, otherBound);
    }
  }

  /** Two arenas with the same nodes wherever the rank is below `bound`. */
  ghost predicate AgreeBelow(a: seq<NodeData>, rankA: seq<nat>, b: seq<NodeData>, rankB: seq<nat>, bound: nat) {
    |rankA| <= |rankB| && |a| == |rankA| && |b| == |rankB|
    && forall n | 0 <= n < |a| :: rankA[n] == rankB[n] && (rankA[n] < bound ==> a[n] == b[n])
  }

  lemma {:induction false} TreesAgree(a: seq<NodeData>, rankA: seq<nat>, b: seq<NodeData>, rankB: seq<nat>,
                                      bound: nat, ids: seq<nat>)
    requires Ranked(a, rankA) && Ranked(b, rankB) && AgreeBelow(a, rankA, b, rankB, bound) && Below(ids, rankA, bound)
    ensures Below(ids, rankB, bound) && TreesOf(a, rankA, ids, bound) == TreesOf(b, rankB, ids, bound)
    decreases bound, |ids|
  {
    if ids != [] {
      var id := ids[0];
      assert a[id] == b[id];
      TreesAgree(a, rankA, b, rankB, rankA[id], a[id].children);
      TreesAgree(a, rankA, b, rankB, bound, ids[1..]);
    }
  }

  // ----- the arena -----

  class Ast {
    var nodes: seq<NodeData>
    const root: nat := 0

    ghost predicate Valid()
      reads this
    {
      0 < |nodes| <= MAX_NODES
    }

    constructor ()
      ensures Valid() && nodes == [NodeData(Label("source_file", None, 1, 1, None, [], None), [])]
    {
      nodes := [NodeData(Label("source_file", None, 1, 1, None, [], None), [])];
    }

    method Add(kind: string, text: Option<string>, line: nat, col: nat) returns (id: nat)
      requires Valid() && |nodes| < MAX_NODES
      modifies this
      ensures Valid() && id == |old(nodes)|
      ensures nodes == old(nodes) + [NodeData(Label(kind, text, line, col, None, [], None), [])]
    {
      id := |nodes|;
      nodes := nodes + [NodeData(Label(kind, text, line, col, None, [], None), [])];
    }

    method AppendChild(parent: nat, child: nat)
      requires Valid() && parent < |nodes|
      modifies this
      ensures Valid() && nodes == old(nodes)[parent := old(nodes)[parent].(children := old(nodes)[parent].children + [child])]
    {
      var data := nodes[parent];
      nodes := nodes[parent := data.(children := data.children + [child])];
    }

    /** A new node with children; an acyclic arena stays acyclic. */
    method AddWithChildren(kind: string, text: Option<string>, line: nat, col: nat, children: seq<nat>, ghost rank: seq<nat>)
      returns (id: nat, ghost newRank: seq<nat>)
      requires Valid() && |nodes| < MAX_NODES && Ranked(nodes, rank)
      requires forall i | 0 <= i < |children| :: children[i] < |nodes|
      modifies this
      ensures Valid() && id == |old(nodes)|
      ensures nodes == old(nodes) + [NodeData(Label(kind, text, line, col, None, [], None), children)]
      ensures rank <= newRank && Ranked(nodes, newRank)
    {
      id := Add(kind, text, line, col);
      ghost var start := nodes;
      for i := 0 to |children|
        invariant Valid() && nodes == start[id := start[id].(children := children[..i])]
      {
        AppendChild(id, children[i]);
        assert children[..i] + [children[i]] == children[..i + 1];
      }
      assert children[..|children|] == children;
      newRank := rank + [Above(rank)];
    }

    /** A rank above all of these. */
    static ghost function Above(rank: seq<nat>): (r: nat)
      ensures forall i | 0 <= i < |rank| :: rank[i] < r
    {
      if rank == [] then 0
      else
        var rest := Above(rank[1..]);
        assert forall i | 1 <= i < |rank| :: rank[i] == rank[1..][i - 1];
        if rest > rank[0] then rest else rank[0] + 1
    }

    method SetChildren(parent: nat, children: seq<nat>)
      requires Valid() && parent < |nodes|
      modifies this
      ensures Valid() && nodes == old(nodes)[parent := old(nodes)[parent].(children := children)]
    {
      nodes := nodes[parent := nodes[parent].(children := children)];
    }

    /** A deep copy: the tree of the new node is the tree of the old one, the copy is made of new nodes
        only, as many as the tree has, and no node that was there changes. */
    method CloneSubtree(id: nat, ghost rank: seq<nat>) returns (copy: nat, ghost newRank: seq<nat>)
      requires Valid() && Ranked(nodes, rank) && id < |nodes|
      requires |nodes| + Size(TreeOf(nodes, rank, id)) <= MAX_NODES
      modifies this
      ensures Valid() && Ranked(nodes, newRank) && rank <= newRank && old(nodes) <= nodes
      ensures copy == |old(nodes)| < |nodes| && newRank[copy] == rank[id]
      ensures TreeOf(nodes, newRank, copy) == TreeOf(old(nodes), rank, id)
      ensures |nodes| == |old(nodes)| + Size(TreeOf(old(nodes), rank, id))
      ensures forall n | |old(nodes)| <= n < |nodes| :: FreshChildren(nodes[n].children, |old(nodes)|)
      decreases rank[id]
    {
      ghost var before := nodes;
      var data := nodes[id];
      copy := |nodes|;
      nodes := nodes + [NodeData(data.info, [])];
      newRank := rank + [rank[id]];
      CopyStarts(before, rank, id, nodes, newRank);
      for k := 0 to |data.children|
        invariant Copied(before, rank, id, nodes, newRank, k) && Valid()
      {
        ghost var start, startRank := nodes, newRank;
        NextChild(before, rank, id, start, startRank, k);
        var cloned;
        cloned, newRank := CloneSubtree(data.children[k], newRank);
        ghost var middle := nodes;
        AppendChild(copy, cloned);
        ChildCopied(before, rank, id, start, startRank, k, middle, newRank, cloned, nodes);
      }
      CopyEnds(before, rank, id, nodes, newRank);
    }
  }

  ghost predicate FreshChildren(ids: seq<nat>, from: nat) {
    forall i | 0 <= i < |ids| :: ids[i] >= from
  }

  /** The arena once the first `k` children have been copied under the new node. */
  ghost predicate Copied(before: seq<NodeData>, rank: seq<nat>, id: nat, nodes: seq<NodeData>, newRank: seq<nat>, k: nat)
    requires Ranked(before, rank) && id < |before|
  {
    var copy, children := |before|, before[id].children;
    && before <= nodes && rank <= newRank && copy < |nodes| && Ranked(nodes, newRank)
    && newRank[copy] == rank[id] && k <= |children| && Below(children[..k], rank, rank[id])
    && nodes[copy].info == before[id].info
    && TreesOf(nodes, newRank, nodes[copy].children, rank[id]) == TreesOf(before, rank, children[..k], rank[id])
    && |nodes| == |before| + 1 + SizeAll(TreesOf(before, rank, children[..k], rank[id]))
    && forall n | copy <= n < |nodes| :: FreshChildren(nodes[n].children, copy)
  }

  lemma {:induction false} TakeMore(nodes: seq<NodeData>, rank: seq<nat>, ids: seq<nat>, bound: nat, k: nat)
    requires Ranked(nodes, rank) && Below(ids, rank, bound) && k < |ids|
    ensures Below(ids[..k], rank, bound) && Below(ids[..k + 1], rank, bound)
    ensures TreesOf(nodes, rank, ids[..k + 1], bound) == TreesOf(nodes, rank, ids[..k], bound) + [TreeOf(nodes, rank, ids[k])]
    ensures SizeAll(TreesOf(nodes, rank, ids[..k + 1], bound))
         == SizeAll(TreesOf(nodes, rank, ids[..k], bound)) + Size(TreeOf(nodes, rank, ids[k]))
    ensures SizeAll(TreesOf(nodes, rank, ids[..k + 1], bound)) <= SizeAll(TreesOf(nodes, rank, ids, bound))
  {
    TreesOfTwo(nodes, rank, ids[..k], [ids[k]], bound);
    assert ids[..k] + [ids[k]] == ids[..k + 1];
    OneTree(nodes, rank, ids[k], bound);
    SizeOfTwo(TreesOf(nodes, rank, ids[..k], bound), [TreeOf(nodes, rank, ids[k])]);
    OneSize(TreeOf(nodes, rank, ids[k]));
    TreesOfTwo(nodes, rank, ids[..k + 1], ids[k + 1..], bound);
    assert ids[..k + 1] + ids[k + 1..] == ids;
    SizeOfTwo(TreesOf(nodes, rank, ids[..k + 1], bound), TreesOf(nodes, rank, ids[k + 1..], bound));
  }

  lemma {:induction false} OneTree(nodes: seq<NodeData>, rank: seq<nat>, id: nat, bound: nat)
    requires Ranked(nodes, rank) && id < |rank| && rank[id] < bound
    ensures TreesOf(nodes, rank, [id], bound) == [TreeOf(nodes, rank, id)]
  {
    assert [id][1..] == [];
  }

  lemma {:induction false} OneSize(t: Tree)
    ensures SizeAll([t]) == Size(t)
  {
    assert [t][1..] == [];
  }

  lemma {:induction false} CopyStarts(before: seq<NodeData>, rank: seq<nat>, id: nat, nodes: seq<NodeData>, newRank: seq<nat>)
    requires Ranked(before, rank) && id < |before|
    requires nodes == before + [NodeData(before[id].info, [])] && newRank == rank + [rank[id]]
    ensures Copied(before, rank, id, nodes, newRank, 0)
  {
    assert before[id].children[..0] == [];
  }

  /** A tree of old nodes is the same in the grown arena. */
  lemma {:induction false} OldTree(before: seq<NodeData>, rank: seq<nat>, nodes: seq<NodeData>, newRank: seq<nat>, id: nat)
    requires Ranked(before, rank) && Ranked(nodes, newRank) && before <= nodes && rank <= newRank && id < |before|
    ensures TreeOf(nodes, newRank, id) == TreeOf(before, rank, id)
  {
    assert before[id] == nodes[id] && rank[id] == newRank[id];
    TreesAgree(before, rank, nodes, newRank, rank[id], before[id].children);
  }

  lemma {:induction false} NextChild(before: seq<NodeData>, rank: seq<nat>, id: nat, nodes: seq<NodeData>,
                                     newRank: seq<nat>, k: nat)
    requires Ranked(before, rank) && id < |before| && Copied(before, rank, id, nodes, newRank, k) && k < |before[id].children|
    ensures var child := before[id].children[k];
            && child < |before| && newRank[child] == rank[child] < rank[id]
            && TreeOf(nodes, newRank, child) == TreeOf(before, rank, child)
            && |nodes| + Size(TreeOf(before, rank, child)) <= |before| + Size(TreeOf(before, rank, id))
  {
    var children := before[id].children;
    assert Below(children, rank, rank[id]);
    OldTree(before, rank, nodes, newRank, children[k]);
    TakeMore(before, rank, children, rank[id], k);
  }

  lemma {:induction false} CopyEnds(before: seq<NodeData>, rank: seq<nat>, id: nat, nodes: seq<NodeData>, newRank: seq<nat>)
    requires Ranked(before, rank) && id < |before| && Copied(before, rank, id, nodes, newRank, |before[id].children|)
    ensures TreeOf(nodes, newRank, |before|) == TreeOf(before, rank, id)
    ensures |nodes| == |before| + Size(TreeOf(before, rank, id))
  {
    var children := before[id].children;
    assert children[..|children|] == children;
  }

  /** The copy of one more child hung under the new node. */
  lemma {:induction false} ChildCopied(before: seq<NodeData>, rank: seq<nat>, id: nat, start: seq<NodeData>,
                                       startRank: seq<nat>, k: nat,
                                       middle: seq<NodeData>, newRank: seq<nat>, cloned: nat, nodes: seq<NodeData>)
    requires Ranked(before, rank) && id < |before| && Copied(before, rank, id, start, startRank, k) && k < |before[id].children|
    requires var child := before[id].children[k];
             && child < |before| && Ranked(middle, newRank) && startRank <= newRank && start <= middle
             && cloned == |start| < |middle| && newRank[cloned] == rank[child] < rank[id]
             && TreeOf(middle, newRank, cloned) == TreeOf(before, rank, child)
             && |middle| == |start| + Size(TreeOf(before, rank, child))
             && forall n | |start| <= n < |middle| :: FreshChildren(middle[n].children, |start|)
    requires nodes == middle[|before| := middle[|before|].(children := middle[|before|].children + [cloned])]
    ensures Copied(before, rank, id, nodes, newRank, k + 1)
  {
    var copy, children, bound := |before|, before[id].children, rank[id];
    var held := start[copy].children;
    assert middle[copy] == start[copy] && newRank[copy] == bound;
    assert Below(held, startRank, bound);
    Hang(middle, newRank, copy, cloned, nodes);
    HeldTrees(start, startRank, middle, newRank, copy, cloned, nodes, held, bound);
    assert Below(children, rank, bound);
    TakeMore(before, rank, children, bound, k);
  }

  /** Hanging a node under one that ranks above it keeps the arena acyclic. */
  lemma {:induction false} Hang(nodes: seq<NodeData>, rank: seq<nat>, parent: nat, child: nat, after: seq<NodeData>)
    requires Ranked(nodes, rank) && parent < |nodes| && child < |nodes| && rank[child] < rank[parent]
    requires after == nodes[parent := nodes[parent].(children := nodes[parent].children + [child])]
    ensures Ranked(after, rank)
  {
    assert Below(nodes[parent].children, rank, rank[parent]);
    assert Below(after[parent].children, rank, rank[parent]);
  }

  lemma {:induction false} HeldTrees(start: seq<NodeData>, startRank: seq<nat>, middle: seq<NodeData>,
                                     newRank: seq<nat>, copy: nat,
                                     cloned: nat, nodes: seq<NodeData>, held: seq<nat>, bound: nat)
    requires Ranked(start, startRank) && Ranked(middle, newRank) && Ranked(nodes, newRank) && start <= middle && startRank <= newRank
    requires copy < |start| && cloned < |middle| && newRank[cloned] < bound == newRank[copy] && Below(held, startRank, bound)
    requires |nodes| == |middle| && forall n | 0 <= n < |nodes| :: n != copy ==> nodes[n] == middle[n]
    ensures Below(held + [cloned], newRank, bound)
    ensures TreesOf(nodes, newRank, held + [cloned], bound)
         == TreesOf(start, startRank, held, bound) + [TreeOf(middle, newRank, cloned)]
  {
    assert AgreeBelow(start, startRank, nodes, newRank, bound);
    TreesAgree(start, startRank, nodes, newRank, bound, held);
    assert AgreeBelow(middle, newRank, nodes, newRank, bound);
    TreesAgree(middle, newRank, nodes, newRank, bound, [cloned]);
    OneTree(middle, newRank, cloned, bound);
    TreesOfTwo(nodes, newRank, held, [cloned], bound);
  }
}
