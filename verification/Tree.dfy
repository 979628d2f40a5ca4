/**
  The tree of nodes as linked, mutable objects: bottom-up construction of the file tree and of the parity
  trees.
 */
module Trees {
  import opened Bytes
  import opened Sequences
  import opened Reslicing
  import opened TreeShape

  datatype Option<T> = None | Some(value: T)

  /** Which object stands at which place. */
  type Nodes = map<Place, TreeNode>

  /** A node of the file tree or of a parity tree; an empty content identifier is not known yet. */
  class TreeNode {
    ghost const place: Place
    const index: nat

    var children: seq<TreeNode>
    var parent: TreeNode?
    var preOrderIdx: nat
    var latticeIdx: nat
    var cid: string
    var data: Option<Chunk>

    constructor (ghost place: Place, index: nat, children: seq<TreeNode>)
      ensures this.place == place && this.index == index && this.children == children && parent == null
      ensures preOrderIdx == latticeIdx == 0 && cid == "" && data == None
    {
      this.place, this.index, this.children, parent := place, index, children, null;
      preOrderIdx, latticeIdx, cid, data := 0, 0, "", None;
    }
  }

  // ----- what a linked tree is

  ghost predicate Placed(l: nat, k: nat, h: nat, at: Nodes)
    requires k > 0
  {
    (forall p :: p in at <==> InTree(l, k, h, p)) && forall p :: p in at ==> at[p].place == p
  }

  ghost predicate ChildrenLinked(l: nat, k: nat, at: Nodes, p: Place)
    requires k > 0 && p in at && p.pos < Size(l, k, p.level)
    reads {at[p]}`children
  {
    && |at[p].children| == ChildCount(l, k, p)
    && forall i :: 0 <= i < ChildCount(l, k, p) ==>
         Child(k, p, i) in at && at[p].children[i] == at[Child(k, p, i)]
  }

  ghost predicate ParentLinked(k: nat, at: Nodes, p: Place)
    requires k > 0 && p in at
    reads {at[p]}`parent
  {
    Parent(k, p) in at && at[p].parent == at[Parent(k, p)]
  }

  /** All nodes have the right children, and those below level h the right parent. */
  ghost predicate Linked(l: nat, k: nat, h: nat, at: Nodes)
    requires k > 0
    reads at.Values`children, at.Values`parent
  {
    && Placed(l, k, h, at)
    && (forall p :: p in at ==> ChildrenLinked(l, k, at, p))
    && forall p :: p in at && p.level < h ==> ParentLinked(k, at, p)
  }

  /** nodes are the nodes of level t, in order, and have no parent yet. */
  ghost predicate TopLevel(l: nat, k: nat, t: nat, at: Nodes, nodes: seq<TreeNode>)
    requires k > 0
    reads nodes
  {
    && |nodes| == Size(l, k, t)
    && forall j :: 0 <= j < |nodes| ==> Place(t, j) in at && nodes[j] == at[Place(t, j)] && nodes[j].parent == null
  }

  /** Nothing is known of any node yet. */
  ghost predicate Blank(at: Nodes)
    reads at.Values`cid, at.Values`data
  {
    forall p :: p in at ==> at[p].cid == "" && at[p].data == None
  }

  // ----- one level

  /** The parent of group x. */
  ghost predicate GroupParent(k: nat, t: nat, nodes: seq<TreeNode>, parent: TreeNode, x: nat)
    reads parent
  {
    && parent.place == Place(t + 1, x) && parent.parent == null
    && Start(x, k) <= End(x, k, |nodes|) <= |nodes|
    && parent.children == nodes[Start(x, k)..End(x, k, |nodes|)]
  }

  /** The parents of the first groups of k nodes; the nodes after those groups have none yet. */
  ghost predicate Grouped(k: nat, t: nat, nodes: seq<TreeNode>, parents: seq<TreeNode>)
    requires k > 0
    reads nodes, parents
  {
    && (forall x :: 0 <= x < |parents| ==> GroupParent(k, t, nodes, parents[x], x))
    && forall y :: 0 <= y < |nodes| ==>
          nodes[y].parent == if Div(y, k) < |parents| then parents[Div(y, k)] else null
  }

  lemma GroupedExtend(k: nat, t: nat, nodes: seq<TreeNode>, parents: seq<TreeNode>, parent: TreeNode)
    requires k > 0 && forall x :: 0 <= x < |parents| ==> GroupParent(k, t, nodes, parents[x], x)
    requires GroupParent(k, t, nodes, parent, |parents|)
    requires forall y :: 0 <= y < |nodes| ==>
               nodes[y].parent == if Div(y, k) == |parents| then parent
                                  else if Div(y, k) < |parents| then parents[Div(y, k)] else null
    ensures Grouped(k, t, nodes, parents + [parent])
  {
    hide GroupParent, Div;
  }

  /** With the nodes of a new level t. */
  ghost function Grown(at: Nodes, t: nat, parents: seq<TreeNode>): Nodes {
    var places := set x: nat | x < |parents| :: Place(t, x);
    at + map p | p in places :: parents[p.pos]
  }

  /** A new parent for nodes i..end-1. */
  method NewParent(nodes: seq<TreeNode>, i: nat, end: nat, ghost place: Place, index: nat) returns (parent: TreeNode)
    requires i <= end <= |nodes| && NoRepeat(nodes)
    modifies (set n | n in nodes)`parent
    ensures fresh(parent) && parent.place == place && parent.index == index
    ensures parent.children == nodes[i..end] && parent.parent == null && parent.cid == "" && parent.data == None
    ensures forall y :: 0 <= y < |nodes| ==> nodes[y].parent == if i <= y < end then parent else old(nodes[y].parent)
  {
    parent := new TreeNode(place, index, []);
    for j := i to end
      invariant fresh(parent) && parent.children == nodes[i..j] && parent.parent == null
      invariant parent.cid == "" && parent.data == None
      invariant forall y :: 0 <= y < |nodes| ==> nodes[y].parent == if i <= y < j then parent else old(nodes[y].parent)
    {
      nodes[j].parent := parent;
      parent.children := parent.children + [nodes[j]];
    }
  }

  lemma LevelDistinct(l: nat, k: nat, t: nat, at: Nodes, nodes: seq<TreeNode>)
    requires k > 0 && Placed(l, k, t, at) && TopLevel(l, k, t, at, nodes)
    ensures NoRepeat(nodes)
  {
    forall x, y | 0 <= x < y < |nodes|
      ensures nodes[x] != nodes[y]
    {
      assert nodes[x].place == Place(t, x) && nodes[y].place == Place(t, y);
    }
  }

  /** The next group: where it starts and ends. */
  lemma NextGroup(size: nat, k: nat, q: nat)
    requires k > 0
    ensures Start(q, k) < size <==> q < CeilDiv(size, k)
    ensures Start(q + 1, k) == Start(q, k) + k
    ensures forall y :: 0 <= y < size && q < CeilDiv(size, k) ==> (Start(q, k) <= y < End(q, k, size) <==> Div(y, k) == q)
    ensures q < CeilDiv(size, k) ==> Start(q, k) < End(q, k, size) <= size
  {
    StartStep(q, k);
    CeilBounds(size, k);
    ChildRange(size, k, q, 0);
    forall y | 0 <= y < size && q < CeilDiv(size, k)
      ensures Start(q, k) <= y < End(q, k, size) <==> Div(y, k) == q
    {
      ChildRange(size, k, q, y);
    }
    var n := CeilDiv(size, k);
    hide Start, Div, CeilDiv;
    StartMonotone(n, q, k);
  }

  /** Puts a new level of parents above the nodes. */
  method GroupLevel(nodes: seq<TreeNode>, k: nat, ghost l: nat, ghost t: nat, ghost at: Nodes)
    returns (parents: seq<TreeNode>)
    requires k > 0 && Linked(l, k, t, at) && TopLevel(l, k, t, at, nodes)
    modifies (set n | n in nodes)`parent
    ensures |parents| == CeilDiv(|nodes|, k)
    ensures forall x :: 0 <= x < |parents| ==> fresh(parents[x]) && parents[x].cid == "" && parents[x].data == None
    ensures Linked(l, k, t + 1, Grown(at, t + 1, parents)) && TopLevel(l, k, t + 1, Grown(at, t + 1, parents), parents)
  {
    hide ChildrenLinked, ParentLinked, Start, Div, CeilDiv, Size, InTree;
    LevelDistinct(l, k, t, at, nodes);
    parents := [];
    NextGroup(|nodes|, k, 0);
    assert Start(0, k) == 0 by { StartZero(k); }
    var i := 0;
    while i < |nodes|
      invariant i == Start(|parents|, k) && |parents| <= CeilDiv(|nodes|, k)
      invariant forall x :: 0 <= x < |parents| ==> fresh(parents[x]) && parents[x].cid == "" && parents[x].data == None
      invariant Grouped(k, t, nodes, parents) && Linked(l, k, t, at)
    {
      NextGroup(|nodes|, k, |parents|);
      var end := i + k;
      if end > |nodes| {
        end := |nodes|;
      }
      var parent := NewParent(nodes, i, end, Place(t + 1, |parents|), 0);
      GroupedExtend(k, t, nodes, parents, parent);
      parents := parents + [parent];
      i := i + k;
    }
    NextGroup(|nodes|, k, |parents|);
    hide Linked, TopLevel, Grouped, Grown;
    LevelAdded(l, k, t, at, nodes, parents);
  }

  lemma GrownPlaced(l: nat, k: nat, t: nat, at: Nodes, parents: seq<TreeNode>)
    requires k > 0 && Placed(l, k, t, at) && |parents| == Size(l, k, t + 1)
    requires forall x :: 0 <= x < |parents| ==> parents[x].place == Place(t + 1, x)
    ensures Placed(l, k, t + 1, Grown(at, t + 1, parents))
    ensures forall x :: 0 <= x < |parents| ==>
              Place(t + 1, x) in Grown(at, t + 1, parents) && Grown(at, t + 1, parents)[Place(t + 1, x)] == parents[x]
  {
    hide Size;
    var at' := Grown(at, t + 1, parents);
    forall p
      ensures p in at' <==> InTree(l, k, t + 1, p)
      ensures p in at' ==> at'[p].place == p
    {
      if p.level == t + 1 {
        assert p == Place(t + 1, p.pos);
      } else {
        assert p in at' <==> p in at;
        assert InTree(l, k, t + 1, p) <==> InTree(l, k, t, p);
      }
    }
  }

  lemma GrownKeeps(l: nat, k: nat, t: nat, at: Nodes, parents: seq<TreeNode>, p: Place)
    requires k > 0 && Placed(l, k, t, at) && p in at
    ensures p.pos < Size(l, k, p.level) && p in Grown(at, t + 1, parents) && Grown(at, t + 1, parents)[p] == at[p]
    ensures ChildrenLinked(l, k, at, p) ==> ChildrenLinked(l, k, Grown(at, t + 1, parents), p)
    ensures p.level < t && ParentLinked(k, at, p) ==> ParentLinked(k, Grown(at, t + 1, parents), p)
  {
    hide Size, Start, Div;
  }

  lemma GrownChildren(l: nat, k: nat, t: nat, at: Nodes, nodes: seq<TreeNode>, parents: seq<TreeNode>, x: nat)
    requires k > 0 && |nodes| == Size(l, k, t)
    requires forall j :: 0 <= j < |nodes| ==> Place(t, j) in at && nodes[j] == at[Place(t, j)]
    requires x < |parents| == Size(l, k, t + 1) && GroupParent(k, t, nodes, parents[x], x)
    requires Place(t + 1, x) in Grown(at, t + 1, parents)
    ensures ChildrenLinked(l, k, Grown(at, t + 1, parents), Place(t + 1, x))
  {
    var p, size := Place(t + 1, x), Size(l, k, t);
    ChildRange(size, k, x, 0);
    hide Size, CeilDiv, Start, End;
    assert parents[x].children == nodes[Start(x, k)..End(x, k, size)];
  }

  lemma GrownNodes(at: Nodes, t: nat, parents: seq<TreeNode>)
    ensures forall q :: q in Grown(at, t, parents) ==>
              (q in at && Grown(at, t, parents)[q] == at[q]) || Grown(at, t, parents)[q] in parents
  {
  }

  lemma GrownTop(l: nat, k: nat, t: nat, at: Nodes, parents: seq<TreeNode>)
    requires k > 0 && |parents| == Size(l, k, t + 1)
    requires forall x :: 0 <= x < |parents| ==> parents[x].place == Place(t + 1, x) && parents[x].parent == null
    ensures TopLevel(l, k, t + 1, Grown(at, t + 1, parents), parents)
  {
    hide Size;
  }

  lemma ParentPlaces(l: nat, k: nat, t: nat, nodes: seq<TreeNode>, parents: seq<TreeNode>)
    requires k > 0 && |nodes| == Size(l, k, t) && |parents| == CeilDiv(|nodes|, k) && Grouped(k, t, nodes, parents)
    ensures |parents| == Size(l, k, t + 1)
    ensures forall x :: 0 <= x < |parents| ==> parents[x].place == Place(t + 1, x) && parents[x].parent == null
  {
    forall x | 0 <= x < |parents|
      ensures parents[x].place == Place(t + 1, x) && parents[x].parent == null
    {
      assert GroupParent(k, t, nodes, parents[x], x);
    }
  }

  lemma InTreeMeaning(l: nat, k: nat, t: nat, p: Place)
    requires k > 0
    ensures InTree(l, k, t + 1, p) <==> p.level <= t + 1 && p.pos < Size(l, k, p.level)
    ensures InTree(l, k, t, p) <==> p.level <= t && p.pos < Size(l, k, p.level)
  {
  }

  /** With its parents, the next level completes a larger tree. */
  lemma LevelAdded(l: nat, k: nat, t: nat, at: Nodes, nodes: seq<TreeNode>, parents: seq<TreeNode>)
    requires k > 0 && Linked(l, k, t, at)
    requires |nodes| == Size(l, k, t) && forall j :: 0 <= j < |nodes| ==> Place(t, j) in at && nodes[j] == at[Place(t, j)]
    requires |parents| == CeilDiv(|nodes|, k) && Grouped(k, t, nodes, parents)
    ensures Linked(l, k, t + 1, Grown(at, t + 1, parents))
    ensures TopLevel(l, k, t + 1, Grown(at, t + 1, parents), parents)
  {
    hide Size, CeilDiv, Start, End, Div, InTree, ChildrenLinked, ParentLinked, GroupParent, Grown;
    var at' := Grown(at, t + 1, parents);
    ParentPlaces(l, k, t, nodes, parents);
    GrownPlaced(l, k, t, at, parents);
    forall p | p in at'
      ensures p.pos < Size(l, k, p.level) && ChildrenLinked(l, k, at', p)
      ensures p.level < t + 1 ==> ParentLinked(k, at', p)
    {
      InTreeMeaning(l, k, t, p);
      if p.level <= t {
        GrownKeeps(l, k, t, at, parents, p);
        if p.level == t {
          TopNodeParent(l, k, t, at, nodes, parents, p.pos);
        }
      } else {
        GrownChildren(l, k, t, at, nodes, parents, p.pos);
      }
    }
    GrownTop(l, k, t, at, parents);
    hide TopLevel;
  }

  lemma TopNodeParent(l: nat, k: nat, t: nat, at: Nodes, nodes: seq<TreeNode>, parents: seq<TreeNode>, j: nat)
    requires k > 0 && j < |nodes| && Place(t, j) in at && nodes[j] == at[Place(t, j)]
    requires Placed(l, k, t, at) && |parents| == CeilDiv(|nodes|, k) && Grouped(k, t, nodes, parents)
    requires Place(t, j) in Grown(at, t + 1, parents)
    ensures ParentLinked(k, Grown(at, t + 1, parents), Place(t, j))
  {
    ChildRange(|nodes|, k, 0, j);
    hide Size, Start, Div, CeilDiv, GroupParent;
    assert nodes[j].parent == parents[Div(j, k)];
  }
}
