/**
  Recursive walks over a linked tree: numbering in preorder, collecting nodes, and mapping labels to nodes.
 */
module TreeWalks {
  import opened Reslicing
  import opened TreeShape
  import opened TreeLabels
  import opened Trees

  /** The whole tree of the given shape is linked. */
  ghost predicate Whole(sh: Shape, at: Nodes)
    reads at.Values`children, at.Values`parent
  {
    sh.Valid() && Linked(sh.l, sh.k, sh.h, at)
  }

  /** The preorder of the nodes from p downwards. */
  function Under(sh: Shape, p: Place): seq<Place>
    requires sh.Valid()
  {
    Pre(sh.l, sh.k, p.level, p.pos)
  }

  /** The preorder of the first i children of p with everything under them. */
  function UnderFirst(sh: Shape, p: Place, i: nat): seq<Place>
    requires sh.Valid()
  {
    if p.level == 0 then [] else
      PreList(sh.l, sh.k, p.level - 1, Start(p.pos, sh.k), Start(p.pos, sh.k) + i)
  }

  /** A walk lists a node and then everything under its children. */
  lemma UnderSteps(sh: Shape, p: Place)
    requires sh.Valid() && sh.Has(p)
    ensures UnderFirst(sh, p, 0) == [] && Under(sh, p) == [p] + UnderFirst(sh, p, ChildCount(sh.l, sh.k, p))
  {
  }

  /** The next child of a node in the tree, and what a walk lists for it. */
  lemma UnderNext(sh: Shape, at: Nodes, p: Place, i: nat) returns (c: Place)
    requires Whole(sh, at) && p in at && i < |at[p].children|
    ensures c in at && at[c] == at[p].children[i] && c.level < p.level && sh.Over(c) == p
    ensures UnderFirst(sh, p, i + 1) == UnderFirst(sh, p, i) + Under(sh, c)
    ensures forall q :: q in Under(sh, c) ==> q != p && q !in UnderFirst(sh, p, i)
  {
    assert ChildrenLinked(sh.l, sh.k, at, p);
    ChildInTree(sh.l, sh.k, sh.h, p, i);
    c := Child(sh.k, p, i);
    UnderNextList(sh, p, i);
  }

  lemma UnderNextList(sh: Shape, p: Place, i: nat)
    requires sh.Valid() && sh.Has(p) && i < ChildCount(sh.l, sh.k, p)
    ensures UnderFirst(sh, p, i + 1) == UnderFirst(sh, p, i) + Under(sh, Child(sh.k, p, i))
    ensures forall q :: q in Under(sh, Child(sh.k, p, i)) ==> q != p && q !in UnderFirst(sh, p, i)
  {
    ChildInTree(sh.l, sh.k, sh.h, p, i);
    var lo, c := Start(p.pos, sh.k), Child(sh.k, p, i);
    ChildRange(Size(sh.l, sh.k, p.level - 1), sh.k, p.pos, 0);
    hide Start, Size;
    PreListSplit(sh.l, sh.k, p.level - 1, lo, lo + i, lo + i + 1);
    assert PreList(sh.l, sh.k, c.level, lo + i, lo + i + 1) == Under(sh, c) + PreList(sh.l, sh.k, c.level, lo + i + 1, lo + i + 1);
    forall q | q in Under(sh, c)
      ensures q != p && q !in UnderFirst(sh, p, i)
    {
      PreContains(sh.l, sh.k, c.level, c.pos, q);
      PreListContains(sh.l, sh.k, p.level - 1, lo, lo + i, q);
    }
  }

  lemma NodeOf(sh: Shape, at: Nodes, p: Place)
    requires Whole(sh, at) && p in at
    ensures sh.Valid() && sh.Has(p) && |at[p].children| == ChildCount(sh.l, sh.k, p)
    ensures at[p] in at.Values && forall q :: q in at ==> at[q].place == q
  {
    assert ChildrenLinked(sh.l, sh.k, at, p);
  }

  lemma UnderIsInTree(sh: Shape, p: Place)
    requires sh.Valid() && sh.Has(p)
    ensures p in Under(sh, p) && forall q :: q in Under(sh, p) ==> sh.Has(q)
  {
    forall q
      ensures q in Under(sh, p) ==> sh.Has(q)
    {
      PreContains(sh.l, sh.k, p.level, p.pos, q);
    }
  }

  // ----- preorder numbers

  /** The nodes at the given places are numbered from, from + 1, ... and so labelled. */
  ghost predicate Numbered(at: Nodes, places: seq<Place>, from: nat)
    reads at.Values`preOrderIdx, at.Values`latticeIdx
  {
    forall x :: 0 <= x < |places| ==>
      places[x] in at && at[places[x]].preOrderIdx == from + x && at[places[x]].latticeIdx == from + x
  }

  /** The numbers and labels of all nodes at one moment. */
  lemma NumbersOf(at: Nodes, places: seq<Place>, from: nat) returns (was: map<Place, (nat, nat)>)
    requires Numbered(at, places, from)
    ensures forall q :: q in at ==> q in was && was[q] == (at[q].preOrderIdx, at[q].latticeIdx)
    ensures forall x :: 0 <= x < |places| ==> places[x] in at && was[places[x]] == (from + x, from + x)
  {
    was := map q | q in at :: (at[q].preOrderIdx, at[q].latticeIdx);
  }

  lemma StillNumbered(at: Nodes, places: seq<Place>, from: nat, was: map<Place, (nat, nat)>)
    requires forall x :: 0 <= x < |places| ==> places[x] in at && places[x] in was && was[places[x]] == (from + x, from + x)
    requires forall q :: q in at && q in places ==> q in was && was[q] == (at[q].preOrderIdx, at[q].latticeIdx)
    ensures Numbered(at, places, from)
  {
  }

  lemma NumberedOne(at: Nodes, p: Place, from: nat)
    requires p in at && at[p].preOrderIdx == from && at[p].latticeIdx == from
    ensures Numbered(at, [p], from)
  {
  }

  lemma NumberedAppend(at: Nodes, ps: seq<Place>, qs: seq<Place>, from: nat)
    requires Numbered(at, ps, from) && Numbered(at, qs, from + |ps|)
    ensures Numbered(at, ps + qs, from)
  {
  }

  /** Numbers the nodes under a node in preorder. */
  method AssignPreOrderIndex(node: TreeNode, current: nat, ghost sh: Shape, ghost at: Nodes, ghost p: Place)
    returns (next: nat)
    requires Whole(sh, at) && p in at && node == at[p]
    modifies at.Values`preOrderIdx, at.Values`latticeIdx
    ensures next == current + |Under(sh, p)| && Numbered(at, Under(sh, p), current)
    ensures forall q :: q in at && q !in Under(sh, p) ==>
              at[q].preOrderIdx == old(at[q].preOrderIdx) && at[q].latticeIdx == old(at[q].latticeIdx)
    decreases p.level
  {
    hide *;
    NodeOf(sh, at, p);
    UnderSteps(sh, p);
    node.preOrderIdx := current;
    node.latticeIdx := current;
    next := current + 1;
    ghost var done := [p];
    assert done == [p] + UnderFirst(sh, p, 0);
    NumberedOne(at, p, current);
    for i := 0 to |node.children|
      invariant done == [p] + UnderFirst(sh, p, i)
      invariant next == current + |done| && Numbered(at, done, current)
      invariant forall q :: q in at && q !in done ==>
                  at[q].preOrderIdx == old(at[q].preOrderIdx) && at[q].latticeIdx == old(at[q].latticeIdx)
    {
      ghost var c := UnderNext(sh, at, p, i);
      NodeOf(sh, at, c);
      ghost var was := NumbersOf(at, done, current);
      next := AssignPreOrderIndex(node.children[i], next, sh, at, c);
      StillNumbered(at, done, current, was);
      NumberedAppend(at, done, Under(sh, c), current);
      done := done + Under(sh, c);
    }
  }

  // ----- nodes by number

  ghost predicate AllNumbered(sh: Shape, at: Nodes)
    requires Whole(sh, at)
    reads at.Values`children, at.Values`parent, at.Values`preOrderIdx
  {
    forall q :: q in at ==> at[q].preOrderIdx == sh.Number(q)
  }

  /** Puts the nodes under a node where their preorder numbers say. */
  method CollectNodes(node: TreeNode, nodes: array<TreeNode?>, ghost sh: Shape, ghost at: Nodes, ghost p: Place)
    requires Whole(sh, at) && p in at && node == at[p] && AllNumbered(sh, at) && nodes.Length == |sh.Order()|
    modifies nodes
    ensures forall q :: q in at && (q in Under(sh, p) || old(nodes[sh.Number(q)]) == at[q]) ==>
              nodes[sh.Number(q)] == at[q]
    decreases p.level
  {
    hide Under, UnderFirst, ChildCount, ChildrenLinked, ParentLinked, Shape.Order, Size;
    NodeOf(sh, at, p);
    UnderSteps(sh, p);
    nodes[node.preOrderIdx] := node;
    for i := 0 to |node.children|
      invariant forall q :: q in at && (q in [p] + UnderFirst(sh, p, i) || old(nodes[sh.Number(q)]) == at[q]) ==>
                  nodes[sh.Number(q)] == at[q]
    {
      ghost var c := UnderNext(sh, at, p, i);
      CollectNodes(node.children[i], nodes, sh, at, c);
    }
  }

  // ----- inner nodes

  /** The inner nodes of a list, without the root. */
  function Inner(sh: Shape, places: seq<Place>): seq<Place> {
    if places == [] then [] else
      var p := places[|places| - 1];
      Inner(sh, places[..|places| - 1]) + if 0 < p.level < sh.h then [p] else []
  }

  lemma {:induction false} InnerAppend(sh: Shape, ps: seq<Place>, qs: seq<Place>)
    ensures Inner(sh, ps + qs) == Inner(sh, ps) + Inner(sh, qs)
  {
    if qs == [] {
      assert ps + qs == ps;
    } else {
      var m := |qs| - 1;
      assert (ps + qs)[..|ps| + m] == ps + qs[..m];
      InnerAppend(sh, ps, qs[..m]);
    }
  }

  lemma {:induction false} InnerIsInner(sh: Shape, places: seq<Place>)
    ensures forall q :: q in Inner(sh, places) ==> q in places && 0 < q.level < sh.h
  {
    if places != [] {
      InnerIsInner(sh, places[..|places| - 1]);
    }
  }

  ghost predicate AreNodes(at: Nodes, places: seq<Place>, nodes: seq<TreeNode>) {
    |nodes| == |places| && forall x :: 0 <= x < |nodes| ==> places[x] in at && nodes[x] == at[places[x]]
  }

  lemma AreNodesAppend(at: Nodes, places: seq<Place>, nodes: seq<TreeNode>, p: Place)
    requires AreNodes(at, places, nodes) && p in at
    ensures AreNodes(at, places + [p], nodes + [at[p]])
  {
  }

  /** Lists the inner nodes under a node in preorder, leaving out the root. */
  method CollectInternals(root: TreeNode, node: TreeNode, internals: seq<TreeNode>,
                          ghost sh: Shape, ghost at: Nodes, ghost p: Place, ghost listed: seq<Place>)
    returns (r: seq<TreeNode>)
    requires Whole(sh, at) && p in at && node == at[p] && sh.Root() in at && root == at[sh.Root()]
    requires AreNodes(at, listed, internals)
    ensures AreNodes(at, listed + Inner(sh, Under(sh, p)), r)
    decreases p.level
  {
    hide Under, UnderFirst, Whole, ChildCount, Inner, AreNodes;
    NodeOf(sh, at, p);
    UnderSteps(sh, p);
    InnerAppend(sh, [p], UnderFirst(sh, p, |node.children|));
    InnerOne(sh, p);
    r := internals;
    if |node.children| > 0 {
      ghost var done := listed;
      if node != root {
        AreNodesAppend(at, done, r, p);
        r := r + [node];
        done := done + [p];
      }
      ghost var own := done;
      assert UnderFirst(sh, p, 0) == [];
      InnerNone(sh);
      assert done == own + Inner(sh, []);
      for i := 0 to |node.children|
        invariant AreNodes(at, own + Inner(sh, UnderFirst(sh, p, i)), r)
      {
        ghost var c := UnderNext(sh, at, p, i);
        InnerAppend(sh, UnderFirst(sh, p, i), Under(sh, c));
        done := own + Inner(sh, UnderFirst(sh, p, i));
        r := CollectInternals(root, node.children[i], r, sh, at, c, done);
        assert done + Inner(sh, Under(sh, c)) == own + Inner(sh, UnderFirst(sh, p, i + 1));
      }
      assert own == listed + Inner(sh, [p]);
      assert own + Inner(sh, UnderFirst(sh, p, |node.children|)) == listed + Inner(sh, Under(sh, p));
    } else {
      InnerNone(sh);
      assert listed + Inner(sh, Under(sh, p)) == listed;
    }
  }

  lemma InnerNone(sh: Shape)
    ensures Inner(sh, []) == []
  {
  }

  lemma InnerOne(sh: Shape, p: Place)
    requires sh.Valid() && sh.Has(p)
    ensures Inner(sh, [p]) == if ChildCount(sh.l, sh.k, p) > 0 && p != sh.Root() then [p] else []
  {
    assert [p][..0] == [];
  }

  // ----- labels

  ghost predicate DistinctLabels(at: Nodes, n: nat)
    reads at.Values`latticeIdx
  {
    && (forall q :: q in at ==> at[q].latticeIdx < n)
    && forall q, r :: q in at && r in at && q != r ==> at[q].latticeIdx != at[r].latticeIdx
  }

  ghost predicate NodeMapped(at: Nodes, indexMap: map<nat, TreeNode>, q: Place)
    requires q in at
    reads at.Values`latticeIdx
  {
    at[q].latticeIdx in indexMap && indexMap[at[q].latticeIdx] == at[q]
  }

  ghost predicate ParentMapped(sh: Shape, at: Nodes, childParent: map<nat, nat>, q: Place)
    requires sh.Valid() && q in at
    reads at.Values`latticeIdx
  {
    && sh.Over(q) in at && at[q].latticeIdx in childParent
    && childParent[at[q].latticeIdx] == at[sh.Over(q)].latticeIdx
  }

  ghost predicate KeysBelow<T>(m: map<nat, T>, n: nat) {
    forall i :: i in m ==> i < n
  }

  /** Maps the labels under a node to the nodes, and to the labels of their parents. */
  method MapNodes(node: TreeNode, childParent: map<nat, nat>, indexMap: map<nat, TreeNode>,
                  ghost sh: Shape, ghost at: Nodes, ghost p: Place, ghost n: nat)
    returns (childParent': map<nat, nat>, indexMap': map<nat, TreeNode>)
    requires Whole(sh, at) && p in at && node == at[p] && DistinctLabels(at, n)
    requires KeysBelow(childParent, n) && KeysBelow(indexMap, n)
    ensures KeysBelow(childParent', n) && KeysBelow(indexMap', n)
    ensures forall q :: q in at && (q in Under(sh, p) || NodeMapped(at, indexMap, q)) ==> NodeMapped(at, indexMap', q)
    ensures forall q :: q in at && ((q in Under(sh, p) && q != p) || ParentMapped(sh, at, childParent, q)) ==>
              ParentMapped(sh, at, childParent', q)
    decreases p.level
  {
    hide Under, UnderFirst, ChildCount, Linked, Size, Shape.Over;
    NodeOf(sh, at, p);
    UnderSteps(sh, p);
    childParent', indexMap' := childParent, indexMap[node.latticeIdx := node];
    for i := 0 to |node.children|
      invariant KeysBelow(childParent', n) && KeysBelow(indexMap', n)
      invariant forall q :: q in at && (q in [p] + UnderFirst(sh, p, i) || NodeMapped(at, indexMap, q)) ==>
                  NodeMapped(at, indexMap', q)
      invariant forall q :: q in at && (q in UnderFirst(sh, p, i) || ParentMapped(sh, at, childParent, q)) ==>
                  ParentMapped(sh, at, childParent', q)
    {
      ghost var c := UnderNext(sh, at, p, i);
      childParent' := childParent'[node.children[i].latticeIdx := node.latticeIdx];
      assert ParentMapped(sh, at, childParent', c);
      childParent', indexMap' := MapNodes(node.children[i], childParent', indexMap', sh, at, c, n);
    }
  }
}
