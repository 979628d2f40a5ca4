/**
  Construction of a parity tree.
 */
module ParityTree {
  import opened Reslicing
  import opened Sequences
  import opened TreeShape
  import opened TreeLabels
  import opened Trees
  import opened TreeWalks
  import TreeBuild

  /** The index a node of a parity tree gets: leaves first, then level by level. */
  function IndexOf(l: nat, k: nat, p: Place): nat
    requires k > 0
  {
    if p.level == 0 then p.pos else Total(l, k, p.level - 1) + p.pos
  }

  /** Makes parent the parent of all children. */
  method Adopt(children: seq<TreeNode>, parent: TreeNode)
    modifies (set n | n in children)`parent
    ensures forall n :: n in children ==> n.parent == parent
  {
    for c := 0 to |children|
      invariant forall x :: 0 <= x < c ==> children[x].parent == parent
    {
      children[c].parent := parent;
    }
  }

  lemma OutsideSlice(nodes: seq<TreeNode>, a: nat, b: nat)
    requires NoRepeat(nodes) && a <= b <= |nodes|
    ensures forall y :: 0 <= y < |nodes| ==> (nodes[y] in nodes[a..b] <==> a <= y < b)
  {
    forall y | a <= y < b
      ensures nodes[y] in nodes[a..b]
    {
      assert nodes[a..b][y - a] == nodes[y];
    }
  }

  /** How many nodes a group takes at most: a k below 1 is never met, so then one group takes all leaves. */
  function Arity(l: nat, k: int): (arity: nat)
    ensures arity >= 2
  {
    if k >= 2 then k else if l >= 2 then l else 2
  }

  /** After i of size nodes, q groups are closed. */
  predicate Filling(k: nat, size: nat, q: nat, i: nat)
    requires k > 0
  {
    if i < size then Start(q, k) <= i < Start(q, k) + k else q == CeilDiv(size, k)
  }

  /** A group is closed when it has k nodes or the level ends. */
  lemma FillingStep(k: nat, size: nat, q: nat, i: nat)
    requires k > 0 && Filling(k, size, q, i) && i < size
    ensures q < CeilDiv(size, k) && Start(q, k) <= i
    ensures var full := i + 1 - Start(q, k) == k || i == size - 1;
            if full then End(q, k, size) == i + 1 && Filling(k, size, q + 1, i + 1) else Filling(k, size, q, i + 1)
    ensures i + 1 < size && i + 1 - Start(q, k) == k ==> Start(q + 1, k) == i + 1
  {
    NextGroup(size, k, q);
    NextGroup(size, k, q + 1);
    hide Start, CeilDiv;
  }

  /** Gives the nodes collected for the next group their parent. */
  method CloseGroup(currentLevel: seq<TreeNode>, tempNodes: seq<TreeNode>, newLevel: seq<TreeNode>,
                    parentIndex: nat, ghost l: nat, ghost k: nat, ghost t: nat, ghost at: Nodes)
    returns (parent: TreeNode)
    requires k > 0 && Linked(l, k, t, at) && NoRepeat(currentLevel) && Grouped(k, t, currentLevel, newLevel)
    requires forall j :: 0 <= j < |currentLevel| ==> Place(t, j) in at && currentLevel[j] == at[Place(t, j)]
    requires forall x :: 0 <= x < |newLevel| ==> newLevel[x] !in currentLevel
    requires |newLevel| < CeilDiv(|currentLevel|, k)
    requires Start(|newLevel|, k) <= End(|newLevel|, k, |currentLevel|) <= |currentLevel|
    requires tempNodes == currentLevel[Start(|newLevel|, k)..End(|newLevel|, k, |currentLevel|)]
    modifies (set n | n in currentLevel)`parent
    ensures fresh(parent) && parent.index == parentIndex && parent.cid == "" && parent.data == None
    ensures Grouped(k, t, currentLevel, newLevel + [parent]) && Linked(l, k, t, at)
  {
    hide ChildrenLinked, ParentLinked, Start, Div, CeilDiv, Size, InTree, End;
    parent := new TreeNode(Place(t + 1, |newLevel|), parentIndex, tempNodes);
    NextGroup(|currentLevel|, k, |newLevel|);
    OutsideSlice(currentLevel, Start(|newLevel|, k), End(|newLevel|, k, |currentLevel|));
    Adopt(tempNodes, parent);
    GroupedExtend(k, t, currentLevel, newLevel, parent);
  }

  /** Groups the nodes of a level under new parents. */
  method GroupParityLevel(currentLevel: seq<TreeNode>, maxNodes: int, nextParentIndex: nat,
                          ghost l: nat, ghost k: nat, ghost t: nat, ghost at: Nodes)
    returns (newLevel: seq<TreeNode>, nextIndex: nat)
    requires k > 0 && Linked(l, k, t, at) && TopLevel(l, k, t, at, currentLevel)
    requires maxNodes == k || (maxNodes <= 0 && |currentLevel| <= k)
    modifies (set n | n in currentLevel)`parent
    ensures |newLevel| == CeilDiv(|currentLevel|, k) && nextIndex == nextParentIndex + |newLevel|
    ensures forall x :: 0 <= x < |newLevel| ==>
              fresh(newLevel[x]) && newLevel[x].index == nextParentIndex + x && newLevel[x].cid == "" && newLevel[x].data == None
    ensures Linked(l, k, t + 1, Grown(at, t + 1, newLevel)) && TopLevel(l, k, t + 1, Grown(at, t + 1, newLevel), newLevel)
  {
    hide *;
    GroupingStarts(l, k, t, at, currentLevel);
    newLevel, nextIndex := [], nextParentIndex;
    var tempNodes: seq<TreeNode> := [];
    for i := 0 to |currentLevel|
      invariant Filling(k, |currentLevel|, |newLevel|, i) && nextIndex == nextParentIndex + |newLevel|
      invariant forall x :: 0 <= x < |newLevel| ==>
                  && fresh(newLevel[x]) && newLevel[x].index == nextParentIndex + x
                  && newLevel[x].cid == "" && newLevel[x].data == None
      invariant Grouped(k, t, currentLevel, newLevel) && Linked(l, k, t, at)
      invariant i < |currentLevel| ==> Start(|newLevel|, k) <= i && tempNodes == currentLevel[Start(|newLevel|, k)..i]
    {
      FillingStep(k, |currentLevel|, |newLevel|, i);
      LastPosition(currentLevel, i);
      var node := currentLevel[i];
      tempNodes := tempNodes + [node];
      SameGroups(maxNodes, k, |currentLevel|, |newLevel|, i, |tempNodes|);
      if |tempNodes| == maxNodes || (node == currentLevel[|currentLevel| - 1] && |tempNodes| > 0) {
        var parent := CloseGroup(currentLevel, tempNodes, newLevel, nextIndex, l, k, t, at);
        nextIndex := nextIndex + 1;
        newLevel := newLevel + [parent];
        tempNodes := [];
      }
    }
    FillingEnds(k, |currentLevel|, |newLevel|);
    LevelAdded(l, k, t, at, currentLevel, newLevel);
  }

  /** Without an upper limit on the nodes of a group, a level of at most k nodes is one group. */
  lemma SameGroups(maxNodes: int, k: nat, size: nat, q: nat, i: nat, collected: nat)
    requires k > 0 && (maxNodes == k || (maxNodes <= 0 && size <= k))
    requires i < size && Filling(k, size, q, i) && collected == i + 1 - Start(q, k)
    ensures collected == maxNodes || i == size - 1 <==> collected == k || i == size - 1
  {
  }

  lemma LastPosition(nodes: seq<TreeNode>, i: nat)
    requires NoRepeat(nodes) && i < |nodes|
    ensures nodes[i] == nodes[|nodes| - 1] <==> i == |nodes| - 1
  {
  }

  lemma FillingEnds(k: nat, size: nat, q: nat)
    requires k > 0 && Filling(k, size, q, size)
    ensures q == CeilDiv(size, k)
  {
  }

  lemma GroupingStarts(l: nat, k: nat, t: nat, at: Nodes, nodes: seq<TreeNode>)
    requires k > 0 && Linked(l, k, t, at) && TopLevel(l, k, t, at, nodes)
    ensures Filling(k, |nodes|, 0, 0) && Start(0, k) == 0 && Grouped(k, t, nodes, []) && NoRepeat(nodes)
    ensures |nodes| == Size(l, k, t) && forall j :: 0 <= j < |nodes| ==> Place(t, j) in at && nodes[j] == at[Place(t, j)]
  {
    LevelDistinct(l, k, t, at, nodes);
    CeilUnique(0, k, 0);
  }

  /** Every node has its index. */
  ghost predicate IndicesRight(l: nat, k: nat, at: Nodes)
    requires k > 0
  {
    forall p :: p in at ==> at[p].index == IndexOf(l, k, p)
  }

  lemma LeavesReady(l: nat, k: nat, leaves: seq<TreeNode>)
    requires k > 0 && |leaves| == l
    requires forall x :: 0 <= x < l ==>
               leaves[x].place == Place(0, x) && leaves[x].index == x && leaves[x].children == [] && leaves[x].parent == null
    ensures var at := Grown(map[], 0, leaves);
            && Linked(l, k, 0, at) && TopLevel(l, k, 0, at, leaves) && IndicesRight(l, k, at)
            && forall x :: 0 <= x < l ==> Place(0, x) in at && at[Place(0, x)] == leaves[x]
    ensures l == Size(l, k, 0) == Total(l, k, 0)
  {
    var at := Grown(map[], 0, leaves);
    forall p
      ensures p in at <==> InTree(l, k, 0, p)
    {
      if p.level == 0 {
        assert p == Place(0, p.pos);
      }
    }
  }

  lemma NextLevelReady(l: nat, k: nat, t: nat, at: Nodes, newLevel: seq<TreeNode>)
    requires k > 0 && IndicesRight(l, k, at) && Placed(l, k, t, at) && |newLevel| == CeilDiv(Size(l, k, t), k)
    requires forall x :: 0 <= x < |newLevel| ==> newLevel[x].index == Total(l, k, t) + x
    ensures IndicesRight(l, k, Grown(at, t + 1, newLevel)) && Total(l, k, t + 1) == Total(l, k, t) + |newLevel|
    ensures |newLevel| == Size(l, k, t + 1)
    ensures forall q :: q in at ==> q in Grown(at, t + 1, newLevel) && Grown(at, t + 1, newLevel)[q] == at[q]
  {
    hide Size, Total;
    assert Size(l, k, t + 1) == CeilDiv(Size(l, k, t), k) && Total(l, k, t + 1) == Total(l, k, t) + Size(l, k, t + 1) by {
      TotalStep(l, k, t);
    }
  }

  lemma TotalStep(l: nat, k: nat, t: nat)
    requires k > 0
    ensures Size(l, k, t + 1) == CeilDiv(Size(l, k, t), k) && Total(l, k, t + 1) == Total(l, k, t) + Size(l, k, t + 1)
  {
  }

  /** Builds a parity tree over l leaves; the tree and the map of its leaves. */
  method CreateParityTree(l: nat, maxNodes: int)
    returns (root: TreeNode, leafMap: map<nat, TreeNode>, ghost sh: Shape, ghost at: Nodes)
    requires l >= 1 && (maxNodes != 1 || l == 1)
    ensures sh.l == l && sh.k == Arity(l, maxNodes) && forall t :: 0 <= t < sh.h ==> Size(l, sh.k, t) > 1
    ensures Whole(sh, at) && IndicesRight(l, sh.k, at) && Blank(at) && forall q :: q in at ==> fresh(at[q])
    ensures sh.Root() in at && root == at[sh.Root()] && root.parent == null
    ensures forall i :: i in leafMap <==> 0 <= i < l
    ensures forall i :: 0 <= i < l ==> Place(0, i) in at && leafMap[i] == at[Place(0, i)]
  {
    hide *;
    ghost var k := Arity(l, maxNodes);
    var leaves: seq<TreeNode> := [];
    for i := 0 to l
      invariant |leaves| == i
      invariant forall x :: 0 <= x < i ==>
                  fresh(leaves[x]) && leaves[x].place == Place(0, x) && leaves[x].index == x
                  && leaves[x].children == [] && leaves[x].parent == null && leaves[x].cid == "" && leaves[x].data == None
    {
      var leaf := new TreeNode(Place(0, i), i, []);
      leaves := leaves + [leaf];
    }
    leafMap := map[];
    for i := 0 to l
      invariant forall x :: x in leafMap <==> 0 <= x < i
      invariant forall x :: 0 <= x < i ==> leafMap[x] == leaves[x]
    {
      leafMap := leafMap[leaves[i].index := leaves[i]];
    }
    at := Grown(map[], 0, leaves);
    LeavesReady(l, k, leaves);
    GrownNodes(map[], 0, leaves);
    var currentLevel, nextParentIndex := leaves, l;
    ghost var t := 0;
    while |currentLevel| > 1
      invariant |currentLevel| == Size(l, k, t) && 1 <= |currentLevel| <= l && nextParentIndex == Total(l, k, t)
      invariant Linked(l, k, t, at) && TopLevel(l, k, t, at, currentLevel) && IndicesRight(l, k, at)
      invariant forall x :: 0 <= x < |currentLevel| ==> fresh(currentLevel[x])
      invariant forall q :: q in at ==> at[q].cid == "" && at[q].data == None
      invariant forall q :: q in at ==> fresh(at[q])
      invariant forall x :: 0 <= x < l ==> Place(0, x) in at && at[Place(0, x)] == leaves[x]
      invariant forall u :: 0 <= u < t ==> Size(l, k, u) > 1
      decreases |currentLevel|
    {
      LevelShrinks(|currentLevel|, k);
      PlacedOf(l, k, t, at);
      var newLevel;
      FewEnough(l, maxNodes, t);
      newLevel, nextParentIndex := GroupParityLevel(currentLevel, maxNodes, nextParentIndex, l, k, t, at);
      NextLevelReady(l, k, t, at, newLevel);
      GrownNodes(at, t + 1, newLevel);
      at := Grown(at, t + 1, newLevel);
      currentLevel := newLevel;
      t := t + 1;
    }
    root := currentLevel[0];
    sh := Shape(l, k, t);
    ShapeValid(sh);
    TreeBuild.TopIsRoot(sh, at, currentLevel);
    NothingKnown(at);
  }

  /** With no upper limit on a group, every level fits in one. */
  lemma FewEnough(l: nat, maxNodes: int, t: nat)
    requires l >= 2 && maxNodes != 1
    ensures maxNodes == Arity(l, maxNodes) || (maxNodes <= 0 && Size(l, Arity(l, maxNodes), t) <= Arity(l, maxNodes))
  {
    if t > 0 && maxNodes < 1 {
      FewEnough(l, maxNodes, t - 1);
      var x := Size(l, l, t - 1);
      CeilUnique(x, l, if x == 0 then 0 else 1);
    }
  }

  lemma NothingKnown(at: Nodes)
    requires forall q :: q in at ==> at[q].cid == "" && at[q].data == None
    ensures Blank(at)
  {
  }

  lemma PlacedOf(l: nat, k: nat, t: nat, at: Nodes)
    requires k > 0 && Linked(l, k, t, at)
    ensures Placed(l, k, t, at)
  {
  }

  lemma ShapeValid(sh: Shape)
    requires sh.k > 0 && Size(sh.l, sh.k, sh.h) == 1
    ensures sh.Valid()
  {
  }
}
