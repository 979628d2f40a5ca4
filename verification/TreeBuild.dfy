/**
  Construction of the file tree with its lattice labels, and of the parity trees.
 */
module TreeBuild {
  import opened Reslicing
  import opened TreeShape
  import opened TreeLabels
  import opened Trees
  import opened TreeWalks

  // ----- the swaps

  /** The labels after the swaps of the given inner nodes, one after the other. */
  function SwapEach(sh: Shape, s: nat, window: nat, places: seq<Place>): (labels: seq<nat>)
    requires sh.Valid() && s > 0
    requires forall q :: q in places ==> sh.Has(q) && 0 < q.level < sh.h
    ensures |labels| == |sh.Order()|
  {
    if places == [] then Ascending(|sh.Order()|) else
      var q := places[|places| - 1];
      NotFirst(sh, q);
      Exchanged(SwapEach(sh, s, window, places[..|places| - 1]), sh.SwapTarget(s, window, q), sh.Number(q) - 1)
  }

  lemma NotFirst(sh: Shape, q: Place)
    requires sh.Valid() && sh.Has(q) && q.level < sh.h
    ensures sh.Number(q) > 0
  {
    sh.OrderComplete();
  }

  /** Swapping for every listed inner node is the pass over all numbers. */
  lemma {:induction false} SwapEachIsPass(sh: Shape, s: nat, window: nat, n: nat)
    requires sh.Valid() && s > 0 && n <= |sh.Order()|
    ensures forall q :: q in Inner(sh, sh.Order()[..n]) ==> sh.Has(q) && 0 < q.level < sh.h
    ensures SwapEach(sh, s, window, Inner(sh, sh.Order()[..n])) == sh.SwapPass(s, window, n)
  {
    InnerIsInner(sh, sh.Order()[..n]);
    sh.OrderComplete();
    if n > 0 {
      SwapEachIsPass(sh, s, window, n - 1);
      SwapEachStep(sh, s, window, n);
    }
  }

  lemma SwapEachStep(sh: Shape, s: nat, window: nat, n: nat)
    requires sh.Valid() && s > 0 && 0 < n <= |sh.Order()|
    requires forall q :: q in Inner(sh, sh.Order()[..n - 1]) ==> sh.Has(q) && 0 < q.level < sh.h
    requires SwapEach(sh, s, window, Inner(sh, sh.Order()[..n - 1])) == sh.SwapPass(s, window, n - 1)
    requires forall q :: q in Inner(sh, sh.Order()[..n]) ==> sh.Has(q) && 0 < q.level < sh.h
    ensures SwapEach(sh, s, window, Inner(sh, sh.Order()[..n])) == sh.SwapPass(s, window, n)
  {
    hide *;
    var before, after := Inner(sh, sh.Order()[..n - 1]), Inner(sh, sh.Order()[..n]);
    var q := sh.Order()[n - 1];
    NumberOf(sh, n - 1);
    InnerSnoc(sh, sh.Order(), n);
    if n == 1 {
      PassStarts(sh, s, window, 0);
      PassStarts(sh, s, window, 1);
      assert sh.SwapPass(s, window, 1) == sh.SwapPass(s, window, 0);
    } else {
      var p, j := PassStep(sh, s, window, n);
      if q.level > 0 {
        SwapEachNext(sh, s, window, after, |before|);
        assert after[..|before| + 1] == after;
      }
    }
  }

  lemma NumberOf(sh: Shape, x: nat)
    requires sh.Valid() && x < |sh.Order()|
    ensures sh.Has(sh.Order()[x]) && sh.Number(sh.Order()[x]) == x
    ensures if x == 0 then sh.Order()[x].level == sh.h else sh.Order()[x].level < sh.h
  {
    sh.OrderComplete();
    var order, q := sh.Order(), sh.Order()[x];
    hide Shape.Order;
    assert q in order;
    assert order[sh.Number(q)] == order[x];
    if x > 0 {
      assert order[0] != q && q != sh.Root();
      assert q.level == sh.h ==> q.pos == 0;
    }
  }

  lemma InnerSnoc(sh: Shape, places: seq<Place>, n: nat)
    requires 0 < n <= |places|
    ensures var before, after, q := Inner(sh, places[..n - 1]), Inner(sh, places[..n]), places[n - 1];
            if 0 < q.level < sh.h then after == before + [q] && after[..|before|] == before else after == before
  {
    assert places[..n][..n - 1] == places[..n - 1];
  }

  lemma SwapEachNext(sh: Shape, s: nat, window: nat, places: seq<Place>, x: nat)
    requires sh.Valid() && s > 0 && x < |places|
    requires forall q :: q in places ==> sh.Has(q) && 0 < q.level < sh.h
    ensures sh.Number(places[x]) > 0
    ensures SwapEach(sh, s, window, places[..x + 1]) ==
            Exchanged(SwapEach(sh, s, window, places[..x]), sh.SwapTarget(s, window, places[x]), sh.Number(places[x]) - 1)
  {
    assert places[..x + 1][..x] == places[..x];
    NotFirst(sh, places[x]);
  }

  ghost predicate Labelled(sh: Shape, at: Nodes, labels: seq<nat>)
    requires Whole(sh, at) && |labels| == |sh.Order()|
    reads at.Values`children, at.Values`parent, at.Values`latticeIdx
  {
    forall q :: q in at ==> at[q].latticeIdx == labels[sh.Number(q)]
  }

  /** The nodes by their numbers. */
  ghost predicate ByNumber(sh: Shape, at: Nodes, nodes: array<TreeNode?>)
    requires Whole(sh, at)
    reads at.Values`children, at.Values`parent, nodes
  {
    && nodes.Length == |sh.Order()|
    && forall x :: 0 <= x < nodes.Length ==> sh.Order()[x] in at && nodes[x] == at[sh.Order()[x]]
  }

  lemma AllByNumber(sh: Shape, at: Nodes, nodes: array<TreeNode?>)
    requires Whole(sh, at) && nodes.Length == |sh.Order()|
    requires forall q :: q in at && q in Under(sh, sh.Root()) ==> nodes[sh.Number(q)] == at[q]
    ensures ByNumber(sh, at, nodes)
  {
    sh.OrderComplete();
    forall x | 0 <= x < nodes.Length
      ensures sh.Order()[x] in at && nodes[x] == at[sh.Order()[x]]
    {
      var q := sh.Order()[x];
      assert q in sh.Order() && sh.Number(q) == x;
    }
  }

  /** What the scan for a swap partner looks at. */
  lemma NodeSeen(sh: Shape, at: Nodes, nodes: array<TreeNode?>, x: nat)
    requires Whole(sh, at) && AllNumbered(sh, at) && ByNumber(sh, at, nodes) && x < nodes.Length
    ensures nodes[x] != null && nodes[x] in at.Values && nodes[x].preOrderIdx == x
    ensures |nodes[x].children| == 0 <==> sh.Order()[x].level == 0
  {
    sh.OrderComplete();
    var q := sh.Order()[x];
    NodeOf(sh, at, q);
    assert at[q].preOrderIdx == sh.Number(q);
  }

  /** The numbers of an inner node and of its first and last children, as fields of the nodes. */
  lemma FamilyNumbers(sh: Shape, at: Nodes, q: Place)
    requires Whole(sh, at) && AllNumbered(sh, at) && q in at && 0 < q.level < sh.h
    ensures sh.Valid() && sh.Has(q) && |at[q].children| > 0 && at[q].preOrderIdx == sh.Number(q) > 0
    ensures sh.Has(Child(sh.k, q, 0)) && at[q].children[0].preOrderIdx == sh.Number(Child(sh.k, q, 0))
    ensures sh.Has(sh.LastChild(q))
    ensures at[q].children[|at[q].children| - 1].preOrderIdx == sh.Number(sh.LastChild(q))
  {
    NodeOf(sh, at, q);
    assert ChildrenLinked(sh.l, sh.k, at, q);
    ChildInTree(sh.l, sh.k, sh.h, q, 0);
    ChildInTree(sh.l, sh.k, sh.h, q, ChildCount(sh.l, sh.k, q) - 1);
    NotFirst(sh, q);
  }

  /** Exchanging the labels of two nodes. */
  lemma LabelsExchanged(sh: Shape, at: Nodes, nodes: array<TreeNode?>, labels: seq<nat>, j: nat, y: nat)
    requires Whole(sh, at) && ByNumber(sh, at, nodes) && |labels| == |sh.Order()|
    requires j < nodes.Length && y < nodes.Length && nodes[j] != null && nodes[y] != null
    requires forall q :: q in at && at[q] != nodes[j] && at[q] != nodes[y] ==> at[q].latticeIdx == labels[sh.Number(q)]
    requires nodes[j].latticeIdx == labels[y] && nodes[y].latticeIdx == labels[j]
    ensures Labelled(sh, at, Exchanged(labels, j, y))
  {
    forall q | q in at
      ensures at[q].latticeIdx == Exchanged(labels, j, y)[sh.Number(q)]
    {
      var x := sh.Number(q);
      assert nodes[x] == at[q];
      assert sh.Order()[x] == q;
      sh.OrderComplete();
    }
  }

  lemma TargetScan(sh: Shape, s: nat, window: nat, q: Place)
    requires sh.Valid() && s > 0 && sh.Has(q) && q.level > 0
    requires sh.Has(Child(sh.k, q, 0)) && sh.Has(sh.LastChild(q))
    ensures sh.SwapTarget(s, window, q) ==
            FirstOutside(sh.Order(), s, sh.Number(Child(sh.k, q, 0)) - window, sh.Number(sh.LastChild(q)) + window, window)
  {
  }

  lemma ScanStep(order: seq<Place>, s: nat, low: int, high: int, j: nat)
    requires s > 0
    ensures FirstOutside(order, s, low, high, j) ==
            if j >= |order| || (order[j].level == 0 && !(low < j < high)) then j
            else FirstOutside(order, s, low, high, j + s)
  {
  }

  /** The number of the leaf that an inner node's swap is made with, or one past the last node. */
  method FindTarget(internalNode: TreeNode, nodes: array<TreeNode?>, s: nat, window: nat, size: nat,
                    ghost sh: Shape, ghost at: Nodes, ghost q: Place)
    returns (j: nat)
    requires Whole(sh, at) && AllNumbered(sh, at) && ByNumber(sh, at, nodes) && s > 0 && size == |sh.Order()| == nodes.Length
    requires q in at && internalNode == at[q] && 0 < q.level < sh.h
    ensures sh.Has(q) && j == sh.SwapTarget(s, window, q)
  {
    hide *;
    FamilyNumbers(sh, at, q);
    TargetScan(sh, s, window, q);
    var low := internalNode.children[0].preOrderIdx - window;
    var high := internalNode.children[|internalNode.children| - 1].preOrderIdx + window;
    j := window;
    while j < size
      invariant sh.SwapTarget(s, window, q) == FirstOutside(sh.Order(), s, low, high, j)
    {
      ScanStep(sh.Order(), s, low, high, j);
      NodeSeen(sh, at, nodes, j);
      var inWindow := low < nodes[j].preOrderIdx < high;
      if !inWindow && |nodes[j].children| == 0 {
        return;
      }
      j := j + s;
    }
    ScanStep(sh.Order(), s, low, high, j);
  }

  /** The swap made for one inner node: the node numbered one less exchanges labels with the leaf found. */
  method SwapNode(internalNode: TreeNode, nodes: array<TreeNode?>, s: nat, window: nat, size: nat,
                  ghost sh: Shape, ghost at: Nodes, ghost q: Place, ghost labels: seq<nat>)
    requires Whole(sh, at) && AllNumbered(sh, at) && ByNumber(sh, at, nodes) && s > 0 && size == |sh.Order()| == nodes.Length
    requires q in at && internalNode == at[q] && 0 < q.level < sh.h && sh.Has(q)
    requires |labels| == |sh.Order()| && Labelled(sh, at, labels)
    modifies at.Values`latticeIdx
    ensures sh.Number(q) > 0 && Labelled(sh, at, Exchanged(labels, sh.SwapTarget(s, window, q), sh.Number(q) - 1))
  {
    hide *;
    var j := FindTarget(internalNode, nodes, s, window, size, sh, at, q);
    FamilyNumbers(sh, at, q);
    var y := internalNode.preOrderIdx - 1;
    if j < size {
      LabelOfNumber(sh, at, nodes, labels, j);
      LabelOfNumber(sh, at, nodes, labels, y);
      NodeSeen(sh, at, nodes, j);
      NodeSeen(sh, at, nodes, y);
      nodes[j].latticeIdx, nodes[y].latticeIdx := nodes[y].latticeIdx, nodes[j].latticeIdx;
      LabelsExchanged(sh, at, nodes, labels, j, y);
    } else {
      NoExchange(labels, j, y);
    }
  }

  lemma LabelOfNumber(sh: Shape, at: Nodes, nodes: array<TreeNode?>, labels: seq<nat>, x: nat)
    requires Whole(sh, at) && ByNumber(sh, at, nodes) && |labels| == |sh.Order()| && Labelled(sh, at, labels)
    requires x < nodes.Length
    ensures nodes[x] != null && nodes[x].latticeIdx == labels[x]
    ensures forall q :: q in at && at[q] != nodes[x] ==> at[q].latticeIdx == labels[sh.Number(q)]
  {
    sh.OrderComplete();
    assert sh.Number(sh.Order()[x]) == x;
  }

  lemma NoExchange(labels: seq<nat>, j: nat, y: nat)
    requires j >= |labels| > y
    ensures Exchanged(labels, j, y) == labels
  {
  }

  /** Exchanges lattice labels for every inner node but the root. */
  method SwapUnflattenedTree(root: TreeNode, s: nat, p: nat, size: nat, ghost sh: Shape, ghost at: Nodes)
    requires Whole(sh, at) && AllNumbered(sh, at) && Labelled(sh, at, Ascending(|sh.Order()|))
    requires sh.Root() in at && root == at[sh.Root()] && s > 0 && size == |sh.Order()|
    modifies at.Values`latticeIdx
    ensures Labelled(sh, at, sh.SwapPass(s, s * p, size))
  {
    hide *;
    var window := s * p;
    NoneListed(sh, at);
    ghost var inner := Inner(sh, sh.Order());
    InnerOfOrder(sh, s, window);
    var internals := CollectInternals(root, root, [], sh, at, sh.Root(), []);
    assert [] + inner == inner;
    ListedAll(at, inner, internals);
    var nodes: array<TreeNode?> := new TreeNode?[size](_ => null);
    CollectNodes(root, nodes, sh, at, sh.Root());
    AllByNumber(sh, at, nodes);
    ghost var labels := Ascending(|sh.Order()|);
    assert inner[..0] == [];
    for x := 0 to |internals|
      invariant sh.Valid() && labels == SwapEach(sh, s, window, inner[..x])
      invariant Whole(sh, at) && AllNumbered(sh, at) && ByNumber(sh, at, nodes) && Labelled(sh, at, labels)
    {
      ListedNode(at, inner, internals, x);
      SwapNode(internals[x], nodes, s, window, size, sh, at, inner[x], labels);
      SwapEachNext(sh, s, window, inner, x);
      labels := SwapEach(sh, s, window, inner[..x + 1]);
    }
    assert inner[..|inner|] == inner;
  }

  lemma InnerOfOrder(sh: Shape, s: nat, window: nat)
    requires sh.Valid() && s > 0
    ensures forall q :: q in Inner(sh, sh.Order()) ==> sh.Has(q) && 0 < q.level < sh.h
    ensures SwapEach(sh, s, window, []) == Ascending(|sh.Order()|)
    ensures SwapEach(sh, s, window, Inner(sh, sh.Order())) == sh.SwapPass(s, window, |sh.Order()|)
  {
    assert sh.Order()[..|sh.Order()|] == sh.Order();
    SwapEachIsPass(sh, s, window, |sh.Order()|);
  }

  lemma ListedAll(at: Nodes, places: seq<Place>, nodes: seq<TreeNode>)
    requires AreNodes(at, places, nodes)
    ensures |nodes| == |places|
  {
  }

  lemma ListedNode(at: Nodes, places: seq<Place>, nodes: seq<TreeNode>, x: nat)
    requires AreNodes(at, places, nodes) && x < |nodes|
    ensures |nodes| == |places| && places[x] in at && nodes[x] == at[places[x]]
  {
  }

  lemma NoneListed(sh: Shape, at: Nodes)
    requires Whole(sh, at) && sh.Root() in at
    ensures AreNodes(at, [], []) && sh.Valid() && Under(sh, sh.Root()) == sh.Order()
    ensures [] + Inner(sh, Under(sh, sh.Root())) == Inner(sh, sh.Order())
  {
  }

  // ----- the file tree

  /** The number of leaves, the arity, the depth and the number of nodes belong to one tree. */
  ghost predicate Meets(l: nat, k: nat, d: int, n: int)
    requires k > 0
  {
    && d >= 1 && Size(l, k, d - 1) == 1 && n == Total(l, k, d - 1)
    && forall t :: 0 <= t < d - 1 ==> Size(l, k, t) != 1
  }

  /** The lowest levels have more than one node each; the level above them is the first that has at most one. */
  lemma FirstSmallLevel(l: nat, k: nat, t: nat, d: int, n: int)
    requires k > 0 && forall u :: 0 <= u < t ==> Size(l, k, u) > 1
    ensures Size(l, k, t) <= 1 ==> (Meets(l, k, d, n) <==> Size(l, k, t) == 1 && d == t + 1 && n == Total(l, k, t))
    ensures d <= t ==> !Meets(l, k, d, n)
  {
    if Size(l, k, t) <= 1 && d - 1 > t {
      SizeStaysSmall(l, k, t, d - 1);
    }
  }

  /** The depth is one more than the least t with k^t >= l, and n counts the nodes of such a tree. */
  ghost predicate Describes(l: nat, k: nat, d: int, n: int)
    requires k > 0
  {
    && l >= 1 && d >= 1 && Pow(k, d - 1) >= l && n == Total(l, k, d - 1)
    && forall t :: 0 <= t < d - 1 ==> Pow(k, t) < l
  }

  lemma MeetsIff(l: nat, k: nat, d: int, n: int)
    requires k > 0
    ensures Meets(l, k, d, n) <==> Describes(l, k, d, n)
  {
    assert Size(l, k, 0) == l;
    if d >= 1 && l == 0 {
      SizeStaysSmall(0, k, 0, d - 1);
    } else if d >= 1 {
      SingleIff(l, k, d - 1);
      hide Size, Pow, Total;
      if Meets(l, k, d, n) {
        forall t | 0 <= t < d - 1
          ensures Pow(k, t) < l
        {
          SingleIff(l, k, t);
        }
      } else if Describes(l, k, d, n) {
        forall t | 0 <= t < d - 1
          ensures Size(l, k, t) != 1
        {
          SingleIff(l, k, t);
        }
      }
    }
  }

  lemma LeavesLinked(l: nat, k: nat, leaves: seq<TreeNode>)
    requires k > 0 && |leaves| == l
    requires forall x :: 0 <= x < l ==> leaves[x].place == Place(0, x) && leaves[x].children == [] && leaves[x].parent == null
    ensures Linked(l, k, 0, Grown(map[], 0, leaves)) && TopLevel(l, k, 0, Grown(map[], 0, leaves), leaves)
  {
    var at := Grown(map[], 0, leaves);
    forall p
      ensures p in at <==> InTree(l, k, 0, p)
    {
      if p.level == 0 {
        assert p == Place(0, p.pos);
      }
    }
  }

  /** The finished tree with its numbers, lattice labels and index maps. */
  ghost predicate Indexed(sh: Shape, at: Nodes, labels: seq<nat>, childParent: map<nat, nat>, indexMap: map<nat, TreeNode>)
    reads at.Values`children, at.Values`parent, at.Values`preOrderIdx, at.Values`latticeIdx
  {
    && Whole(sh, at) && AllNumbered(sh, at)
    && |labels| == |sh.Order()| && Permutation(labels) && Labelled(sh, at, labels) && ParentMap(sh, labels, childParent)
    && (forall i :: i in indexMap <==> 0 <= i < |labels|)
    && forall q :: q in at ==> indexMap[at[q].latticeIdx] == at[q]
  }

  lemma LevelSteps(l: nat, k: nat, t: nat)
    requires k > 0
    ensures Size(l, k, 0) == l == Total(l, k, 0)
    ensures Size(l, k, t + 1) == CeilDiv(Size(l, k, t), k) && Total(l, k, t + 1) == Total(l, k, t) + Size(l, k, t + 1)
  {
  }

  /** Builds levels bottom-up until at most one node is on top or there are more than d levels. */
  method BuildLevels(l: nat, k: nat, d: int)
    returns (nodes: seq<TreeNode>, totalNodes: nat, currentDepth: nat, ghost at: Nodes)
    requires k > 0
    ensures currentDepth >= 1 && |nodes| == Size(l, k, currentDepth - 1) && totalNodes == Total(l, k, currentDepth - 1)
    ensures Linked(l, k, currentDepth - 1, at) && TopLevel(l, k, currentDepth - 1, at, nodes)
    ensures Blank(at) && forall q :: q in at ==> fresh(at[q])
    ensures forall u :: 0 <= u < currentDepth - 1 ==> Size(l, k, u) > 1
    ensures |nodes| <= 1 || currentDepth > d
  {
    hide Linked, TopLevel, Grown, Size, Total, CeilDiv;
    nodes := [];
    for i := 0 to l
      invariant |nodes| == i && forall x :: 0 <= x < i ==>
                  && fresh(nodes[x]) && nodes[x].place == Place(0, x) && nodes[x].children == [] && nodes[x].parent == null
                  && nodes[x].cid == "" && nodes[x].data == None
    {
      var leaf := new TreeNode(Place(0, i), 0, []);
      nodes := nodes + [leaf];
    }
    at := Grown(map[], 0, nodes);
    LeavesLinked(l, k, nodes);
    GrownNodes(map[], 0, nodes);
    LevelSteps(l, k, 0);
    totalNodes, currentDepth := l, 1;
    ghost var t := 0;
    while |nodes| > 1 && currentDepth <= d
      invariant t == currentDepth - 1 && |nodes| == Size(l, k, t) && totalNodes == Total(l, k, t)
      invariant Linked(l, k, t, at) && TopLevel(l, k, t, at, nodes)
      invariant forall x :: 0 <= x < |nodes| ==> fresh(nodes[x])
      invariant Blank(at) && forall q :: q in at ==> fresh(at[q])
      invariant forall u :: 0 <= u < t ==> Size(l, k, u) > 1
      decreases d + 1 - currentDepth
    {
      var parents := GroupLevel(nodes, k, l, t, at);
      LevelSteps(l, k, t);
      GrownNodes(at, t + 1, parents);
      at := Grown(at, t + 1, parents);
      nodes := parents;
      totalNodes := totalNodes + |parents|;
      currentDepth := currentDepth + 1;
      t := t + 1;
    }
  }

  lemma TopIsRoot(sh: Shape, at: Nodes, nodes: seq<TreeNode>)
    requires sh.Valid() && Linked(sh.l, sh.k, sh.h, at) && TopLevel(sh.l, sh.k, sh.h, at, nodes)
    ensures Whole(sh, at) && |nodes| == 1 && sh.Root() in at && nodes[0] == at[sh.Root()] && nodes[0].parent == null
  {
    assert sh.Root() == Place(sh.h, 0);
  }

  lemma NumberedInOrder(sh: Shape, at: Nodes)
    requires Whole(sh, at) && Numbered(at, sh.Order(), 0)
    ensures AllNumbered(sh, at) && Labelled(sh, at, Ascending(|sh.Order()|))
  {
    forall q | q in at
      ensures at[q].preOrderIdx == sh.Number(q) == at[q].latticeIdx
    {
      assert sh.Order()[sh.Number(q)] == q;
    }
  }

  lemma PermutedLabelsDistinct(sh: Shape, at: Nodes, labels: seq<nat>)
    requires Whole(sh, at) && |labels| == |sh.Order()| && Permutation(labels) && Labelled(sh, at, labels)
    ensures DistinctLabels(at, |labels|)
  {
    forall q, r | q in at && r in at && q != r
      ensures at[q].latticeIdx != at[r].latticeIdx
    {
      var x, y := sh.Number(q), sh.Number(r);
      assert sh.Order()[x] == q && sh.Order()[y] == r;
    }
  }

  lemma NodesMapped(sh: Shape, at: Nodes, labels: seq<nat>, indexMap: map<nat, TreeNode>)
    requires Whole(sh, at) && |labels| == |sh.Order()| && Permutation(labels) && Labelled(sh, at, labels)
    requires KeysBelow(indexMap, |labels|) && forall q :: q in at ==> NodeMapped(at, indexMap, q)
    ensures forall i :: i in indexMap <==> 0 <= i < |labels|
    ensures forall q :: q in at ==> at[q].latticeIdx in indexMap && indexMap[at[q].latticeIdx] == at[q]
  {
    forall i | 0 <= i < |labels|
      ensures i in indexMap
    {
      var q := LabelledNode(sh, labels, i);
      hide Permutation;
      assert NodeMapped(at, indexMap, q);
    }
  }

  lemma ParentLabel(sh: Shape, at: Nodes, labels: seq<nat>, childParent: map<nat, nat>, q: Place)
    requires Whole(sh, at) && |labels| == |sh.Order()| && Labelled(sh, at, labels)
    requires sh.Has(q) && ParentMapped(sh, at, childParent, q)
    ensures at[q].latticeIdx == labels[sh.Number(q)] && at[q].latticeIdx in childParent
    ensures sh.Has(sh.Over(q)) && childParent[labels[sh.Number(q)]] == labels[sh.Number(sh.Over(q))]
  {
    hide ChildrenLinked, ParentLinked, Size, Shape.Over, Shape.Order;
  }

  lemma ParentsMapped(sh: Shape, at: Nodes, labels: seq<nat>, childParent: map<nat, nat>)
    requires Whole(sh, at) && |labels| == |sh.Order()| && Permutation(labels) && Labelled(sh, at, labels)
    requires KeysBelow(childParent, |labels|) && forall q :: q in at ==> ParentMapped(sh, at, childParent, q)
    ensures ParentMap(sh, labels, childParent)
  {
    hide Permutation, ParentMapped, Labelled, ChildrenLinked, ParentLinked, Size, Shape.Over, Shape.Order;
    forall i | 0 <= i < |labels|
      ensures i in childParent
    {
      var q := LabelledNode(sh, labels, i);
      ParentLabel(sh, at, labels, childParent, q);
    }
    forall q | sh.Has(q)
      ensures sh.Has(sh.Over(q)) && labels[sh.Number(q)] in childParent
      ensures childParent[labels[sh.Number(q)]] == labels[sh.Number(sh.Over(q))]
    {
      ParentLabel(sh, at, labels, childParent, q);
    }
  }

  lemma MapsStart(sh: Shape, at: Nodes, n: nat, childParent: map<nat, nat>, indexMap: map<nat, TreeNode>)
    requires Whole(sh, at) && sh.Root() in at && DistinctLabels(at, n)
    requires childParent == map[at[sh.Root()].latticeIdx := at[sh.Root()].latticeIdx] && indexMap == map[]
    ensures KeysBelow(childParent, n) && ParentMapped(sh, at, childParent, sh.Root()) && KeysBelow(indexMap, n)
  {
  }

  lemma AllUnderRoot(sh: Shape, at: Nodes)
    requires Whole(sh, at)
    ensures sh.Valid() && Under(sh, sh.Root()) == sh.Order()
    ensures forall q :: q in at ==> q in Under(sh, sh.Root())
  {
    sh.OrderComplete();
  }

  /** Numbers and labels the nodes of a linked tree, and maps the labels. */
  method IndexTree(root: TreeNode, n: nat, s: nat, p: nat, ghost sh: Shape, ghost at: Nodes)
    returns (childParent: map<nat, nat>, indexMap: map<nat, TreeNode>)
    requires Whole(sh, at) && sh.Root() in at && root == at[sh.Root()] && n == |sh.Order()| && s > 0
    modifies at.Values`preOrderIdx, at.Values`latticeIdx
    ensures Whole(sh, at) && Indexed(sh, at, sh.SwapPass(s, s * p, n), childParent, indexMap)
  {
    hide *;
    AllUnderRoot(sh, at);
    var _ := AssignPreOrderIndex(root, 0, sh, at, sh.Root());
    NumberedInOrder(sh, at);
    SwapUnflattenedTree(root, s, p, n, sh, at);
    ghost var labels := sh.SwapPass(s, s * p, n);
    PassPermutes(sh, s, s * p, n);
    PermutedLabelsDistinct(sh, at, labels);
    childParent, indexMap := map[root.latticeIdx := root.latticeIdx], map[];
    MapsStart(sh, at, n, childParent, indexMap);
    childParent, indexMap := MapNodes(root, childParent, indexMap, sh, at, sh.Root(), n);
    NodesMapped(sh, at, labels, indexMap);
    ParentsMapped(sh, at, labels, childParent);
    AllIndexed(sh, at, labels, childParent, indexMap);
  }

  lemma AllIndexed(sh: Shape, at: Nodes, labels: seq<nat>, childParent: map<nat, nat>, indexMap: map<nat, TreeNode>)
    requires Whole(sh, at) && AllNumbered(sh, at)
    requires |labels| == |sh.Order()| && Permutation(labels) && Labelled(sh, at, labels) && ParentMap(sh, labels, childParent)
    requires forall i :: i in indexMap <==> 0 <= i < |labels|
    requires forall q :: q in at ==> at[q].latticeIdx in indexMap && indexMap[at[q].latticeIdx] == at[q]
    ensures Indexed(sh, at, labels, childParent, indexMap)
  {
    hide Permutation, ParentMap, ChildrenLinked, ParentLinked, Size, Shape.Over, Shape.Order, AllNumbered;
  }

  /** Builds the file tree with its index maps; no root is an error. */
  method ConstructTree(l: nat, k: nat, d: int, n: int, s: nat, p: nat)
    returns (root: TreeNode?, childParent: map<nat, nat>, indexMap: map<nat, TreeNode>, ghost at: Nodes)
    requires k > 0 && s > 0
    ensures root != null <==> Describes(l, k, d, n)
    ensures root != null ==>
              var sh := Shape(l, k, d - 1);
              && Whole(sh, at) && |sh.Order()| == n
              && Indexed(sh, at, sh.SwapPass(s, s * p, n), childParent, indexMap)
              && sh.Root() in at && root == at[sh.Root()] && root.parent == null
              && Blank(at) && forall q :: q in at ==> fresh(at[q])
  {
    hide *;
    var nodes, totalNodes, currentDepth;
    nodes, totalNodes, currentDepth, at := BuildLevels(l, k, d);
    FirstSmallLevel(l, k, currentDepth - 1, d, n);
    MeetsIff(l, k, d, n);
    root, childParent, indexMap := null, map[], map[];
    if |nodes| == 1 && currentDepth == d && totalNodes == n {
      root := nodes[0];
      ghost var sh := Shape(l, k, d - 1);
      TopIsRoot(sh, at, nodes);
      sh.OrderComplete();
      childParent, indexMap := IndexTree(root, n, s, p, sh, at);
    }
  }
}
