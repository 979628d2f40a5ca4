/**
  Labels of the tree nodes in the lattice: at first the preorder number, then exchanged so that some leave
  the window around their children; and the map from a node's label to its parent's.
 */
module TreeLabels {
  import opened Reslicing
  import opened Sequences
  import opened TreeShape

  /** A complete tree: l leaves, at most k children per node, the root on level h. */
  datatype Shape = Shape(l: nat, k: nat, h: nat) {
    predicate Valid() {
      k > 0 && Size(l, k, h) == 1
    }

    predicate Has(p: Place)
      requires Valid()
    {
      InTree(l, k, h, p)
    }

    function Order(): seq<Place>
      requires Valid()
    {
      Pre(l, k, h, 0)
    }

    function Root(): Place {
      Place(h, 0)
    }

    /** Where the node's label points in the parent map. */
    function Over(p: Place): Place
      requires Valid()
    {
      if p.level < h then Parent(k, p) else p
    }

    function LastChild(p: Place): Place
      requires Valid() && Has(p) && p.level > 0
    {
      Child(k, p, ChildCount(l, k, p) - 1)
    }

    /** The preorder lists every node exactly once. */
    lemma OrderComplete()
      requires Valid()
      ensures |Order()| == Total(l, k, h) && NoRepeat(Order()) && Order()[0] == Root()
      ensures forall p :: p in Order() <==> Has(p)
    {
      PreLength(l, k, h);
      PreNoRepeat(l, k, h, 0);
      forall p
        ensures p in Order() <==> Has(p)
      {
        PreContains(l, k, h, 0, p);
        if Has(p) {
          UpInLevel(l, k, p.level, p.pos, h - p.level);
        }
      }
    }

    lemma RootHas()
      requires Valid()
      ensures Has(Root())
    {
    }

    lemma BelowRoot(p: Place)
      requires Valid() && Has(p)
      ensures p.level < h <==> p != Root()
    {
    }

    /** The node's preorder number. */
    function Number(p: Place): (x: nat)
      requires Valid() && Has(p)
      ensures x < |Order()| && Order()[x] == p
    {
      OrderComplete();
      PosOf(Order(), p)
    }

    /** The preorder number of the leaf that inner node p's swap is made with, or one past the last node. */
    function SwapTarget(s: nat, window: nat, p: Place): (j: nat)
      requires Valid() && s > 0 && Has(p) && p.level > 0
      ensures j < |Order()| ==> Order()[j].level == 0
    {
      ChildInTree(l, k, h, p, 0);
      ChildInTree(l, k, h, p, ChildCount(l, k, p) - 1);
      FirstOutside(Order(), s, Number(Child(k, p, 0)) - window, Number(LastChild(p)) + window, window)
    }

    /** The labels by preorder number, after the swaps of the inner nodes, without the root, numbered below n. */
    function SwapPass(s: nat, window: nat, n: nat): (labels: seq<nat>)
      requires Valid() && s > 0 && n <= |Order()|
      ensures |labels| == |Order()|
    {
      if n <= 1 then Ascending(|Order()|) else
        var before := SwapPass(s, window, n - 1);
        var p := Order()[n - 1];
        OrderComplete();
        if p.level == 0 then before else Exchanged(before, SwapTarget(s, window, p), n - 2)
    }
  }

  /** 0, 1, ..., n-1. */
  function Ascending(n: nat): (labels: seq<nat>)
    ensures |labels| == n
  {
    seq(n, i => i)
  }

  function Exchanged(labels: seq<nat>, j: nat, y: nat): (r: seq<nat>)
    requires y < |labels|
    ensures |r| == |labels|
  {
    if j < |labels| then labels[j := labels[y]][y := labels[j]] else labels
  }

  function PosOf(order: seq<Place>, p: Place): (x: nat)
    requires p in order
    ensures x < |order| && order[x] == p
  {
    if order[0] == p then 0 else 1 + PosOf(order[1..], p)
  }

  /** The first of positions j, j + s, j + 2s, ... that is a leaf and not strictly between low and high. */
  function FirstOutside(order: seq<Place>, s: nat, low: int, high: int, j: nat): (r: nat)
    requires s > 0
    ensures r < |order| ==> r >= j && order[r].level == 0 && !(low < r < high)
    ensures r >= |order| ==> r < |order| + s || r == j
    decreases |order| - j
  {
    if j >= |order| || (order[j].level == 0 && !(low < j < high)) then j
    else FirstOutside(order, s, low, high, j + s)
  }

  /** Position m of a scan that starts at from and takes steps of s. */
  function ScanAt(from: nat, s: nat, m: nat): (j: nat)
    ensures j >= from
  {
    if m == 0 then from else ScanAt(from, s, m - 1) + s
  }

  lemma {:induction false} ScanShift(from: nat, s: nat, m: nat)
    ensures ScanAt(from + s, s, m) == ScanAt(from, s, m + 1)
  {
    if m > 0 {
      ScanShift(from, s, m - 1);
    }
  }

  lemma {:induction false} ScanClosedForm(from: nat, s: nat, m: nat)
    ensures ScanAt(from, s, m) == from + m * s
  {
    if m > 0 {
      ScanClosedForm(from, s, m - 1);
      assert m * s == (m - 1) * s + s;
    }
  }

  /** A place that a swap accepts: a leaf not strictly between low and high. */
  predicate Accepts(order: seq<Place>, low: int, high: int, j: nat) {
    j < |order| && order[j].level == 0 && !(low < j < high)
  }

  lemma {:induction false} FirstOutsideLeast(order: seq<Place>, s: nat, low: int, high: int, j: nat) returns (m: nat)
    requires s > 0
    ensures FirstOutside(order, s, low, high, j) == ScanAt(j, s, m)
    ensures ScanAt(j, s, m) >= |order| || Accepts(order, low, high, ScanAt(j, s, m))
    ensures forall i: nat :: i < m ==> ScanAt(j, s, i) < |order| && !Accepts(order, low, high, ScanAt(j, s, i))
    decreases |order| - j
  {
    if j >= |order| || Accepts(order, low, high, j) {
      m := 0;
    } else {
      var m' := FirstOutsideLeast(order, s, low, high, j + s);
      m := m' + 1;
      ScanShift(j, s, m');
      forall i: nat | i < m
        ensures ScanAt(j, s, i) < |order| && !Accepts(order, low, high, ScanAt(j, s, i))
      {
        if i > 0 {
          ScanShift(j, s, i - 1);
        }
      }
    }
  }

  /**
    The leaf an inner node's swap is made with: the least one at a preorder number window + m*s
    (see ScanClosedForm) that does not lie within a window's distance of the node's children; if there is none,
    there is no swap.
   */
  lemma SwapTargetLeast(sh: Shape, s: nat, window: nat, p: Place)
    requires sh.Valid() && s > 0 && sh.Has(p) && p.level > 0
    ensures sh.Has(Child(sh.k, p, 0)) && sh.Has(sh.LastChild(p))
    ensures var j, low, high := sh.SwapTarget(s, window, p), sh.Number(Child(sh.k, p, 0)) - window, sh.Number(sh.LastChild(p)) + window;
            && (j < |sh.Order()| ==> Accepts(sh.Order(), low, high, j) && exists m: nat :: j == ScanAt(window, s, m))
            && forall m: nat :: Accepts(sh.Order(), low, high, ScanAt(window, s, m)) ==> j <= ScanAt(window, s, m)
  {
    hide Shape.Order, Shape.Number, ChildCount, Child, Shape.LastChild, FirstOutside, ScanAt, Accepts, Shape.Has, Shape.Valid;
    FamilyIn(sh, p);
    var order, low, high := sh.Order(), sh.Number(Child(sh.k, p, 0)) - window, sh.Number(sh.LastChild(p)) + window;
    var m := FirstOutsideLeast(order, s, low, high, window);
    forall i: nat | Accepts(order, low, high, ScanAt(window, s, i))
      ensures sh.SwapTarget(s, window, p) <= ScanAt(window, s, i)
    {
      if i >= m {
        ScanGrows(window, s, m, i);
      }
    }
  }

  lemma FamilyIn(sh: Shape, p: Place)
    requires sh.Valid() && sh.Has(p) && p.level > 0
    ensures sh.k > 0 && sh.Has(Child(sh.k, p, 0)) && sh.Has(sh.LastChild(p))
  {
    ChildInTree(sh.l, sh.k, sh.h, p, 0);
    ChildInTree(sh.l, sh.k, sh.h, p, ChildCount(sh.l, sh.k, p) - 1);
  }

  lemma {:induction false} ScanGrows(from: nat, s: nat, m: nat, i: nat)
    requires m <= i
    ensures ScanAt(from, s, m) <= ScanAt(from, s, i)
    decreases i
  {
    if m < i {
      ScanGrows(from, s, m, i - 1);
    }
  }

  // ----- the labels stay a permutation

  ghost predicate Permutation(labels: seq<nat>) {
    && NoRepeat(labels)
    && (forall x :: 0 <= x < |labels| ==> labels[x] < |labels|)
    && forall v :: 0 <= v < |labels| ==> v in labels
  }

  lemma SwapKeepsPermutation(labels: seq<nat>, a: nat, b: nat)
    requires Permutation(labels) && b < |labels|
    ensures Permutation(Exchanged(labels, a, b))
  {
    var after := Exchanged(labels, a, b);
    forall v | 0 <= v < |labels|
      ensures v in after
    {
      assert v in labels;
      var x :| 0 <= x < |labels| && labels[x] == v;
      assert after[if a >= |labels| then x else if x == a then b else if x == b then a else x] == v;
    }
  }

  /** One node's part in the pass. */
  lemma PassStep(sh: Shape, s: nat, window: nat, n: nat) returns (p: Place, j: nat)
    requires sh.Valid() && s > 0 && 2 <= n <= |sh.Order()|
    ensures p == sh.Order()[n - 1] && sh.Has(p) && (p.level > 0 ==> j == sh.SwapTarget(s, window, p))
    ensures p.level > 0 && j < |sh.Order()| ==> sh.Order()[j].level == 0
    ensures var before := sh.SwapPass(s, window, n - 1);
            sh.SwapPass(s, window, n) ==
            if p.level > 0 then Exchanged(before, j, n - 2) else before
  {
    sh.OrderComplete();
    p := sh.Order()[n - 1];
    j := if p.level > 0 then sh.SwapTarget(s, window, p) else n;
  }

  lemma PassStarts(sh: Shape, s: nat, window: nat, n: nat)
    requires sh.Valid() && s > 0 && n <= 1 && n <= |sh.Order()|
    ensures forall x :: 0 <= x < |sh.Order()| ==> sh.SwapPass(s, window, n)[x] == x
  {
  }

  lemma {:induction false} PassPermutes(sh: Shape, s: nat, window: nat, n: nat)
    requires sh.Valid() && s > 0 && n <= |sh.Order()|
    ensures Permutation(sh.SwapPass(s, window, n))
  {
    hide *;
    if n <= 1 {
      PassStarts(sh, s, window, n);
      IdentityPermutes(sh.SwapPass(s, window, n));
    } else {
      PassPermutes(sh, s, window, n - 1);
      var p, j := PassStep(sh, s, window, n);
      if p.level > 0 {
        SwapKeepsPermutation(sh.SwapPass(s, window, n - 1), j, n - 2);
      }
    }
  }

  lemma IdentityPermutes(labels: seq<nat>)
    requires forall x :: 0 <= x < |labels| ==> labels[x] == x
    ensures Permutation(labels)
  {
    forall v | 0 <= v < |labels|
      ensures v in labels
    {
      assert labels[v] == v;
    }
  }

  // ----- which inner nodes move

  /** The swap made for p's first child, which is inner, finds a leaf. */
  ghost predicate FirstChildSwaps(sh: Shape, s: nat, window: nat, p: Place)
    requires sh.Valid() && s > 0 && sh.Has(p)
  {
    p.level >= 2
    && (ChildInTree(sh.l, sh.k, sh.h, p, 0);
        sh.SwapTarget(s, window, Child(sh.k, p, 0)) < |sh.Order()|)
  }

  lemma FirstChildSwapsMeaning(sh: Shape, s: nat, window: nat, p: Place)
    requires sh.Valid() && s > 0 && sh.Has(p) && p.level > 0
    ensures var c := Child(sh.k, p, 0);
            c.level > 0 ==> sh.Has(c)
                            && (FirstChildSwaps(sh, s, window, p) <==> sh.SwapTarget(s, window, c) < |sh.Order()|)
    ensures Child(sh.k, p, 0).level == 0 ==> !FirstChildSwaps(sh, s, window, p)
  {
    ChildInTree(sh.l, sh.k, sh.h, p, 0);
  }

  /**
    The swap meant to move an inner node away from its children exchanges the label of the node numbered one
    less: an inner node's label changes exactly when its first child is inner too and that child's swap finds
    a leaf.
   */
  lemma InnerMovesIff(sh: Shape, s: nat, window: nat, p: Place)
    requires sh.Valid() && s > 0 && sh.Has(p) && p.level > 0
    ensures sh.SwapPass(s, window, |sh.Order()|)[sh.Number(p)] != sh.Number(p) <==> FirstChildSwaps(sh, s, window, p)
  {
    var x := sh.Number(p);
    FirstChildFollows(sh.l, sh.k, sh.h, 0, x);
    InnerLabel(sh, s, window, x, |sh.Order()|);
  }

  lemma {:induction false} InnerLabel(sh: Shape, s: nat, window: nat, x: nat, n: nat)
    requires sh.Valid() && s > 0 && x + 1 < |sh.Order()| && n <= |sh.Order()|
    requires sh.Order()[x].level > 0 && sh.Has(sh.Order()[x])
    requires sh.Order()[x + 1] == Child(sh.k, sh.Order()[x], 0)
    ensures sh.SwapPass(s, window, n)[x] != x <==> n > x + 1 && FirstChildSwaps(sh, s, window, sh.Order()[x])
  {
    hide *;
    if n <= 1 {
      PassStarts(sh, s, window, n);
    } else {
      var q := sh.Order()[x];
      FirstChildSwapsMeaning(sh, s, window, q);
      InnerLabel(sh, s, window, x, n - 1);
      PassPermutes(sh, s, window, n - 1);
      var p, j := PassStep(sh, s, window, n);
      LabelsDiffer(sh.SwapPass(s, window, n - 1), x, j);
      ExchangedAt(sh.SwapPass(s, window, n - 1), j, n - 2, x);
    }
  }

  lemma LabelsDiffer(labels: seq<nat>, x: nat, y: nat)
    requires Permutation(labels)
    ensures x < |labels| && y < |labels| && x != y ==> labels[x] != labels[y]
  {
  }

  lemma ExchangedAt(labels: seq<nat>, j: nat, y: nat, x: nat)
    requires y < |labels| && x < |labels|
    ensures Exchanged(labels, j, y)[x] ==
            labels[if j < |labels| && x == y then j else if x == j then y else x]
  {
  }

  /** So a node whose children are leaves is never moved away from them. */
  lemma ParentOfLeavesStays(sh: Shape, s: nat, window: nat, p: Place)
    requires sh.Valid() && s > 0 && sh.Has(p) && p.level == 1
    ensures sh.SwapPass(s, window, |sh.Order()|)[sh.Number(p)] == sh.Number(p)
  {
    InnerMovesIff(sh, s, window, p);
  }

  // ----- the parent map

  ghost predicate ParentMap(sh: Shape, labels: seq<nat>, m: map<nat, nat>)
    requires sh.Valid() && |labels| == |sh.Order()|
  {
    && (forall i :: i in m <==> 0 <= i < |labels|)
    && forall p :: sh.Has(p) ==> sh.Has(sh.Over(p)) && labels[sh.Number(p)] in m
                                 && m[labels[sh.Number(p)]] == labels[sh.Number(sh.Over(p))]
  }

  /** Where n steps in the parent map lead. */
  function Follow(m: map<nat, nat>, i: nat, n: nat): nat {
    if n == 0 then i else
      var j := Follow(m, i, n - 1);
      if j in m then m[j] else j
  }

  lemma {:induction false} FollowClimbs(sh: Shape, labels: seq<nat>, m: map<nat, nat>, p: Place, n: nat)
    requires sh.Valid() && |labels| == |sh.Order()| && ParentMap(sh, labels, m)
    requires sh.Has(p) && p.level + n <= sh.h
    ensures var q := Place(p.level + n, Up(sh.k, p.pos, n));
            sh.Has(q) && Follow(m, labels[sh.Number(p)], n) == labels[sh.Number(q)]
  {
    hide ParentMap, Shape.Order, Size;
    if n > 0 {
      FollowClimbs(sh, labels, m, p, n - 1);
      FollowStep(sh, labels, m, Place(p.level + n - 1, Up(sh.k, p.pos, n - 1)));
    }
  }

  lemma FollowStep(sh: Shape, labels: seq<nat>, m: map<nat, nat>, q: Place)
    requires sh.Valid() && |labels| == |sh.Order()| && ParentMap(sh, labels, m) && sh.Has(q) && q.level < sh.h
    ensures sh.Has(Parent(sh.k, q)) && labels[sh.Number(q)] in m
    ensures m[labels[sh.Number(q)]] == labels[sh.Number(Parent(sh.k, q))]
  {
    assert sh.Over(q) == Parent(sh.k, q);
  }

  /** The node that carries a label. */
  lemma LabelledNode(sh: Shape, labels: seq<nat>, i: nat) returns (p: Place)
    requires sh.Valid() && |labels| == |sh.Order()| && Permutation(labels) && i < |labels|
    ensures sh.Has(p) && labels[sh.Number(p)] == i
  {
    assert i in labels;
    var x :| 0 <= x < |labels| && labels[x] == i;
    p := sh.Order()[x];
    sh.OrderComplete();
  }

  /** From any label the parent map leads to the root's label, in as many steps as the node is below the root. */
  lemma ReachesRoot(sh: Shape, labels: seq<nat>, m: map<nat, nat>, i: nat)
    requires sh.Valid() && |labels| == |sh.Order()| && Permutation(labels) && ParentMap(sh, labels, m)
    requires i < |labels|
    ensures exists n :: 0 <= n <= sh.h && Follow(m, i, n) == labels[sh.Number(sh.Root())]
  {
    hide ParentMap, Permutation, Shape.Order;
    var p := LabelledNode(sh, labels, i);
    FollowClimbs(sh, labels, m, p, sh.h - p.level);
    assert Follow(m, i, sh.h - p.level) == labels[sh.Number(sh.Root())];
  }

  /** The root's label is the only one mapped to itself. */
  lemma RootOnlyFixedPoint(sh: Shape, labels: seq<nat>, m: map<nat, nat>, i: nat)
    requires sh.Valid() && |labels| == |sh.Order()| && Permutation(labels) && ParentMap(sh, labels, m)
    requires i < |labels|
    ensures m[i] == i <==> i == labels[sh.Number(sh.Root())]
  {
    hide ParentMap, Permutation, Shape.Order, Shape.Has, Size;
    sh.RootHas();
    var p := LabelledNode(sh, labels, i);
    var x, y, z := sh.Number(p), sh.Number(sh.Root()), 0;
    LabelsDiffer(labels, x, y);
    if p.level < sh.h {
      sh.BelowRoot(p);
      FollowStep(sh, labels, m, p);
      z := sh.Number(Parent(sh.k, p));
      assert sh.Order()[z] != sh.Order()[x] && sh.Order()[y] != sh.Order()[x];
      LabelsDiffer(labels, x, z);
    } else {
      sh.BelowRoot(p);
      RootStep(sh, labels, m);
    }
  }

  lemma RootStep(sh: Shape, labels: seq<nat>, m: map<nat, nat>)
    requires sh.Valid() && |labels| == |sh.Order()| && ParentMap(sh, labels, m) && sh.Has(sh.Root())
    ensures labels[sh.Number(sh.Root())] in m && m[labels[sh.Number(sh.Root())]] == labels[sh.Number(sh.Root())]
  {
    assert sh.Over(sh.Root()) == sh.Root();
  }
}
