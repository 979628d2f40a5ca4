/**
  Shape of the trees that are built bottom-up from l leaves with at most k children per node: level sizes,
  ancestors, and the preorder of the nodes.
 */
module TreeShape {
  import opened Reslicing
  import opened Sequences

  /** A node by its level, counted from the leaves, and its position in the level. */
  datatype Place = Place(level: nat, pos: nat)

  /** A quotient rounded up. */
  function CeilDiv(x: nat, k: nat): nat
    requires k > 0
  {
    Div(x + k - 1, k)
  }

  /** The number of nodes on a level: the level below in groups of k. */
  function Size(l: nat, k: nat, t: nat): nat
    requires k > 0
  {
    if t == 0 then l else CeilDiv(Size(l, k, t - 1), k)
  }

  /** The number of nodes on levels 0..t. */
  function Total(l: nat, k: nat, t: nat): nat
    requires k > 0
  {
    Size(l, k, t) + if t == 0 then 0 else Total(l, k, t - 1)
  }

  // ----- level sizes in closed form

  function Pow(k: nat, t: nat): nat {
    if t == 0 then 1 else Start(Pow(k, t - 1), k)
  }

  lemma {:induction false} PowPositive(k: nat, t: nat)
    requires k > 0
    ensures Pow(k, t) > 0
  {
    if t > 0 {
      PowPositive(k, t - 1);
      assert Pow(k, t - 1) * k >= k;
    }
  }

  /** Where a rounded-up quotient lies; this determines it. */
  lemma CeilBounds(x: nat, k: nat)
    requires k > 0
    ensures x <= Start(CeilDiv(x, k), k) < x + k
  {
    DivBounds(x + k - 1, k);
  }

  lemma CeilUnique(x: nat, k: nat, c: nat)
    requires k > 0 && x <= Start(c, k) < x + k
    ensures CeilDiv(x, k) == c
  {
    CeilBounds(x, k);
    var d := CeilDiv(x, k);
    hide CeilDiv, Start;
    StartStep(c, k);
    StartStep(d, k);
    StartMonotone(c + 1, d, k);
    StartMonotone(d + 1, c, k);
  }

  /** Rounding up twice is rounding up once by the product. */
  lemma CeilCeil(x: nat, a: nat, b: nat)
    requires a > 0 && b > 0
    ensures Start(a, b) > 0 && CeilDiv(CeilDiv(x, a), b) == CeilDiv(x, Start(a, b))
  {
    var y := CeilDiv(x, a);
    var z := CeilDiv(y, b);
    CeilBounds(x, a);
    CeilBounds(y, b);
    CeilCeilArithmetic(x, a, b, y, z);
    hide Start, Div, CeilDiv;
    CeilUnique(x, Start(a, b), z);
  }

  lemma CeilCeilArithmetic(x: nat, a: nat, b: nat, y: nat, z: nat)
    requires a > 0 && b > 0
    requires x <= Start(y, a) < x + a && y <= Start(z, b) < y + b
    ensures 0 < Start(a, b) && x <= Start(z, Start(a, b)) < x + Start(a, b)
  {
    assert a * b >= a;
    assert z * (a * b) == (z * b) * a;
    StartMonotone(y, z * b, a);
    assert z * b <= y + b - 1;
    StartMonotone(z * b, y + b - 1, a);
    assert (y + b - 1) * a == y * a + a * b - a;
  }

  /** Level t has l / k^t nodes, rounded up. */
  lemma {:induction false} SizeClosedForm(l: nat, k: nat, t: nat)
    requires k > 0
    ensures Pow(k, t) > 0 && Size(l, k, t) == CeilDiv(l, Pow(k, t))
  {
    PowPositive(k, t);
    if t == 0 {
      CeilUnique(l, 1, l);
    } else {
      SizeClosedForm(l, k, t - 1);
      CeilCeil(l, Pow(k, t - 1), k);
    }
  }

  /** A level is a single node exactly when the k^t leaf places under it hold all leaves. */
  lemma SingleIff(l: nat, k: nat, t: nat)
    requires k > 0 && l > 0
    ensures Size(l, k, t) == 1 <==> Pow(k, t) >= l
  {
    SizeClosedForm(l, k, t);
    var p := Pow(k, t);
    CeilBounds(l, p);
    if p >= l {
      CeilUnique(l, p, 1);
    }
  }

  /** Once at most one node is left on a level, that stays so. */
  lemma {:induction false} SizeStaysSmall(l: nat, k: nat, t: nat, u: nat)
    requires k > 0 && t <= u && Size(l, k, t) <= 1
    ensures Size(l, k, u) == Size(l, k, t)
  {
    if t < u {
      SizeStaysSmall(l, k, t, u - 1);
      var x := Size(l, k, t);
      StartStep(0, k);
      CeilUnique(x, k, x);
    }
  }

  /** Grouping at least two nodes in groups of at least two makes the level smaller. */
  lemma LevelShrinks(x: nat, k: nat)
    requires k >= 2 && x >= 2
    ensures 1 <= CeilDiv(x, k) < x
  {
    var c := CeilDiv(x, k);
    CeilBounds(x, k);
    SumAtMostProduct(x, k);
    hide Start, CeilDiv;
    StartMonotone(x, c, k);
  }

  lemma SumAtMostProduct(x: nat, k: nat)
    requires k >= 2 && x >= 2
    ensures Start(0, k) == 0 && x + k <= Start(x, k)
  {
    var u, v := x - 1, k - 1;
    assert u * v >= v;
    assert x * k == u * v + u + k;
  }

  // ----- parents and children

  /** The children of position j are positions First(j) .. End(j)-1 of the level below, which has x nodes. */
  function End(j: nat, k: nat, x: nat): nat {
    if x < Start(j + 1, k) then x else Start(j + 1, k)
  }

  lemma ChildRange(x: nat, k: nat, j: nat, c: nat)
    requires k > 0
    ensures j < CeilDiv(x, k) ==> Start(j, k) < End(j, k, x) <= x && End(j, k, x) <= Start(j, k) + k
    ensures c < x ==> (Start(j, k) <= c < End(j, k, x) <==> Div(c, k) == j)
    ensures c < x ==> Div(c, k) < CeilDiv(x, k)
  {
    CeilBounds(x, k);
    DivBounds(c, k);
    var n, q := CeilDiv(x, k), Div(c, k);
    hide Start, Div, Mod, CeilDiv;
    StartStep(j, k);
    StartStep(q, k);
    StartMonotone(j + 1, n, k);
    StartMonotone(n, j + 1, k);
    StartMonotone(n, q, k);
    StartMonotone(j + 1, q, k);
    StartMonotone(q + 1, j, k);
    StartStep(n, k);
    if n > 0 {
      StartStep(n - 1, k);
      StartMonotone(j, n - 1, k);
    }
  }

  /** p is a node of the tree of height h. */
  predicate InTree(l: nat, k: nat, h: nat, p: Place)
    requires k > 0
  {
    p.level <= h && p.pos < Size(l, k, p.level)
  }

  function ChildCount(l: nat, k: nat, p: Place): (n: nat)
    requires k > 0 && p.pos < Size(l, k, p.level)
    ensures n <= k && (n == 0 <==> p.level == 0)
  {
    if p.level == 0 then 0 else
      var x := Size(l, k, p.level - 1);
      ChildRange(x, k, p.pos, 0);
      End(p.pos, k, x) - Start(p.pos, k)
  }

  function Child(k: nat, p: Place, i: nat): Place
    requires p.level > 0
  {
    Place(p.level - 1, Start(p.pos, k) + i)
  }

  function Parent(k: nat, p: Place): Place
    requires k > 0
  {
    Place(p.level + 1, Div(p.pos, k))
  }

  /** The children of a node are nodes, and it is their parent. */
  lemma ChildInTree(l: nat, k: nat, h: nat, p: Place, i: nat)
    requires k > 0 && InTree(l, k, h, p) && i < ChildCount(l, k, p)
    ensures InTree(l, k, h, Child(k, p, i)) && Parent(k, Child(k, p, i)) == p
  {
    var x := Size(l, k, p.level - 1);
    ChildRange(x, k, p.pos, 0);
    ChildRange(x, k, p.pos, Start(p.pos, k) + i);
  }

  /** Every node but the root is one of its parent's children. */
  lemma ParentInTree(l: nat, k: nat, h: nat, p: Place)
    requires k > 0 && InTree(l, k, h, p) && p.level < h
    ensures InTree(l, k, h, Parent(k, p))
    ensures var q := Parent(k, p);
            0 <= p.pos - Start(q.pos, k) < ChildCount(l, k, q) && Child(k, q, p.pos - Start(q.pos, k)) == p
  {
    ChildRange(Size(l, k, p.level), k, Div(p.pos, k), p.pos);
  }

  /** The position n levels up. */
  function Up(k: nat, j: nat, n: nat): nat
    requires k > 0
  {
    if n == 0 then j else Div(Up(k, j, n - 1), k)
  }

  lemma {:induction false} UpInLevel(l: nat, k: nat, t: nat, j: nat, n: nat)
    requires k > 0 && j < Size(l, k, t)
    ensures Up(k, j, n) < Size(l, k, t + n)
  {
    if n > 0 {
      UpInLevel(l, k, t, j, n - 1);
      ChildRange(Size(l, k, t + n - 1), k, 0, Up(k, j, n - 1));
    }
  }

  // ----- preorder

  function Pre(l: nat, k: nat, t: nat, j: nat): seq<Place>
    requires k > 0
    decreases t, 1, 0
  {
    [Place(t, j)] + if t == 0 then [] else PreList(l, k, t - 1, Start(j, k), End(j, k, Size(l, k, t - 1)))
  }

  /** The preorders of positions lo..hi-1 of level t, one after the other. */
  function PreList(l: nat, k: nat, t: nat, lo: nat, hi: nat): seq<Place>
    requires k > 0
    decreases t, 2, hi - lo
  {
    if lo >= hi then [] else Pre(l, k, t, lo) + PreList(l, k, t, lo + 1, hi)
  }

  /** p is a node, at or below position j of level t. */
  predicate Below(l: nat, k: nat, t: nat, j: nat, p: Place)
    requires k > 0
  {
    p.level <= t && p.pos < Size(l, k, p.level) && Up(k, p.pos, t - p.level) == j
  }

  /** The preorder of a node lists exactly the nodes below it. */
  lemma {:induction false} PreContains(l: nat, k: nat, t: nat, j: nat, p: Place)
    requires k > 0 && j < Size(l, k, t)
    ensures p in Pre(l, k, t, j) <==> Below(l, k, t, j, p)
    decreases t, 1, 0
  {
    if t > 0 {
      var x := Size(l, k, t - 1);
      ChildRange(x, k, j, 0);
      PreListContains(l, k, t - 1, Start(j, k), End(j, k, x), p);
      if p.level < t && p.pos < Size(l, k, p.level) {
        UpInLevel(l, k, p.level, p.pos, t - 1 - p.level);
        ChildRange(x, k, j, Up(k, p.pos, t - 1 - p.level));
      }
    }
  }

  lemma {:induction false} PreListContains(l: nat, k: nat, t: nat, lo: nat, hi: nat, p: Place)
    requires k > 0 && hi <= Size(l, k, t)
    ensures p in PreList(l, k, t, lo, hi) <==>
            p.level <= t && p.pos < Size(l, k, p.level) && lo <= Up(k, p.pos, t - p.level) < hi
    decreases t, 2, hi - lo
  {
    if lo < hi {
      PreContains(l, k, t, lo, p);
      PreListContains(l, k, t, lo + 1, hi, p);
    }
  }

  /** No node is listed twice. */
  lemma {:induction false} PreNoRepeat(l: nat, k: nat, t: nat, j: nat)
    requires k > 0 && j < Size(l, k, t)
    ensures NoRepeat(Pre(l, k, t, j))
    decreases t, 1, 0
  {
    if t > 0 {
      var x := Size(l, k, t - 1);
      ChildRange(x, k, j, 0);
      var rest := PreList(l, k, t - 1, Start(j, k), End(j, k, x));
      PreListNoRepeat(l, k, t - 1, Start(j, k), End(j, k, x));
      PreListContains(l, k, t - 1, Start(j, k), End(j, k, x), Place(t, j));
    }
  }

  lemma {:induction false} PreListNoRepeat(l: nat, k: nat, t: nat, lo: nat, hi: nat)
    requires k > 0 && hi <= Size(l, k, t)
    ensures NoRepeat(PreList(l, k, t, lo, hi))
    decreases t, 2, hi - lo
  {
    if lo < hi {
      PreNoRepeat(l, k, t, lo);
      PreListNoRepeat(l, k, t, lo + 1, hi);
      var a, b := Pre(l, k, t, lo), PreList(l, k, t, lo + 1, hi);
      forall x, y | 0 <= x < |a| && 0 <= y < |b|
        ensures a[x] != b[y]
      {
        PreContains(l, k, t, lo, a[x]);
        PreListContains(l, k, t, lo + 1, hi, a[x]);
      }
    }
  }

  lemma {:induction false} PreListSplit(l: nat, k: nat, t: nat, lo: nat, mid: nat, hi: nat)
    requires k > 0 && lo <= mid <= hi
    ensures PreList(l, k, t, lo, hi) == PreList(l, k, t, lo, mid) + PreList(l, k, t, mid, hi)
    decreases mid - lo
  {
    if lo < mid {
      PreListSplit(l, k, t, lo + 1, mid, hi);
    }
  }

  /** The first n subtrees of level t: n nodes, and below them the first positions of the level underneath. */
  lemma {:induction false} PreListLength(l: nat, k: nat, t: nat, n: nat)
    requires k > 0 && t > 0 && n <= Size(l, k, t)
    ensures var x := Size(l, k, t - 1);
            |PreList(l, k, t, 0, n)| == n + |PreList(l, k, t - 1, 0, if x < Start(n, k) then x else Start(n, k))|
  {
    var x := Size(l, k, t - 1);
    if n > 0 {
      PreListLength(l, k, t, n - 1);
      PreListSplit(l, k, t, 0, n - 1, n);
      assert PreList(l, k, t, n - 1, n) == Pre(l, k, t, n - 1) + PreList(l, k, t, n, n);
      ChildRange(x, k, n - 1, 0);
      PreListSplit(l, k, t - 1, 0, Start(n - 1, k), End(n - 1, k, x));
    } else {
      assert Start(0, k) == 0;
    }
  }

  lemma {:induction false} LevelLength(l: nat, k: nat, t: nat)
    requires k > 0
    ensures |PreList(l, k, t, 0, Size(l, k, t))| == Total(l, k, t)
  {
    if t == 0 {
      LeavesLength(l, k, l);
    } else {
      PreListLength(l, k, t, Size(l, k, t));
      CeilBounds(Size(l, k, t - 1), k);
      LevelLength(l, k, t - 1);
    }
  }

  lemma {:induction false} LeavesLength(l: nat, k: nat, n: nat)
    requires k > 0
    ensures |PreList(l, k, 0, 0, n)| == n
  {
    if n > 0 {
      LeavesLength(l, k, n - 1);
      PreListSplit(l, k, 0, 0, n - 1, n);
      assert PreList(l, k, 0, n - 1, n) == Pre(l, k, 0, n - 1) + PreList(l, k, 0, n, n);
    }
  }

  /** The preorder of the whole tree has as many entries as there are nodes on all levels. */
  lemma PreLength(l: nat, k: nat, h: nat)
    requires k > 0 && Size(l, k, h) == 1
    ensures |Pre(l, k, h, 0)| == Total(l, k, h)
  {
    LevelLength(l, k, h);
    assert PreList(l, k, h, 0, 1) == Pre(l, k, h, 0) + PreList(l, k, h, 1, 1);
  }

  /** Right after an inner node the preorder lists its first child. */
  lemma {:induction false} FirstChildFollows(l: nat, k: nat, t: nat, j: nat, x: nat)
    requires k > 0 && j < Size(l, k, t) && x < |Pre(l, k, t, j)| && Pre(l, k, t, j)[x].level > 0
    ensures x + 1 < |Pre(l, k, t, j)| && Pre(l, k, t, j)[x + 1] == Child(k, Pre(l, k, t, j)[x], 0)
    decreases t, 1, 0
  {
    var size := Size(l, k, t - 1);
    ChildRange(size, k, j, 0);
    var lo, hi := Start(j, k), End(j, k, size);
    if x == 0 {
      assert PreList(l, k, t - 1, lo, hi) == Pre(l, k, t - 1, lo) + PreList(l, k, t - 1, lo + 1, hi);
    } else {
      FirstChildFollowsInList(l, k, t - 1, lo, hi, x - 1);
    }
  }

  lemma {:induction false} FirstChildFollowsInList(l: nat, k: nat, t: nat, lo: nat, hi: nat, x: nat)
    requires k > 0 && hi <= Size(l, k, t)
    requires x < |PreList(l, k, t, lo, hi)| && PreList(l, k, t, lo, hi)[x].level > 0
    ensures var s := PreList(l, k, t, lo, hi);
            x + 1 < |s| && s[x + 1] == Child(k, s[x], 0)
    decreases t, 2, hi - lo
  {
    var n := |Pre(l, k, t, lo)|;
    if x < n {
      FirstChildFollows(l, k, t, lo, x);
    } else {
      FirstChildFollowsInList(l, k, t, lo + 1, hi, x - n);
    }
  }
}
