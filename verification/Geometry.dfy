/**
  Index arithmetic of the entanglement lattice.

  Blocks are numbered from 1.  Three families of strands run through them: horizontal (0), right (1)
  and left (2).  The first half of the module is the program's own arithmetic; the second half gives
  every block coordinates (column, row) and every chain a number, and the lemmas say that the two agree.
 */
module Geometry {

  /** Entanglement parameters. */
  datatype Params = Params(alpha: nat, s: nat, p: nat)

  /** Parameters under which the lattice is used: as many helical strands as rows, two or three families. */
  predicate Square(e: Params) {
    e.s == e.p && e.s >= 2 && 2 <= e.alpha <= 3
  }

  // ----- the program's index functions

  /** Go's remainder: it takes the sign of the dividend. */
  function GoMod(a: int, b: int): int
    requires b > 0
  {
    if a >= 0 then a % b else -((-a) % b)
  }

  function GoDiv(a: int, b: int): int
    requires b > 0
  {
    if a >= 0 then a / b else -((-a) / b)
  }

  datatype PositionClass = Top | Central | Bottom

  function PositionCategory(e: Params, index: int): PositionClass
    requires e.s > 0
  {
    var nodePos := GoMod(index, e.s);
    if nodePos == 1 || nodePos == 1 - e.s then Top
    else if nodePos == 0 then Bottom
    else Central
  }

  /** The chain, one per strand, on which the block lies. */
  function ChainIndexes(e: Params, index: int): (indexes: seq<int>)
    requires e.s > 0 && e.p > 0
    ensures |indexes| == 3
  {
    var h := GoMod(index - 1, e.s);
    WindowPositive(e);
    var indexInWindow := GoMod(index - 1, e.s * e.p);
    var x := GoMod(indexInWindow, e.p);
    var y := GoDiv(indexInWindow, e.p);
    var rh := GoMod(y - x + e.p, e.p);
    var lh := GoMod(x + y, e.s);
    [h, rh, lh]
  }

  /** The first block, one per strand, of the chain on which the block lies. */
  function ChainStartIndexes(e: Params, index: int): (indexes: seq<int>)
    requires e.s > 0 && e.p > 0
    ensures |indexes| == 3
  {
    var c := ChainIndexes(e, index);
    [c[0] + 1, GoMod(e.p - c[1], e.p) + 1, c[2] + 1]
  }

  /** The next block, one per strand, of the chain on which the block lies. */
  function ForwardNeighborIndexes(e: Params, index: int): (indexes: seq<int>)
    requires e.s > 0
    ensures |indexes| == 3
  {
    match PositionCategory(e, index)
    case Top => [index + e.s, index + e.s + 1, index + e.s * e.p - (e.s - 1) * (e.s - 1)]
    case Central => [index + e.s, index + e.s + 1, index + e.s - 1]
    case Bottom => [index + e.s, index + e.s * e.p - (e.s * e.s - 1), index + e.s - 1]
  }

  lemma WindowPositive(e: Params)
    requires e.s > 0 && e.p > 0
    ensures e.s * e.p > 0
  {
  }

  // ----- coordinates

  // Quotient, remainder and product by the column height s, by repeated subtraction and addition, so that
  // everything built on coordinates needs linear arithmetic only.  DivisionMeaning ties them to / % and *.

  function Quot(s: nat, x: nat): nat
    requires s >= 2
  {
    if x < s then 0 else Quot(s, x - s) + 1
  }

  function Rem(s: nat, x: nat): (r: nat)
    requires s >= 2
    ensures r < s
  {
    if x < s then x else Rem(s, x - s)
  }

  /** The number of blocks in the first c columns. */
  function Base(s: nat, c: nat): nat
    requires s >= 2
  {
    if c == 0 then 0 else Base(s, c - 1) + s
  }

  lemma BaseSmall(s: nat)
    requires s >= 2
    ensures Base(s, 0) == 0 && Base(s, 1) == s && Base(s, 2) == s + s
  {
    assert Base(s, 0) == 0;
    assert Base(s, 1) == s;
  }

  /** Column of block i: blocks c*s+1 .. c*s+s form column c. */
  function Col(s: nat, i: nat): nat
    requires s >= 2 && i >= 1
  {
    Quot(s, i - 1)
  }

  function Row(s: nat, i: nat): (r: nat)
    requires s >= 2 && i >= 1
    ensures r < s
  {
    Rem(s, i - 1)
  }

  /** Reduces a number between -s and 2s into 0..s-1. */
  function Wrap(s: nat, x: int): (r: nat)
    requires s >= 2 && 0 <= x + s < 3 * s
    ensures r < s
  {
    if x < 0 then x + s else if x >= s then x - s else x
  }

  /** The chain of strand k through row r of a column whose number is cm modulo s. */
  function ChainAt(s: nat, k: nat, cm: nat, r: nat): (a: nat)
    requires s >= 2 && k < 3 && cm < s && r < s
    ensures a < s
  {
    if k == 0 then r else if k == 1 then Wrap(s, cm - r) else Wrap(s, cm + r)
  }

  /** The row in which chain a of strand k crosses a column whose number is cm modulo s. */
  function RowAt(s: nat, k: nat, cm: nat, a: nat): (r: nat)
    requires s >= 2 && k < 3 && cm < s && a < s
    ensures r < s
  {
    if k == 0 then a else if k == 1 then Wrap(s, cm - a) else Wrap(s, a - cm)
  }

  function Chain(s: nat, k: nat, i: nat): (a: nat)
    requires s >= 2 && k < 3 && i >= 1
    ensures a < s
  {
    ChainAt(s, k, Rem(s, Col(s, i)), Row(s, i))
  }

  /** The block of chain a of strand k in column c. */
  function Member(s: nat, k: nat, a: nat, c: nat): (i: nat)
    requires s >= 2 && k < 3 && a < s
    ensures i >= 1
  {
    Base(s, c) + RowAt(s, k, Rem(s, c), a) + 1
  }

  lemma MulOrder(a: nat, b: nat, s: nat)
    ensures a < b ==> a * s + s <= b * s
    ensures b < a ==> b * s + s <= a * s
  {
    if a < b {
      MulGap(a, b - a - 1, s);
    } else if b < a {
      MulGap(b, a - b - 1, s);
    }
  }

  lemma MulGap(a: nat, d: nat, s: nat)
    ensures a * s + s <= (a + d + 1) * s
  {
    assert (a + d + 1) * s == a * s + d * s + s;
  }

  lemma DivModUnique(s: nat, q: nat, r: nat)
    requires s >= 1 && r < s
    ensures (q * s + r) / s == q && (q * s + r) % s == r
  {
    var x := q * s + r;
    assert x == (x / s) * s + x % s;
    MulOrder(x / s, q, s);
  }

  lemma {:induction false} BaseMeaning(s: nat, c: nat)
    requires s >= 2
    ensures Base(s, c) == c * s
  {
    if c > 0 {
      BaseMeaning(s, c - 1);
      assert c * s == (c - 1) * s + s;
    }
  }

  lemma DivisionMeaning(s: nat, x: nat)
    requires s >= 2
    ensures Quot(s, x) == x / s && Rem(s, x) == x % s
  {
    Decompose(s, x);
    BaseMeaning(s, Quot(s, x));
    DivModUnique(s, Quot(s, x), Rem(s, x));
  }

  lemma {:induction false} Decompose(s: nat, x: nat)
    requires s >= 2
    ensures x == Base(s, Quot(s, x)) + Rem(s, x)
  {
    if x >= s {
      Decompose(s, x - s);
    }
  }

  lemma {:induction false} QuotRemOf(s: nat, c: nat, r: nat)
    requires s >= 2 && r < s
    ensures Quot(s, Base(s, c) + r) == c && Rem(s, Base(s, c) + r) == r
  {
    if c > 0 {
      QuotRemOf(s, c - 1, r);
    }
  }

  lemma {:induction false} BaseOrder(s: nat, c: nat, c': nat)
    requires s >= 2 && c < c'
    ensures Base(s, c) + s <= Base(s, c')
  {
    if c + 1 < c' {
      BaseOrder(s, c, c' - 1);
    }
  }

  lemma ColRowOf(s: nat, c: nat, r: nat)
    requires s >= 2 && r < s
    ensures Col(s, Base(s, c) + r + 1) == c && Row(s, Base(s, c) + r + 1) == r
  {
    QuotRemOf(s, c, r);
  }

  lemma IndexOf(s: nat, i: nat)
    requires s >= 2 && i >= 1
    ensures i == Base(s, Col(s, i)) + Row(s, i) + 1
  {
    Decompose(s, i - 1);
  }

  /** In every column, chain number and row determine each other. */
  lemma ChainRowInverse(s: nat, k: nat, cm: nat, r: nat, a: nat)
    requires s >= 2 && k < 3 && cm < s && r < s && a < s
    ensures ChainAt(s, k, cm, r) == a <==> RowAt(s, k, cm, a) == r
  {
  }

  /** Block i is the member of its chain in its column. */
  lemma MemberOfChain(s: nat, k: nat, i: nat)
    requires s >= 2 && k < 3 && i >= 1
    ensures Member(s, k, Chain(s, k, i), Col(s, i)) == i
  {
    ChainRowInverse(s, k, Rem(s, Col(s, i)), Row(s, i), Chain(s, k, i));
    IndexOf(s, i);
  }

  lemma MemberCoordinates(s: nat, k: nat, a: nat, c: nat)
    requires s >= 2 && k < 3 && a < s
    ensures Chain(s, k, Member(s, k, a, c)) == a
    ensures Col(s, Member(s, k, a, c)) == c
  {
    var r := RowAt(s, k, Rem(s, c), a);
    ColRowOf(s, c, r);
    ChainRowInverse(s, k, Rem(s, c), r, a);
  }

  /** Along a chain the block numbers grow. */
  lemma MemberIncreases(s: nat, k: nat, a: nat, c: nat, c': nat)
    requires s >= 2 && k < 3 && a < s && c < c'
    ensures Member(s, k, a, c) < Member(s, k, a, c')
  {
    BaseOrder(s, c, c');
  }

  lemma ColMonotone(s: nat, i: nat, j: nat)
    requires s >= 2 && 1 <= i <= j
    ensures Col(s, i) <= Col(s, j)
  {
    IndexOf(s, i);
    IndexOf(s, j);
    if Col(s, j) < Col(s, i) {
      BaseOrder(s, Col(s, j), Col(s, i));
    }
  }

  lemma NextRem(s: nat, c: nat)
    requires s >= 2
    ensures Rem(s, c + 1) == if Rem(s, c) + 1 == s then 0 else Rem(s, c) + 1
  {
    var q, r := Quot(s, c), Rem(s, c);
    Decompose(s, c);
    if r + 1 < s {
      QuotRemOf(s, q, r + 1);
    } else {
      QuotRemOf(s, q + 1, 0);
    }
  }

  // ----- the program's arithmetic in coordinates

  lemma SmallMod(s: nat, x: int)
    requires s >= 2 && 0 <= x < 2 * s
    ensures x % s == if x < s then x else x - s
  {
    if x < s {
      DivModUnique(s, 0, x);
    } else {
      DivModUnique(s, 1, x - s);
    }
  }

  lemma WindowDecomposition(s: nat, x: nat, q: nat, r: nat, q1: nat, q0: nat)
    requires x == q * s + r && q == q1 * s + q0
    ensures x == q1 * (s * s) + (q0 * s + r)
  {
    assert q * s == q1 * s * s + q0 * s;
    assert q1 * s * s == q1 * (s * s);
  }

  /** Inside an s-by-s window, the window column is the column modulo s and the row is the row. */
  lemma WindowCoordinates(s: nat, x: nat)
    requires s >= 2
    ensures s * s > 0
    ensures (x % (s * s)) % s == x % s
    ensures (x % (s * s)) / s == (x / s) % s
  {
    var q, r := DivModOf(s, x);
    var q1, q0 := DivModOf(s, q);
    MulOrder(q0, s, s);
    WindowDecomposition(s, x, q, r, q1, q0);
    WindowParts(s, s * s, x, q1, q0, r, q0 * s + r);
  }

  lemma DivModOf(s: nat, x: nat) returns (q: nat, r: nat)
    requires s >= 1
    ensures q == x / s && r == x % s && x == q * s + r && r < s
  {
    q, r := x / s, x % s;
  }

  lemma WindowParts(s: nat, w: nat, x: nat, q1: nat, q0: nat, r: nat, u: nat)
    requires s >= 1 && u < w && x == q1 * w + u && u == q0 * s + r && r < s
    ensures (x % w) % s == r && (x % w) / s == q0
  {
    DivModUnique(w, q1, u);
    DivModUnique(s, q0, r);
  }

  lemma ChainIndexesMeaning(e: Params, i: nat, k: nat)
    requires Square(e) && i >= 1 && k < 3
    ensures ChainIndexes(e, i)[k] == Chain(e.s, k, i)
  {
    var s := e.s;
    WindowPositive(e);
    WindowCoordinates(s, i - 1);
    DivisionMeaning(s, i - 1);
    DivisionMeaning(s, (i - 1) / s);
    var x, y := Row(s, i), Rem(s, Col(s, i));
    var rh, lh := y + s - x, x + y;
    SmallMod(s, rh);
    SmallMod(s, lh);
    assert ChainIndexes(e, i) == [x, rh % s, lh % s];
  }

  /**
    A cache slot that no block has passed has right index 0.  For it the program names block 0 on the
    horizontal and left-handed strands and block s on the right-handed one.
   */
  lemma EmptySlotStart(e: Params)
    requires Square(e)
    ensures ChainStartIndexes(e, 0) == [0, e.s, 0]
  {
    var w := e.s * e.s;
    WindowPositive(e);
    MulOrder(1, e.s, e.s);
    SmallMod(e.s, 1);
    assert (-(-1)) % w == 1 by { DivModUnique(w, 0, 1); }
    assert GoMod(-1, w) == -1 && GoMod(-1, e.s) == -1;
    assert GoDiv(-1, e.s) == 0 by { DivModUnique(e.s, 0, 1); }
    SmallMod(e.s, e.s + 1);
    SmallMod(e.s, e.s - 1);
    assert ChainIndexes(e, 0) == [-1, 1, -1];
  }

  /** The first block the program names is the block of the same chain in column 0. */
  lemma ChainStartMeaning(e: Params, i: nat, k: nat)
    requires Square(e) && i >= 1 && k < 3
    ensures ChainStartIndexes(e, i)[k] == Member(e.s, k, Chain(e.s, k, i), 0)
  {
    ChainIndexesMeaning(e, i, 0);
    ChainIndexesMeaning(e, i, 1);
    ChainIndexesMeaning(e, i, 2);
    var a := Chain(e.s, 1, i);
    SmallMod(e.s, e.s - a);
  }

  lemma PositionMeaning(e: Params, i: nat)
    requires Square(e) && i >= 1
    ensures PositionCategory(e, i) ==
            if Row(e.s, i) == 0 then Top else if Row(e.s, i) == e.s - 1 then Bottom else Central
  {
    hide Row, Rem, Quot;
    RemAfterRow(e.s, i);
    DivisionMeaning(e.s, i);
  }

  lemma RemAfterRow(s: nat, i: nat)
    requires s >= 2 && i >= 1
    ensures Rem(s, i) == if Row(s, i) + 1 < s then Row(s, i) + 1 else 0
  {
    var c, r := Col(s, i), Row(s, i);
    IndexOf(s, i);
    if r + 1 < s {
      QuotRemOf(s, c, r + 1);
    } else {
      QuotRemOf(s, c + 1, 0);
    }
  }

  /** One column further, a chain keeps its row, moves down one row, or moves up one row (cyclically). */
  lemma ForwardRow(s: nat, k: nat, i: nat)
    requires s >= 2 && i >= 1 && k < 3
    ensures var r := Row(s, i);
            RowAt(s, k, Rem(s, Col(s, i) + 1), Chain(s, k, i)) ==
            if k == 0 then r
            else if k == 1 then (if r == s - 1 then 0 else r + 1)
            else if r == 0 then s - 1 else r - 1
  {
    NextRem(s, Col(s, i));
  }

  /** In rows: a forward step adds one column and the change of row. */
  lemma ForwardStep(e: Params, i: nat, k: nat)
    requires Square(e) && i >= 1 && k < 3
    ensures var r := Row(e.s, i);
            ForwardNeighborIndexes(e, i)[k] == i + e.s - r +
            if k == 0 then r
            else if k == 1 then (if r == e.s - 1 then 0 else r + 1)
            else if r == 0 then e.s - 1 else r - 1
  {
    PositionMeaning(e, i);
    hide PositionCategory;
    assert (e.s - 1) * (e.s - 1) == e.s * e.s - 2 * e.s + 1;
  }

  /** The forward neighbour is the member of the same chain in the next column. */
  lemma ForwardMeaning(e: Params, i: nat, k: nat)
    requires Square(e) && i >= 1 && k < 3
    ensures ForwardNeighborIndexes(e, i)[k] == Member(e.s, k, Chain(e.s, k, i), Col(e.s, i) + 1)
  {
    var s, c := e.s, Col(e.s, i);
    ForwardStep(e, i, k);
    ForwardRow(s, k, i);
    IndexOf(s, i);
    hide ForwardNeighborIndexes, RowAt, Chain, Row, Col;
  }

  // ----- strand geometry

  /**
    The forward neighbour of a block is the least later block on the same chain.
   */
  lemma ForwardIsNextOnChain(e: Params, i: nat, k: nat)
    requires Square(e) && i >= 1 && k < 3
    ensures var f := ForwardNeighborIndexes(e, i)[k];
            && f > i && ChainIndexes(e, f)[k] == ChainIndexes(e, i)[k]
            && forall j: nat :: i < j < f ==> ChainIndexes(e, j)[k] != ChainIndexes(e, i)[k]
  {
    hide ChainIndexes, ForwardNeighborIndexes, Member, Chain, Col;
    var s, a, c := e.s, Chain(e.s, k, i), Col(e.s, i);
    ForwardMeaning(e, i, k);
    MemberOfChain(s, k, i);
    MemberIncreases(s, k, a, c, c + 1);
    var f := Member(s, k, a, c + 1);
    MemberCoordinates(s, k, a, c + 1);
    ChainIndexesMeaning(e, i, k);
    ChainIndexesMeaning(e, f, k);
    forall j: nat | i < j < f
      ensures ChainIndexes(e, j)[k] != ChainIndexes(e, i)[k]
    {
      ChainIndexesMeaning(e, j, k);
      ColMonotone(s, i, j);
      ColMonotone(s, j, f);
      MemberOfChain(s, k, j);
    }
  }

  /** Every chain number occurs in every column, and exactly once. */
  lemma ColumnBijection(e: Params, k: nat, c: nat, a: nat)
    requires Square(e) && k < 3 && a < e.s
    ensures var m := Member(e.s, k, a, c);
            && Col(e.s, m) == c && ChainIndexes(e, m)[k] == a
            && forall j: nat :: j >= 1 && Col(e.s, j) == c && ChainIndexes(e, j)[k] == a ==> j == m
  {
    var s, m := e.s, Member(e.s, k, a, c);
    MemberCoordinates(s, k, a, c);
    ChainIndexesMeaning(e, m, k);
    forall j: nat | j >= 1 && Col(s, j) == c && ChainIndexes(e, j)[k] == a
      ensures j == m
    {
      ChainIndexesMeaning(e, j, k);
      MemberOfChain(s, k, j);
    }
  }

  /** The chain start is the only block of the first column on the chain of i. */
  lemma ChainStartUnique(e: Params, i: nat, k: nat)
    requires Square(e) && i >= 1 && k < 3
    ensures var b := ChainStartIndexes(e, i)[k];
            && 1 <= b <= e.s && ChainIndexes(e, b)[k] == ChainIndexes(e, i)[k]
            && forall j: nat :: 1 <= j <= e.s && ChainIndexes(e, j)[k] == ChainIndexes(e, i)[k] ==> j == b
  {
    ChainStartMeaning(e, i, k);
    ChainIndexesMeaning(e, i, k);
    ColumnBijection(e, k, 0, Chain(e.s, k, i));
  }

  // ----- all accepted parameters

  /** What the constructor accepts for two or three strands. */
  predicate Accepted(e: Params) {
    2 <= e.alpha <= 3 && 1 <= e.s <= e.p
  }

  /** The forward neighbour is on the same chain. */
  predicate StaysOnChain(e: Params, i: nat, k: nat)
    requires e.s > 0 && e.p > 0 && k < 3
  {
    ChainIndexes(e, ForwardNeighborIndexes(e, i)[k])[k] == ChainIndexes(e, i)[k]
  }

  /** The forward neighbour is the least later block on the same chain. */
  predicate IsNext(e: Params, i: nat, k: nat)
    requires e.s > 0 && e.p > 0 && k < 3
  {
    var f := ForwardNeighborIndexes(e, i)[k];
    f > i && StaysOnChain(e, i, k) && forall j: nat :: i < j < f ==> ChainIndexes(e, j)[k] != ChainIndexes(e, i)[k]
  }

  /**
    The two index functions agree that a forward step never leaves the chain exactly when s and p are equal,
    or s is 1 and p is 2; for all other parameters the right neighbour of block 1 is on another chain already.
   */
  lemma ForwardStaysOnChainIff(e: Params)
    requires Accepted(e)
    ensures (forall i: nat, k: nat :: i >= 1 && k < e.alpha ==> StaysOnChain(e, i, k)) <==> e.s == e.p || (e.s == 1 && e.p == 2)
  {
    FirstBlockLeavesChain(e);
    hide StaysOnChain;
    if e.s == e.p || (e.s == 1 && e.p == 2) {
      forall i: nat, k: nat | i >= 1 && k < e.alpha
        ensures StaysOnChain(e, i, k)
      {
        if e.s == 1 {
          NarrowStays(e, i, k);
        } else {
          SquareIsNext(e, i, k);
          IsNextStays(e, i, k);
        }
      }
    }
  }

  lemma IsNextStays(e: Params, i: nat, k: nat)
    requires e.s > 0 && e.p > 0 && k < 3 && IsNext(e, i, k)
    ensures StaysOnChain(e, i, k)
  {
  }

  /**
    And they agree that forward steps visit the chain block by block exactly when s and p are equal and at
    least 2, or there are two strands with s = 1 and p = 2.
   */
  lemma ForwardIsNextIff(e: Params)
    requires Accepted(e)
    ensures (forall i: nat, k: nat :: i >= 1 && k < e.alpha ==> IsNext(e, i, k))
            <==> (e.s == e.p && e.s >= 2) || (e.s == 1 && e.p == 2 && e.alpha == 2)
  {
    hide IsNext, StaysOnChain;
    if e.s == e.p && e.s >= 2 {
      forall i: nat, k: nat | i >= 1 && k < e.alpha
        ensures IsNext(e, i, k)
      {
        SquareIsNext(e, i, k);
      }
    } else if e.s == 1 && e.p <= 2 {
      NarrowIsNextIff(e);
    } else {
      FirstBlockLeavesChain(e);
      assert !IsNext(e, 1, 1) by {
        if IsNext(e, 1, 1) {
          IsNextStays(e, 1, 1);
        }
      }
    }
  }

  lemma SquareIsNext(e: Params, i: nat, k: nat)
    requires 2 <= e.s == e.p && i >= 1 && k < 3
    ensures IsNext(e, i, k)
  {
    hide ChainIndexes, ForwardNeighborIndexes;
    var q := e.(alpha := 2);
    ForwardIsNextOnChain(q, i, k);
    var f := ForwardNeighborIndexes(q, i)[k];
    SameIndexes(e, q, i);
    SameIndexes(e, q, f);
    forall j: nat | i < j < f
      ensures ChainIndexes(e, j)[k] != ChainIndexes(e, i)[k]
    {
      SameIndexes(e, q, j);
    }
  }

  lemma SameIndexes(e: Params, q: Params, i: int)
    requires e.s > 0 && e.p > 0 && q.s == e.s && q.p == e.p
    ensures ChainIndexes(e, i) == ChainIndexes(q, i)
    ensures ForwardNeighborIndexes(e, i) == ForwardNeighborIndexes(q, i)
  {
  }

  // ----- columns of one block

  /** With s = 1 all blocks are on one horizontal and one left-handed chain; the right-handed ones repeat after p. */
  lemma NarrowIndexes(e: Params, i: nat)
    requires e.s == 1 && e.p >= 1 && i >= 1
    ensures var x := (i - 1) % e.p; ChainIndexes(e, i) == [0, if x == 0 then 0 else e.p - x, 0]
    ensures ForwardNeighborIndexes(e, i) == [i + 1, i + 2, i + e.p]
  {
    var x := (i - 1) % e.p;
    WindowPositive(e);
    assert e.s * e.p == e.p;
    DivModUnique(e.p, 0, x);
    assert x % e.p == x && x / e.p == 0;
    if x == 0 {
      DivModUnique(e.p, 1, 0);
    } else {
      DivModUnique(e.p, 0, e.p - x);
    }
    assert GoMod(0 - x + e.p, e.p) == if x == 0 then 0 else e.p - x;
    assert i % 1 == 0 && (i - 1) % 1 == 0 && x % 1 == 0;
  }

  lemma EvenOdd(i: nat)
    ensures (i + 2) % 2 == i % 2 && (i + 1) % 2 != i % 2
  {
  }

  lemma NarrowStays(e: Params, i: nat, k: nat)
    requires e.s == 1 && 1 <= e.p <= 2 && i >= 1 && k < 3
    ensures StaysOnChain(e, i, k)
  {
    NarrowIndexes(e, i);
    NarrowIndexes(e, i + 1);
    NarrowIndexes(e, i + 2);
    NarrowIndexes(e, i + e.p);
    EvenOdd(i - 1);
    hide ChainIndexes, ForwardNeighborIndexes;
  }

  lemma NarrowIsNextIff(e: Params)
    requires Accepted(e) && e.s == 1 && e.p <= 2
    ensures (forall i: nat, k: nat :: i >= 1 && k < e.alpha ==> IsNext(e, i, k)) <==> e.p == 2 && e.alpha == 2
  {
    if e.p == 2 && e.alpha == 2 {
      forall i: nat, k: nat | i >= 1 && k < e.alpha
        ensures IsNext(e, i, k)
      {
        NarrowStays(e, i, k);
        NarrowIndexes(e, i);
        NarrowIndexes(e, i + 1);
        EvenOdd(i - 1);
        hide ChainIndexes, ForwardNeighborIndexes, StaysOnChain;
      }
    } else {
      NarrowIndexes(e, 1);
      NarrowIndexes(e, 2);
      NarrowIndexes(e, 3);
      hide ChainIndexes, ForwardNeighborIndexes;
      assert !IsNext(e, 1, if e.p == 1 then 1 else 2);
    }
  }

  // ----- block 1

  /** Block 1 keeps its right-handed chain under exactly the same condition. */
  lemma FirstBlockLeavesChain(e: Params)
    requires Accepted(e)
    ensures ForwardNeighborIndexes(e, 1)[1] == e.s + 2
    ensures StaysOnChain(e, 1, 1) <==> e.s == e.p || (e.s == 1 && e.p == 2)
  {
    if e.s == 1 {
      NarrowIndexes(e, 1);
      NarrowIndexes(e, 3);
      NarrowFirst(e.p);
    } else if e.s == e.p {
      SquareIsNext(e, 1, 1);
      FirstForward(e);
    } else {
      WideFirst(e);
    }
  }

  lemma NarrowFirst(p: nat)
    requires p >= 1
    ensures 0 % p == 0 && (2 % p == 0 <==> p <= 2)
  {
    if p > 2 {
      DivModUnique(p, 0, 2);
    }
    DivModUnique(p, 0, 0);
  }

  lemma FirstForward(e: Params)
    requires e.s >= 2 && e.p > 0
    ensures ForwardNeighborIndexes(e, 1)[1] == e.s + 2
  {
    DivModUnique(e.s, 0, 1);
  }

  lemma WideFirst(e: Params)
    requires 2 <= e.s < e.p
    ensures ForwardNeighborIndexes(e, 1)[1] == e.s + 2
    ensures ChainIndexes(e, e.s + 2)[1] != ChainIndexes(e, 1)[1]
  {
    var s, p := e.s, e.p;
    WindowPositive(e);
    DivModUnique(s, 0, 1);
    MulOrder(1, s, p);
    DivModUnique(s * p, 0, 0);
    DivModUnique(s * p, 0, s + 1);
    DivModUnique(p, 0, 0);
    DivModUnique(p, 1, 0);
    if s + 1 == p {
      RightChainInWindow(e, s + 2, 0, 1);
    } else {
      DivModUnique(p, 0, s + 1);
      RightChainInWindow(e, s + 2, s + 1, 0);
    }
    RightChainInWindow(e, 1, 0, 0);
    DivModUnique(p, 1, 1);
    DivModUnique(p, 0, p - s - 1);
    DivModUnique(p, 0, 1);
  }

  lemma RightChainInWindow(e: Params, i: nat, x: nat, y: nat)
    requires e.s > 0 && e.p > 0 && i >= 1
    requires x < e.p && i - 1 == y * e.p + x < e.s * e.p
    ensures ChainIndexes(e, i)[1] == GoMod(y - x + e.p, e.p)
  {
    DivModUnique(e.s * e.p, 0, i - 1);
    DivModUnique(e.p, y, x);
  }
}
