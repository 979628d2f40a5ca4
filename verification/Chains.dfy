/**
  The chains of a lattice of n blocks, closed into cycles, and the parity values on them.
 */
module Chains {
  import opened Bytes
  import opened Geometry

  // ----- members and successors

  /** How many of the blocks 1..n lie on chain a of strand k. */
  function Len(s: nat, n: nat, k: nat, a: nat): nat
    requires s >= 2 && k < 3 && a < s
  {
    Quot(s, n) + if RowAt(s, k, Rem(s, Quot(s, n)), a) < Rem(s, n) then 1 else 0
  }

  lemma LenMeaning(s: nat, n: nat, k: nat, a: nat, c: nat)
    requires s >= 2 && k < 3 && a < s
    ensures Member(s, k, a, c) <= n <==> c < Len(s, n, k, a)
  {
    var q := Quot(s, n);
    Decompose(s, n);
    if c < q {
      BaseOrder(s, c, q);
    } else if q < c {
      BaseOrder(s, q, c);
    }
  }

  lemma LenIs(s: nat, n: nat, k: nat, a: nat, m: nat)
    requires s >= 2 && k < 3 && a < s
    requires m > 0 ==> Member(s, k, a, m - 1) <= n
    requires n < Member(s, k, a, m)
    ensures Len(s, n, k, a) == m
  {
    LenMeaning(s, n, k, a, m);
    if m > 0 {
      LenMeaning(s, n, k, a, m - 1);
    }
  }

  /** A block is preceded on its chain by as many blocks as there are columns before it. */
  lemma LenBefore(s: nat, k: nat, i: nat)
    requires s >= 2 && k < 3 && i >= 1
    ensures Len(s, i - 1, k, Chain(s, k, i)) == Col(s, i)
    ensures Len(s, i, k, Chain(s, k, i)) == Col(s, i) + 1
  {
    var a, c := Chain(s, k, i), Col(s, i);
    MemberOfChain(s, k, i);
    MemberIncreases(s, k, a, c, c + 1);
    if c > 0 {
      MemberIncreases(s, k, a, c - 1, c);
    }
    LenIs(s, i - 1, k, a, c);
    LenIs(s, i, k, a, c + 1);
  }

  /** A new block leaves the other chains of the strand alone. */
  lemma LenElsewhere(s: nat, k: nat, a: nat, i: nat)
    requires s >= 2 && k < 3 && a < s && i >= 1
    requires a != Chain(s, k, i)
    ensures Len(s, i, k, a) == Len(s, i - 1, k, a)
  {
    hide *;
    var m := Len(s, i, k, a);
    LenMeaning(s, i, k, a, m);
    if m > 0 {
      LenMeaning(s, i, k, a, m - 1);
      MemberCoordinates(s, k, a, m - 1);
    }
    LenIs(s, i - 1, k, a, m);
  }

  lemma LenZero(s: nat, k: nat, a: nat)
    requires s >= 2 && k < 3 && a < s
    ensures Len(s, 0, k, a) == 0
  {
  }

  /** With c full columns every chain has at least c blocks. */
  lemma LenColumns(s: nat, n: nat, k: nat, a: nat, c: nat)
    requires s >= 2 && k < 3 && a < s && n >= Base(s, c)
    ensures Len(s, n, k, a) >= c
  {
    Decompose(s, n);
    if Quot(s, n) < c {
      BaseOrder(s, Quot(s, n), c);
    }
  }

  /** Every chain of a strand has c blocks if and only if there are c full columns. */
  lemma ColumnsFullIff(s: nat, n: nat, k: nat, c: nat)
    requires s >= 2 && k < 3
    ensures (forall a: nat :: a < s ==> Len(s, n, k, a) >= c) <==> n >= Base(s, c)
  {
    if n >= Base(s, c) {
      forall a: nat | a < s
        ensures Len(s, n, k, a) >= c
      {
        LenColumns(s, n, k, a, c);
      }
    } else {
      var i := Base(s, c - 1) + (s - 1) + 1;
      ColRowOf(s, c - 1, s - 1);
      MemberOfChain(s, k, i);
      LenMeaning(s, n, k, Chain(s, k, i), c - 1);
      assert Len(s, n, k, Chain(s, k, i)) < c;
    }
  }

  /** The first column is started on every chain if and only if there are s blocks. */
  lemma AllChainsStartedIff(s: nat, n: nat, k: nat)
    requires s >= 2 && k < 3
    ensures (forall a: nat :: a < s ==> Len(s, n, k, a) > 0) <==> n >= s
  {
    ColumnsFullIff(s, n, k, 1);
    hide Len;
    assert Base(s, 1) == s;
    assert (forall a: nat :: a < s ==> Len(s, n, k, a) > 0) <==> (forall a: nat :: a < s ==> Len(s, n, k, a) >= 1);
  }

  lemma LenMonotone(s: nat, n: nat, n': nat, k: nat, a: nat)
    requires s >= 2 && k < 3 && a < s && n <= n'
    ensures Len(s, n, k, a) <= Len(s, n', k, a)
  {
    var m := Len(s, n, k, a);
    if m > 0 {
      LenMeaning(s, n, k, a, m - 1);
      LenMeaning(s, n', k, a, m - 1);
    }
  }

  /** The block after i on its chain; the last block is followed by the first. */
  function Next(s: nat, n: nat, k: nat, i: nat): (j: nat)
    requires s >= 2 && k < 3 && 1 <= i <= n
    ensures j >= 1
  {
    var a := Chain(s, k, i);
    var f := Member(s, k, a, Col(s, i) + 1);
    if f <= n then f else Member(s, k, a, 0)
  }

  /** The block before i on its chain; the first block is preceded by the last. */
  function Prev(s: nat, n: nat, k: nat, i: nat): (j: nat)
    requires s >= 2 && k < 3 && 1 <= i <= n
    ensures j >= 1
  {
    var a, c := Chain(s, k, i), Col(s, i);
    if c > 0 then Member(s, k, a, c - 1)
    else LenPositive(s, n, k, i); Member(s, k, a, Len(s, n, k, a) - 1)
  }

  lemma LenPositive(s: nat, n: nat, k: nat, i: nat)
    requires s >= 2 && k < 3 && 1 <= i <= n
    ensures Col(s, i) < Len(s, n, k, Chain(s, k, i))
  {
    MemberOfChain(s, k, i);
    LenMeaning(s, n, k, Chain(s, k, i), Col(s, i));
  }

  /** Successor in coordinates: one column on, or back to column 0. */
  lemma NextCoordinates(s: nat, n: nat, k: nat, i: nat)
    requires s >= 2 && k < 3 && 1 <= i <= n
    ensures var j, a, c := Next(s, n, k, i), Chain(s, k, i), Col(s, i);
            && 1 <= j <= n && Chain(s, k, j) == a
            && Col(s, j) == if c + 1 < Len(s, n, k, a) then c + 1 else 0
  {
    var a, c := Chain(s, k, i), Col(s, i);
    LenPositive(s, n, k, i);
    LenMeaning(s, n, k, a, c + 1);
    LenMeaning(s, n, k, a, 0);
    MemberCoordinates(s, k, a, c + 1);
    MemberCoordinates(s, k, a, 0);
  }

  lemma PrevCoordinates(s: nat, n: nat, k: nat, i: nat)
    requires s >= 2 && k < 3 && 1 <= i <= n
    ensures var j, a, c := Prev(s, n, k, i), Chain(s, k, i), Col(s, i);
            && 1 <= j <= n && Chain(s, k, j) == a
            && Col(s, j) == if c > 0 then c - 1 else Len(s, n, k, a) - 1
  {
    var a, c := Chain(s, k, i), Col(s, i);
    LenPositive(s, n, k, i);
    var c' := if c > 0 then c - 1 else Len(s, n, k, a) - 1;
    LenMeaning(s, n, k, a, c');
    MemberCoordinates(s, k, a, c');
  }

  /** Two blocks with the same chain and column are the same block. */
  lemma CoordinatesDetermine(s: nat, k: nat, i: nat, j: nat)
    requires s >= 2 && k < 3 && i >= 1 && j >= 1
    requires Chain(s, k, i) == Chain(s, k, j) && Col(s, i) == Col(s, j)
    ensures i == j
  {
    MemberOfChain(s, k, i);
    MemberOfChain(s, k, j);
  }

  /** Successor and predecessor are inverse permutations of the blocks, on every strand. */
  lemma NextPrevInverse(s: nat, n: nat, k: nat, i: nat)
    requires s >= 2 && k < 3 && 1 <= i <= n
    ensures 1 <= Next(s, n, k, i) <= n && Prev(s, n, k, Next(s, n, k, i)) == i
    ensures 1 <= Prev(s, n, k, i) <= n && Next(s, n, k, Prev(s, n, k, i)) == i
  {
    NextCoordinates(s, n, k, i);
    PrevCoordinates(s, n, k, i);
    PrevCoordinates(s, n, k, Next(s, n, k, i));
    NextCoordinates(s, n, k, Prev(s, n, k, i));
    LenPositive(s, n, k, i);
    CoordinatesDetermine(s, k, i, Prev(s, n, k, Next(s, n, k, i)));
    CoordinatesDetermine(s, k, i, Next(s, n, k, Prev(s, n, k, i)));
  }

  /** m steps along the strand. */
  function Walk(s: nat, n: nat, k: nat, i: nat, m: nat): (j: nat)
    requires s >= 2 && k < 3 && 1 <= i <= n
    ensures 1 <= j <= n
  {
    if m == 0 then i
    else
      var j := Walk(s, n, k, i, m - 1);
      NextCoordinates(s, n, k, j);
      Next(s, n, k, j)
  }

  lemma NextOfMember(s: nat, n: nat, k: nat, a: nat, c: nat)
    requires s >= 2 && k < 3 && a < s && c < Len(s, n, k, a)
    ensures 1 <= Member(s, k, a, c) <= n
    ensures Next(s, n, k, Member(s, k, a, c)) == Member(s, k, a, if c + 1 < Len(s, n, k, a) then c + 1 else 0)
  {
    MemberCoordinates(s, k, a, c);
    LenMeaning(s, n, k, a, c);
    LenMeaning(s, n, k, a, c + 1);
  }

  /**
    A strand is made of disjoint cycles: from the first block of a chain, m < Len steps lead to the
    member in column m, and Len steps lead back to the start.
   */
  lemma {:induction false} WalkVisitsChain(s: nat, n: nat, k: nat, a: nat, m: nat)
    requires s >= 2 && k < 3 && a < s
    requires m <= Len(s, n, k, a) && Len(s, n, k, a) > 0
    ensures 1 <= Member(s, k, a, 0) <= n
    ensures Walk(s, n, k, Member(s, k, a, 0), m) == Member(s, k, a, if m < Len(s, n, k, a) then m else 0)
  {
    hide Member, Len, Next, Chain, Col;
    LenMeaning(s, n, k, a, 0);
    if m > 0 {
      WalkVisitsChain(s, n, k, a, m - 1);
      NextOfMember(s, n, k, a, m - 1);
    }
  }

  /**
    The cycles cover the lattice: block i is reached from the start of its own chain, and from the start
    of no other chain of the strand.
   */
  lemma {:induction false} CyclesPartitionBlocks(s: nat, n: nat, k: nat, i: nat)
    requires s >= 2 && k < 3 && 1 <= i <= n
    ensures var start := Member(s, k, Chain(s, k, i), 0);
            1 <= start <= n && Walk(s, n, k, start, Col(s, i)) == i
    ensures forall a: nat, m: nat :: a < s && 1 <= Member(s, k, a, 0) <= n && Walk(s, n, k, Member(s, k, a, 0), m) == i
              ==> a == Chain(s, k, i)
  {
    LenPositive(s, n, k, i);
    WalkVisitsChain(s, n, k, Chain(s, k, i), Col(s, i));
    MemberOfChain(s, k, i);
    forall a: nat, m: nat | a < s && 1 <= Member(s, k, a, 0) <= n && Walk(s, n, k, Member(s, k, a, 0), m) == i
      ensures a == Chain(s, k, i)
    {
      MemberCoordinates(s, k, a, 0);
      WalkKeepsChain(s, n, k, Member(s, k, a, 0), m);
    }
  }

  lemma {:induction false} WalkKeepsChain(s: nat, n: nat, k: nat, i: nat, m: nat)
    requires s >= 2 && k < 3 && 1 <= i <= n
    ensures Chain(s, k, Walk(s, n, k, i, m)) == Chain(s, k, i)
  {
    hide Chain, Next;
    if m > 0 {
      WalkKeepsChain(s, n, k, i, m - 1);
      NextCoordinates(s, n, k, Walk(s, n, k, i, m - 1));
    }
  }

  // ----- values

  /** The data on chain a of strand k, in chain order. */
  function ChainData(data: seq<Chunk>, s: nat, k: nat, a: nat): (d: seq<Chunk>)
    requires s >= 2 && k < 3 && a < s
    ensures |d| == Len(s, |data|, k, a)
  {
    seq(Len(s, |data|, k, a), c requires 0 <= c < Len(s, |data|, k, a) =>
      LenMeaning(s, |data|, k, a, c);
      data[Member(s, k, a, c) - 1])
  }

  /** XOR of the first m blocks of a chain. */
  function Prefix(data: seq<Chunk>, s: nat, k: nat, a: nat, m: nat): Chunk
    requires s >= 2 && k < 3 && a < s && m <= Len(s, |data|, k, a)
  {
    XorAll(ChainData(data, s, k, a)[..m])
  }

  lemma PrefixStep(data: seq<Chunk>, s: nat, k: nat, a: nat, m: nat)
    requires s >= 2 && k < 3 && a < s && m < Len(s, |data|, k, a)
    ensures 1 <= Member(s, k, a, m) <= |data|
    ensures Prefix(data, s, k, a, m + 1) == Xor(data[Member(s, k, a, m) - 1], Prefix(data, s, k, a, m))
  {
    LenMeaning(s, |data|, k, a, m);
    var d := ChainData(data, s, k, a);
    assert d[..m + 1][..m] == d[..m];
  }

  /** The value of the parity leaving block i on strand k after the lattice has been wrapped. */
  function ParityData(data: seq<Chunk>, s: nat, k: nat, i: nat): Chunk
    requires s >= 2 && k < 3 && 1 <= i <= |data|
  {
    var a, c := Chain(s, k, i), Col(s, i);
    LenPositive(s, |data|, k, i);
    if c == 0 && Len(s, |data|, k, a) >= 2 then
      Xor(data[i - 1], Prefix(data, s, k, a, Len(s, |data|, k, a)))
    else
      Prefix(data, s, k, a, c + 1)
  }

  /**
    Closed form of the code, chain by chain: parity j >= 2 is exactly d1 ^ .. ^ dj; the wrapped first
    parity is d2 ^ .. ^ dn up to zero padding, and byte for byte unless d1 is the longest block.
   */
  lemma ParityClosedForm(data: seq<Chunk>, s: nat, k: nat, a: nat, j: nat)
    requires s >= 2 && k < 3 && a < s && j < Len(s, |data|, k, a)
    ensures 1 <= Member(s, k, a, j) <= |data|
    ensures var d := ChainData(data, s, k, a);
            var p := ParityData(data, s, k, Member(s, k, a, j));
            if j == 0 && |d| >= 2 then
              && Same(p, XorAll(d[1..]))
              && (p == XorAll(d[1..]) <==> |d[0]| <= |XorAll(d[1..])|)
            else p == XorAll(d[..j + 1])
  {
    hide *;
    LenMeaning(s, |data|, k, a, j);
    MemberCoordinates(s, k, a, j);
    var d := ChainData(data, s, k, a);
    ParityIs(data, s, k, a, j);
    if j == 0 && |d| >= 2 {
      var rest := XorAll(d[1..]);
      XorAllFront(d);
      XorCommutes(d[0], rest);
      XorBack(d[0], rest);
    }
  }

  /** The definition, by chain and column. */
  lemma ParityIs(data: seq<Chunk>, s: nat, k: nat, a: nat, j: nat)
    requires s >= 2 && k < 3 && a < s && j < Len(s, |data|, k, a)
    ensures 1 <= Member(s, k, a, j) <= |data|
    ensures var d := ChainData(data, s, k, a);
            ParityData(data, s, k, Member(s, k, a, j)) ==
            if j == 0 && |d| >= 2 then Xor(d[0], XorAll(d)) else XorAll(d[..j + 1])
  {
    hide Len, Member, Chain, Col, Xor, XorAll;
    LenMeaning(s, |data|, k, a, j);
    MemberCoordinates(s, k, a, j);
    var d := ChainData(data, s, k, a);
    assert d[..|d|] == d;
  }

  /** Cancelling leaves the other operand, padded if it was the shorter one. */
  lemma XorBack(v: Chunk, rest: Chunk)
    ensures Same(Xor(v, Xor(v, rest)), rest)
    ensures Xor(v, Xor(v, rest)) == rest <==> |v| <= |rest|
  {
    XorCancels(v, rest);
    var p := Xor(v, Xor(v, rest));
    if |v| <= |rest| {
      assert forall x: nat | x < |p| :: p[x] == At(p, x) == At(rest, x) == rest[x];
      assert |p| == |rest|;
    }
  }

  /**
    The local relation along a chain of at least two blocks.  With left(i) standing for the parity that
    enters block i - except behind the wrapped first parity, whose unwrapped value was the first data
    block itself - the three values left(i), block i and the parity leaving i XOR to nothing, and the
    parity is as long as the longer of the other two.
   */
  lemma ParityTriple(data: seq<Chunk>, s: nat, k: nat, i: nat)
    requires s >= 2 && k < 3 && 1 <= i <= |data|
    requires Len(s, |data|, k, Chain(s, k, i)) >= 2
    ensures var h := Prev(s, |data|, k, i);
            && 1 <= h <= |data|
            && Triple(if Col(s, h) == 0 then data[h - 1] else ParityData(data, s, k, h),
                      data[i - 1], ParityData(data, s, k, i))
            && |ParityData(data, s, k, i)| ==
               Longer(data[i - 1], if Col(s, h) == 0 then data[h - 1] else ParityData(data, s, k, h))
  {
    var n, a, c := |data|, Chain(s, k, i), Col(s, i);
    var h := Prev(s, n, k, i);
    PrevCoordinates(s, n, k, i);
    LenPositive(s, n, k, i);
    MemberOfChain(s, k, i);
    MemberOfChain(s, k, h);
    if c == 0 {
      FirstTriple(data, s, k, i, h);
    } else {
      LaterTriple(data, s, k, i, h);
    }
  }

  lemma FirstTriple(data: seq<Chunk>, s: nat, k: nat, i: nat, h: nat)
    requires s >= 2 && k < 3 && 1 <= i <= |data| && 1 <= h <= |data|
    requires Col(s, i) == 0 && Chain(s, k, h) == Chain(s, k, i)
    requires Len(s, |data|, k, Chain(s, k, i)) >= 2
    requires Col(s, h) == Len(s, |data|, k, Chain(s, k, i)) - 1
    ensures Triple(ParityData(data, s, k, h), data[i - 1], ParityData(data, s, k, i))
    ensures |ParityData(data, s, k, i)| == Longer(data[i - 1], ParityData(data, s, k, h))
  {
    hide Chain, Col, Member, Len, Prefix, Xor, Triple;
    XorCommutes(data[i - 1], ParityData(data, s, k, h));
    TripleOf(ParityData(data, s, k, h), data[i - 1]);
    XorLength(data[i - 1], ParityData(data, s, k, h));
  }

  lemma LaterTriple(data: seq<Chunk>, s: nat, k: nat, i: nat, h: nat)
    requires s >= 2 && k < 3 && 1 <= i <= |data| && 1 <= h <= |data|
    requires Col(s, i) > 0 && Chain(s, k, h) == Chain(s, k, i) && Col(s, h) == Col(s, i) - 1
    requires Col(s, i) < Len(s, |data|, k, Chain(s, k, i))
    ensures Triple(if Col(s, h) == 0 then data[h - 1] else ParityData(data, s, k, h),
                   data[i - 1], ParityData(data, s, k, i))
    ensures |ParityData(data, s, k, i)| ==
            Longer(data[i - 1], if Col(s, h) == 0 then data[h - 1] else ParityData(data, s, k, h))
  {
    hide Chain, Col, Member, Len, Prefix, Xor, Triple;
    var a, c := Chain(s, k, i), Col(s, i);
    MemberOfChain(s, k, i);
    PrefixStep(data, s, k, a, c);
    EnteringValue(data, s, k, h);
    TripleOf(Prefix(data, s, k, a, c), data[i - 1]);
    XorLength(data[i - 1], Prefix(data, s, k, a, c));
  }

  /** What enters the block after h: the XOR of everything on the chain up to and including h. */
  lemma EnteringValue(data: seq<Chunk>, s: nat, k: nat, h: nat)
    requires s >= 2 && k < 3 && 1 <= h <= |data|
    requires Col(s, h) + 1 < Len(s, |data|, k, Chain(s, k, h))
    ensures (if Col(s, h) == 0 then data[h - 1] else ParityData(data, s, k, h))
            == Prefix(data, s, k, Chain(s, k, h), Col(s, h) + 1)
  {
    if Col(s, h) == 0 {
      MemberOfChain(s, k, h);
      PrefixStep(data, s, k, Chain(s, k, h), 0);
      XorEmpty(data[h - 1]);
    }
  }

  /** Every emitted parity of non-empty blocks is non-empty. */
  lemma {:induction false} ParityNonEmpty(data: seq<Chunk>, s: nat, k: nat, i: nat)
    requires s >= 2 && k < 3 && 1 <= i <= |data|
    requires forall d :: d in data ==> d != []
    ensures ParityData(data, s, k, i) != []
  {
    var a, c := Chain(s, k, i), Col(s, i);
    LenPositive(s, |data|, k, i);
    PrefixStep(data, s, k, a, c);
    assert data[i - 1] in data && data[Member(s, k, a, c) - 1] in data;
  }
}
