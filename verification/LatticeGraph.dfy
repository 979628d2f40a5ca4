/**
  The lattice as an abstract graph: data blocks, parity blocks, and for every block the pairs of blocks
  whose XOR should be the block.
 */
module LatticeGraph {
  import opened Bytes
  import opened Geometry
  import opened Chains

  /** alpha strand families over n data blocks in columns of height s. */
  datatype Graph = Graph(alpha: nat, s: nat, n: nat) {
    predicate Valid() {
      2 <= alpha <= 3 && s >= 2
    }
  }

  /** Data block i, or the parity leaving data block i on strand k. */
  datatype Node = D(i: nat) | P(k: nat, i: nat)

  datatype Pair = Pair(left: Node, right: Node)

  predicate In(g: Graph, b: Node) {
    1 <= b.i <= g.n && (b.P? ==> b.k < g.alpha)
  }

  /** The parity was rebuilt when the lattice was wrapped: it leaves the first block of a longer chain. */
  predicate WrapModified(g: Graph, k: nat, i: nat)
    requires g.Valid() && In(g, P(k, i))
  {
    Col(g.s, i) == 0 && Next(g.s, g.n, k, i) != i
  }

  /** What enters block i on strand k; a rebuilt first parity is bypassed in favour of its left block. */
  function Entering(g: Graph, k: nat, i: nat): (b: Node)
    requires g.Valid() && In(g, P(k, i))
    ensures In(g, b)
  {
    PrevCoordinates(g.s, g.n, k, i);
    var h := Prev(g.s, g.n, k, i);
    if WrapModified(g, k, h) then D(h) else P(k, h)
  }

  /** The pair behind block i: the next data block and the parity leaving it. */
  function Leaving(g: Graph, k: nat, i: nat): (p: Pair)
    requires g.Valid() && In(g, P(k, i))
    ensures In(g, p.left) && In(g, p.right)
  {
    NextCoordinates(g.s, g.n, k, i);
    var j := Next(g.s, g.n, k, i);
    Pair(D(j), P(k, j))
  }

  /** Pairs of data block i contributed by strand k. */
  function StrandPairs(g: Graph, i: nat, k: nat): (ps: seq<Pair>)
    requires g.Valid() && In(g, P(k, i))
    ensures |ps| >= 1 && forall p :: p in ps ==> In(g, p.left) && In(g, p.right)
  {
    [Pair(Entering(g, k, i), P(k, i))] + if WrapModified(g, k, i) then [Leaving(g, k, i)] else []
  }

  /** Pairs of data block i from strands 0..k-1, in order. */
  function DataPairs(g: Graph, i: nat, k: nat): (ps: seq<Pair>)
    requires g.Valid() && 1 <= i <= g.n && k <= g.alpha
    ensures forall p :: p in ps ==> In(g, p.left) && In(g, p.right)
  {
    if k == 0 then [] else DataPairs(g, i, k - 1) + StrandPairs(g, i, k - 1)
  }

  function ParityPairs(g: Graph, k: nat, i: nat): (ps: seq<Pair>)
    requires g.Valid() && In(g, P(k, i))
    ensures |ps| >= 1 && forall p :: p in ps ==> In(g, p.left) && In(g, p.right)
  {
    [Pair(Entering(g, k, i), D(i))] + if WrapModified(g, k, i) then [] else [Leaving(g, k, i)]
  }

  /** The recover pairs of a block, in the order in which they are tried. */
  function Pairs(g: Graph, b: Node): (ps: seq<Pair>)
    requires g.Valid() && In(g, b)
    ensures forall p :: p in ps ==> In(g, p.left) && In(g, p.right)
  {
    match b
    case D(i) => DataPairs(g, i, g.alpha)
    case P(k, i) => ParityPairs(g, k, i)
  }

  lemma {:induction false} DataPairsFrom(g: Graph, i: nat, k: nat, p: Pair)
    requires g.Valid() && 1 <= i <= g.n && k <= g.alpha
    ensures p in DataPairs(g, i, k) <==> exists k' :: 0 <= k' < k && p in StrandPairs(g, i, k')
  {
    if k > 0 {
      DataPairsFrom(g, i, k - 1, p);
    }
  }

  // ----- soundness of the pairs

  /** The value of a block: the data, or the parity the entangler emits. */
  function Value(g: Graph, data: seq<Chunk>, b: Node): Chunk
    requires g.Valid() && |data| == g.n && In(g, b)
  {
    match b
    case D(i) => data[i - 1]
    case P(k, i) => ParityData(data, g.s, k, i)
  }

  ghost predicate PairSound(g: Graph, data: seq<Chunk>, b: Node, p: Pair)
    requires g.Valid() && |data| == g.n && In(g, b) && In(g, p.left) && In(g, p.right)
  {
    Same(Xor(Value(g, data, p.left), Value(g, data, p.right)), Value(g, data, b))
  }

  /** With two full columns every chain has at least two blocks. */
  predicate TwoColumns(g: Graph) {
    g.n >= 2 * g.s
  }

  lemma ChainsLong(g: Graph, k: nat, i: nat)
    requires g.Valid() && TwoColumns(g) && In(g, P(k, i))
    ensures Len(g.s, g.n, k, Chain(g.s, k, i)) >= 2
    ensures Next(g.s, g.n, k, i) != i
    ensures WrapModified(g, k, i) <==> Col(g.s, i) == 0
  {
    assert Base(g.s, 1) == g.s && Base(g.s, 2) == 2 * g.s;
    LenColumns(g.s, g.n, k, Chain(g.s, k, i), 2);
    NextCoordinates(g.s, g.n, k, i);
  }

  /** Entering parity (or first data block), data block and leaving parity XOR to nothing. */
  lemma BlockTriple(g: Graph, data: seq<Chunk>, k: nat, i: nat)
    requires g.Valid() && TwoColumns(g) && |data| == g.n && In(g, P(k, i))
    ensures Triple(Value(g, data, Entering(g, k, i)), Value(g, data, D(i)), Value(g, data, P(k, i)))
    ensures |Value(g, data, P(k, i))| == Longer(Value(g, data, D(i)), Value(g, data, Entering(g, k, i)))
  {
    hide Chain, Col, Len, Same, Xor;
    ChainsLong(g, k, i);
    PrevCoordinates(g.s, g.n, k, i);
    ChainsLong(g, k, Prev(g.s, g.n, k, i));
    ParityTriple(data, g.s, k, i);
  }

  /** The pair behind a block belongs to the triple of the next block, whose entering value is this block's. */
  lemma LeavingTriple(g: Graph, data: seq<Chunk>, k: nat, i: nat)
    requires g.Valid() && TwoColumns(g) && |data| == g.n && In(g, P(k, i))
    ensures Entering(g, k, Leaving(g, k, i).left.i) == if WrapModified(g, k, i) then D(i) else P(k, i)
    ensures var p := Leaving(g, k, i);
            Triple(Value(g, data, if WrapModified(g, k, i) then D(i) else P(k, i)),
                   Value(g, data, p.left), Value(g, data, p.right))
    ensures |Value(g, data, Leaving(g, k, i).right)| >= |Value(g, data, if WrapModified(g, k, i) then D(i) else P(k, i))|
  {
    NextCoordinates(g.s, g.n, k, i);
    NextPrevInverse(g.s, g.n, k, i);
    BlockTriple(g, data, k, Next(g.s, g.n, k, i));
  }

  lemma StrandPairsSound(g: Graph, data: seq<Chunk>, i: nat, k: nat)
    requires g.Valid() && TwoColumns(g) && |data| == g.n && In(g, P(k, i))
    ensures forall p :: p in StrandPairs(g, i, k) ==> PairSound(g, data, D(i), p)
  {
    hide Value, Entering, Leaving, WrapModified, Same, Xor;
    BlockTriple(g, data, k, i);
    TripleRotates(Value(g, data, Entering(g, k, i)), Value(g, data, D(i)), Value(g, data, P(k, i)));
    if WrapModified(g, k, i) {
      LeavingTriple(g, data, k, i);
      var p := Leaving(g, k, i);
      TripleRotates(Value(g, data, D(i)), Value(g, data, p.left), Value(g, data, p.right));
    }
  }

  lemma ParityPairsSound(g: Graph, data: seq<Chunk>, k: nat, i: nat)
    requires g.Valid() && TwoColumns(g) && |data| == g.n && In(g, P(k, i))
    ensures forall p :: p in ParityPairs(g, k, i) ==> PairSound(g, data, P(k, i), p)
  {
    hide Value, Entering, Leaving, WrapModified, Same, Xor;
    BlockTriple(g, data, k, i);
    if !WrapModified(g, k, i) {
      LeavingTriple(g, data, k, i);
      var p := Leaving(g, k, i);
      TripleRotates(Value(g, data, P(k, i)), Value(g, data, p.left), Value(g, data, p.right));
    }
  }

  /** Every recover pair of every block XORs to the block's own value, up to zero padding. */
  lemma PairsSound(g: Graph, data: seq<Chunk>, b: Node)
    requires g.Valid() && TwoColumns(g) && |data| == g.n && In(g, b)
    ensures forall p :: p in Pairs(g, b) ==> PairSound(g, data, b, p)
  {
    match b
    case P(k, i) => ParityPairsSound(g, data, k, i);
    case D(i) =>
      forall p | p in Pairs(g, b)
        ensures PairSound(g, data, b, p)
      {
        DataPairsFrom(g, i, g.alpha, p);
        var k :| 0 <= k < g.alpha && p in StrandPairs(g, i, k);
        StrandPairsSound(g, data, i, k);
      }
  }

  /** The XOR of the pair is at least as long as the block. */
  ghost predicate PairLong(g: Graph, data: seq<Chunk>, b: Node, p: Pair)
    requires g.Valid() && |data| == g.n && In(g, b) && In(g, p.left) && In(g, p.right)
  {
    |Value(g, data, b)| <= Longer(Value(g, data, p.left), Value(g, data, p.right))
  }

  lemma StrandPairsLong(g: Graph, data: seq<Chunk>, i: nat, k: nat)
    requires g.Valid() && TwoColumns(g) && |data| == g.n && In(g, P(k, i))
    ensures forall p :: p in StrandPairs(g, i, k) ==> PairLong(g, data, D(i), p)
  {
    hide Value, Entering, Leaving, WrapModified, Triple;
    BlockTriple(g, data, k, i);
    LeavingTriple(g, data, k, i);
  }

  lemma ParityPairsLong(g: Graph, data: seq<Chunk>, k: nat, i: nat)
    requires g.Valid() && TwoColumns(g) && |data| == g.n && In(g, P(k, i))
    ensures forall p :: p in ParityPairs(g, k, i) ==> PairLong(g, data, P(k, i), p)
  {
    hide Value, Entering, Leaving, WrapModified, Triple;
    BlockTriple(g, data, k, i);
    LeavingTriple(g, data, k, i);
  }

  /** No recover pair loses bytes: what it gives is the block with zeros appended, never cut. */
  lemma PairsLong(g: Graph, data: seq<Chunk>, b: Node)
    requires g.Valid() && TwoColumns(g) && |data| == g.n && In(g, b)
    ensures forall p :: p in Pairs(g, b) ==> PairLong(g, data, b, p)
  {
    match b
    case P(k, i) => ParityPairsLong(g, data, k, i);
    case D(i) =>
      forall p | p in Pairs(g, b)
        ensures PairLong(g, data, b, p)
      {
        DataPairsFrom(g, i, g.alpha, p);
        var k :| 0 <= k < g.alpha && p in StrandPairs(g, i, k);
        StrandPairsLong(g, data, i, k);
      }
  }

  /** With less than two columns, the last block of the first column is alone on its horizontal chain. */
  lemma LoneBlock(g: Graph)
    requires g.Valid() && g.s <= g.n && !TwoColumns(g)
    ensures In(g, D(g.s)) && Pair(P(0, g.s), P(0, g.s)) in Pairs(g, D(g.s))
    ensures Pairs(g, D(g.s))[0] == Pair(P(0, g.s), P(0, g.s))
  {
    var s := g.s;
    ColRowOf(s, 0, s - 1);
    ColRowOf(s, 1, s - 1);
    assert Base(s, 1) == s;
    assert Chain(s, 0, s) == s - 1 && Member(s, 0, s - 1, 1) == 2 * s && Member(s, 0, s - 1, 0) == s;
    assert Next(s, g.n, 0, s) == s;
    NextPrevInverse(s, g.n, 0, s);
    DataPairsHead(g, s, g.alpha);
  }

  lemma {:induction false} DataPairsHead(g: Graph, i: nat, k: nat)
    requires g.Valid() && 1 <= i <= g.n && 1 <= k <= g.alpha
    ensures |DataPairs(g, i, k)| > 0 && DataPairs(g, i, k)[0] == StrandPairs(g, i, 0)[0]
  {
    if k > 1 {
      DataPairsHead(g, i, k - 1);
    }
  }

  /**
    Exactly when the pairs can be trusted: for data in which every block has a non-zero byte, all pairs of
    all blocks are sound if and only if the lattice has two full columns.
   */
  lemma PairsSoundIffTwoColumns(g: Graph, data: seq<Chunk>)
    requires g.Valid() && g.s <= g.n == |data|
    requires forall d :: d in data ==> !Same(d, [])
    ensures (forall b, p :: In(g, b) && p in Pairs(g, b) ==> PairSound(g, data, b, p)) <==> TwoColumns(g)
  {
    hide ParityData, Same, Xor;
    if TwoColumns(g) {
      forall b, p | In(g, b) && p in Pairs(g, b)
        ensures PairSound(g, data, b, p)
      {
        PairsSound(g, data, b);
      }
    } else {
      LoneBlock(g);
      var v := Value(g, data, P(0, g.s));
      assert data[g.s - 1] in data;
      XorSelfDiffers(v, data[g.s - 1]);
      assert !PairSound(g, data, D(g.s), Pair(P(0, g.s), P(0, g.s)));
    }
  }

  /** A chunk XORed with itself is all zeros, hence different from every chunk that is not. */
  lemma XorSelfDiffers(v: Chunk, d: Chunk)
    requires !Same(d, [])
    ensures Same(Xor(v, v), []) && !Same(Xor(v, v), d)
  {
    var i: nat :| At(d, i) != At([], i);
    XorAt(v, v, i);
  }
}
