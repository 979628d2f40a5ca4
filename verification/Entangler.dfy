/**
  The streaming entangler.  It keeps, per strand, the last parity of every chain in a cache, combines each
  arriving block with the cached parities of its three chains, holds back the parity of every chain's first
  block, and finally wraps: the held-back parities are rebuilt from the cached chain ends and sent.
 */
module Entangling {
  import opened Bytes
  import opened Geometry
  import opened Chains
  import opened Emission

  /** A parity under construction.  Only its right index ever changes; forward is the value it was built with. */
  class EntangledBlock {
    const leftBlockIndex: nat
    const data: Chunk
    const strand: nat
    var rightBlockIndex: int
    ghost const forward: int

    constructor (l: nat, r: int, data: Chunk, strand: nat)
      ensures leftBlockIndex == l && rightBlockIndex == forward == r && this.data == data && this.strand == strand
    {
      leftBlockIndex, rightBlockIndex, forward, this.data, this.strand := l, r, r, data, strand;
    }
  }

  /** The channel parities are sent on.  Sending copies the block. */
  class ParityChannel {
    var sent: seq<Parity>

    constructor ()
      ensures sent == []
    {
      sent := [];
    }

    method Send(b: EntangledBlock)
      requires b.rightBlockIndex >= 0
      modifies this
      ensures sent == old(sent) + [Parity(b.leftBlockIndex, b.rightBlockIndex, b.data, b.strand)]
    {
      sent := sent + [Parity(b.leftBlockIndex, b.rightBlockIndex, b.data, b.strand)];
    }
  }

  /**
    Chain a of strand k after the first m blocks: the cache slot holds the last parity of the chain,
    unwrapped.  While the chain has one block only, cache and hold-back share that parity; before that the
    cache has an empty parity without indexes and nothing is held back.
   */
  ghost predicate ChainState(s: nat, b: EntangledBlock, w: EntangledBlock?, input: seq<Chunk>, k: nat, a: nat, m: nat)
    requires s >= 2 && k < 3 && a < s && m <= |input|
  {
    var l := Len(s, m, k, a);
    LenMonotone(s, m, |input|, k, a);
    && b.data == Prefix(input, s, k, a, l)
    && (l > 0 ==> b.strand == k && b.leftBlockIndex == Member(s, k, a, l - 1)
                  && b.forward == Member(s, k, a, l))
    && (l == 1 ==> w == b)
    && (l == 0 ==> b.leftBlockIndex == b.forward == 0 && w == null)
  }

  /** Where the first parity of chain a is held back. */
  function StartSlot(s: nat, k: nat, a: nat): (x: nat)
    requires s >= 2 && k < 3 && a < s
    ensures x < s && Chain(s, k, x + 1) == a && Col(s, x + 1) == 0
  {
    FirstColumn(s, k, a);
    Member(s, k, a, 0) - 1
  }

  /** Chains from.. of strand k after m blocks; the hold-back is indexed by the first block of the chain. */
  ghost predicate StrandState(s: nat, cache: seq<EntangledBlock>, wraps: seq<EntangledBlock?>,
                              input: seq<Chunk>, k: nat, from: nat, m: nat)
    requires s >= 2 && k < 3 && m <= |input|
    requires from <= s == |cache| == |wraps|
  {
    forall a: nat :: from <= a < s ==>
      ChainState(s, cache[a], wraps[StartSlot(s, k, a)], input, k, a, m)
  }

  lemma InitialState(s: nat, cache: seq<EntangledBlock>, wraps: seq<EntangledBlock?>, input: seq<Chunk>, k: nat)
    requires s >= 2 && k < 3 && |cache| == |wraps| == s
    requires forall a :: 0 <= a < s ==> cache[a].data == [] && cache[a].leftBlockIndex == cache[a].forward == 0
    requires forall x :: 0 <= x < s ==> wraps[x] == null
    ensures StrandState(s, cache, wraps, input, k, 0, 0)
  {
    forall a: nat | a < s
      ensures ChainState(s, cache[a], wraps[StartSlot(s, k, a)], input, k, a, 0)
    {
      FirstColumn(s, k, a);
      LenZero(s, k, a);
    }
  }

  /** Storing the parity of block m in its chain's slots takes the strand from m-1 to m blocks. */
  lemma StrandStep(s: nat, cache: seq<EntangledBlock>, wraps: seq<EntangledBlock?>, wraps': seq<EntangledBlock?>,
                   next: EntangledBlock, input: seq<Chunk>, k: nat, m: nat)
    requires s >= 2 && k < 3 && 1 <= m <= |input|
    requires |cache| == |wraps| == s && StrandState(s, cache, wraps, input, k, 0, m - 1)
    requires next.strand == k && next.leftBlockIndex == m
    requires next.forward == Member(s, k, Chain(s, k, m), Col(s, m) + 1)
    requires next.data == Xor(input[m - 1], cache[Chain(s, k, m)].data)
    requires Col(s, m) > 0 ==> wraps' == wraps
    requires Col(s, m) == 0 ==> m <= s && wraps' == wraps[m - 1 := next]
    ensures StrandState(s, cache[Chain(s, k, m) := next], wraps', input, k, 0, m)
  {
    var pos, cache' := Chain(s, k, m), cache[Chain(s, k, m) := next];
    hide ChainState, StartSlot, Chain, Col, Member;
    if Col(s, m) == 0 {
      CoordinatesDetermine(s, k, m, StartSlot(s, k, pos) + 1);
    }
    forall a: nat | a < s
      ensures ChainState(s, cache'[a], wraps'[StartSlot(s, k, a)], input, k, a, m)
    {
      var slot := StartSlot(s, k, a);
      if a == pos {
        OwnChainStep(s, cache[a], wraps[slot], next, wraps'[slot], input, k, m);
      } else {
        assert Chain(s, k, slot + 1) == a;
        OtherChainStep(s, cache[a], wraps[slot], input, k, a, m);
      }
    }
  }

  lemma OtherChainStep(s: nat, b: EntangledBlock, w: EntangledBlock?, input: seq<Chunk>, k: nat, a: nat, m: nat)
    requires s >= 2 && k < 3 && 1 <= m <= |input| && a < s && a != Chain(s, k, m)
    requires ChainState(s, b, w, input, k, a, m - 1)
    ensures ChainState(s, b, w, input, k, a, m)
  {
    LenElsewhere(s, k, a, m);
    hide Len;
  }

  lemma OwnChainStep(s: nat, b: EntangledBlock, w: EntangledBlock?, b': EntangledBlock, w': EntangledBlock?,
                     input: seq<Chunk>, k: nat, m: nat)
    requires s >= 2 && k < 3 && 1 <= m <= |input|
    requires ChainState(s, b, w, input, k, Chain(s, k, m), m - 1)
    requires b'.strand == k && b'.leftBlockIndex == m
    requires b'.forward == Member(s, k, Chain(s, k, m), Col(s, m) + 1)
    requires b'.data == Xor(input[m - 1], b.data)
    requires Col(s, m) == 0 ==> w' == b'
    ensures ChainState(s, b', w', input, k, Chain(s, k, m), m)
  {
    hide Chain, Member, Col, Prefix, Len, Xor;
    LenBefore(s, k, m);
    MemberOfChain(s, k, m);
    LenPositive(s, |input|, k, m);
    PrefixStep(input, s, k, Chain(s, k, m), Col(s, m));
  }

  /** What is sent for a block behind the first column is the parity of the specification. */
  lemma SentParity(s: nat, cache: seq<EntangledBlock>, wraps: seq<EntangledBlock?>, input: seq<Chunk>, k: nat, m: nat)
    requires s >= 2 && k < 3 && 1 <= m <= |input| && Col(s, m) > 0
    requires |cache| == |wraps| == s && StrandState(s, cache, wraps, input, k, 0, m - 1)
    ensures Parity(m, Member(s, k, Chain(s, k, m), Col(s, m) + 1), Xor(input[m - 1], cache[Chain(s, k, m)].data), k)
            == Emitted(input, s, k, m)
  {
    var a, c := Chain(s, k, m), Col(s, m);
    assert ChainState(s, cache[a], wraps[StartSlot(s, k, a)], input, k, a, m - 1);
    LenBefore(s, k, m);
    MemberOfChain(s, k, m);
    LenPositive(s, |input|, k, m);
    PrefixStep(input, s, k, a, c);
    hide Chain, Member, Col, Prefix;
  }

  class Entangler {
    const e: Params
    const strands: seq<bool>
    var chunkNum: nat
    var chainStartData: seq<Chunk>
    var cachedParities: seq<seq<EntangledBlock>>
    var parityBlocksToWrap: seq<seq<EntangledBlock?>>

    /** An empty list of strands means all of them. */
    constructor (e: Params, strands: seq<bool>)
      requires Square(e) && (strands == [] || |strands| == e.alpha)
      ensures this.e == e
      ensures this.strands == if strands == [] then seq(e.alpha, _ => true) else strands
    {
      this.e := e;
      this.strands := if strands == [] then seq(e.alpha, _ => true) else strands;
      chunkNum, chainStartData, cachedParities, parityBlocksToWrap := 0, [], [], [];
    }

    ghost predicate Fit() {
      Square(e) && |strands| == e.alpha
    }

    ghost predicate Shape()
      reads this`cachedParities, this`parityBlocksToWrap
    {
      && Fit() && |cachedParities| == |parityBlocksToWrap| == e.alpha
      && forall k :: 0 <= k < e.alpha && strands[k] ==> |cachedParities[k]| == |parityBlocksToWrap[k]| == e.s
    }

    ghost function Blocks(): set<EntangledBlock>
      reads this`cachedParities
    {
      set k, a | 0 <= k < |cachedParities| && 0 <= a < |cachedParities[k]| :: cachedParities[k][a]
    }

    /** No cached parity has been closed yet. */
    ghost predicate Open()
      reads this`cachedParities, Blocks()
    {
      forall b :: b in Blocks() ==> b.rightBlockIndex == b.forward
    }

    /** Chains from.. of strand k, if enabled, after m blocks. */
    ghost predicate Strand(input: seq<Chunk>, k: nat, from: nat, m: nat)
      requires Shape() && k < e.alpha && m <= |input| && from <= e.s
      reads this`cachedParities, this`parityBlocksToWrap
    {
      strands[k] ==> StrandState(e.s, cachedParities[k], parityBlocksToWrap[k], input, k, from, m)
    }

    ghost predicate StartsRecorded(input: seq<Chunk>, m: nat)
      requires m <= |input|
      reads this`chainStartData
    {
      |chainStartData| == e.s && forall i :: 0 <= i < m && i < e.s ==> chainStartData[i] == input[i]
    }

    ghost predicate Streaming(input: seq<Chunk>, m: nat)
      requires m <= |input|
      reads this, Blocks()
    {
      && Shape() && Open() && StartsRecorded(input, m)
      && forall k: nat :: k < e.alpha ==> Strand(input, k, 0, m)
    }

    predicate IsValidIndex(index: int)
      reads this
    {
      1 <= index <= chunkNum
    }

    /** Some strand is enabled. */
    ghost predicate Enabled()
      requires Fit()
    {
      exists k :: 0 <= k < e.alpha && strands[k]
    }

    /**
      Entangles a whole stream.  The result is false when the program crashes while wrapping, which it does
      exactly when a strand is enabled and there are fewer than s blocks.
     */
    method Entangle(dataChan: seq<Chunk>, parityChan: ParityChannel) returns (ok: bool)
      requires Fit()
      modifies this, parityChan
      ensures chunkNum == |dataChan|
      ensures ok <==> |dataChan| >= e.s || !Enabled()
      ensures |dataChan| >= e.s ==> parityChan.sent == old(parityChan.sent) + RunOutput(dataChan, e.s, strands)
      ensures |dataChan| < e.s && ok ==> parityChan.sent == old(parityChan.sent)
    {
      hide Strand, BlockOut, WrapOut;
      PrepareEntangle(dataChan);
      var index := 0;
      while index < |dataChan|
        invariant index <= |dataChan| && Streaming(dataChan, index) && fresh(Blocks())
        invariant parityChan.sent == old(parityChan.sent) + StreamOut(dataChan, e.s, strands, index)
      {
        var block := dataChan[index];
        index := index + 1;
        assert forall k: nat :: k < e.alpha && Strand(dataChan, k, 0, index - 1) ==> StrandAt(dataChan, index, 0, k);
        EntangleSingleBlock(index, block, parityChan, dataChan);
        assert forall k: nat :: k < e.alpha && StrandAt(dataChan, index, e.alpha, k) ==> Strand(dataChan, k, 0, index);
        if index <= e.s {
          chainStartData := chainStartData[index - 1 := block];
        }
      }
      chunkNum := index;
      if |dataChan| < e.s {
        FirstColumnHeldBack(dataChan, e.s, strands, |dataChan|);
      }
      ok := WrapLattice(parityChan, dataChan);
    }

    /** Fresh, empty slots: an empty chunk is the neutral element of XOR. */
    method PrepareEntangle(ghost input: seq<Chunk>)
      requires Fit()
      modifies this
      ensures Streaming(input, 0) && fresh(Blocks())
    {
      hide StrandState;
      var wraps: seq<seq<EntangledBlock?>>, caches: seq<seq<EntangledBlock>> := [], [];
      ghost var made: set<EntangledBlock> := {};
      for k := 0 to e.alpha
        invariant |wraps| == |caches| == k
        invariant forall b :: b in made ==> fresh(b) && b.rightBlockIndex == b.forward
        invariant forall j, a | 0 <= j < k && 0 <= a < |caches[j]| :: caches[j][a] in made
        invariant forall j: nat | j < k && strands[j] ::
                    |caches[j]| == |wraps[j]| == e.s && StrandState(e.s, caches[j], wraps[j], input, j, 0, 0)
      {
        ghost var earlier := made;
        var cache: seq<EntangledBlock> := [];
        var wrap: seq<EntangledBlock?> := [];
        if strands[k] {
          for i := 0 to if k == 0 then e.s else e.p
            invariant |cache| == i
            invariant forall b :: b in made ==> fresh(b) && b.rightBlockIndex == b.forward
            invariant earlier <= made && forall a | 0 <= a < i ::
                        cache[a] in made && cache[a].data == [] && cache[a].leftBlockIndex == cache[a].forward == 0
          {
            var b := new EntangledBlock(0, 0, [], k);
            cache, made := cache + [b], made + {b};
          }
          wrap := seq(e.s, _ => null);
          InitialState(e.s, cache, wrap, input, k);
        }
        wraps, caches := wraps + [wrap], caches + [cache];
      }
      parityBlocksToWrap, cachedParities, chainStartData := wraps, caches, seq(e.s, _ => []);
    }

    /** While block index is processed: strands before k have seen it, the others have not. */
    ghost predicate Halfway(input: seq<Chunk>, index: nat, k: nat)
      requires 1 <= index <= |input|
      reads this`cachedParities, this`parityBlocksToWrap, Blocks()
    {
      Shape() && Open() && forall j: nat :: j < e.alpha ==> StrandAt(input, index, k, j)
    }

    ghost predicate StrandAt(input: seq<Chunk>, index: nat, k: nat, j: nat)
      requires Shape() && 1 <= index <= |input| && j < e.alpha
      reads this`cachedParities, this`parityBlocksToWrap
    {
      Strand(input, j, 0, if j < k then index else index - 1)
    }

    /** One block: its forward parity on every enabled strand is built, cached, and sent or held back. */
    method EntangleSingleBlock(index: nat, data: Chunk, parityChan: ParityChannel, ghost input: seq<Chunk>)
      requires 1 <= index <= |input| && data == input[index - 1]
      requires Halfway(input, index, 0)
      modifies this`cachedParities, this`parityBlocksToWrap, parityChan
      ensures Halfway(input, index, e.alpha)
      ensures fresh(Blocks() - old(Blocks()))
      ensures parityChan.sent == old(parityChan.sent) + BlockOut(input, e.s, strands, index, e.alpha)
    {
      hide StrandState, ChainIndexes, ForwardNeighborIndexes, Emitted;
      var cachePos := ChainIndexes(e, index);
      var rIndexes := ForwardNeighborIndexes(e, index);
      for k := 0 to e.alpha
        invariant Halfway(input, index, k)
        invariant fresh(Blocks() - old(Blocks()))
        invariant parityChan.sent == old(parityChan.sent) + BlockOut(input, e.s, strands, index, k)
      {
        if strands[k] {
          EntangleOnStrand(index, data, k, cachePos[k], rIndexes[k], parityChan, input);
        } else {
          ghost var k' := k + 1;
          forall j: nat | j < e.alpha
            ensures StrandAt(input, index, k', j)
          {
            assert StrandAt(input, index, k, j);
          }
        }
      }
    }

    /** The body of the loop over the strands. */
    method EntangleOnStrand(index: nat, data: Chunk, k: nat, pos: int, rIndex: int, parityChan: ParityChannel,
                            ghost input: seq<Chunk>)
      requires 1 <= index <= |input| && data == input[index - 1]
      requires k < e.alpha && Halfway(input, index, k) && strands[k]
      requires pos == ChainIndexes(e, index)[k] && rIndex == ForwardNeighborIndexes(e, index)[k]
      modifies this`cachedParities, this`parityBlocksToWrap, parityChan
      ensures Halfway(input, index, k + 1)
      ensures fresh(Blocks() - old(Blocks()))
      ensures parityChan.sent == old(parityChan.sent) + if Col(e.s, index) > 0 then [Emitted(input, e.s, k, index)] else []
    {
      ghost var caches, wraps := cachedParities, parityBlocksToWrap;
      hide StrandState, ChainIndexes, ForwardNeighborIndexes, ChainStartIndexes, Chain, Member, Col, Emitted;
      ChainIndexesMeaning(e, index, k);
      ForwardMeaning(e, index, k);
      StartTest(e, index, k);
      assert StrandAt(input, index, k, k);
      var prevBlock := cachedParities[k][pos];
      var parityData := XorChunkData(data, prevBlock.data);
      var nextBlock := new EntangledBlock(index, rIndex, parityData, k);
      cachedParities := cachedParities[k := cachedParities[k][pos := nextBlock]];
      if ChainStartIndexes(e, index)[k] != index {
        SentParity(e.s, caches[k], wraps[k], input, k, index);
        parityChan.Send(nextBlock);
      } else {
        parityBlocksToWrap := parityBlocksToWrap[k := parityBlocksToWrap[k][index - 1 := nextBlock]];
      }
      StrandStep(e.s, caches[k], wraps[k], parityBlocksToWrap[k], nextBlock, input, k, index);
      assert Blocks() <= old(Blocks()) + {nextBlock};
      ghost var k' := k + 1;
      forall j: nat | j < e.alpha
        ensures StrandAt(input, index, k', j)
      {
        assert old(StrandAt(input, index, k, j));
        assert j != k ==> cachedParities[j] == caches[j] && parityBlocksToWrap[j] == wraps[j];
      }
    }

    /** Chains a.. of strand k, and all chains of the strands behind it, are as the stream left them. */
    ghost predicate Unwrapped(input: seq<Chunk>, k: nat, a: nat)
      requires Shape() && a <= e.s
      reads this`cachedParities, this`parityBlocksToWrap, Blocks()
    {
      && OpenFrom(k, a)
      && (k < e.alpha ==> Strand(input, k, a, |input|))
      && forall j: nat :: k < j < e.alpha ==> Strand(input, j, 0, |input|)
    }

    ghost predicate OpenFrom(k: nat, a: nat)
      reads this`cachedParities, Blocks()
    {
      forall j: nat, x: nat :: j < |cachedParities| && j < |strands| && strands[j] && x < |cachedParities[j]| && (k < j || (k == j && a <= x))
        ==> cachedParities[j][x].rightBlockIndex == cachedParities[j][x].forward
    }

    /** Chains 0..a-1 of strand k have a block. */
    ghost predicate Started(input: seq<Chunk>, k: nat, a: nat)
      requires Fit() && k < 3 && a <= e.s
    {
      forall x: nat :: x < a ==> Len(e.s, |input|, k, x) > 0
    }

    /**
      Closes every chain: its last parity gets the first block as right end, its first parity is rebuilt and
      sent.  A chain without a block makes the program crash.
     */
    method WrapLattice(parityChan: ParityChannel, ghost input: seq<Chunk>) returns (ok: bool)
      requires Streaming(input, |input|) && chunkNum == |input|
      modifies this`parityBlocksToWrap, Blocks(), parityChan
      ensures Fit() && (ok <==> |input| >= e.s || !Enabled())
      ensures |input| >= e.s ==> parityChan.sent == old(parityChan.sent) + WrapOut(input, e.s, strands, e.alpha)
      ensures |input| < e.s && ok ==> parityChan.sent == old(parityChan.sent)
    {
      hide *;
      NothingWrapped(input);
      StreamRead(input);
      if |input| >= e.s {
        WrapOutStep(input, e.s, strands, 0);
      }
      for k := 0 to e.alpha
        invariant Shape() && Unwrapped(input, k, 0)
        invariant |input| >= e.s ==> parityChan.sent == old(parityChan.sent) + WrapOut(input, e.s, strands, k)
        invariant |input| < e.s ==> parityChan.sent == old(parityChan.sent) && forall j :: 0 <= j < k ==> !strands[j]
      {
        if |input| >= e.s {
          WrapOutStep(input, e.s, strands, k);
        }
        if strands[k] {
          ok := WrapStrand(k, parityChan, input);
          if !ok {
            return;
          }
          SeqAssociates(old(parityChan.sent), WrapOut(input, e.s, strands, k), WrapRow(input, e.s, k, e.s));
        } else {
          StrandDone(input, k);
        }
      }
      ok := true;
    }

    /** The inner loop. */
    method WrapStrand(k: nat, parityChan: ParityChannel, ghost input: seq<Chunk>) returns (ok: bool)
      requires Shape() && StartsRecorded(input, |input|) && chunkNum == |input|
      requires k < e.alpha && strands[k] && Unwrapped(input, k, 0)
      modifies this`parityBlocksToWrap, Blocks(), parityChan
      ensures ok <==> |input| >= e.s
      ensures ok ==> Shape() && Unwrapped(input, k + 1, 0)
      ensures ok ==> parityChan.sent == old(parityChan.sent) + WrapRow(input, e.s, k, e.s)
    {
      hide Unwrapped, Emitted, StartSlot, WrapRow, Len;
      AllChainsStartedIff(e.s, |input|, k);
      if |input| >= e.s {
        WrapRowStep(input, e.s, k, 0);
      }
      for a := 0 to |cachedParities[k]|
        invariant Shape() && Unwrapped(input, k, a) && Started(input, k, a)
        invariant |input| >= e.s ==> parityChan.sent == old(parityChan.sent) + WrapRow(input, e.s, k, a)
      {
        if |input| >= e.s {
          WrapRowStep(input, e.s, k, a);
        }
        ok := WrapChain(k, a, parityChan, input);
        if !ok {
          return;
        }
      }
      StrandDone(input, k);
      ok := true;
    }

    lemma StreamRead(input: seq<Chunk>)
      requires Streaming(input, |input|)
      ensures Fit() && 2 <= |strands| == e.alpha <= 3 && e.s >= 2 && StartsRecorded(input, |input|)
      ensures Enabled() <==> exists k :: 0 <= k < e.alpha && strands[k]
    {
    }

    lemma NothingWrapped(input: seq<Chunk>)
      requires Streaming(input, |input|)
      ensures Shape() && Unwrapped(input, 0, 0)
    {
      hide StrandState;
      assert forall j: nat, x: nat :: j < e.alpha && x < |cachedParities[j]| ==> cachedParities[j][x] in Blocks();
    }

    lemma StrandDone(input: seq<Chunk>, k: nat)
      requires Shape() && k < e.alpha && Unwrapped(input, k, if strands[k] then e.s else 0)
      ensures Unwrapped(input, k + 1, 0)
    {
      hide StrandState;
    }

    /** The body of the inner loop. */
    method WrapChain(k: nat, a: nat, parityChan: ParityChannel, ghost input: seq<Chunk>) returns (ok: bool)
      requires Shape() && StartsRecorded(input, |input|) && chunkNum == |input|
      requires k < e.alpha && strands[k] && a < e.s && Unwrapped(input, k, a) && Started(input, k, a)
      modifies this`parityBlocksToWrap, cachedParities[k][a], parityChan
      ensures ok <==> Len(e.s, |input|, k, a) > 0
      ensures ok ==> Shape() && Unwrapped(input, k, a + 1)
      ensures ok ==> StartSlot(e.s, k, a) < |input|
                     && parityChan.sent == old(parityChan.sent) + [Emitted(input, e.s, k, StartSlot(e.s, k, a) + 1)]
    {
      hide *;
      ChainAtHand(input, k, a);
      StatesAtHand(input, k, a);
      ghost var wraps := parityBlocksToWrap;
      var parityNode := cachedParities[k][a];
      var index := ChainStartIndexes(e, parityNode.rightBlockIndex)[k];
      var rIndex := ForwardNeighborIndexes(e, index)[k];
      CloseNode(input, k, a, index);
      // neither the data of block index nor its held-back parity exists
      if index < 1 || (!IsValidIndex(rIndex) && parityBlocksToWrap[k][index - 1] == null) {
        return false;
      }
      ok := true;
      SendFirst(k, a, index, rIndex, parityChan, input);
      Rewrapped(input, k, a, wraps);
    }

    /** What the inner loop finds for a chain, and that it can go on exactly if the chain has a block. */
    lemma ChainAtHand(input: seq<Chunk>, k: nat, a: nat)
      requires Shape() && chunkNum == |input|
      requires k < e.alpha && strands[k] && a < e.s && Unwrapped(input, k, a) && Started(input, k, a)
      ensures e.s == e.p >= 2 && k < 3 && |cachedParities| == |parityBlocksToWrap| == e.alpha
      ensures |cachedParities[k]| == |parityBlocksToWrap[k]| == e.s
      ensures var index := ChainStartIndexes(e, cachedParities[k][a].rightBlockIndex)[k];
              var rIndex := ForwardNeighborIndexes(e, index)[k];
              && index <= e.s
              && (Len(e.s, |input|, k, a) > 0 ==>
                    index == StartSlot(e.s, k, a) + 1 <= |input| && rIndex == Member(e.s, k, a, 1))
              && (Len(e.s, |input|, k, a) > 0 <==>
                    !(index < 1 || (!IsValidIndex(rIndex) && parityBlocksToWrap[k][index - 1] == null)))
    {
      hide ChainStartIndexes, ForwardNeighborIndexes, StartSlot, Member, Chain, Col, Prefix, Len;
      assert OpenFrom(k, a) && Strand(input, k, a, |input|);
      if Len(e.s, |input|, k, a) > 0 {
        WrapIndexes(e, input, k, a);
        LastParity(e.s, cachedParities[k], parityBlocksToWrap[k], input, k, a, a);
      } else {
        EmptyChain(e, cachedParities[k], parityBlocksToWrap[k], input, k, a);
      }
    }

    lemma StatesAtHand(input: seq<Chunk>, k: nat, a: nat)
      requires Shape() && k < e.alpha && strands[k] && a < e.s && Unwrapped(input, k, a)
      ensures k < 3 && e.s >= 2 && |cachedParities| == |parityBlocksToWrap| == e.alpha == |strands| <= 3
      ensures forall j :: k <= j < e.alpha && strands[j] ==>
                && |cachedParities[j]| == |parityBlocksToWrap[j]| == e.s
                && StrandState(e.s, cachedParities[j], parityBlocksToWrap[j], input, j, if j == k then a else 0, |input|)
    {
      hide StrandState;
      forall j: nat | k <= j < e.alpha && strands[j]
        ensures StrandState(e.s, cachedParities[j], parityBlocksToWrap[j], input, j, if j == k then a else 0, |input|)
      {
        assert j > k ==> Strand(input, j, 0, |input|);
      }
    }

    /** After the hold-back of chain a was rewritten, the later chains are as before. */
    lemma Rewrapped(input: seq<Chunk>, k: nat, a: nat, wraps: seq<seq<EntangledBlock?>>)
      requires Shape() && k < e.alpha && strands[k] && a < e.s && OpenFrom(k, a + 1) && |wraps| == e.alpha
      requires forall j :: k <= j < e.alpha && strands[j] ==>
                 && |wraps[j]| == e.s
                 && StrandState(e.s, cachedParities[j], wraps[j], input, j, if j == k then a else 0, |input|)
      requires forall j :: 0 <= j < e.alpha && j != k ==> parityBlocksToWrap[j] == wraps[j]
      requires forall x :: 0 <= x < e.s && x != StartSlot(e.s, k, a) ==> parityBlocksToWrap[k][x] == wraps[k][x]
      ensures Unwrapped(input, k, a + 1)
    {
      hide StrandState, StartSlot;
      StrandShrinks(e.s, cachedParities[k], wraps[k], input, k, a);
      StrandRewrap(e.s, cachedParities[k], wraps[k], parityBlocksToWrap[k], input, k, a);
    }

    /** Sends the first parity of a closed chain. */
    method SendFirst(k: nat, a: nat, index: nat, rIndex: int, parityChan: ParityChannel, ghost input: seq<Chunk>)
      requires Shape() && StartsRecorded(input, |input|) && chunkNum == |input|
      requires k < e.alpha && strands[k] && a < e.s && Len(e.s, |input|, k, a) > 0
      requires index == StartSlot(e.s, k, a) + 1 <= |input| && rIndex == Member(e.s, k, a, 1)
      requires cachedParities[k][a].rightBlockIndex == index
      requires StrandState(e.s, cachedParities[k], parityBlocksToWrap[k], input, k, a, |input|)
      modifies this`parityBlocksToWrap, parityChan
      ensures Shape() && (old(OpenFrom(k, a + 1)) ==> OpenFrom(k, a + 1))
      ensures forall j :: 0 <= j < e.alpha && j != k ==> parityBlocksToWrap[j] == old(parityBlocksToWrap[j])
      ensures forall x :: 0 <= x < e.s && x != index - 1 ==> parityBlocksToWrap[k][x] == old(parityBlocksToWrap[k][x])
      ensures parityChan.sent == old(parityChan.sent) + [Emitted(input, e.s, k, index)]
    {
      hide StrandState, Emitted, StartSlot, StartsRecorded, Len, Member;
      var first := FirstParity(k, a, index, rIndex, input);
      parityBlocksToWrap := parityBlocksToWrap[k := parityBlocksToWrap[k][index - 1 := first]];
      parityChan.Send(first);
    }

    /** The held-back parity, rebuilt from the end of the chain unless the chain has one block only. */
    method FirstParity(k: nat, a: nat, index: nat, rIndex: int, ghost input: seq<Chunk>) returns (first: EntangledBlock)
      requires Shape() && StartsRecorded(input, |input|) && chunkNum == |input|
      requires k < e.alpha && strands[k] && a < e.s && Len(e.s, |input|, k, a) > 0
      requires index == StartSlot(e.s, k, a) + 1 <= |input| && rIndex == Member(e.s, k, a, 1)
      requires cachedParities[k][a].rightBlockIndex == index
      requires StrandState(e.s, cachedParities[k], parityBlocksToWrap[k], input, k, a, |input|)
      ensures first.rightBlockIndex >= 0
      ensures Parity(first.leftBlockIndex, first.rightBlockIndex, first.data, first.strand) == Emitted(input, e.s, k, index)
    {
      var parityNode := cachedParities[k][a];
      hide ChainStartIndexes, ForwardNeighborIndexes, Emitted, StartSlot, Len, Prefix, Member, Chain, Col, Xor, StrandState;
      WrapIndexes(e, input, k, a);
      WrappedParity(input, e.s, k, a);
      LastParity(e.s, cachedParities[k], parityBlocksToWrap[k], input, k, a, a);
      if IsValidIndex(rIndex) {
        var data := XorChunkData(chainStartData[index - 1], parityNode.data);
        first := new EntangledBlock(index, rIndex, data, k);
      } else {
        first := parityBlocksToWrap[k][index - 1];
      }
    }

    /** The last parity of a chain gets its right end; no other chain's last parity is touched. */
    method CloseNode(ghost input: seq<Chunk>, k: nat, a: nat, index: int)
      requires Shape() && k < e.alpha && strands[k] && a < e.s && Unwrapped(input, k, a)
      modifies cachedParities[k][a]
      ensures cachedParities[k][a].rightBlockIndex == index
      ensures Len(e.s, |input|, k, a) > 0 ==> OpenFrom(k, a + 1)
    {
      if Len(e.s, |input|, k, a) > 0 {
        OtherNodes(input, k, a);
      }
      hide Strand, Len;
      cachedParities[k][a].rightBlockIndex := index;
    }

    /** The parities still to be wrapped are other objects than the end of chain a of strand k. */
    lemma OtherNodes(input: seq<Chunk>, k: nat, a: nat)
      requires Shape() && k < e.alpha && strands[k] && a < e.s && Unwrapped(input, k, a)
      requires Len(e.s, |input|, k, a) > 0
      ensures forall j: nat, x: nat :: j < e.alpha && strands[j] && x < e.s && (k < j || (k == j && a < x))
                ==> cachedParities[j][x] != cachedParities[k][a]
    {
      LastParity(e.s, cachedParities[k], parityBlocksToWrap[k], input, k, a, a);
      forall j: nat, x: nat | j < e.alpha && strands[j] && x < e.s && (k < j || (k == j && a < x))
        ensures cachedParities[j][x] != cachedParities[k][a]
      {
        assert j > k ==> Strand(input, j, 0, |input|);
        ChainEnd(e.s, cachedParities[j], parityBlocksToWrap[j], input, j, x, if j == k then a else 0);
      }
    }
  }

  /** The cached end of a chain tells its strand and chain, or that the chain is empty. */
  lemma ChainEnd(s: nat, cache: seq<EntangledBlock>, wraps: seq<EntangledBlock?>, input: seq<Chunk>, k: nat, a: nat, from: nat)
    requires s >= 2 && k < 3 && from <= a < s
    requires |cache| == |wraps| == s && StrandState(s, cache, wraps, input, k, from, |input|)
    ensures var b := cache[a];
            b.leftBlockIndex == 0 || (b.strand == k && b.leftBlockIndex >= 1 && Chain(s, k, b.leftBlockIndex) == a)
  {
    assert ChainState(s, cache[a], wraps[StartSlot(s, k, a)], input, k, a, |input|);
    if Len(s, |input|, k, a) > 0 {
      LastParity(s, cache, wraps, input, k, a, from);
    }
  }

  /**
    A chain without a block: its start is named as block 0, or as block s on the right-handed strand, where
    neither a parity is held back nor a forward neighbour exists.
   */
  lemma EmptyChain(e: Params, cache: seq<EntangledBlock>, wraps: seq<EntangledBlock?>, input: seq<Chunk>, k: nat, a: nat)
    requires Square(e) && k < 3 && a < e.s && Len(e.s, |input|, k, a) == 0
    requires |cache| == |wraps| == e.s && StrandState(e.s, cache, wraps, input, k, a, |input|)
    requires forall x: nat :: x < a ==> Len(e.s, |input|, k, x) > 0
    requires cache[a].rightBlockIndex == cache[a].forward
    ensures var index := ChainStartIndexes(e, cache[a].rightBlockIndex)[k];
            index == 0 || (index == e.s && wraps[e.s - 1] == null && ForwardNeighborIndexes(e, index)[k] > |input|)
  {
    hide *;
    SquareSize(e);
    EmptySlot(e.s, cache, wraps, input, k, a, a);
    EmptySlotStart(e);
    AllChainsStartedIff(e.s, |input|, k);
    if k == 1 {
      LastOfColumn(e.s, |input|, k);
      assert |input| < e.s;
      var c := Chain(e.s, k, e.s);
      assert a <= c;
      EmptySlot(e.s, cache, wraps, input, k, a, c);
      ForwardMeaning(e, e.s, k);
    }
  }

  lemma EmptySlot(s: nat, cache: seq<EntangledBlock>, wraps: seq<EntangledBlock?>, input: seq<Chunk>, k: nat, from: nat, a: nat)
    requires s >= 2 && k < 3 && from <= a < s && Len(s, |input|, k, a) == 0
    requires |cache| == |wraps| == s && StrandState(s, cache, wraps, input, k, from, |input|)
    ensures wraps[StartSlot(s, k, a)] == null && cache[a].forward == 0
  {
    hide Len;
    assert ChainState(s, cache[a], wraps[StartSlot(s, k, a)], input, k, a, |input|);
  }

  /** Block s is the last of column 0; if there are fewer blocks, its chain is empty. */
  lemma LastOfColumn(s: nat, n: nat, k: nat)
    requires s >= 2 && k < 3 && n < s
    ensures Col(s, s) == 0 && StartSlot(s, k, Chain(s, k, s)) == s - 1 && Len(s, n, k, Chain(s, k, s)) == 0
    ensures Member(s, k, Chain(s, k, s), 1) > n
  {
    assert Base(s, 0) == 0;
    ColRowOf(s, 0, s - 1);
    MemberOfChain(s, k, s);
    LenMeaning(s, n, k, Chain(s, k, s), 0);
    MemberIncreases(s, k, Chain(s, k, s), 0, 1);
  }

  /** Blocks of the first column are only held back. */
  lemma {:induction false} FirstColumnHeldBack(data: seq<Chunk>, s: nat, strands: seq<bool>, m: nat)
    requires s >= 2 && |strands| <= 3 && m <= |data| && m <= s
    ensures StreamOut(data, s, strands, m) == []
  {
    if m > 0 {
      FirstColumnHeldBack(data, s, strands, m - 1);
      assert Base(s, 0) == 0;
      ColRowOf(s, 0, m - 1);
      HeldBack(data, s, strands, m, |strands|);
    }
  }

  lemma {:induction false} HeldBack(data: seq<Chunk>, s: nat, strands: seq<bool>, i: nat, k: nat)
    requires s >= 2 && |strands| <= 3 && k <= |strands| && 1 <= i <= |data| && Col(s, i) == 0
    ensures BlockOut(data, s, strands, i, k) == []
  {
    hide Emitted;
    if k > 0 {
      HeldBack(data, s, strands, i, k - 1);
    }
  }

  /** The cached end of a chain that has a block. */
  lemma LastParity(s: nat, cache: seq<EntangledBlock>, wraps: seq<EntangledBlock?>, input: seq<Chunk>, k: nat, a: nat, from: nat)
    requires s >= 2 && k < 3 && from <= a < s && Len(s, |input|, k, a) > 0
    requires |cache| == |wraps| == s && StrandState(s, cache, wraps, input, k, from, |input|)
    ensures var l, b := Len(s, |input|, k, a), cache[a];
            && l >= 1 && b.strand == k && b.leftBlockIndex >= 1 && Chain(s, k, b.leftBlockIndex) == a
            && b.forward == Member(s, k, a, l) && b.data == Prefix(input, s, k, a, l)
            && (l == 1 ==> wraps[StartSlot(s, k, a)] == b && b.leftBlockIndex == StartSlot(s, k, a) + 1)
  {
    MemberCoordinates(s, k, a, Len(s, |input|, k, a) - 1);
    assert ChainState(s, cache[a], wraps[StartSlot(s, k, a)], input, k, a, |input|);
  }

  lemma StrandShrinks(s: nat, cache: seq<EntangledBlock>, wraps: seq<EntangledBlock?>, input: seq<Chunk>, k: nat, a: nat)
    requires s >= 2 && k < 3 && a < s && |cache| == |wraps| == s
    requires StrandState(s, cache, wraps, input, k, a, |input|)
    ensures StrandState(s, cache, wraps, input, k, a + 1, |input|)
  {
    hide ChainState;
  }

  /** Rewriting the hold-back of chain a does not touch the chains behind it. */
  lemma StrandRewrap(s: nat, cache: seq<EntangledBlock>, wraps: seq<EntangledBlock?>,
                     wraps': seq<EntangledBlock?>, input: seq<Chunk>, k: nat, a: nat)
    requires s >= 2 && k < 3 && a < s && |cache| == |wraps| == |wraps'| == s
    requires forall x :: 0 <= x < s && x != StartSlot(s, k, a) ==> wraps'[x] == wraps[x]
    requires StrandState(s, cache, wraps, input, k, a + 1, |input|)
    ensures StrandState(s, cache, wraps', input, k, a + 1, |input|)
  {
    hide ChainState;
  }

  lemma SquareSize(e: Params)
    requires Square(e)
    ensures e.s >= 2
  {
  }

  lemma StartSlotIs(s: nat, k: nat, a: nat)
    requires s >= 2 && k < 3 && a < s
    ensures StartSlot(s, k, a) + 1 == Member(s, k, a, 0)
  {
    FirstColumn(s, k, a);
    hide Member;
  }

  /** The indexes the program derives from the right end of a cached chain end. */
  lemma WrapIndexes(e: Params, input: seq<Chunk>, k: nat, a: nat)
    requires Square(e) && k < 3 && a < e.s
    ensures var start := StartSlot(e.s, k, a) + 1;
            && ChainStartIndexes(e, Member(e.s, k, a, Len(e.s, |input|, k, a)))[k] == start
            && ForwardNeighborIndexes(e, start)[k] == Member(e.s, k, a, 1)
            && (start <= |input| <==> Len(e.s, |input|, k, a) > 0)
            && (Member(e.s, k, a, 1) <= |input| <==> Len(e.s, |input|, k, a) >= 2)
  {
    hide *;
    SquareSize(e);
    StartSlotIs(e.s, k, a);
    var n := Len(e.s, |input|, k, a);
    ChainStartMeaning(e, Member(e.s, k, a, n), k);
    MemberCoordinates(e.s, k, a, n);
    MemberCoordinates(e.s, k, a, 0);
    ForwardMeaning(e, Member(e.s, k, a, 0), k);
    LenMeaning(e.s, |input|, k, a, 1);
    LenMeaning(e.s, |input|, k, a, 0);
  }

  lemma WrappedParity(input: seq<Chunk>, s: nat, k: nat, a: nat)
    requires s >= 2 && k < 3 && a < s && Len(s, |input|, k, a) > 0
    ensures var start, n := StartSlot(s, k, a) + 1, Len(s, |input|, k, a);
            && start <= |input|
            && Emitted(input, s, k, start) ==
               if n >= 2 then Parity(start, Member(s, k, a, 1), Xor(input[start - 1], Prefix(input, s, k, a, n)), k)
               else Parity(start, start, Prefix(input, s, k, a, n), k)
  {
    LenMeaning(s, |input|, k, a, 0);
    MemberCoordinates(s, k, a, 0);
  }

  lemma SeqAssociates<T>(u: seq<T>, v: seq<T>, w: seq<T>)
    ensures (u + v) + w == u + (v + w)
  {
  }

  lemma WrapOutStep(input: seq<Chunk>, s: nat, strands: seq<bool>, k: nat)
    requires s >= 2 && k < |strands| <= 3 && s <= |input|
    ensures WrapOut(input, s, strands, 0) == []
    ensures WrapOut(input, s, strands, k + 1) ==
            if strands[k] then WrapOut(input, s, strands, k) + WrapRow(input, s, k, s) else WrapOut(input, s, strands, k)
  {
    hide WrapRow;
  }

  lemma WrapRowStep(input: seq<Chunk>, s: nat, k: nat, a: nat)
    requires s >= 2 && k < 3 && a < s <= |input|
    ensures WrapRow(input, s, k, 0) == []
    ensures WrapRow(input, s, k, a + 1) == WrapRow(input, s, k, a) + [Emitted(input, s, k, StartSlot(s, k, a) + 1)]
  {
    hide Emitted;
  }

  /** A block is the start of its chain exactly if it lies in the first column. */
  lemma StartTest(e: Params, index: nat, k: nat)
    requires Square(e) && index >= 1 && k < 3
    ensures ChainStartIndexes(e, index)[k] == index <==> Col(e.s, index) == 0
    ensures Col(e.s, index) == 0 ==> index <= e.s
  {
    ChainStartMeaning(e, index, k);
    MemberOfChain(e.s, k, index);
    MemberCoordinates(e.s, k, Chain(e.s, k, index), 0);
    IndexOf(e.s, index);
  }
}
