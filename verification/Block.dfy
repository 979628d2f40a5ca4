/**
  Blocks of the lattice as linked, mutable objects.
 */
module Blocks {
  import opened Bytes
  import opened Chains
  import opened LatticeGraph
  import opened RecoverySearch

  datatype BlockPair = BlockPair(left: Block, right: Block)

  class Block {
    const isParity: bool
    const index: nat
    const strand: nat

    var leftNeighbors: seq<Block?>
    var rightNeighbors: seq<Block?>
    var isWrapModified: bool

    var data: Chunk
    var status: Status
    var repaired: bool
    var currRequest: nat

    var pairsKnown: bool
    var recoverPairs: seq<BlockPair>

    /** A block of the given identity with room for its neighbours. */
    constructor (index: nat, parityBlock: bool, strand: nat, neighbors: nat)
      ensures this.index == index && isParity == parityBlock && this.strand == strand
      ensures leftNeighbors == rightNeighbors == seq(neighbors, _ => null) && !isWrapModified
      ensures ToCell() == Cell(NoData, [], false, 0) && !pairsKnown
    {
      this.index, isParity, this.strand := index, parityBlock, strand;
      leftNeighbors, rightNeighbors, isWrapModified := seq(neighbors, _ => null), seq(neighbors, _ => null), false;
      data, status, repaired, currRequest := [], NoData, false, 0;
      pairsKnown, recoverPairs := false, [];
    }

    /** The block's place in the lattice. */
    ghost function Id(): Node {
      if isParity then P(strand, index) else D(index)
    }

    ghost function ToCell(): Cell
      reads this`status, this`data, this`repaired, this`currRequest
    {
      Cell(status, data, repaired, currRequest)
    }

    method GetData() returns (r: Answer)
      ensures r == if status == DataAvailable then Got(data) else Failed
    {
      if status == DataAvailable {
        r := Got(data);
      } else {
        r := Failed;
      }
    }

    /**
      Marks the block unless it is held or marked already.  A block marked for another request is waited for;
      the wait is reported, and the block is as it was.
     */
    method StartRepair(rid: nat) returns (started: bool, waits: bool)
      modifies this`status, this`currRequest
      ensures started <==> old(status) == NoData
      ensures waits <==> old(status) == RepairPending && old(currRequest) != rid
      ensures ToCell() == if started then Started(old(ToCell()), rid) else old(ToCell())
    {
      started, waits := false, false;
      if status == RepairPending {
        if currRequest == rid {
          // already visited by the request
          return;
        }
        waits := true;
      } else if status == DataAvailable {
        return;
      } else {
        status := RepairPending;
        currRequest := rid;
        started := true;
      }
    }

    method FinishRepair(success: bool)
      modifies this`status
      ensures ToCell() == Finished(old(ToCell()), success)
    {
      var shouldUpdate := status == RepairPending;
      if success {
        if shouldUpdate {
          status := DataAvailable;
        }
      } else {
        if shouldUpdate {
          status := NoData;
        }
      }
    }

    method SetData(data: Chunk, isRecover: bool)
      modifies this`data, this`status, this`repaired
      ensures ToCell() == WithData(old(ToCell()), data, isRecover)
    {
      if status != DataAvailable {
        this.data := data;
        status := DataAvailable;
        repaired := isRecover;
      }
    }

    /** Fails on an empty operand. */
    method Recover(v: Chunk, w: Chunk) returns (ok: bool)
      modifies this`data, this`status, this`repaired
      ensures ok <==> v != [] && w != []
      ensures ToCell() == if ok then WithData(old(ToCell()), Xor(v, w), true) else old(ToCell())
    {
      if |v| == 0 || |w| == 0 {
        return false;
      }
      var xored := XorChunkData(v, w);
      if status != DataAvailable {
        repaired := true;
        data := xored;
        status := DataAvailable;
      }
      return true;
    }

    // ----- recover pairs

    /** The pairs are computed on first use and kept. */
    method GetRecoverPairs(ghost g: Graph, ghost at: map<Node, Block>) returns (pairs: seq<BlockPair>)
      requires g.Valid() && Linked(g, at) && this in at.Values && AllPairsCached(g, at)
      modifies this`pairsKnown, this`recoverPairs
      ensures In(g, Id()) && PairsMatch(at, pairs, Pairs(g, Id()))
      ensures AllPairsCached(g, at)
    {
      LinkedAt(g, at, this);
      hide Linked, Pairs, PairsMatch;
      if !pairsKnown {
        if isParity {
          SetRecoverPairsForParity(g, at);
        } else {
          SetRecoverPairsForData(g, at);
        }
        pairsKnown := true;
      }
      pairs := recoverPairs;
    }

    method SetRecoverPairsForData(ghost g: Graph, ghost at: map<Node, Block>)
      requires g.Valid() && Linked(g, at) && this in at.Values && !isParity
      modifies this`recoverPairs
      ensures In(g, Id()) && PairsMatch(at, recoverPairs, Pairs(g, Id()))
    {
      hide Prev, Entering, Leaving, WrapModified, Linked;
      LinkedAt(g, at, this);
      var pairs: seq<BlockPair> := [];
      for k := 0 to |leftNeighbors|
        invariant PairsMatch(at, pairs, DataPairs(g, index, k))
      {
        assert In(g, P(k, index));
        EnteringLinks(g, at, k, index);
        LeavingLinks(g, at, k, index);
        var l := leftNeighbors[k];
        var r := rightNeighbors[k];
        if l.isWrapModified {
          l := l.leftNeighbors[0];
        }
        ghost var here := [BlockPair(l, r)];
        pairs := pairs + [BlockPair(l, r)];
        if r.isWrapModified {
          l := r.rightNeighbors[0];
          r := l.rightNeighbors[k];
          pairs := pairs + [BlockPair(l, r)];
          here := here + [BlockPair(l, r)];
        }
        assert PairsMatch(at, here, StrandPairs(g, index, k));
      }
      recoverPairs := pairs;
    }

    method SetRecoverPairsForParity(ghost g: Graph, ghost at: map<Node, Block>)
      requires g.Valid() && Linked(g, at) && this in at.Values && isParity
      modifies this`recoverPairs
      ensures In(g, Id()) && PairsMatch(at, recoverPairs, Pairs(g, Id()))
    {
      hide Next, Entering, Leaving, WrapModified, Linked;
      LinkedAt(g, at, this);
      EnteringLinks(g, at, strand, index);
      LeavingLinks(g, at, strand, index);
      var pairs: seq<BlockPair> := [];
      // backward neighbors
      var r := leftNeighbors[0];
      var l := r.leftNeighbors[strand];
      if l.isWrapModified {
        l := l.leftNeighbors[0];
      }
      pairs := pairs + [BlockPair(l, r)];
      // forward neighbors
      l := rightNeighbors[0];
      r := l.rightNeighbors[strand];
      if !isWrapModified {
        pairs := pairs + [BlockPair(l, r)];
      }
      recoverPairs := pairs;
    }
  }

  // ----- the linked structure

  /** The link fields of block b are those of the abstract graph. */
  ghost predicate LinkFields(g: Graph, at: map<Node, Block>, b: Node)
    requires g.Valid() && In(g, b) && (forall n :: In(g, n) ==> n in at)
    reads at.Values`leftNeighbors, at.Values`rightNeighbors, at.Values`isWrapModified
  {
    match b
    case D(i) =>
      && |at[b].leftNeighbors| == |at[b].rightNeighbors| == g.alpha
      && forall k: nat :: k < g.alpha ==>
           (InPrev(g, k, i); at[b].leftNeighbors[k] == at[P(k, Prev(g.s, g.n, k, i))]) && at[b].rightNeighbors[k] == at[P(k, i)]
    case P(k, i) =>
      && |at[b].leftNeighbors| == |at[b].rightNeighbors| == 1
      && at[b].leftNeighbors[0] == (assert In(g, D(i)); at[D(i)])
      && at[b].rightNeighbors[0] == (InNext(g, k, i); at[D(Next(g.s, g.n, k, i))])
      && (at[b].isWrapModified <==> WrapModified(g, k, i))
  }

  lemma InPrev(g: Graph, k: nat, i: nat)
    requires g.Valid() && In(g, P(k, i))
    ensures In(g, P(k, Prev(g.s, g.n, k, i)))
  {
    PrevCoordinates(g.s, g.n, k, i);
  }

  lemma InNext(g: Graph, k: nat, i: nat)
    requires g.Valid() && In(g, P(k, i))
    ensures In(g, D(Next(g.s, g.n, k, i)))
  {
    NextCoordinates(g.s, g.n, k, i);
  }

  /** at locates every block of the lattice, and all links are in place. */
  ghost predicate Linked(g: Graph, at: map<Node, Block>)
    requires g.Valid()
    reads at.Values`leftNeighbors, at.Values`rightNeighbors, at.Values`isWrapModified
  {
    && (forall b :: b in at <==> In(g, b))
    && (forall b :: b in at ==> at[b].Id() == b)
    && forall b :: In(g, b) ==> LinkFields(g, at, b)
  }

  lemma LinkedAt(g: Graph, at: map<Node, Block>, o: Block)
    requires g.Valid() && Linked(g, at) && o in at.Values
    ensures o.Id() in at && at[o.Id()] == o && In(g, o.Id()) && LinkFields(g, at, o.Id())
  {
    var b :| b in at && at[b] == o;
    assert In(g, b);
  }

  /**
    Left and right neighbours are inverse to each other on every strand, and a strand's links lead from each
    data block over exactly one parity to the next block of its cycle.
   */
  lemma NeighborsInverse(g: Graph, at: map<Node, Block>, k: nat, i: nat)
    requires g.Valid() && Linked(g, at) && k < g.alpha && 1 <= i <= g.n
    ensures D(i) in at && P(k, i) in at && Next(g.s, g.n, k, i) >= 1 && D(Next(g.s, g.n, k, i)) in at
    ensures var (d, p, d') := (at[D(i)], at[P(k, i)], at[D(Next(g.s, g.n, k, i))]);
            && |d.rightNeighbors| > k && d.rightNeighbors[k] == p && p.leftNeighbors == [d]
            && p.rightNeighbors == [d'] && |d'.leftNeighbors| > k && d'.leftNeighbors[k] == p
  {
    InNext(g, k, i);
    var y := Next(g.s, g.n, k, i);
    NextPrevInverse(g.s, g.n, k, i);
    assert In(g, D(i)) && In(g, P(k, i)) && In(g, D(y));
    assert LinkFields(g, at, D(i)) && LinkFields(g, at, P(k, i)) && LinkFields(g, at, D(y));
    hide Next, Prev;
  }

  /** Concrete pairs name the blocks of the abstract pairs, in the same order. */
  ghost predicate PairsMatch(at: map<Node, Block>, pairs: seq<BlockPair>, ps: seq<Pair>) {
    && |pairs| == |ps|
    && forall j :: 0 <= j < |ps| ==>
         && ps[j].left in at && ps[j].right in at
         && pairs[j] == BlockPair(at[ps[j].left], at[ps[j].right])
  }

  ghost predicate PairsCached(g: Graph, at: map<Node, Block>, o: Block)
    requires g.Valid()
    reads o`pairsKnown, o`recoverPairs
  {
    o.pairsKnown ==> In(g, o.Id()) && PairsMatch(at, o.recoverPairs, Pairs(g, o.Id()))
  }

  ghost predicate AllPairsCached(g: Graph, at: map<Node, Block>)
    requires g.Valid()
    reads at.Values`pairsKnown, at.Values`recoverPairs
  {
    forall o :: o in at.Values ==> PairsCached(g, at, o)
  }

  /** The links around block i on strand k; bypassing a rebuilt parity on the left leads to the entering block. */
  lemma EnteringLinks(g: Graph, at: map<Node, Block>, k: nat, i: nat)
    requires g.Valid() && Linked(g, at) && In(g, P(k, i))
    ensures In(g, P(k, Prev(g.s, g.n, k, i))) && P(k, Prev(g.s, g.n, k, i)) in at
    ensures D(i) in at && P(k, i) in at && Entering(g, k, i) in at
    ensures var b, l, r := at[D(i)], at[P(k, Prev(g.s, g.n, k, i))], at[P(k, i)];
            && |b.leftNeighbors| == |b.rightNeighbors| == g.alpha && b.leftNeighbors[k] == l && b.rightNeighbors[k] == r
            && |l.leftNeighbors| == |r.leftNeighbors| == 1 && r.leftNeighbors[0] == b
            && at[Entering(g, k, i)] == if l.isWrapModified then l.leftNeighbors[0] else l
  {
    InPrev(g, k, i);
    assert In(g, D(i));
    assert LinkFields(g, at, D(i));
    assert LinkFields(g, at, P(k, i));
    assert LinkFields(g, at, P(k, Prev(g.s, g.n, k, i)));
  }

  lemma LeavingLinks(g: Graph, at: map<Node, Block>, k: nat, i: nat)
    requires g.Valid() && Linked(g, at) && In(g, P(k, i))
    ensures Leaving(g, k, i).left in at && Leaving(g, k, i).right in at
    ensures var r := at[P(k, i)];
            && |r.rightNeighbors| == 1
            && r.rightNeighbors[0] == at[Leaving(g, k, i).left]
            && |at[Leaving(g, k, i).left].rightNeighbors| == g.alpha
            && at[Leaving(g, k, i).left].rightNeighbors[k] == at[Leaving(g, k, i).right]
            && (r.isWrapModified <==> WrapModified(g, k, i))
  {
    InNext(g, k, i);
    assert LinkFields(g, at, P(k, i));
    assert LinkFields(g, at, D(Next(g.s, g.n, k, i)));
  }
}
