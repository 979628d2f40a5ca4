/**
  The lattice of linked blocks: its construction, and recovery by sequential search on the blocks themselves.
 */
module Lattices {
  import opened Bytes
  import opened Geometry
  import opened Chains
  import opened LatticeGraph
  import opened RecoverySearch
  import opened RecoveryTheorems
  import opened Blocks

  /** The mutable state of all blocks. */
  ghost function Snapshot(at: map<Node, Block>): State
    reads at.Values`status, at.Values`data, at.Values`repaired, at.Values`currRequest
  {
    map b | b in at :: at[b].ToCell()
  }

  /** If only block b's state differs from an earlier snapshot, so does the new snapshot. */
  lemma OneBlockChanges(at: map<Node, Block>, b: Node, was: State)
    requires b in at && was.Keys == at.Keys
    requires forall n :: n in at && n != b ==> at[n].ToCell() == was[n]
    ensures Snapshot(at) == was[b := at[b].ToCell()]
    ensures at[b].ToCell() == was[b] ==> Snapshot(at) == was
  {
  }

  lemma OtherBlocks(g: Graph, at: map<Node, Block>, o: Block)
    requires g.Valid() && Linked(g, at) && o in at.Values
    ensures forall n :: n in at && n != o.Id() ==> at[n] != o
  {
  }

  /** Concrete pairs are blocks of the lattice with the identities of the abstract pairs. */
  lemma MatchedBlocks(g: Graph, at: map<Node, Block>, pairs: seq<BlockPair>, ps: seq<Pair>)
    requires g.Valid() && Linked(g, at) && PairsMatch(at, pairs, ps)
    ensures |pairs| == |ps|
    ensures forall j :: 0 <= j < |pairs| ==>
              pairs[j].left in at.Values && pairs[j].right in at.Values
              && Pair(pairs[j].left.Id(), pairs[j].right.Id()) == ps[j]
  {
  }

  lemma RepairIs(g: Graph, store: Store, st: State, b: Node, rid: nat, depth: nat)
    requires g.Valid() && Covers(g, st) && In(g, b)
    ensures Repair(g, store, st, b, rid, depth) == if depth == 0 then (st, false) else TryPairs(g, store, st, b, rid, depth, 0)
  {
  }

  lemma NoPairLeft(g: Graph, store: Store, st: State, b: Node, rid: nat, depth: nat)
    requires g.Valid() && Covers(g, st) && In(g, b) && depth >= 1
    ensures TryPairs(g, store, st, b, rid, depth, |Pairs(g, b)|) == (st, false)
  {
  }

  /** What the search does with pair j of a pending block, and that it keeps the request discipline. */
  lemma PairTried(g: Graph, store: Store, st: State, b: Node, rid: nat, depth: nat, j: nat)
    requires g.Valid() && Covers(g, st) && In(g, b) && depth >= 1 && j < |Pairs(g, b)|
    requires Owned(g, st, rid) && st[b].status == RepairPending
    ensures var (p, now) := (Pairs(g, b)[j], TryPairs(g, store, st, b, rid, depth, j));
            && In(g, p.left) && In(g, p.right)
            && var st1 := Search(g, store, st, p.left, rid, depth);
               && Owned(g, st1, rid) && b in st1 && st1[b].status == RepairPending
               && if !Available(st1[p.left]) then now == TryPairs(g, store, st1, b, rid, depth, j + 1)
                  else
                    var st2 := Search(g, store, st1, p.right, rid, depth);
                    && Owned(g, st2, rid) && b in st2 && st2[b].status == RepairPending && st2[p.left] == st1[p.left]
                    && if !Available(st2[p.right]) || st2[p.left].data == [] || st2[p.right].data == []
                       then now == TryPairs(g, store, st2, b, rid, depth, j + 1)
                       else now == (st2[b := WithData(st2[b], Xor(st2[p.left].data, st2[p.right].data), true)], true)
  {
    hide Search, Pairs, Xor, WithData;
    var p := Pairs(g, b)[j];
    SearchGrows(g, store, st, p.left, rid, depth);
    var st1 := Search(g, store, st, p.left, rid, depth);
    SearchGrows(g, store, st1, p.right, rid, depth);
  }

  /** A new, unlinked block for place b. */
  ghost predicate Bare(o: Block, b: Node, alpha: nat)
    reads o
  {
    && o.Id() == b && o.ToCell() == Cell(NoData, [], false, 0)
    && !o.isWrapModified && !o.pairsKnown
    && |o.leftNeighbors| == |o.rightNeighbors| == if b.D? then alpha else 1
  }

  class Lattice {
    const e: Params
    const chunkNum: nat
    const switchDepth: nat
    var dataBlocks: seq<Block>
    var parityBlocks: seq<seq<Block>>
    var getter: Store
    var requestCounter: nat

    /** Where each block of the abstract lattice is. */
    ghost var at: map<Node, Block>

    ghost function G(): Graph {
      Graph(e.alpha, e.s, chunkNum)
    }

    ghost predicate Located()
      reads this`dataBlocks, this`parityBlocks, this`at
    {
      && Square(e)
      && (forall b :: b in at <==> In(G(), b)) && (forall b :: b in at ==> at[b].Id() == b)
      && |dataBlocks| == chunkNum && (forall i :: 0 <= i < chunkNum ==> dataBlocks[i] == at[D(i + 1)])
      && |parityBlocks| == e.alpha && (forall k :: 0 <= k < e.alpha ==> |parityBlocks[k]| == chunkNum)
      && forall k: nat, i :: k < e.alpha && 0 <= i < chunkNum ==> parityBlocks[k][i] == at[P(k, i + 1)]
    }

    ghost predicate Valid()
      reads this`dataBlocks, this`parityBlocks, this`at, at.Values`leftNeighbors, at.Values`rightNeighbors,
            at.Values`isWrapModified, at.Values`pairsKnown, at.Values`recoverPairs
    {
      Located() && Linked(G(), at) && AllPairsCached(G(), at)
    }

    ghost function State(): (st: State)
      requires Valid()
      reads this`dataBlocks, this`parityBlocks, this`at, at.Values`leftNeighbors, at.Values`rightNeighbors,
            at.Values`isWrapModified, at.Values`pairsKnown, at.Values`recoverPairs,
            at.Values`status, at.Values`data, at.Values`repaired, at.Values`currRequest
      ensures G().Valid() && Covers(G(), st)
    {
      Snapshot(at)
    }

    lemma StateIsSnapshot()
      requires Valid()
      ensures State() == Snapshot(at)
    {
    }

    /** A block of the lattice, its cell, and all others. */
    lemma BlockFacts(block: Block)
      requires Valid() && block in at.Values
      ensures In(G(), block.Id()) && block.Id() in at && at[block.Id()] == block && State().Keys == at.Keys
      ensures State()[block.Id()] == block.ToCell()
      ensures block.Id() == if block.isParity then P(block.strand, block.index) else D(block.index)
      ensures forall n :: n in at && n != block.Id() ==> at[n] != block && at[n].ToCell() == State()[n]
    {
      LinkedAt(G(), at, block);
      OtherBlocks(G(), at, block);
      hide Linked, AllPairsCached;
    }

    /** A pending block of a lattice whose marks all belong to one request carries that request's id. */
    lemma OwnMark(block: Block, rid: nat)
      requires Valid() && block in at.Values && Owned(G(), State(), rid)
      ensures In(G(), block.Id()) && State()[block.Id()].status == block.status
      ensures block.status == RepairPending ==> block.currRequest == rid
    {
      CellOf(block);
    }

    lemma CellOf(block: Block)
      requires Valid() && block in at.Values
      ensures In(G(), block.Id()) && State()[block.Id()] == block.ToCell()
    {
      LinkedAt(G(), at, block);
      hide Linked, AllPairsCached;
    }

    // ----- requests

    /** A data chunk, within the given depth. */
    method GetChunkDepth(index: nat, depth: nat) returns (data: Answer, repaired: bool)
      requires Valid() && 1 <= index <= chunkNum && Quiet(G(), State())
      modifies this`requestCounter, at.Values`status, at.Values`data, at.Values`repaired, at.Values`currRequest,
               at.Values`pairsKnown, at.Values`recoverPairs
      ensures Valid() && Quiet(G(), State())
      ensures In(G(), D(index)) && repaired == State()[D(index)].repaired
      ensures (Session(State(), requestCounter), data) ==
              Serve(G(), Session(old(State()), old(requestCounter)), Request(D(index), depth, getter))
    {
      assert In(G(), D(index));
      var block := dataBlocks[index - 1];
      data := GetDataFromBlock(block, depth);
      repaired := block.repaired;
    }

    /** A data chunk, within the lattice's own depth. */
    method GetChunk(index: nat) returns (data: Answer, repaired: bool)
      requires Valid() && 1 <= index <= chunkNum && Quiet(G(), State())
      modifies this`requestCounter, at.Values`status, at.Values`data, at.Values`repaired, at.Values`currRequest,
               at.Values`pairsKnown, at.Values`recoverPairs
      ensures Valid() && Quiet(G(), State())
      ensures In(G(), D(index)) && repaired == State()[D(index)].repaired
      ensures (Session(State(), requestCounter), data) ==
              Serve(G(), Session(old(State()), old(requestCounter)), Request(D(index), switchDepth, getter))
    {
      assert In(G(), D(index));
      var block := dataBlocks[index - 1];
      data := GetDataFromBlock(block, switchDepth);
      repaired := block.repaired;
    }

    /** A parity, within the lattice's own depth. */
    method GetParity(index: nat, strand: nat) returns (data: Answer, repaired: bool)
      requires Valid() && 1 <= index <= chunkNum && strand < e.alpha && Quiet(G(), State())
      modifies this`requestCounter, at.Values`status, at.Values`data, at.Values`repaired, at.Values`currRequest,
               at.Values`pairsKnown, at.Values`recoverPairs
      ensures Valid() && Quiet(G(), State())
      ensures In(G(), P(strand, index)) && repaired == State()[P(strand, index)].repaired
      ensures (Session(State(), requestCounter), data) ==
              Serve(G(), Session(old(State()), old(requestCounter)), Request(P(strand, index), switchDepth, getter))
    {
      assert In(G(), P(strand, index));
      var block := parityBlocks[strand][index - 1];
      data := GetDataFromBlock(block, switchDepth);
      repaired := block.repaired;
    }

    method GetDataFromBlock(block: Block, allowDepth: nat) returns (r: Answer)
      requires Valid() && block in at.Values && Quiet(G(), State())
      modifies this`requestCounter, at.Values`status, at.Values`data, at.Values`repaired, at.Values`currRequest,
               at.Values`pairsKnown, at.Values`recoverPairs
      ensures Valid() && Quiet(G(), State()) && In(G(), block.Id())
      ensures (Session(State(), requestCounter), r) ==
              Serve(G(), Session(old(State()), old(requestCounter)), Request(block.Id(), allowDepth, getter))
    {
      hide *;
      CellOf(block);
      ServeIs(G(), Session(State(), requestCounter), Request(block.Id(), allowDepth, getter));
      var rid := GetRequestID();
      if allowDepth > 0 {
        EndsQuiet(G(), getter, State(), block.Id(), rid, allowDepth);
        r := GetDataFromBlockSequential(block, rid, allowDepth);
      } else {
        r := Failed;
      }
    }

    method GetRequestID() returns (id: nat)
      modifies this`requestCounter
      ensures id == old(requestCounter) && requestCounter == NextId(old(requestCounter))
    {
      id := requestCounter;
      requestCounter := NextId(requestCounter);
    }

    method GetDataFromBlockSequential(block: Block, rid: nat, allowDepth: nat) returns (r: Answer)
      requires Valid() && block in at.Values && Owned(G(), State(), rid) && allowDepth >= 1
      modifies at.Values`status, at.Values`data, at.Values`repaired, at.Values`currRequest,
               at.Values`pairsKnown, at.Values`recoverPairs
      ensures Valid() && In(G(), block.Id())
      ensures State() == Search(G(), getter, old(State()), block.Id(), rid, allowDepth)
      ensures var c := State()[block.Id()]; r == if Available(c) then Got(c.data) else Failed
      decreases allowDepth, 1
    {
      hide Search, Valid, State;
      SequentialRecoverHelper(block, rid, allowDepth);
      CellOf(block);
      r := block.GetData();
    }

    // The calls on one block, with their effect on the lattice.

    method Start(block: Block, rid: nat) returns (started: bool)
      requires Valid() && block in at.Values && Owned(G(), State(), rid)
      modifies block`status, block`currRequest
      ensures Valid() && In(G(), block.Id())
      ensures started <==> old(State())[block.Id()].status == NoData
      ensures State() == if started then old(State())[block.Id() := Started(old(State())[block.Id()], rid)] else old(State())
    {
      hide *;
      BlockFacts(block);
      OwnMark(block, rid);
      ghost var was := State();
      var waits;
      started, waits := block.StartRepair(rid);
      assert !waits;
      OneBlockChanges(at, block.Id(), was);
      StateIsSnapshot();
    }

    method Finish(block: Block, success: bool)
      requires Valid() && block in at.Values
      modifies block`status
      ensures Valid() && In(G(), block.Id())
      ensures State() == old(State())[block.Id() := Finished(old(State())[block.Id()], success)]
    {
      hide *;
      BlockFacts(block);
      ghost var was := State();
      block.FinishRepair(success);
      OneBlockChanges(at, block.Id(), was);
      StateIsSnapshot();
    }

    method Rebuild(block: Block, left: Chunk, right: Chunk) returns (ok: bool)
      requires Valid() && block in at.Values
      modifies block`data, block`status, block`repaired
      ensures Valid() && In(G(), block.Id())
      ensures ok <==> left != [] && right != []
      ensures State() == if ok then old(State())[block.Id() := WithData(old(State())[block.Id()], Xor(left, right), true)] else old(State())
    {
      hide *;
      BlockFacts(block);
      ghost var was := State();
      ok := block.Recover(left, right);
      OneBlockChanges(at, block.Id(), was);
      StateIsSnapshot();
    }

    /** A download sets the data; the store is addressed by the block's identity. */
    method DownloadBlock(block: Block) returns (ok: bool)
      requires Valid() && block in at.Values
      modifies block`status, block`data, block`repaired
      ensures Valid() && In(G(), block.Id())
      ensures ok <==> block.Id() in getter
      ensures State() == if ok then old(State())[block.Id() := WithData(old(State())[block.Id()], getter[block.Id()], false)]
                         else old(State())
    {
      hide *;
      BlockFacts(block);
      ghost var was := State();
      var wanted := if block.isParity then P(block.strand, block.index) else D(block.index);
      ok := wanted in getter;
      if ok {
        block.SetData(getter[wanted], false);
      }
      OneBlockChanges(at, block.Id(), was);
      StateIsSnapshot();
    }

    method SequentialRecoverHelper(block: Block, rid: nat, allowDepth: nat)
      requires Valid() && block in at.Values && Owned(G(), State(), rid) && allowDepth >= 1
      modifies at.Values`status, at.Values`data, at.Values`repaired, at.Values`currRequest,
               at.Values`pairsKnown, at.Values`recoverPairs
      ensures Valid() && In(G(), block.Id())
      ensures State() == Search(G(), getter, old(State()), block.Id(), rid, allowDepth)
      decreases allowDepth, 0
    {
      hide Repair, Valid, State;
      var started := Start(block, rid);
      if !started {
        return;
      }
      var repairSuccess := false;
      var downloaded := DownloadBlock(block);
      if downloaded {
        repairSuccess := true;
      } else {
        repairSuccess := SequentialRepair(block, rid, allowDepth - 1);
      }
      Finish(block, repairSuccess);
    }

    method SequentialRepair(block: Block, rid: nat, allowDepth: nat) returns (success: bool)
      requires Valid() && block in at.Values && Owned(G(), State(), rid)
      requires In(G(), block.Id()) && State()[block.Id()].status == RepairPending
      modifies at.Values`status, at.Values`data, at.Values`repaired, at.Values`currRequest,
               at.Values`pairsKnown, at.Values`recoverPairs
      ensures Valid()
      ensures (State(), success) == Repair(G(), getter, old(State()), block.Id(), rid, allowDepth)
      decreases allowDepth, 2
    {
      hide *;
      ghost var b := block.Id();
      BlockFacts(block);
      RepairIs(G(), getter, State(), b, rid, allowDepth);
      if allowDepth == 0 {
        return false;
      }
      StateIsSnapshot();
      var pairs := RecoverPairsOf(block);
      StateIsSnapshot();
      for j := 0 to |pairs|
        invariant Valid() && Owned(G(), State(), rid) && b in State() && State()[b].status == RepairPending
        invariant TryPairs(G(), getter, old(State()), b, rid, allowDepth, 0)
                  == TryPairs(G(), getter, State(), b, rid, allowDepth, j)
      {
        var mypair := pairs[j];
        PairTried(G(), getter, State(), b, rid, allowDepth, j);
        var leftChunk := GetDataFromBlockSequential(mypair.left, rid, allowDepth);
        if leftChunk.Failed? {
          continue;
        }
        var rightChunk := GetDataFromBlockSequential(mypair.right, rid, allowDepth);
        if rightChunk.Failed? {
          continue;
        }
        var recovered := Rebuild(block, leftChunk.data, rightChunk.data);
        if recovered {
          return true;
        }
      }
      NoPairLeft(G(), getter, State(), b, rid, allowDepth);
      return false;
    }

    /** The recover pairs of a block; computing them leaves the state of the lattice alone. */
    method RecoverPairsOf(block: Block) returns (pairs: seq<BlockPair>)
      requires Valid() && block in at.Values
      modifies block`pairsKnown, block`recoverPairs
      ensures Valid() && Snapshot(at) == old(Snapshot(at))
      ensures In(G(), block.Id()) && |pairs| == |Pairs(G(), block.Id())|
      ensures forall j :: 0 <= j < |pairs| ==>
                pairs[j].left in at.Values && pairs[j].right in at.Values
                && Pair(pairs[j].left.Id(), pairs[j].right.Id()) == Pairs(G(), block.Id())[j]
    {
      hide *;
      CellOf(block);
      ValidParts();
      pairs := block.GetRecoverPairs(G(), at);
      MatchedBlocks(G(), at, pairs, Pairs(G(), block.Id()));
      NowValid();
    }

    // ----- construction

    /** A lattice without blocks. */
    constructor (alpha: nat, s: nat, p: nat, blockNum: nat, blockGetter: Store, switchDepth: nat)
      requires Square(Params(alpha, s, p))
      ensures e == Params(alpha, s, p) && chunkNum == blockNum && this.switchDepth == switchDepth
      ensures getter == blockGetter && dataBlocks == [] && parityBlocks == [] && at == map[] && requestCounter == 0
    {
      e, chunkNum, this.switchDepth := Params(alpha, s, p), blockNum, switchDepth;
      dataBlocks, parityBlocks, getter, requestCounter, at := [], [], blockGetter, 0, map[];
    }

    /** Builds all blocks and links them. */
    method Init()
      requires Square(e) && dataBlocks == [] && parityBlocks == [] && at == map[]
      modifies this`dataBlocks, this`parityBlocks, this`at
      ensures Valid() && fresh(at.Values)
      ensures Fresh(G(), State())
    {
      InitDataBlocks();
      InitParityBlocks();
      InitLinks();
    }

    method InitDataBlocks()
      requires Square(e) && dataBlocks == [] && at == map[]
      modifies this`dataBlocks, this`at
      ensures |dataBlocks| == chunkNum && forall i :: 0 <= i < chunkNum ==> D(i + 1) in at && dataBlocks[i] == at[D(i + 1)]
      ensures forall b :: b in at <==> b.D? && In(G(), b)
      ensures forall b :: b in at ==> fresh(at[b]) && Bare(at[b], b, e.alpha)
    {
      for i := 0 to chunkNum
        invariant |dataBlocks| == i && forall j :: 0 <= j < i ==> D(j + 1) in at && dataBlocks[j] == at[D(j + 1)]
        invariant forall b :: b in at <==> b.D? && 1 <= b.i <= i
        invariant forall b :: b in at ==> fresh(at[b]) && Bare(at[b], b, e.alpha)
      {
        var datab := new Block(i + 1, false, 0, e.alpha);
        dataBlocks := dataBlocks + [datab];
        at := at[D(i + 1) := datab];
      }
    }

    method InitParityBlocks()
      requires Square(e) && parityBlocks == []
      requires |dataBlocks| == chunkNum && forall i :: 0 <= i < chunkNum ==> D(i + 1) in at && dataBlocks[i] == at[D(i + 1)]
      requires forall b :: b in at <==> b.D? && In(G(), b)
      requires forall b :: b in at ==> Bare(at[b], b, e.alpha)
      modifies this`parityBlocks, this`at
      ensures Located() && forall b :: b in at ==> (b.D? || fresh(at[b])) && Bare(at[b], b, e.alpha)
      ensures forall b :: b in old(at) ==> at[b] == old(at[b])
    {
      for k := 0 to e.alpha
        invariant |parityBlocks| == k && forall j :: 0 <= j < k ==> |parityBlocks[j]| == chunkNum
        invariant forall j: nat, i :: j < k && 0 <= i < chunkNum ==> P(j, i + 1) in at && parityBlocks[j][i] == at[P(j, i + 1)]
        invariant forall b :: b in at <==> In(G(), b) && (b.P? ==> b.k < k)
        invariant forall b :: b in at ==> Bare(at[b], b, e.alpha) && (b in old(at) || fresh(at[b]))
        invariant forall b :: b in old(at) ==> b in at && at[b] == old(at[b])
      {
        var parities := InitStrand(k);
        parityBlocks := parityBlocks + [parities];
      }
    }

    /** The inner loop: the parities of one strand. */
    method InitStrand(k: nat) returns (parities: seq<Block>)
      requires Square(e) && k < e.alpha
      requires forall b :: b in at <==> In(G(), b) && (b.P? ==> b.k < k)
      requires forall b :: b in at ==> Bare(at[b], b, e.alpha)
      modifies this`at
      ensures |parities| == chunkNum && forall i :: 0 <= i < chunkNum ==> P(k, i + 1) in at && parities[i] == at[P(k, i + 1)]
      ensures forall b :: b in at <==> In(G(), b) && (b.P? ==> b.k < k + 1)
      ensures forall b :: b in at ==> Bare(at[b], b, e.alpha) && (b in old(at) || fresh(at[b]))
      ensures forall b :: b in old(at) ==> b in at && at[b] == old(at[b])
    {
      hide Bare, Square;
      parities := [];
      for i := 0 to chunkNum
        invariant |parities| == i && forall x :: 0 <= x < i ==> P(k, x + 1) in at && parities[x] == at[P(k, x + 1)]
        invariant forall b :: b in at <==> In(G(), b) && (b.P? ==> b.k < k || (b.k == k && b.i <= i))
        invariant forall b :: b in at ==> Bare(at[b], b, e.alpha) && (b in old(at) || fresh(at[b]))
        invariant forall b :: b in old(at) ==> b in at && at[b] == old(at[b])
      {
        var parityb := new Block(i + 1, true, k, 1);
        NewIsBare(parityb, P(k, i + 1), e.alpha);
        parities := parities + [parityb];
        at := at[P(k, i + 1) := parityb];
      }
    }

    lemma NewIsBare(o: Block, b: Node, alpha: nat)
      requires o.Id() == b && b.P? && o.leftNeighbors == o.rightNeighbors == [null] && !o.isWrapModified
      requires o.ToCell() == Cell(NoData, [], false, 0) && !o.pairsKnown
      ensures Bare(o, b, alpha)
    {
    }

    method InitLinks()
      requires Located() && forall b :: b in at ==> Bare(at[b], b, e.alpha)
      modifies at.Values`leftNeighbors, at.Values`rightNeighbors, at.Values`isWrapModified
      ensures Valid() && Fresh(G(), State())
    {
      hide *;
      BareProgress();
      BareCells();
      LinkBlocks();
      ProgressLinked(G(), at);
      BareFresh();
      NowValid();
      StateIsSnapshot();
    }

    lemma BareCells()
      requires forall b :: b in at ==> Bare(at[b], b, e.alpha)
      ensures forall b :: b in at ==> !at[b].pairsKnown && at[b].ToCell() == Cell(NoData, [], false, 0)
    {
    }

    lemma ValidParts()
      requires Valid()
      ensures Located() && Linked(G(), at) && AllPairsCached(G(), at)
    {
    }

    lemma NowValid()
      requires Located() && Linked(G(), at) && AllPairsCached(G(), at)
      ensures Valid()
    {
      hide Located, Linked, AllPairsCached;
    }

    /** The nested loops. */
    method LinkBlocks()
      requires Located() && Progress(G(), at, WiringOf(at), 0, 0)
      modifies at.Values`leftNeighbors, at.Values`rightNeighbors, at.Values`isWrapModified
      ensures Progress(G(), at, WiringOf(at), G().n, 0)
    {
      hide Progress, WiringOf;
      for i := 0 to chunkNum
        invariant Progress(G(), at, WiringOf(at), i, 0)
      {
        var datab := dataBlocks[i];
        var forward := ForwardNeighborIndexes(e, i + 1);
        for k := 0 to e.alpha
          invariant Progress(G(), at, WiringOf(at), i, k)
        {
          LinkForward(i, k, datab, forward[k]);
        }
        RowDone(G(), at, WiringOf(at), i);
      }
    }

    lemma BareFresh()
      requires Located() && forall b :: b in at ==> !at[b].pairsKnown && at[b].ToCell() == Cell(NoData, [], false, 0)
      ensures AllPairsCached(G(), at) && Fresh(G(), Snapshot(at))
    {
    }

    lemma BareProgress()
      requires Located() && forall b :: b in at ==> Bare(at[b], b, e.alpha)
      ensures Progress(G(), at, WiringOf(at), 0, 0)
    {
      forall j: nat, z: nat | In(G(), P(j, z))
        ensures Marked(G(), WiringOf(at), j, z, 0, 0)
      {
        InPrev(G(), j, z);
      }
    }

    /** The body of the inner loop. */
    method LinkForward(i: nat, k: nat, datab: Block, forward: int)
      requires Located() && i < chunkNum && k < e.alpha && Progress(G(), at, WiringOf(at), i, k)
      requires datab == dataBlocks[i] && forward == ForwardNeighborIndexes(e, i + 1)[k]
      modifies at.Values`leftNeighbors, at.Values`rightNeighbors, at.Values`isWrapModified
      ensures Progress(G(), at, WiringOf(at), i, k + 1)
    {
      hide PutLeft, PutRight, PutMark, LinkStep, Progress, Slots, WiringOf, ForwardNeighborIndexes,
        ChainStartIndexes, Next, WrapModified, Col;
      ghost var g, w, x, y := G(), WiringOf(at), i + 1, Next(e.s, chunkNum, k, i + 1);
      LinkTarget(e, chunkNum, k, x);
      Around(i, k, y);
      MarkTarget(g, at, w, i, k, y);
      StepKeepsProgress(g, at, w, i, k);
      StepUnfolds(g, at, w, k, x, y);
      hide Located, In;
      var rightParity := parityBlocks[k][i];
      SetLeft(rightParity, 0, datab, g, at, P(k, x));
      SetRight(datab, k, rightParity, g, at, D(x));
      var rightDataBlock: Block;
      if 1 <= forward <= chunkNum {
        rightDataBlock := dataBlocks[forward - 1];
      } else {
        // wraps around
        var index := ChainStartIndexes(e, i + 1)[k];
        rightDataBlock := dataBlocks[index - 1];
        if rightDataBlock != datab {
          WireAt(at, D(y));
          StillRight(g, at, w, k, x, y);
          SetMark(rightDataBlock.rightNeighbors[k], g, at, P(k, y));
        }
      }
      SetRight(rightParity, 0, rightDataBlock, g, at, P(k, x));
      SetLeft(rightDataBlock, k, rightParity, g, at, D(y));
    }

    /** Where the loop body finds its blocks. */
    lemma Around(i: nat, k: nat, y: nat)
      requires Located() && i < chunkNum && k < e.alpha && 1 <= y <= chunkNum
      ensures P(k, i + 1) in at && D(i + 1) in at && P(k, y) in at && D(y) in at
      ensures dataBlocks[i] == at[D(i + 1)] && parityBlocks[k][i] == at[P(k, i + 1)] && dataBlocks[y - 1] == at[D(y)]
      ensures at[D(i + 1)] == at[D(y)] <==> i + 1 == y
    {
      assert In(G(), P(k, i + 1)) && In(G(), P(k, y)) && In(G(), D(y));
    }
  }

  /** The parity to be marked is reached through the right neighbours of the first block, which is linked already. */
  lemma MarkTarget(g: Graph, at: map<Node, Block>, w: Wiring, i: nat, k: nat, y: nat)
    requires Progress(g, at, w, i, k) && i < g.n && k < g.alpha
    requires y == Next(g.s, g.n, k, i + 1) && 1 <= y <= g.n
    ensures Slots(g, at, w) && In(g, P(k, y)) && In(g, D(y))
    ensures WrapModified(g, k, y) <==> Col(g.s, y) == 0 && i + 1 != y
    ensures y < i + 1 ==> k < |w[D(y)].right| && w[D(y)].right[k] == at[P(k, y)]
  {
    assert In(g, P(k, y)) && In(g, D(y));
    hide Next, WrapModified, Progress, Joined, Col;
    WrapAt(g, k, i + 1, y);
    if y < i + 1 {
      AlreadyJoined(g, at, w, i, k, k, y);
    }
  }

  /** The successor of x is the rebuilt start of a chain exactly if it is in the first column and not x itself. */
  lemma WrapAt(g: Graph, k: nat, x: nat, y: nat)
    requires g.Valid() && In(g, P(k, x)) && y == Next(g.s, g.n, k, x) && 1 <= y <= g.n
    ensures In(g, P(k, y)) && (WrapModified(g, k, y) <==> Col(g.s, y) == 0 && x != y)
  {
    hide Next, Col;
    if x != y {
      NextInjective(g.s, g.n, k, x, y);
    }
  }

  lemma AlreadyJoined(g: Graph, at: map<Node, Block>, w: Wiring, i: nat, k: nat, j: nat, z: nat)
    requires Progress(g, at, w, i, k) && In(g, P(j, z)) && Passed(j, z, i, k)
    ensures Slots(g, at, w) && Joined(g, at, w, j, z)
    ensures In(g, D(z)) && j < |w[D(z)].right| && w[D(z)].right[j] == at[P(j, z)]
  {
  }

  lemma StepUnfolds(g: Graph, at: map<Node, Block>, w: Wiring, k: nat, x: nat, y: nat)
    requires Slots(g, at, w) && In(g, P(k, x)) && y == Next(g.s, g.n, k, x)
    ensures P(k, x) in at && D(x) in at && P(k, y) in at && D(y) in at
    ensures var w2 := PutRight(g, at, PutLeft(g, at, w, P(k, x), 0, at[D(x)]), D(x), k, at[P(k, x)]);
            var w3 := if WrapModified(g, k, y) then PutMark(g, at, w2, P(k, y)) else w2;
            LinkStep(g, at, w, k, x) == PutLeft(g, at, PutRight(g, at, w3, P(k, x), 0, at[D(y)]), D(y), k, at[P(k, x)])
  {
    InNext(g, k, x);
    assert In(g, D(x)) && In(g, P(k, y));
    hide PutLeft, PutRight, PutMark, Slots;
  }

  /** The first two writes of a pass leave the right neighbours of other data blocks alone. */
  lemma StillRight(g: Graph, at: map<Node, Block>, w: Wiring, k: nat, x: nat, y: nat)
    requires Slots(g, at, w) && k < g.alpha && P(k, x) in at && D(x) in at && D(y) in at && x != y
    ensures PutRight(g, at, PutLeft(g, at, w, P(k, x), 0, at[D(x)]), D(x), k, at[P(k, x)])[D(y)] == w[D(y)]
  {
  }

  lemma WireAt(at: map<Node, Block>, b: Node)
    requires b in at
    ensures WiringOf(at)[b] == WiresOf(at[b])
  {
  }

  // ----- writing one link

  method SetLeft(o: Block, j: nat, v: Block, ghost g: Graph, ghost at: map<Node, Block>, ghost b: Node)
    requires Slots(g, at, WiringOf(at)) && b in at && o == at[b] && j < Width(g, b)
    modifies o`leftNeighbors
    ensures WiringOf(at) == PutLeft(g, at, old(WiringOf(at)), b, j, v)
  {
    ghost var was := WiringOf(at);
    WireAt(at, b);
    o.leftNeighbors := o.leftNeighbors[j := v];
    OneWireChanges(at, b, was);
  }

  method SetRight(o: Block, j: nat, v: Block, ghost g: Graph, ghost at: map<Node, Block>, ghost b: Node)
    requires Slots(g, at, WiringOf(at)) && b in at && o == at[b] && j < Width(g, b)
    modifies o`rightNeighbors
    ensures WiringOf(at) == PutRight(g, at, old(WiringOf(at)), b, j, v)
  {
    ghost var was := WiringOf(at);
    WireAt(at, b);
    o.rightNeighbors := o.rightNeighbors[j := v];
    OneWireChanges(at, b, was);
  }

  method SetMark(o: Block, ghost g: Graph, ghost at: map<Node, Block>, ghost b: Node)
    requires Slots(g, at, WiringOf(at)) && b in at && o == at[b]
    modifies o`isWrapModified
    ensures WiringOf(at) == PutMark(g, at, old(WiringOf(at)), b)
  {
    ghost var was := WiringOf(at);
    o.isWrapModified := true;
    OneWireChanges(at, b, was);
  }

  // ----- the loop over the links, on the link fields of all blocks

  datatype Wires = Wires(left: seq<Block?>, right: seq<Block?>, mark: bool)

  type Wiring = map<Node, Wires>

  ghost function WiresOf(o: Block): Wires
    reads o`leftNeighbors, o`rightNeighbors, o`isWrapModified
  {
    Wires(o.leftNeighbors, o.rightNeighbors, o.isWrapModified)
  }

  ghost function WiringOf(at: map<Node, Block>): Wiring
    reads at.Values`leftNeighbors, at.Values`rightNeighbors, at.Values`isWrapModified
  {
    map b | b in at :: WiresOf(at[b])
  }

  lemma OneWireChanges(at: map<Node, Block>, b: Node, was: Wiring)
    requires b in at && was.Keys == at.Keys
    requires forall n :: n in at && n != b ==> WiresOf(at[n]) == was[n]
    ensures WiringOf(at) == was[b := WiresOf(at[b])]
  {
  }

  /** Blocks are located, and every neighbour list has its length. */
  ghost predicate Slots(g: Graph, at: map<Node, Block>, w: Wiring) {
    && g.Valid() && at.Keys == w.Keys && (forall b :: b in at <==> In(g, b)) && (forall b :: b in at ==> at[b].Id() == b)
    && forall b :: b in w ==> |w[b].left| == |w[b].right| == if b.D? then g.alpha else 1
  }

  /** The nested loops have gone past strand j of block x: i blocks are complete, and k strands of the next. */
  predicate Passed(j: nat, x: nat, i: nat, k: nat) {
    x <= i || (x == i + 1 && j < k)
  }

  /** The parity leaving block x on strand j has been linked on both sides. */
  ghost predicate Joined(g: Graph, at: map<Node, Block>, w: Wiring, j: nat, x: nat)
    requires Slots(g, at, w) && In(g, P(j, x))
  {
    InNext(g, j, x);
    assert In(g, D(x));
    var p, y := P(j, x), Next(g.s, g.n, j, x);
    && w[p].left[0] == at[D(x)] && w[D(x)].right[j] == at[p]
    && w[p].right[0] == at[D(y)] && w[D(y)].left[j] == at[p]
  }

  /** The parity leaving y carries the wrap mark; it is set when the last parity of y's chain is linked. */
  ghost predicate Marked(g: Graph, w: Wiring, j: nat, y: nat, i: nat, k: nat)
    requires g.Valid() && In(g, P(j, y)) && P(j, y) in w
  {
    w[P(j, y)].mark <==> WrapModified(g, j, y) && Passed(j, Prev(g.s, g.n, j, y), i, k)
  }

  ghost predicate Progress(g: Graph, at: map<Node, Block>, w: Wiring, i: nat, k: nat) {
    && Slots(g, at, w)
    && (forall j: nat, x: nat :: In(g, P(j, x)) && Passed(j, x, i, k) ==> Joined(g, at, w, j, x))
    && (forall j: nat, y: nat :: In(g, P(j, y)) ==> Marked(g, w, j, y, i, k))
  }

  function Width(g: Graph, b: Node): nat {
    if b.D? then g.alpha else 1
  }

  ghost function PutLeft(g: Graph, at: map<Node, Block>, w: Wiring, b: Node, j: nat, v: Block): (w': Wiring)
    requires Slots(g, at, w) && b in at && j < Width(g, b)
    ensures Slots(g, at, w')
  {
    w[b := w[b].(left := w[b].left[j := v])]
  }

  ghost function PutRight(g: Graph, at: map<Node, Block>, w: Wiring, b: Node, j: nat, v: Block): (w': Wiring)
    requires Slots(g, at, w) && b in at && j < Width(g, b)
    ensures Slots(g, at, w')
  {
    w[b := w[b].(right := w[b].right[j := v])]
  }

  ghost function PutMark(g: Graph, at: map<Node, Block>, w: Wiring, b: Node): (w': Wiring)
    requires Slots(g, at, w) && b in at
    ensures Slots(g, at, w')
  {
    w[b := w[b].(mark := true)]
  }

  /** One pass through the inner loop. */
  ghost function LinkStep(g: Graph, at: map<Node, Block>, w: Wiring, k: nat, x: nat): (w': Wiring)
    requires Slots(g, at, w) && In(g, P(k, x))
    ensures Slots(g, at, w')
  {
    InNext(g, k, x);
    assert In(g, D(x));
    var p, d, y := P(k, x), D(x), Next(g.s, g.n, k, x);
    assert In(g, P(k, y));
    var w1 := PutLeft(g, at, w, p, 0, at[d]);
    var w2 := PutRight(g, at, w1, d, k, at[p]);
    var w3 := if WrapModified(g, k, y) then PutMark(g, at, w2, P(k, y)) else w2;
    var w4 := PutRight(g, at, w3, p, 0, at[D(y)]);
    PutLeft(g, at, w4, D(y), k, at[p])
  }

  /** What one pass writes to parity blocks, and that it writes nothing else there. */
  lemma StepParities(g: Graph, at: map<Node, Block>, w: Wiring, k: nat, x: nat, y: nat, j: nat, z: nat)
    requires Slots(g, at, w) && In(g, P(k, x)) && y == Next(g.s, g.n, k, x) && In(g, P(j, z)) && In(g, P(k, y))
    ensures var w', here := LinkStep(g, at, w, k, x), j == k && z == x;
            && D(x) in at && D(y) in at
            && w'[P(j, z)].left[0] == (if here then at[D(x)] else w[P(j, z)].left[0])
            && w'[P(j, z)].right[0] == (if here then at[D(y)] else w[P(j, z)].right[0])
            && (w'[P(j, z)].mark <==> w[P(j, z)].mark || (j == k && z == y && WrapModified(g, k, y)))
  {
    hide LinkStep, Next, WrapModified, Graph.Valid;
    StepUnfolds(g, at, w, k, x, y);
  }

  /** What one pass writes to data blocks, and that it writes nothing else there. */
  lemma StepData(g: Graph, at: map<Node, Block>, w: Wiring, k: nat, x: nat, y: nat, j: nat, z: nat)
    requires Slots(g, at, w) && In(g, P(k, x)) && y == Next(g.s, g.n, k, x) && In(g, D(z)) && j < g.alpha
    ensures var w' := LinkStep(g, at, w, k, x);
            && w'[D(z)].right[j] == (if j == k && z == x then at[P(k, x)] else w[D(z)].right[j])
            && w'[D(z)].left[j] == (if j == k && z == y then at[P(k, x)] else w[D(z)].left[j])
  {
    hide LinkStep;
    StepRight(g, at, w, k, x, y, j, z);
    StepLeft(g, at, w, k, x, y, j, z);
  }

  lemma StepRight(g: Graph, at: map<Node, Block>, w: Wiring, k: nat, x: nat, y: nat, j: nat, z: nat)
    requires Slots(g, at, w) && In(g, P(k, x)) && y == Next(g.s, g.n, k, x) && In(g, D(z)) && j < g.alpha
    ensures LinkStep(g, at, w, k, x)[D(z)].right[j] == if j == k && z == x then at[P(k, x)] else w[D(z)].right[j]
  {
    hide LinkStep, Next, WrapModified, Graph.Valid;
    StepUnfolds(g, at, w, k, x, y);
  }

  lemma StepLeft(g: Graph, at: map<Node, Block>, w: Wiring, k: nat, x: nat, y: nat, j: nat, z: nat)
    requires Slots(g, at, w) && In(g, P(k, x)) && y == Next(g.s, g.n, k, x) && In(g, D(z)) && j < g.alpha
    ensures LinkStep(g, at, w, k, x)[D(z)].left[j] == if j == k && z == y then at[P(k, x)] else w[D(z)].left[j]
  {
    hide LinkStep, Next, WrapModified, Graph.Valid;
    StepUnfolds(g, at, w, k, x, y);
  }

  lemma StepKeepsProgress(g: Graph, at: map<Node, Block>, w: Wiring, i: nat, k: nat)
    requires Progress(g, at, w, i, k) && i < g.n && k < g.alpha
    ensures In(g, P(k, i + 1)) && Progress(g, at, LinkStep(g, at, w, k, i + 1), i, k + 1)
  {
    assert In(g, P(k, i + 1));
    hide Joined, Marked, LinkStep;
    var w' := LinkStep(g, at, w, k, i + 1);
    forall j: nat, z: nat | In(g, P(j, z)) && Passed(j, z, i, k + 1)
      ensures Joined(g, at, w', j, z)
    {
      StepJoins(g, at, w, i, k, j, z);
    }
    forall j: nat, z: nat | In(g, P(j, z))
      ensures Marked(g, w', j, z, i, k + 1)
    {
      StepMarks(g, at, w, i, k, j, z);
    }
  }

  lemma StepJoins(g: Graph, at: map<Node, Block>, w: Wiring, i: nat, k: nat, j: nat, z: nat)
    requires Slots(g, at, w) && In(g, P(k, i + 1)) && In(g, P(j, z))
    requires (j == k && z == i + 1) || Joined(g, at, w, j, z)
    ensures Joined(g, at, LinkStep(g, at, w, k, i + 1), j, z)
  {
    hide Next, LinkStep;
    InNext(g, j, z);
    InNext(g, k, i + 1);
    assert In(g, D(z));
    assert In(g, P(k, Next(g.s, g.n, k, i + 1)));
    StepParities(g, at, w, k, i + 1, Next(g.s, g.n, k, i + 1), j, z);
    StepData(g, at, w, k, i + 1, Next(g.s, g.n, k, i + 1), j, z);
    StepData(g, at, w, k, i + 1, Next(g.s, g.n, k, i + 1), j, Next(g.s, g.n, j, z));
    if j == k && z != i + 1 {
      NextInjective(g.s, g.n, k, i + 1, z);
    }
  }

  lemma StepMarks(g: Graph, at: map<Node, Block>, w: Wiring, i: nat, k: nat, j: nat, z: nat)
    requires Slots(g, at, w) && In(g, P(k, i + 1)) && In(g, P(j, z))
    requires Marked(g, w, j, z, i, k)
    ensures Marked(g, LinkStep(g, at, w, k, i + 1), j, z, i, k + 1)
  {
    hide Next, Prev, WrapModified, LinkStep;
    InNext(g, k, i + 1);
    assert In(g, D(z));
    assert In(g, P(k, Next(g.s, g.n, k, i + 1)));
    StepParities(g, at, w, k, i + 1, Next(g.s, g.n, k, i + 1), j, z);
    PrevOnly(g.s, g.n, k, i + 1, z);
  }

  lemma RowDone(g: Graph, at: map<Node, Block>, w: Wiring, i: nat)
    requires Progress(g, at, w, i, g.alpha)
    ensures Progress(g, at, w, i + 1, 0)
  {
    hide Joined, WrapModified, Prev;
    forall j: nat, z: nat | In(g, P(j, z))
      ensures Marked(g, w, j, z, i + 1, 0)
    {
      assert Marked(g, w, j, z, i, g.alpha);
    }
  }

  /** When the loops are done, all links are in place. */
  lemma ProgressLinked(g: Graph, at: map<Node, Block>)
    requires Progress(g, at, WiringOf(at), g.n, 0)
    ensures Linked(g, at)
  {
    var w := WiringOf(at);
    forall b | In(g, b)
      ensures LinkFields(g, at, b)
    {
      match b
      case P(j, x) =>
        assert Joined(g, at, w, j, x) && Marked(g, w, j, x, g.n, 0);
        InPrev(g, j, x);
      case D(x) =>
        forall j: nat | j < g.alpha
          ensures In(g, P(j, Prev(g.s, g.n, j, x))) && at[b].leftNeighbors[j] == at[P(j, Prev(g.s, g.n, j, x))]
          ensures at[b].rightNeighbors[j] == at[P(j, x)]
        {
          assert In(g, P(j, x));
          InPrev(g, j, x);
          NextPrevInverse(g.s, g.n, j, x);
          assert Joined(g, at, w, j, x) && Joined(g, at, w, j, Prev(g.s, g.n, j, x));
        }
    }
  }

  lemma NextInjective(s: nat, n: nat, k: nat, x: nat, z: nat)
    requires s >= 2 && k < 3 && 1 <= x <= n && 1 <= z <= n && x != z
    ensures Next(s, n, k, x) != Next(s, n, k, z)
  {
    hide Next, Prev;
    NextPrevInverse(s, n, k, x);
    NextPrevInverse(s, n, k, z);
  }

  /** Only the successor of x has x as its predecessor. */
  lemma PrevOnly(s: nat, n: nat, k: nat, x: nat, z: nat)
    requires s >= 2 && k < 3 && 1 <= x <= n && 1 <= z <= n
    ensures Prev(s, n, k, z) == x <==> z == Next(s, n, k, x)
  {
    hide Next, Prev;
    NextPrevInverse(s, n, k, x);
    NextPrevInverse(s, n, k, z);
  }

  /**
    The block the program links to the right of block x is its successor; the program wraps around exactly
    if the successor lies in the first column, and then the successor does not come after x.
   */
  lemma LinkTarget(e: Params, n: nat, k: nat, x: nat)
    requires Square(e) && k < 3 && 1 <= x <= n
    ensures var f, y := ForwardNeighborIndexes(e, x)[k], Next(e.s, n, k, x);
            && 1 <= y <= n
            && y == (if 1 <= f <= n then f else ChainStartIndexes(e, x)[k])
            && (1 <= f <= n <==> Col(e.s, y) > 0)
            && (!(1 <= f <= n) ==> y <= x)
  {
    hide ForwardNeighborIndexes, ChainStartIndexes;
    ForwardMeaning(e, x, k);
    ChainStartMeaning(e, x, k);
    NextCoordinates(e.s, n, k, x);
    MemberCoordinates(e.s, k, Chain(e.s, k, x), 0);
    MemberCoordinates(e.s, k, Chain(e.s, k, x), Col(e.s, x) + 1);
    MemberOfChain(e.s, k, x);
    if Col(e.s, x) > 0 {
      MemberIncreases(e.s, k, Chain(e.s, k, x), 0, Col(e.s, x));
    }
  }
}
