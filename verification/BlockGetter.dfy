/**
  The getter on the linked trees: data blocks through the file tree, parity blocks through the parity trees.
 */
module BlockGetting {
  import opened Bytes
  import opened Reslicing
  import opened TreeShape
  import opened TreeLabels
  import opened Trees
  import opened TreeWalks
  import opened TreeBuild
  import opened LazyResolve

  /** What the nodes of a tree know. */
  ghost function CacheOf(at: Nodes): Cache
    reads at.Values`cid, at.Values`data
  {
    map p | p in at :: Slot(at[p].cid, at[p].data)
  }

  /** The client gives a newly built tree the identifier of its root; that is all the getter starts from. */
  method OpenTree(root: TreeNode, cid: string, ghost sh: Shape, ghost at: Nodes, ghost up: Upload)
    requires Whole(sh, at) && sh.Valid() && Blank(at) && sh.Root() in at && root == at[sh.Root()]
    requires (forall p :: sh.Has(p) ==> p in up.cid) && sh.Has(sh.Root()) && cid == up.cid[sh.Root()]
    modifies root`cid
    ensures JustOpened(sh, up, CacheOf(at))
  {
    root.cid := cid;
    forall p | p in at
      ensures CacheOf(at)[p] == Slot(if p == sh.Root() then up.cid[p] else "", None)
    {
      assert at[p].place == p;
    }
  }

  /** The node's i-th child, and no other node, is child number i. */
  lemma ChildNumbered(sh: Shape, at: Nodes, p: Place, i: nat)
    requires Whole(sh, at) && p in at && i < |at[p].children|
    ensures exists c :: c in at && at[p].children[i] == at[c]
    ensures forall q :: q in at ==> (ChildNumber(sh, p, q) == i <==> at[q] == at[p].children[i])
  {
    assert ChildrenLinked(sh.l, sh.k, at, p);
    ChildInTree(sh.l, sh.k, sh.h, p, i);
    var c := Child(sh.k, p, i);
    assert c in at && at[p].children[i] == at[c];
    forall q | q in at
      ensures ChildNumber(sh, p, q) == i <==> at[q] == at[c]
    {
      assert at[q].place == q && at[c].place == c;
    }
  }

  /** Node p gets its data, its children their identifiers. */
  method FillNode(node: TreeNode, obj: Object, ghost sh: Shape, ghost at: Nodes, ghost p: Place)
    requires Whole(sh, at) && p in at && node == at[p] && |obj.links| == |node.children|
    modifies at.Values`cid, at.Values`data
    ensures CacheOf(at) == Filled(sh, old(CacheOf(at)), p, obj)
  {
    hide *;
    NodeOf(sh, at, p);
    ghost var was := CacheOf(at);
    CacheSlots(at);
    LinkedCidStart(sh, was, p, obj);
    for i := 0 to |obj.links|
      invariant forall q :: q in at ==> at[q].data == was[q].data && at[q].cid == LinkedCid(sh, was, p, obj, i, q)
    {
      ChildNumbered(sh, at, p, i);
      node.children[i].cid := obj.links[i];
      LinkedCidStep(sh, was, p, obj, i);
    }
    node.data := Some(obj.data);
    CacheSlots(at);
    FilledSlots(sh, was, p, obj);
  }

  /** The identifier of q after the first i links. */
  ghost function LinkedCid(sh: Shape, was: Cache, p: Place, obj: Object, i: nat, q: Place): string
    requires sh.Valid() && i <= |obj.links| && q in was
  {
    if 0 <= ChildNumber(sh, p, q) < i then obj.links[ChildNumber(sh, p, q)] else was[q].cid
  }

  lemma LinkedCidStart(sh: Shape, was: Cache, p: Place, obj: Object)
    requires sh.Valid()
    ensures forall q :: q in was ==> LinkedCid(sh, was, p, obj, 0, q) == was[q].cid
  {
  }

  lemma LinkedCidStep(sh: Shape, was: Cache, p: Place, obj: Object, i: nat)
    requires sh.Valid() && i < |obj.links|
    ensures forall q :: q in was ==>
              LinkedCid(sh, was, p, obj, i + 1, q) ==
              if ChildNumber(sh, p, q) == i then obj.links[i] else LinkedCid(sh, was, p, obj, i, q)
  {
  }

  lemma CacheSlots(at: Nodes)
    ensures forall q :: q in CacheOf(at) <==> q in at
    ensures forall q :: q in at ==> CacheOf(at)[q] == Slot(at[q].cid, at[q].data)
  {
  }

  lemma FilledSlots(sh: Shape, was: Cache, p: Place, obj: Object)
    requires sh.Valid()
    ensures Filled(sh, was, p, obj).Keys == was.Keys
    ensures forall q :: q in was ==>
              Filled(sh, was, p, obj)[q] ==
              Slot(if q == p then was[q].cid else LinkedCid(sh, was, p, obj, |obj.links|, q),
                   if q == p then Some(obj.data) else was[q].data)
    ensures p in was ==> LinkedCid(sh, was, p, obj, |obj.links|, p) == was[p].cid
  {
  }

  /** Fetches a node by its identifier and keeps its data and its children's identifiers. */
  method FetchNode(shell: Network, node: TreeNode, ghost sh: Shape, ghost at: Nodes, ghost up: Upload, ghost p: Place)
    returns (r: Option<Chunk>)
    requires Whole(sh, at) && sh.Valid() && sh.Has(p) && p in at && node == at[p] && node.cid != ""
    requires Published(sh, up, shell) && CacheTrue(sh, up, CacheOf(at))
    modifies at.Values`cid, at.Values`data
    ensures CacheTrue(sh, up, CacheOf(at)) && p in old(CacheOf(at)) && p in up.data
    ensures Outcome(CacheOf(at), r.Some?) == Fetch(sh, shell, old(CacheOf(at)), p) && (r.Some? ==> r.value == up.data[p])
  {
    hide *;
    CacheSlots(at);
    NodeOf(sh, at, p);
    FetchCases(sh, up, shell, CacheOf(at), p);
    if node.cid !in shell {
      return None;
    }
    var obj := shell[node.cid];
    FillNode(node, obj, sh, at, p);
    r := Some(obj.data);
  }

  // ----- the file tree

  /** What a label of the file tree stands for. */
  lemma IndexFacts(sh: Shape, at: Nodes, labels: seq<nat>, parentMap: map<nat, nat>, nodeMap: map<nat, TreeNode>, index: nat)
    returns (p: Place)
    requires Indexed(sh, at, labels, parentMap, nodeMap) && index in nodeMap
    ensures sh.Valid() && sh.Has(p) && p in at && nodeMap[index] == at[p] && at[p].place == p && at[p].latticeIdx == index
    ensures index in parentMap && (parentMap[index] == index <==> p.level == sh.h)
    ensures parentMap[index] in nodeMap && sh.Over(p) in at && nodeMap[parentMap[index]] == at[sh.Over(p)]
    ensures at[sh.Over(p)].place == sh.Over(p)
  {
    p := LabelledNode(sh, labels, index);
    var up := sh.Over(p);
    assert sh.Has(up) && parentMap[index] == labels[sh.Number(up)];
    assert at[up].latticeIdx == labels[sh.Number(up)] && at[p].latticeIdx == index;
    assert sh.Order()[sh.Number(p)] == p && sh.Order()[sh.Number(up)] == up;
    hide Shape.Order;
  }

  lemma LevelFacts(sh: Shape, p: Place)
    requires sh.Valid() && sh.Has(p)
    ensures p.level <= sh.h && sh.Has(sh.Over(p))
    ensures p.level < sh.h ==> sh.Over(p) == Parent(sh.k, p) && sh.Over(p).level == p.level + 1
  {
    OverInTree(sh, p);
  }

  /** The size of a parity block, and of the chunks in the leaves of a parity tree. */
  const PARITY_BLOCK_SIZE: nat := 262158
  const PARITY_CHUNK_SIZE: nat := 262144

  /** The number of bytes of a varint of the Protocol Buffers encoding: seven bits a byte. */
  function VarintLength(n: nat): nat {
    if n < 128 then 1 else VarintLength(n / 128) + 1
  }

  /** A numeric field with a one-byte key. */
  function NumberField(n: nat): nat {
    1 + VarintLength(n)
  }

  /** A field of n bytes with a one-byte key. */
  function BytesField(n: nat): nat {
    1 + VarintLength(n) + n
  }

  /**
    The size of an encoded leaf with n bytes of a file: a node whose only field is a UnixFS message of a type,
    the bytes, and the file size.
   */
  function LeafSize(n: nat): nat {
    BytesField(NumberField(2) + BytesField(n) + NumberField(n))
  }

  /**
    Where the sizes come from: the leaves of a parity tree hold chunks of 256 KiB of the merged strand, and a
    full parity block is as long as a data leaf encoded with such a chunk.
   */
  lemma SizesOfLeaf()
    ensures PARITY_CHUNK_SIZE == 256 * 1024 && PARITY_BLOCK_SIZE == LeafSize(PARITY_CHUNK_SIZE)
  {
    VarintOfThree(PARITY_CHUNK_SIZE);
    VarintOfThree(NumberField(2) + BytesField(PARITY_CHUNK_SIZE) + NumberField(PARITY_CHUNK_SIZE));
  }

  lemma VarintOfThree(n: nat)
    requires 16384 <= n < 2097152
    ensures VarintLength(n) == 3
  {
    assert 128 <= n / 128 < 16384 && 1 <= n / 128 / 128 < 128;
    assert VarintLength(n / 128 / 128) == 1;
    assert VarintLength(n / 128) == 2;
  }

  lemma SizesPositive()
    ensures PARITY_BLOCK_SIZE > 0 && PARITY_CHUNK_SIZE > 0
  {
  }

  /** A parity tree and the parity blocks whose concatenation is in its leaves. */
  datatype Strand = Strand(sh: Shape, at: Nodes, up: Upload, parities: seq<Chunk>) {
    function Stream(): Chunk {
      Merged(parities)
    }
  }

  /** A parity block read, the program stopped at a leaf shorter than a slice, or an error. */
  datatype Reading = Unavailable | OutOfBounds | Read(data: Chunk)

  class IPFSGetter {
    const shell: Network
    const dataFilter: set<nat>
    const parentMap: map<nat, nat>
    const nodeMap: map<nat, TreeNode>
    const parityIndexMap: seq<map<nat, TreeNode>>
    var parityAvailable: seq<bool>

    ghost const sh: Shape
    ghost const at: Nodes
    ghost const labels: seq<nat>
    ghost const up: Upload
    ghost const strands: seq<Strand>

    constructor (shell: Network, dataFilter: set<nat>, parentMap: map<nat, nat>, nodeMap: map<nat, TreeNode>,
                 parityTrees: seq<TreeNode>, parityIndexMap: seq<map<nat, TreeNode>>,
                 ghost sh: Shape, ghost at: Nodes, ghost labels: seq<nat>, ghost up: Upload, ghost strands: seq<Strand>)
      ensures this.shell == shell && this.dataFilter == dataFilter && this.parentMap == parentMap
      ensures this.nodeMap == nodeMap && this.parityIndexMap == parityIndexMap
      ensures this.sh == sh && this.at == at && this.labels == labels && this.up == up && this.strands == strands
      ensures |parityAvailable| == |parityTrees|
      ensures forall k :: 0 <= k < |parityTrees| ==> (parityAvailable[k] <==> parityTrees[k].cid != "")
    {
      this.shell, this.dataFilter, this.parentMap, this.nodeMap := shell, dataFilter, parentMap, nodeMap;
      this.parityIndexMap := parityIndexMap;
      this.sh, this.at, this.labels, this.up, this.strands := sh, at, labels, up, strands;
      this.parityAvailable := seq(|parityTrees|, i requires 0 <= i < |parityTrees| reads parityTrees => parityTrees[i].cid != "");
    }

    ghost predicate DataValid()
      reads at.Values`children, at.Values`parent, at.Values`preOrderIdx, at.Values`latticeIdx,
            at.Values`cid, at.Values`data
    {
      && Indexed(sh, at, labels, parentMap, nodeMap)
      && Published(sh, up, shell) && CacheTrue(sh, up, CacheOf(at))
    }

    /** The places whose labels are masked. */
    ghost function Masked(): set<Place>
      reads at.Values`latticeIdx
    {
      set p | p in at && at[p].latticeIdx in dataFilter
    }

    ghost function ResolveData(cache: Cache, p: Place): Outcome
      requires sh.Valid() && sh.Has(p) && Published(sh, up, shell) && CacheTrue(sh, up, cache)
      reads at.Values`latticeIdx
    {
      Resolve(sh, up, shell, Masked(), cache, p)
    }

    /** The data block with the given label. */
    method GetData(index: nat) returns (r: Option<Chunk>)
      requires DataValid()
      modifies at.Values`cid, at.Values`data
      ensures DataValid()
      ensures index !in nodeMap ==> r == None && CacheOf(at) == old(CacheOf(at))
      ensures index in nodeMap ==>
                var p := nodeMap[index].place;
                sh.Has(p) && p in up.data
                && Outcome(CacheOf(at), r.Some?) == ResolveData(old(CacheOf(at)), p) && (r.Some? ==> r.value == up.data[p])
      decreases if index in nodeMap then sh.h + 1 - nodeMap[index].place.level else 0
    {
      hide *;
      DataFacts();
      ghost var was := CacheOf(at);
      ghost var p := Place(0, 0);
      if index in nodeMap {
        p := IndexFacts(sh, at, labels, parentMap, nodeMap, index);
        ResolveDataIs(was, p);
        ResolveCases(sh, up, shell, Masked(), was, p);
        MaskedIff(p);
        LevelFacts(sh, p);
      }
      if index in dataFilter {
        return None;
      }
      if index !in nodeMap {
        return None;
      }
      var target := nodeMap[index];
      CacheSlots(at);
      if target.data.Some? {
        return target.data;
      }
      ghost var rounds := 0;
      while true
        invariant rounds == 0 || (rounds == 1 && target.cid != "")
        invariant DataValid() && CacheTrue(sh, up, CacheOf(at))
        invariant p in CacheOf(at) && CacheOf(at)[p] == Slot(target.cid, target.data)
        invariant target.cid == "" ==> CacheOf(at) == was
        invariant target.cid != "" ==> ResolveData(was, p) == Fetch(sh, shell, CacheOf(at), p)
        decreases 1 - rounds
      {
        if target.cid != "" {
          r := FetchNode(shell, target, sh, at, up, p);
          DataValidAgain();
          return;
        }
        if index !in parentMap || parentMap[index] == index {
          return None;
        }
        ResolveDataIs(was, sh.Over(p));
        var above := GetData(parentMap[index]);
        DataFacts();
        if above == None {
          return None;
        }
        CacheSlots(at);
        rounds := rounds + 1;
      }
    }

    lemma DataFacts()
      requires DataValid()
      ensures Indexed(sh, at, labels, parentMap, nodeMap) && Whole(sh, at) && sh.Valid()
      ensures Published(sh, up, shell) && CacheTrue(sh, up, CacheOf(at))
    {
    }

    lemma DataValidAgain()
      requires Indexed(sh, at, labels, parentMap, nodeMap) && Published(sh, up, shell) && CacheTrue(sh, up, CacheOf(at))
      ensures DataValid()
    {
    }

    lemma ResolveDataIs(cache: Cache, p: Place)
      requires sh.Valid() && sh.Has(p) && Published(sh, up, shell) && CacheTrue(sh, up, cache)
      ensures ResolveData(cache, p) == Resolve(sh, up, shell, Masked(), cache, p)
    {
    }

    lemma MaskedIff(p: Place)
      requires p in at
      ensures p in Masked() <==> at[p].latticeIdx in dataFilter
    {
    }

    // ----- parity trees

    ghost predicate ParityLinked(k: nat)
      requires k < |strands|
      reads strands[k].at.Values`children, strands[k].at.Values`parent
    {
      var t := strands[k];
      && |parityIndexMap| == |strands|
      && Whole(t.sh, t.at) && t.sh.Root() in t.at && t.at[t.sh.Root()].parent == null
      && (forall i :: i in parityIndexMap[k] <==> 0 <= i < t.sh.l)
      && forall i :: 0 <= i < t.sh.l ==> Place(0, i) in t.at && parityIndexMap[k][i] == t.at[Place(0, i)]
    }

    ghost predicate ParityValid(k: nat)
      requires k < |strands|
      reads this`parityAvailable, strands[k].at.Values`children, strands[k].at.Values`parent,
            strands[k].at.Values`cid, strands[k].at.Values`data
    {
      |parityAvailable| == |strands| && ParityLinked(k) && Published(strands[k].sh, strands[k].up, shell)
      && CacheTrue(strands[k].sh, strands[k].up, CacheOf(strands[k].at))
    }

    lemma ParityFacts(k: nat)
      requires k < |strands| && ParityLinked(k)
      ensures strands[k].sh.Valid() && Whole(strands[k].sh, strands[k].at)
      ensures ParityValid(k) <==>
                && |parityAvailable| == |strands|
                && Published(strands[k].sh, strands[k].up, shell)
                && CacheTrue(strands[k].sh, strands[k].up, CacheOf(strands[k].at))
    {
    }

    /** The node and its parent in a parity tree. */
    lemma ParityNode(k: nat, p: Place)
      requires k < |strands| && ParityLinked(k) && p in strands[k].at
      ensures var t := strands[k];
              && t.sh.Valid() && t.sh.Has(p) && t.sh.Has(t.sh.Over(p)) && t.sh.Over(p) in t.at && p.level <= t.sh.h
              && t.at[p].place == p
              && (p.level == t.sh.h ==> t.at[p].parent == null)
              && (p.level < t.sh.h ==>
                    && t.sh.Over(p) == Parent(t.sh.k, p) && t.at[t.sh.Over(p)].place == t.sh.Over(p)
                    && t.at[p].parent == t.at[t.sh.Over(p)] && t.sh.Over(p).level == p.level + 1)
    {
      var t := strands[k];
      LevelFacts(t.sh, p);
      if p.level == t.sh.h {
        assert p == t.sh.Root();
      } else {
        assert ParentLinked(t.sh.k, t.at, p);
      }
    }

    ghost function ResolveParity(k: nat, cache: Cache, p: Place): Outcome
      requires k < |strands| && strands[k].sh.Valid() && strands[k].sh.Has(p)
      requires Published(strands[k].sh, strands[k].up, shell) && CacheTrue(strands[k].sh, strands[k].up, cache)
    {
      Resolve(strands[k].sh, strands[k].up, shell, {}, cache, p)
    }

    /** The request for p fails because the node above it cannot be obtained. */
    ghost predicate AncestorFails(k: nat, cache: Cache, p: Place)
      requires k < |strands| && strands[k].sh.Valid() && strands[k].sh.Has(p) && p in cache
      requires Published(strands[k].sh, strands[k].up, shell) && CacheTrue(strands[k].sh, strands[k].up, cache)
    {
      && cache[p] == Slot("", None) && p.level < strands[k].sh.h
      && strands[k].sh.Has(strands[k].sh.Over(p)) && !ResolveParity(k, cache, strands[k].sh.Over(p)).ok
    }

    /** The cases of a request in a parity tree. */
    lemma ParityCases(k: nat, cache: Cache, p: Place)
      requires k < |strands| && strands[k].sh.Valid() && strands[k].sh.Has(p)
      requires Published(strands[k].sh, strands[k].up, shell) && CacheTrue(strands[k].sh, strands[k].up, cache)
      ensures var t, r := strands[k], ResolveParity(k, cache, p);
              && p in cache && p in t.up.data && t.sh.Has(t.sh.Over(p))
              && (AncestorFails(k, cache, p) <==>
                    cache[p] == Slot("", None) && p.level < t.sh.h && !ResolveParity(k, cache, t.sh.Over(p)).ok)
              && if cache[p].data.Some? then r == Outcome(cache, true) && cache[p].data == Some(t.up.data[p])
                 else if cache[p].cid != "" then r == Fetch(t.sh, shell, cache, p)
                 else if p.level >= t.sh.h then r == Outcome(cache, false)
                 else var above := ResolveParity(k, cache, t.sh.Over(p));
                      if !above.ok then r == above
                      else p in above.cache && above.cache[p].cid != "" && r == Fetch(t.sh, shell, above.cache, p)
    {
      ResolveCases(strands[k].sh, strands[k].up, shell, {}, cache, p);
      LevelFacts(strands[k].sh, p);
    }

    /** The content of a node of a parity tree; the strand is given up when an inner node cannot be obtained. */
    method GetParityHelper(currentNode: TreeNode?, strand: nat) returns (r: Option<Chunk>)
      requires strand < |strands| && ParityValid(strand)
      requires currentNode != null ==>
                 currentNode.place in strands[strand].at && currentNode == strands[strand].at[currentNode.place]
      modifies this`parityAvailable, strands[strand].at.Values`cid, strands[strand].at.Values`data
      ensures ParityValid(strand)
      ensures currentNode == null ==>
                r == None && CacheOf(strands[strand].at) == old(CacheOf(strands[strand].at))
                && parityAvailable == old(parityAvailable)
      ensures currentNode != null ==>
                var t, p, was := strands[strand], currentNode.place, old(CacheOf(strands[strand].at));
                && t.sh.Valid() && t.sh.Has(p) && p in was && p in t.up.data
                && Published(t.sh, t.up, shell) && CacheTrue(t.sh, t.up, was)
                && Outcome(CacheOf(t.at), r.Some?) == ResolveParity(strand, was, p) && (r.Some? ==> r.value == t.up.data[p])
                && |old(parityAvailable)| == |strands|
                && parityAvailable == if AncestorFails(strand, was, p) then old(parityAvailable)[strand := false] else old(parityAvailable)
      decreases if currentNode != null then strands[strand].sh.h + 1 - currentNode.place.level else 0
    {
      hide *;
      ParityValidFacts(strand);
      if currentNode == null {
        return None;
      }
      ghost var t, p := strands[strand], currentNode.place;
      ghost var was := CacheOf(t.at);
      ParityNode(strand, p);
      ParityCases(strand, was, p);
      ghost var goal, fails := ResolveParity(strand, was, p), AncestorFails(strand, was, p);
      CacheSlots(t.at);
      if currentNode.data.Some? {
        return currentNode.data;
      }
      ghost var rounds := 0;
      while true
        invariant rounds == 0 || (rounds == 1 && currentNode.cid != "")
        invariant ParityValid(strand)
        invariant p in CacheOf(t.at) && CacheOf(t.at)[p] == Slot(currentNode.cid, currentNode.data)
        invariant currentNode.cid == "" ==> CacheOf(t.at) == was
        invariant currentNode.cid != "" ==> goal == Fetch(t.sh, shell, CacheOf(t.at), p) && !fails
        invariant parityAvailable == old(parityAvailable)
        decreases 1 - rounds
      {
        if currentNode.cid != "" {
          r := FetchParity(currentNode, strand, p);
          return;
        }
        if currentNode.parent == null {
          return None;
        }
        ParityCases(strand, was, t.sh.Over(p));
        var above := GetParityHelper(currentNode.parent, strand);
        if above == None {
          GiveUp(strand);
          return None;
        }
        CacheSlots(t.at);
        rounds := rounds + 1;
      }
    }

    /** The content of a node whose identifier is known. */
    method FetchParity(node: TreeNode, strand: nat, ghost p: Place) returns (r: Option<Chunk>)
      requires strand < |strands| && ParityValid(strand)
      requires p in strands[strand].at && node == strands[strand].at[p] && node.cid != ""
      modifies strands[strand].at.Values`cid, strands[strand].at.Values`data
      ensures ParityValid(strand)
      ensures var t := strands[strand];
              && t.sh.Valid() && t.sh.Has(p) && Published(t.sh, t.up, shell)
              && CacheTrue(t.sh, t.up, old(CacheOf(t.at))) && p in old(CacheOf(t.at)) && p in t.up.data
              && Outcome(CacheOf(t.at), r.Some?) == Fetch(t.sh, shell, old(CacheOf(t.at)), p)
              && (r.Some? ==> r.value == t.up.data[p])
    {
      hide *;
      ParityValidFacts(strand);
      ParityNode(strand, p);
      r := FetchNode(shell, node, strands[strand].sh, strands[strand].at, strands[strand].up, p);
      ParityFacts(strand);
    }

    method GiveUp(strand: nat)
      requires strand < |strands| && ParityValid(strand)
      modifies this`parityAvailable
      ensures ParityValid(strand) && |old(parityAvailable)| == |strands|
      ensures parityAvailable == old(parityAvailable)[strand := false]
    {
      hide *;
      ParityValidFacts(strand);
      parityAvailable := parityAvailable[strand := false];
      ParityFacts(strand);
    }

    lemma ParityValidFacts(k: nat)
      requires k < |strands| && ParityValid(k)
      ensures |parityAvailable| == |parityIndexMap| == |strands| && ParityLinked(k)
      ensures strands[k].sh.Valid() && Whole(strands[k].sh, strands[k].at)
      ensures Published(strands[k].sh, strands[k].up, shell)
      ensures CacheTrue(strands[k].sh, strands[k].up, CacheOf(strands[k].at))
    {
    }

    // ----- parity blocks

    /** The leaves hold the chunks of the concatenated parity blocks. */
    ghost predicate StreamStored(k: nat)
      requires k < |strands|
    {
      var t := strands[k];
      && t.sh.l == ChunkCount(|t.Stream()|, PARITY_CHUNK_SIZE)
      && forall j: nat :: j < t.sh.l ==>
           Start(j, PARITY_CHUNK_SIZE) <= |t.Stream()| && Place(0, j) in t.up.data
           && t.up.data[Place(0, j)] == ChunkOf(t.Stream(), PARITY_CHUNK_SIZE, j)
    }

    ghost predicate ParityEarned(k: nat, cache: Cache)
      requires k < |strands| && strands[k].sh.Valid() && Published(strands[k].sh, strands[k].up, shell)
    {
      Earned(strands[k].sh, strands[k].up, shell, {}, cache)
    }

    /** The node and everything above it can be fetched. */
    ghost predicate Reachable(k: nat, p: Place)
      requires k < |strands| && strands[k].sh.Valid() && Published(strands[k].sh, strands[k].up, shell)
    {
      strands[k].sh.Has(p) && Alive(strands[k].sh, strands[k].up, shell, {}, p)
    }

    /** All leaves that hold bytes of the parity block can be obtained. */
    ghost predicate LeavesReachable(k: nat, index: nat)
      requires k < |strands| && strands[k].sh.Valid() && Published(strands[k].sh, strands[k].up, shell)
    {
      forall j: nat ::
        Touches(j, PARITY_CHUNK_SIZE, Start(index, PARITY_BLOCK_SIZE), Start(index, PARITY_BLOCK_SIZE) + PARITY_BLOCK_SIZE) ==>
        Reachable(k, Place(0, j))
    }

    /** A node above the leaves cannot be obtained. */
    ghost predicate InnerNodeLost(k: nat)
      requires k < |strands| && strands[k].sh.Valid() && Published(strands[k].sh, strands[k].up, shell)
    {
      exists p :: strands[k].sh.Has(p) && p.level > 0 && !Reachable(k, p)
    }

    /** The leaf exists, and the node above it cannot be obtained: asking for the leaf gives the strand up. */
    ghost predicate LeafFatal(k: nat, j: nat)
      requires k < |strands| && strands[k].sh.Valid() && Published(strands[k].sh, strands[k].up, shell)
    {
      strands[k].sh.Has(Place(0, j)) && strands[k].sh.h > 0 && !Reachable(k, strands[k].sh.Over(Place(0, j)))
    }

    /** Leaf j holds bytes of the parity block. */
    predicate HoldsBytes(index: nat, j: nat) {
      Touches(j, PARITY_CHUNK_SIZE, Start(index, PARITY_BLOCK_SIZE), Start(index, PARITY_BLOCK_SIZE) + PARITY_BLOCK_SIZE)
    }

    /** Reading the parity block meets a leaf under a node that cannot be obtained before any other leaf it cannot obtain. */
    ghost predicate Fatal(k: nat, index: nat)
      requires k < |strands| && strands[k].sh.Valid() && Published(strands[k].sh, strands[k].up, shell)
    {
      exists j: nat :: HoldsBytes(index, j) && LeafFatal(k, j) && EarlierReachable(k, index, j)
    }

    ghost predicate EarlierReachable(k: nat, index: nat, j: nat)
      requires k < |strands| && strands[k].sh.Valid() && Published(strands[k].sh, strands[k].up, shell)
    {
      forall i: nat :: i < j && HoldsBytes(index, i) ==> Reachable(k, Place(0, i))
    }

    lemma FatalIsInner(k: nat, index: nat)
      requires k < |strands| && strands[k].sh.Valid() && Published(strands[k].sh, strands[k].up, shell)
      ensures Fatal(k, index) ==> InnerNodeLost(k) && !LeavesReachable(k, index)
    {
      if Fatal(k, index) {
        var j: nat :| HoldsBytes(index, j) && LeafFatal(k, j) && EarlierReachable(k, index, j);
        LevelFacts(strands[k].sh, Place(0, j));
        ReachableUp(k, j);
      }
    }

    lemma ReachableUp(k: nat, j: nat)
      requires k < |strands| && strands[k].sh.Valid() && Published(strands[k].sh, strands[k].up, shell)
      ensures LeafFatal(k, j) ==> !Reachable(k, Place(0, j))
    {
    }

    lemma LeafAnswer(k: nat, cache: Cache, p: Place)
      requires k < |strands| && strands[k].sh.Valid() && strands[k].sh.Has(p)
      requires Published(strands[k].sh, strands[k].up, shell) && CacheTrue(strands[k].sh, strands[k].up, cache)
      requires ParityEarned(k, cache)
      ensures ParityEarned(k, ResolveParity(k, cache, p).cache)
      ensures ResolveParity(k, cache, p).ok <==> Reachable(k, p)
      ensures p in cache && (p.level == 0 ==> (AncestorFails(k, cache, p) <==> LeafFatal(k, p.pos)))
    {
      hide *;
      var t := strands[k];
      EarnedIs(k, cache);
      LevelFacts(t.sh, p);
      AnswerIs(k, cache, p);
      if p.level == 0 {
        AnswerIs(k, cache, t.sh.Over(p));
        FatalIs(k, p);
        if p.level < t.sh.h && !Reachable(k, t.sh.Over(p)) {
          ReachableIs(k, t.sh.Over(p));
          UnknownBelowLost(t.sh, t.up, shell, {}, cache, p);
        }
        ParityCases(k, cache, p);
      }
    }

    lemma EarnedIs(k: nat, cache: Cache)
      requires k < |strands| && strands[k].sh.Valid() && Published(strands[k].sh, strands[k].up, shell)
      ensures ParityEarned(k, cache) <==> Earned(strands[k].sh, strands[k].up, shell, {}, cache)
    {
    }

    lemma ReachableIs(k: nat, p: Place)
      requires k < |strands| && strands[k].sh.Valid() && Published(strands[k].sh, strands[k].up, shell) && strands[k].sh.Has(p)
      ensures Reachable(k, p) <==> Alive(strands[k].sh, strands[k].up, shell, {}, p)
    {
    }

    lemma FatalIs(k: nat, p: Place)
      requires k < |strands| && strands[k].sh.Valid() && Published(strands[k].sh, strands[k].up, shell)
      requires strands[k].sh.Has(p) && p.level == 0
      ensures LeafFatal(k, p.pos) <==> p.level < strands[k].sh.h && !Reachable(k, strands[k].sh.Over(p))
    {
      assert p == Place(0, p.pos);
      hide Reachable;
    }

    lemma AnswerIs(k: nat, cache: Cache, p: Place)
      requires k < |strands| && strands[k].sh.Valid() && strands[k].sh.Has(p)
      requires Published(strands[k].sh, strands[k].up, shell) && CacheTrue(strands[k].sh, strands[k].up, cache)
      requires ParityEarned(k, cache)
      ensures ParityEarned(k, ResolveParity(k, cache, p).cache) && p in cache
      ensures ResolveParity(k, cache, p).ok <==> Reachable(k, p)
    {
      var t := strands[k];
      hide Resolve, Earned, CacheTrue, Published, Alive, Shape.Has, SlotTrue;
      ResolveIffAlive(t.sh, t.up, shell, {}, cache, p);
      SlotOf(t.sh, t.up, cache, p);
    }

    lemma SomeLeafUnreachable(k: nat, index: nat, slices: seq<Slice>, x: nat)
      requires k < |strands| && strands[k].sh.Valid() && Published(strands[k].sh, strands[k].up, shell)
      requires Tiles(slices, PARITY_CHUNK_SIZE, Start(index, PARITY_BLOCK_SIZE), Start(index, PARITY_BLOCK_SIZE) + PARITY_BLOCK_SIZE)
      requires x < |slices| && !Reachable(k, Place(0, slices[x].block))
      ensures !LeavesReachable(k, index)
    {
      var a := Start(index, PARITY_BLOCK_SIZE);
      TilesTouch(slices, PARITY_CHUNK_SIZE, a, a + PARITY_BLOCK_SIZE, slices[x].block);
    }

    lemma AllLeavesReachable(k: nat, index: nat, slices: seq<Slice>)
      requires k < |strands| && strands[k].sh.Valid() && Published(strands[k].sh, strands[k].up, shell)
      requires Tiles(slices, PARITY_CHUNK_SIZE, Start(index, PARITY_BLOCK_SIZE), Start(index, PARITY_BLOCK_SIZE) + PARITY_BLOCK_SIZE)
      requires forall x :: 0 <= x < |slices| ==> Reachable(k, Place(0, slices[x].block))
      ensures LeavesReachable(k, index)
    {
      var a := Start(index, PARITY_BLOCK_SIZE);
      forall j: nat | Touches(j, PARITY_CHUNK_SIZE, a, a + PARITY_BLOCK_SIZE)
        ensures Reachable(k, Place(0, j))
      {
        TilesTouch(slices, PARITY_CHUNK_SIZE, a, a + PARITY_BLOCK_SIZE, j);
        var x :| 0 <= x < |slices| && slices[x].block == j;
        assert Reachable(k, Place(0, slices[x].block));
      }
    }

    /** The leaf that a slice is cut from. */
    lemma SliceLeaf(k: nat, s: Slice)
      requires k < |strands| && ParityLinked(k) && StreamStored(k) && s.from <= s.to && PARITY_CHUNK_SIZE > 0
      ensures var t, p := strands[k], Place(0, s.block);
              && t.sh.Valid() && (s.block in parityIndexMap[k] <==> t.sh.Has(p))
              && (t.sh.Has(p) ==>
                    && p in t.at && parityIndexMap[k][s.block] == t.at[p] && t.at[p].place == p && p in t.up.data
                    && Start(s.block, PARITY_CHUNK_SIZE) <= |t.Stream()|
                    && t.up.data[p] == ChunkOf(t.Stream(), PARITY_CHUNK_SIZE, s.block)
                    && (Fits(s, t.Stream(), PARITY_CHUNK_SIZE) <==> s.to <= |t.up.data[p]|))
              && (!t.sh.Has(p) ==> !Fits(s, t.Stream(), PARITY_CHUNK_SIZE))
    {
      hide ChunkOf, ChunkCount, Start, Merged;
      if s.block < strands[k].sh.l {
        ParityNode(k, Place(0, s.block));
      }
    }

    /** The bytes of one slice. */
    method ReadSlice(block: Slice, strand: nat) returns (r: Reading)
      requires strand < |strands| && ParityValid(strand) && StreamStored(strand) && PARITY_CHUNK_SIZE > 0
      requires block.from <= block.to
      modifies this`parityAvailable, strands[strand].at.Values`cid, strands[strand].at.Values`data
      ensures ParityValid(strand) && |old(parityAvailable)| == |parityAvailable| == |strands|
      ensures strands[strand].sh.Valid() && Published(strands[strand].sh, strands[strand].up, shell)
      ensures r.Read? ==>
                && Fits(block, strands[strand].Stream(), PARITY_CHUNK_SIZE)
                && r.data == ChunkOf(strands[strand].Stream(), PARITY_CHUNK_SIZE, block.block)[block.from..block.to]
                && parityAvailable == old(parityAvailable)
      ensures r.OutOfBounds? ==> !Fits(block, strands[strand].Stream(), PARITY_CHUNK_SIZE)
      ensures old(ParityEarned(strand, CacheOf(strands[strand].at))) ==>
                && ParityEarned(strand, CacheOf(strands[strand].at))
                && (r.Unavailable? <==> !Reachable(strand, Place(0, block.block)))
                && parityAvailable == (if LeafFatal(strand, block.block) then old(parityAvailable)[strand := false] else old(parityAvailable))
      ensures parityAvailable == old(parityAvailable) || parityAvailable == old(parityAvailable)[strand := false]
    {
      hide *;
      ParityValidFacts(strand);
      FatalHas(strand, block.block);
      SliceLeaf(strand, block);
      ReachableHas(strand, Place(0, block.block));
      if block.block !in parityIndexMap[strand] {
        return Unavailable;
      }
      var targetNode := parityIndexMap[strand][block.block];
      ghost var was := CacheOf(strands[strand].at);
      var currentData := GetParityHelper(targetNode, strand);
      ParityValidFacts(strand);
      ParityCases(strand, was, targetNode.place);
      if ParityEarned(strand, was) {
        LeafAnswer(strand, was, targetNode.place);
      }
      if currentData == None {
        return Unavailable;
      }
      if |currentData.value| < block.to {
        return OutOfBounds;
      }
      FitsMeaning(block, strands[strand].Stream(), PARITY_CHUNK_SIZE);
      r := Read(currentData.value[block.from..block.to]);
    }

    lemma FatalHas(k: nat, j: nat)
      requires k < |strands| && strands[k].sh.Valid() && Published(strands[k].sh, strands[k].up, shell)
      ensures LeafFatal(k, j) ==> strands[k].sh.Has(Place(0, j))
    {
    }

    lemma ReachableHas(k: nat, p: Place)
      requires k < |strands| && strands[k].sh.Valid() && Published(strands[k].sh, strands[k].up, shell)
      ensures Reachable(k, p) ==> strands[k].sh.Has(p)
    {
    }

    ghost predicate AllReachable(k: nat, slices: seq<Slice>)
      requires k < |strands| && strands[k].sh.Valid() && Published(strands[k].sh, strands[k].up, shell)
    {
      forall x :: 0 <= x < |slices| ==> Reachable(k, Place(0, slices[x].block))
    }

    lemma ReachableStep(k: nat, slices: seq<Slice>, j: nat)
      requires k < |strands| && strands[k].sh.Valid() && Published(strands[k].sh, strands[k].up, shell) && j <= |slices|
      ensures AllReachable(k, slices[..0]) && slices[..|slices|] == slices
      ensures j < |slices| ==>
                (AllReachable(k, slices[..j + 1]) <==> AllReachable(k, slices[..j]) && Reachable(k, Place(0, slices[j].block)))
      ensures j < |slices| && !Reachable(k, Place(0, slices[j].block)) ==> !AllReachable(k, slices)
    {
      if j < |slices| {
        assert slices[..j + 1] == slices[..j] + [slices[j]];
      }
    }

    /** Slices of one leaf after another, none longer than a leaf. */
    predicate InOrder(slices: seq<Slice>) {
      && (forall x :: 0 <= x < |slices| ==> slices[x].from <= slices[x].to <= PARITY_CHUNK_SIZE)
      && forall x, y :: 0 <= x < y < |slices| ==> slices[x].block < slices[y].block
    }

    ghost predicate SlicesFatal(k: nat, slices: seq<Slice>)
      requires k < |strands| && strands[k].sh.Valid() && Published(strands[k].sh, strands[k].up, shell)
    {
      exists x :: 0 <= x < |slices| && LeafFatal(k, slices[x].block) && AllReachable(k, slices[..x])
    }

    /** The first leaf that cannot be read decides whether the strand is given up. */
    lemma FirstDecides(k: nat, slices: seq<Slice>, j: nat)
      requires k < |strands| && strands[k].sh.Valid() && Published(strands[k].sh, strands[k].up, shell) && StreamStored(k)
      requires InOrder(slices) && j < |slices| && AllReachable(k, slices[..j]) && PARITY_CHUNK_SIZE > 0
      ensures !Reachable(k, Place(0, slices[j].block)) ==> (SlicesFatal(k, slices) <==> LeafFatal(k, slices[j].block))
      ensures Reachable(k, Place(0, slices[j].block)) && !Fits(slices[j], strands[k].Stream(), PARITY_CHUNK_SIZE) ==>
                !SlicesFatal(k, slices) && !LeafFatal(k, slices[j].block)
    {
      hide Reachable, ChunkOf, ChunkCount, Start, Merged;
      assert forall y :: 0 <= y < j ==> slices[..j][y] == slices[y] && Reachable(k, Place(0, slices[y].block));
      forall x | 0 <= x < |slices| && LeafFatal(k, slices[x].block) && AllReachable(k, slices[..x])
        ensures x >= j && (x == j || Reachable(k, Place(0, slices[j].block)))
      {
        ReachableUp(k, slices[x].block);
        if x > j {
          assert slices[..x][j] == slices[j];
        }
      }
      ReachableUp(k, slices[j].block);
      ReachableHas(k, Place(0, slices[j].block));
      if Reachable(k, Place(0, slices[j].block)) && !Fits(slices[j], strands[k].Stream(), PARITY_CHUNK_SIZE) {
        ShortIsLast(k, slices[j]);
        HasLeaf(k, slices[j].block);
        forall x | j < x < |slices|
          ensures !LeafFatal(k, slices[x].block)
        {
          HasLeaf(k, slices[x].block);
        }
      }
    }

    lemma HasLeaf(k: nat, j: nat)
      requires k < |strands| && strands[k].sh.Valid()
      ensures strands[k].sh.Has(Place(0, j)) <==> j < strands[k].sh.l
    {
    }

    /** Only the last leaf can be too short for a slice. */
    lemma ShortIsLast(k: nat, s: Slice)
      requires k < |strands| && strands[k].sh.Valid() && StreamStored(k) && strands[k].sh.Has(Place(0, s.block))
      requires s.from <= s.to <= PARITY_CHUNK_SIZE && PARITY_CHUNK_SIZE > 0
      ensures !Fits(s, strands[k].Stream(), PARITY_CHUNK_SIZE) ==> s.block + 1 >= strands[k].sh.l
    {
      var stream := strands[k].Stream();
      HasLeaf(k, s.block);
      ChunkInRange(|stream|, PARITY_CHUNK_SIZE, s.block + 1);
      StartStep(s.block, PARITY_CHUNK_SIZE);
      FitsMeaning(s, stream, PARITY_CHUNK_SIZE);
      hide Start, ChunkCount, Merged, Fits;
    }

    lemma NoneFatal(k: nat, slices: seq<Slice>)
      requires k < |strands| && strands[k].sh.Valid() && Published(strands[k].sh, strands[k].up, shell)
      ensures AllReachable(k, slices) ==> !SlicesFatal(k, slices)
    {
      forall x | 0 <= x < |slices|
        ensures AllReachable(k, slices) ==> !LeafFatal(k, slices[x].block)
      {
        ReachableUp(k, slices[x].block);
      }
      hide Reachable;
    }

    lemma OrderFacts(slices: seq<Slice>, j: nat)
      requires InOrder(slices) && j < |slices|
      ensures slices[j].from <= slices[j].to
    {
    }

    /** The slices of the leaves, glued together. */
    method ReadSlices(blocks: seq<Slice>, strand: nat) returns (r: Reading)
      requires strand < |strands| && ParityValid(strand) && StreamStored(strand) && PARITY_CHUNK_SIZE > 0
      requires InOrder(blocks)
      modifies this`parityAvailable, strands[strand].at.Values`cid, strands[strand].at.Values`data
      ensures ParityValid(strand) && |old(parityAvailable)| == |parityAvailable| == |strands|
      ensures r.Read? ==>
                && Readable(blocks, strands[strand].Stream(), PARITY_CHUNK_SIZE)
                && r.data == Glued(blocks, strands[strand].Stream(), PARITY_CHUNK_SIZE)
      ensures r.OutOfBounds? ==> !Readable(blocks, strands[strand].Stream(), PARITY_CHUNK_SIZE)
      ensures strands[strand].sh.Valid() && Published(strands[strand].sh, strands[strand].up, shell)
      ensures old(ParityEarned(strand, CacheOf(strands[strand].at))) ==>
                && ParityEarned(strand, CacheOf(strands[strand].at))
                && (r.Unavailable? ==> !AllReachable(strand, blocks)) && (r.Read? ==> AllReachable(strand, blocks))
                && parityAvailable == (if SlicesFatal(strand, blocks) then old(parityAvailable)[strand := false] else old(parityAvailable))
      ensures parityAvailable == old(parityAvailable) || parityAvailable == old(parityAvailable)[strand := false]
    {
      hide *;
      ghost var t, stream := strands[strand], strands[strand].Stream();
      NothingGlued(stream, PARITY_CHUNK_SIZE);
      ParityValidFacts(strand);
      ReachableStep(strand, blocks, 0);
      assert blocks[..0] == [];
      var finalData: Chunk := [];
      ghost var earned := ParityEarned(strand, CacheOf(t.at));
      for j := 0 to |blocks|
        invariant ParityValid(strand) && parityAvailable == old(parityAvailable)
        invariant Readable(blocks[..j], stream, PARITY_CHUNK_SIZE)
        invariant finalData == Glued(blocks[..j], stream, PARITY_CHUNK_SIZE)
        invariant earned ==> ParityEarned(strand, CacheOf(t.at)) && AllReachable(strand, blocks[..j])
      {
        ReachableStep(strand, blocks, j);
        OrderFacts(blocks, j);
        if earned {
          FirstDecides(strand, blocks, j);
          ReachableUp(strand, blocks[j].block);
        }
        var piece := ReadSlice(blocks[j], strand);
        GlueStep(blocks, stream, PARITY_CHUNK_SIZE, j);
        if !piece.Read? {
          return piece;
        }
        finalData := finalData + piece.data;
      }
      assert blocks[..|blocks|] == blocks;
      NoneFatal(strand, blocks);
      r := Read(finalData);
    }

    lemma LeavesAre(k: nat, index: nat, slices: seq<Slice>)
      requires k < |strands| && strands[k].sh.Valid() && Published(strands[k].sh, strands[k].up, shell)
      requires Tiles(slices, PARITY_CHUNK_SIZE, Start(index, PARITY_BLOCK_SIZE), Start(index, PARITY_BLOCK_SIZE) + PARITY_BLOCK_SIZE)
      ensures AllReachable(k, slices) <==> LeavesReachable(k, index)
    {
      hide Reachable, Tiles, Start, Touches;
      if AllReachable(k, slices) {
        AllLeavesReachable(k, index, slices);
      } else {
        var x :| 0 <= x < |slices| && !Reachable(k, Place(0, slices[x].block));
        SomeLeafUnreachable(k, index, slices, x);
      }
    }

    /**
      Parity block index of a strand, glued from slices of the leaves.  The bytes are those at a multiple of
      the block size; they are the parity block if all blocks of the strand have that size.
     */
    method GetParity(index: nat, strand: nat) returns (r: Reading)
      requires strand < |strands| && ParityValid(strand) && StreamStored(strand)
      modifies this`parityAvailable, strands[strand].at.Values`cid, strands[strand].at.Values`data
      ensures ParityValid(strand)
      ensures strands[strand].sh.Valid() && Published(strands[strand].sh, strands[strand].up, shell)
      ensures |old(parityAvailable)| == |strands| == |parityAvailable|
      ensures var t, a := strands[strand], Start(index, PARITY_BLOCK_SIZE);
              && (r.Read? ==> a + PARITY_BLOCK_SIZE <= |t.Stream()| && r.data == t.Stream()[a..a + PARITY_BLOCK_SIZE])
              && (r.OutOfBounds? ==> a + PARITY_BLOCK_SIZE > |t.Stream()|)
              && (r.Read? && index < |t.parities| && SizesEqual(t.parities, PARITY_BLOCK_SIZE) ==> r.data == t.parities[index])
              && (old(ParityEarned(strand, CacheOf(t.at))) ==>
                    && ParityEarned(strand, CacheOf(t.at))
                    && (r.Read? <==> && old(parityAvailable)[strand] && LeavesReachable(strand, index)
                                     && a + PARITY_BLOCK_SIZE <= |t.Stream()|)
                    && parityAvailable == old(parityAvailable)[strand := old(parityAvailable)[strand] && !Fatal(strand, index)]
                    && (parityAvailable[strand] != old(parityAvailable)[strand] ==> InnerNodeLost(strand)))
      ensures parityAvailable == old(parityAvailable) || parityAvailable == old(parityAvailable)[strand := false]
    {
      hide *;
      SizesPositive();
      ParityValidFacts(strand);
      if !parityAvailable[strand] {
        return Unavailable;
      }
      ghost var a, stream := Start(index, PARITY_BLOCK_SIZE), strands[strand].Stream();
      var blocks := CalculateNewBlocks(PARITY_BLOCK_SIZE, PARITY_CHUNK_SIZE, index);
      ReadableIff(blocks, stream, PARITY_CHUNK_SIZE, a, a + PARITY_BLOCK_SIZE);
      LeavesAre(strand, index, blocks);
      FatalAre(strand, index, blocks);
      FatalIsInner(strand, index);
      TilesInOrder(blocks, a, a + PARITY_BLOCK_SIZE);
      r := ReadSlices(blocks, strand);
      ParityAt(strand, index);
    }

    lemma {:induction false} TilesInOrder(slices: seq<Slice>, a: nat, b: nat)
      requires Tiles(slices, PARITY_CHUNK_SIZE, a, b)
      ensures InOrder(slices)
    {
      hide Start;
      if slices != [] {
        var l := |slices| - 1;
        TilesInOrder(slices[..l], a, Start(slices[l].block, PARITY_CHUNK_SIZE) + slices[l].from);
        assert forall x :: 0 <= x < l ==> slices[..l][x] == slices[x];
      }
    }

    lemma FatalAre(k: nat, index: nat, slices: seq<Slice>)
      requires k < |strands| && strands[k].sh.Valid() && Published(strands[k].sh, strands[k].up, shell)
      requires Tiles(slices, PARITY_CHUNK_SIZE, Start(index, PARITY_BLOCK_SIZE), Start(index, PARITY_BLOCK_SIZE) + PARITY_BLOCK_SIZE)
      ensures SlicesFatal(k, slices) <==> Fatal(k, index)
    {
      hide Reachable, LeafFatal, Tiles, Start, Touches;
      var a, b := Start(index, PARITY_BLOCK_SIZE), Start(index, PARITY_BLOCK_SIZE) + PARITY_BLOCK_SIZE;
      TilesInOrder(slices, a, b);
      if x :| 0 <= x < |slices| && LeafFatal(k, slices[x].block) && AllReachable(k, slices[..x]) {
        var j := slices[x].block;
        TilesTouch(slices, PARITY_CHUNK_SIZE, a, b, j);
        forall i: nat | i < j && HoldsBytes(index, i)
          ensures Reachable(k, Place(0, i))
        {
          TilesTouch(slices, PARITY_CHUNK_SIZE, a, b, i);
          var y :| 0 <= y < |slices| && slices[y].block == i;
          assert y < x && slices[..x][y] == slices[y];
        }
        assert HoldsBytes(index, j) && EarlierReachable(k, index, j);
      }
      if j: nat :| HoldsBytes(index, j) && LeafFatal(k, j) && EarlierReachable(k, index, j) {
        TilesTouch(slices, PARITY_CHUNK_SIZE, a, b, j);
        var x :| 0 <= x < |slices| && slices[x].block == j;
        forall y | 0 <= y < |slices[..x]|
          ensures Reachable(k, Place(0, slices[..x][y].block))
        {
          assert slices[..x][y] == slices[y];
          TilesTouch(slices, PARITY_CHUNK_SIZE, a, b, slices[y].block);
          assert HoldsBytes(index, slices[y].block);
        }
      }
    }

    lemma ParityAt(k: nat, index: nat)
      requires k < |strands|
      ensures index < |strands[k].parities| && SizesEqual(strands[k].parities, PARITY_BLOCK_SIZE) ==>
                var a := Start(index, PARITY_BLOCK_SIZE);
                a + PARITY_BLOCK_SIZE <= |strands[k].Stream()|
                && strands[k].Stream()[a..a + PARITY_BLOCK_SIZE] == strands[k].parities[index]
    {
      hide Start;
      if index < |strands[k].parities| && SizesEqual(strands[k].parities, PARITY_BLOCK_SIZE) {
        MergedEven(strands[k].parities, PARITY_BLOCK_SIZE, index);
      }
    }
  }
}
