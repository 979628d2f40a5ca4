/**
  A peer's part in a collaborative repair: repair the leaves of a request on the lattice, and report.
 */
module LeafRepair {
  import opened Bytes
  import opened LatticeGraph
  import opened RecoverySearch
  import opened RecoveryTheorems
  import opened Lattices
  import opened CollabRepair

  predicate Below(leaves: seq<nat>, n: nat) {
    forall x :: 0 <= x < |leaves| ==> leaves[x] < n
  }

  lemma BelowPrefixes(leaves: seq<nat>, n: nat)
    requires Below(leaves, n)
    ensures forall i :: 0 <= i <= |leaves| ==> Below(leaves[..i], n)
    ensures forall x :: 0 <= x < |leaves| ==> leaves[x] < n
  {
  }

  /** The lattice calls made for a list of leaves. */
  function LeafRequests(leaves: seq<nat>, depth: nat, store: Store): (reqs: seq<Request>)
    ensures |reqs| == |leaves|
  {
    if leaves == [] then [] else
      LeafRequests(leaves[..|leaves| - 1], depth, store) + [Request(D(leaves[|leaves| - 1] + 1), depth, store)]
  }

  lemma {:induction false} LeafRequestsIn(g: Graph, leaves: seq<nat>, depth: nat, store: Store)
    requires Below(leaves, g.n)
    ensures forall q :: q in LeafRequests(leaves, depth, store) ==> In(g, q.block) && q.store == store && q.depth == depth
  {
    if leaves != [] {
      LeafRequestsIn(g, leaves[..|leaves| - 1], depth, store);
    }
  }

  /** The lattice after the calls for a list of leaves. */
  function AfterLeaves(g: Graph, se: Session, leaves: seq<nat>, depth: nat, store: Store): (r: Session)
    requires g.Valid() && Covers(g, se.st) && Below(leaves, g.n)
    ensures Covers(g, r.st)
  {
    LeafRequestsIn(g, leaves, depth, store);
    Run(g, se, LeafRequests(leaves, depth, store)).0
  }

  /** One more leaf: the lattice call, and whether the leaf is repaired. */
  function NextLeaf(g: Graph, se: Session, leaves: seq<nat>, leaf: nat, depth: nat, store: Store, uploads: set<Chunk>): (r: (Session, bool))
    requires g.Valid() && Covers(g, se.st) && Below(leaves, g.n) && leaf < g.n
  {
    var (after, answer) := Serve(g, AfterLeaves(g, se, leaves, depth, store), Request(D(leaf + 1), depth, store));
    (after, answer.Got? && (after.st[D(leaf + 1)].repaired ==> ToUpload(answer) in uploads))
  }

  /** What is uploaded for a rebuilt leaf: the chunk without leading and trailing zeros. */
  function ToUpload(answer: Answer): Chunk {
    Trim(if answer.Got? then answer.data else [])
  }

  /** The chunks uploaded for a list of leaves, in order. */
  function Sent(g: Graph, se: Session, leaves: seq<nat>, depth: nat, store: Store): seq<Chunk>
    requires g.Valid() && Covers(g, se.st) && Below(leaves, g.n)
  {
    if leaves == [] then [] else
      var init, last := leaves[..|leaves| - 1], leaves[|leaves| - 1];
      var (after, answer) := Serve(g, AfterLeaves(g, se, init, depth, store), Request(D(last + 1), depth, store));
      Sent(g, se, init, depth, store) + if after.st[D(last + 1)].repaired then [ToUpload(answer)] else []
  }

  lemma AfterNext(g: Graph, se: Session, leaves: seq<nat>, depth: nat, store: Store, uploads: set<Chunk>)
    requires g.Valid() && Covers(g, se.st) && leaves != [] && Below(leaves, g.n)
    ensures AfterLeaves(g, se, leaves, depth, store) ==
            NextLeaf(g, se, leaves[..|leaves| - 1], leaves[|leaves| - 1], depth, store, uploads).0
  {
    var reqs, init := LeafRequests(leaves, depth, store), LeafRequests(leaves[..|leaves| - 1], depth, store);
    LeafRequestsIn(g, leaves, depth, store);
    assert reqs[..|reqs| - 1] == init;
    hide Serve;
  }

  /** What is reported for the leaves: repaired means obtained and, if it had to be rebuilt, uploaded again. */
  function Results(g: Graph, se: Session, leaves: seq<nat>, depth: nat, store: Store, uploads: set<Chunk>): (r: map<nat, bool>)
    requires g.Valid() && Covers(g, se.st) && Below(leaves, g.n)
    ensures forall leaf :: leaf in r <==> leaf in leaves
  {
    if leaves == [] then map[] else
      var init, last := leaves[..|leaves| - 1], leaves[|leaves| - 1];
      Results(g, se, init, depth, store, uploads)[last := NextLeaf(g, se, init, last, depth, store, uploads).1]
  }

  lemma RunOne(g: Graph, se: Session, q: Request)
    requires g.Valid() && Covers(g, se.st) && In(g, q.block)
    ensures Run(g, se, [q]).0 == Serve(g, se, q).0
  {
    assert [q][..0] == [];
  }

  lemma KeptByNext(g: Graph, se: Session, q: Request, b: Node)
    requires g.Valid() && Covers(g, se.st) && In(g, q.block) && In(g, b) && Available(se.st[b])
    ensures Serve(g, se, q).0.st[b] == se.st[b]
  {
    hide Serve;
    RunKeeps(g, se, [q], b);
    RunOne(g, se, q);
  }

  /** A leaf reported repaired is held by the lattice from then on, and was uploaded, trimmed, if it had been rebuilt. */
  lemma {:induction false} RepairedIsHeld(g: Graph, se: Session, leaves: seq<nat>, depth: nat, store: Store, uploads: set<Chunk>, leaf: nat)
    requires g.Valid() && Covers(g, se.st) && Below(leaves, g.n)
    requires leaf in leaves && Results(g, se, leaves, depth, store, uploads)[leaf]
    ensures var c := AfterLeaves(g, se, leaves, depth, store).st[D(leaf + 1)];
            Available(c) && (c.repaired ==> Trim(c.data) in uploads && Trim(c.data) in Sent(g, se, leaves, depth, store))
  {
    hide *;
    var init, last := leaves[..|leaves| - 1], leaves[|leaves| - 1];
    BelowPrefixes(leaves, g.n);
    ResultsStep(g, se, leaves, depth, store, uploads);
    SentStep(g, se, leaves, depth, store);
    if leaf != last {
      assert leaf in init;
      RepairedIsHeld(g, se, init, depth, store, uploads, leaf);
      InLeaves(g, init, leaf);
      KeptByNext(g, AfterLeaves(g, se, init, depth, store), Request(D(last + 1), depth, store), D(leaf + 1));
    }
  }

  lemma InLeaves(g: Graph, leaves: seq<nat>, leaf: nat)
    requires g.Valid() && Below(leaves, g.n) && leaf in leaves
    ensures In(g, D(leaf + 1))
  {
  }

  lemma ResultsStep(g: Graph, se: Session, leaves: seq<nat>, depth: nat, store: Store, uploads: set<Chunk>)
    requires g.Valid() && Covers(g, se.st) && leaves != [] && Below(leaves, g.n)
    ensures var init, last := leaves[..|leaves| - 1], leaves[|leaves| - 1];
            && In(g, D(last + 1))
            && var (after, answer) := Serve(g, AfterLeaves(g, se, init, depth, store), Request(D(last + 1), depth, store));
               && AfterLeaves(g, se, leaves, depth, store) == after
               && Results(g, se, leaves, depth, store, uploads).Keys == Results(g, se, init, depth, store, uploads).Keys + {last}
               && (forall leaf :: leaf in Results(g, se, init, depth, store, uploads) && leaf != last ==>
                     Results(g, se, leaves, depth, store, uploads)[leaf] == Results(g, se, init, depth, store, uploads)[leaf])
               && (Results(g, se, leaves, depth, store, uploads)[last] ==>
                     && answer.Got? && Available(after.st[D(last + 1)])
                     && (after.st[D(last + 1)].repaired ==> Trim(after.st[D(last + 1)].data) in uploads))
  {
    hide Search, AfterLeaves, Trim;
    AfterNext(g, se, leaves, depth, store, uploads);
  }

  lemma SentStep(g: Graph, se: Session, leaves: seq<nat>, depth: nat, store: Store)
    requires g.Valid() && Covers(g, se.st) && leaves != [] && Below(leaves, g.n)
    ensures var init, last := leaves[..|leaves| - 1], leaves[|leaves| - 1];
            && In(g, D(last + 1)) && Below(init, g.n)
            && var (after, answer) := Serve(g, AfterLeaves(g, se, init, depth, store), Request(D(last + 1), depth, store));
               && (forall chunk :: chunk in Sent(g, se, init, depth, store) ==> chunk in Sent(g, se, leaves, depth, store))
               && (answer.Got? && after.st[D(last + 1)].repaired ==> Trim(after.st[D(last + 1)].data) in Sent(g, se, leaves, depth, store))
  {
    hide Search, AfterLeaves, Trim;
  }

  lemma {:induction false} AfterGrows(g: Graph, se: Session, leaves: seq<nat>, depth: nat, store: Store)
    requires g.Valid() && Covers(g, se.st) && Below(leaves, g.n) && Quiet(g, se.st) && NonEmpty(g, store, se.st)
    ensures var se' := AfterLeaves(g, se, leaves, depth, store);
            Grows(g, se.st, se'.st) && Quiet(g, se'.st) && NonEmpty(g, store, se'.st)
  {
    hide *;
    if leaves == [] {
      NoLeaves(g, se, depth, store, {});
      NothingGrows(g, se.st);
    } else {
      var init, last := leaves[..|leaves| - 1], leaves[|leaves| - 1];
      BelowPrefixes(leaves, g.n);
      AfterGrows(g, se, init, depth, store);
      var before := AfterLeaves(g, se, init, depth, store);
      ResultsStep(g, se, leaves, depth, store, {});
      ServeIs(g, before, Request(D(last + 1), depth, store));
      NothingGrows(g, before.st);
      if depth > 0 {
        EndsQuiet(g, store, before.st, D(last + 1), before.counter, depth);
        SearchGrows(g, store, before.st, D(last + 1), before.counter, depth);
        SearchNonEmpty(g, store, before.st, D(last + 1), before.counter, depth);
      }
      GrowsTwice(g, se.st, before.st, AfterLeaves(g, se, leaves, depth, store).st);
    }
  }

  lemma NothingGrows(g: Graph, st: State)
    requires Covers(g, st)
    ensures Quiet(g, st) ==> Grows(g, st, st)
  {
  }

  lemma GrowsTwice(g: Graph, st: State, st1: State, st2: State)
    requires Covers(g, st) && Covers(g, st1) && Covers(g, st2) && Grows(g, st, st1) && Grows(g, st1, st2)
    ensures Grows(g, st, st2)
  {
  }

  /**
    Nothing that can be repaired is reported as failed: if everything that is sent can be uploaded, a leaf is
    reported repaired as soon as it has a derivation no higher than the depth from what there was at first.
   */
  lemma {:induction false} DerivableReported(g: Graph, se: Session, leaves: seq<nat>, depth: nat, store: Store, uploads: set<Chunk>, leaf: nat)
    requires g.Valid() && Covers(g, se.st) && Below(leaves, g.n) && Quiet(g, se.st) && NonEmpty(g, store, se.st)
    requires leaf in leaves && leaf < g.n && In(g, D(leaf + 1)) && Derivable(g, store, se.st, D(leaf + 1), depth)
    requires forall chunk :: chunk in Sent(g, se, leaves, depth, store) ==> chunk in uploads
    ensures leaf in Results(g, se, leaves, depth, store, uploads) && Results(g, se, leaves, depth, store, uploads)[leaf]
  {
    hide *;
    var init, last := leaves[..|leaves| - 1], leaves[|leaves| - 1];
    BelowPrefixes(leaves, g.n);
    assert init + [last] == leaves;
    SentStep(g, se, leaves, depth, store);
    if leaf == last {
      AfterGrows(g, se, init, depth, store);
      var before := AfterLeaves(g, se, init, depth, store);
      DerivablePositive(g, store, se.st, D(leaf + 1), depth);
      DerivableGrows(g, store, se.st, before.st, D(leaf + 1), depth);
      SearchComplete(g, store, before.st, D(leaf + 1), before.counter, depth);
      ServeIs(g, before, Request(D(leaf + 1), depth, store));
      LastReported(g, se, leaves, depth, store, uploads);
    } else {
      assert leaf in init;
      DerivableReported(g, se, init, depth, store, uploads, leaf);
      ResultsStep(g, se, leaves, depth, store, uploads);
    }
  }

  lemma LastReported(g: Graph, se: Session, leaves: seq<nat>, depth: nat, store: Store, uploads: set<Chunk>)
    requires g.Valid() && Covers(g, se.st) && leaves != [] && Below(leaves, g.n)
    requires forall chunk :: chunk in Sent(g, se, leaves, depth, store) ==> chunk in uploads
    ensures var init, last := leaves[..|leaves| - 1], leaves[|leaves| - 1];
            && Below(init, g.n) && In(g, D(last + 1))
            && (Serve(g, AfterLeaves(g, se, init, depth, store), Request(D(last + 1), depth, store)).1.Got? ==>
                  last in Results(g, se, leaves, depth, store, uploads) && Results(g, se, leaves, depth, store, uploads)[last])
  {
    hide Serve, AfterLeaves, Trim;
  }

  /** And its content is the uploaded leaf's, up to trailing zeros. */
  lemma RepairedIsCorrect(g: Graph, data: seq<Chunk>, se: Session, leaves: seq<nat>, depth: nat, store: Store, uploads: set<Chunk>, leaf: nat)
    requires g.Valid() && TwoColumns(g) && |data| == g.n && Fresh(g, se.st) && Honest(g, data, store)
    requires Below(leaves, g.n) && leaf in leaves
    requires Results(g, se, leaves, depth, store, uploads)[leaf]
    ensures var c := AfterLeaves(g, se, leaves, depth, store).st[D(leaf + 1)];
            Available(c) && Same(c.data, data[leaf])
  {
    hide Search, Honest, Same, Run;
    RepairedIsHeld(g, se, leaves, depth, store, uploads, leaf);
    LeafRequestsIn(g, leaves, depth, store);
    RunSafe(g, data, se, LeafRequests(leaves, depth, store));
    assert In(g, D(leaf + 1));
  }

  /**
    What the network is given back: a leaf reported repaired was downloaded, or its chunk was rebuilt and
    uploaded trimmed; then the upload is the leaf's own chunk if and only if that has non-zero ends.
   */
  lemma UploadRestoresIff(g: Graph, data: seq<Chunk>, se: Session, leaves: seq<nat>, depth: nat, store: Store, uploads: set<Chunk>, leaf: nat)
    requires g.Valid() && TwoColumns(g) && |data| == g.n && Fresh(g, se.st) && Honest(g, data, store)
    requires Below(leaves, g.n) && leaf in leaves && leaf < |data| && data[leaf] != []
    requires Results(g, se, leaves, depth, store, uploads)[leaf]
    ensures In(g, D(leaf + 1))
    ensures var c := AfterLeaves(g, se, leaves, depth, store).st[D(leaf + 1)];
            && Available(c)
            && (c.repaired ==> Trim(c.data) in uploads && Trim(c.data) in Sent(g, se, leaves, depth, store))
            && (Trim(c.data) == data[leaf] <==> NonZeroEnds(data[leaf]))
  {
    hide *;
    InLeaves(g, leaves, leaf);
    FreshOf(g, se);
    RepairedIsHeld(g, se, leaves, depth, store, uploads, leaf);
    RepairedIsCorrect(g, data, se, leaves, depth, store, uploads, leaf);
    CoverIn(g, AfterLeaves(g, se, leaves, depth, store).st, D(leaf + 1));
    TrimRestores(AfterLeaves(g, se, leaves, depth, store).st[D(leaf + 1)].data, data[leaf]);
    EndsMean(data[leaf]);
  }

  lemma FreshOf(g: Graph, se: Session)
    requires Fresh(g, se.st)
    ensures Covers(g, se.st)
  {
  }

  lemma CoverIn(g: Graph, st: State, b: Node)
    requires Covers(g, st) && In(g, b)
    ensures b in st
  {
  }

  lemma EndsMean(d: Chunk)
    requires d != []
    ensures NonZeroEnds(d) <==> d[0] != 0 && d[|d| - 1] != 0
  {
  }

  lemma Ready(lattice: Lattice)
    requires lattice.Valid()
    ensures lattice.G().Valid() && Covers(lattice.G(), lattice.State()) && lattice.G().n == lattice.chunkNum
  {
  }

  lemma NoLeaves(g: Graph, se: Session, depth: nat, store: Store, uploads: set<Chunk>)
    requires g.Valid() && Covers(g, se.st)
    ensures AfterLeaves(g, se, [], depth, store) == se && Results(g, se, [], depth, store, uploads) == map[]
    ensures Sent(g, se, [], depth, store) == []
  {
  }

  lemma OneMoreLeaf(g: Graph, se: Session, leaves: seq<nat>, i: nat, depth: nat, store: Store, uploads: set<Chunk>)
    requires g.Valid() && Covers(g, se.st) && i < |leaves| && Below(leaves, g.n)
    ensures In(g, D(leaves[i] + 1))
    ensures var (after, answer) := Serve(g, AfterLeaves(g, se, leaves[..i], depth, store), Request(D(leaves[i] + 1), depth, store));
            && after == AfterLeaves(g, se, leaves[..i + 1], depth, store)
            && Results(g, se, leaves[..i + 1], depth, store, uploads) ==
               Results(g, se, leaves[..i], depth, store, uploads)
                 [leaves[i] := answer.Got? && (after.st[D(leaves[i] + 1)].repaired ==> ToUpload(answer) in uploads)]
            && Sent(g, se, leaves[..i + 1], depth, store) ==
               Sent(g, se, leaves[..i], depth, store) + if after.st[D(leaves[i] + 1)].repaired then [ToUpload(answer)] else []
  {
    hide Serve, AfterLeaves;
    assert leaves[..i + 1][..i] == leaves[..i];
    AfterNext(g, se, leaves[..i + 1], depth, store, uploads);
  }

  lemma OverrideNext(m: map<nat, bool>, n: map<nat, bool>, key: nat, value: bool)
    ensures (m + n)[key := value] == m + n[key := value]
  {
  }

  lemma OverrideAll(m: map<nat, bool>, n: map<nat, bool>)
    requires forall key :: key in m <==> key in n
    ensures m + n == n
  {
  }

  /** Every leaf, not repaired yet. */
  method Unrepaired(leafIndices: seq<nat>) returns (result: map<nat, bool>)
    ensures forall leaf :: leaf in result <==> leaf in leafIndices
    ensures forall leaf :: leaf in result ==> !result[leaf]
  {
    result := map[];
    for i := 0 to |leafIndices|
      invariant forall leaf :: leaf in result <==> leaf in leafIndices[..i]
      invariant forall leaf :: leaf in result ==> !result[leaf]
    {
      result := result[leafIndices[i] := false];
    }
    assert leafIndices[..|leafIndices|] == leafIndices;
  }

  lemma UploadIs(answer: Answer)
    ensures ToUpload(answer) == Trim(if answer.Got? then answer.data else [])
  {
  }

  /** One leaf: the lattice call, and the upload of what was rebuilt. */
  method RepairLeaf(lattice: Lattice, index: nat, uploads: set<Chunk>) returns (ok: bool, sent: seq<Chunk>)
    requires lattice.Valid() && Quiet(lattice.G(), lattice.State()) && index < lattice.chunkNum
    modifies lattice`requestCounter, lattice.at.Values`status, lattice.at.Values`data, lattice.at.Values`repaired,
             lattice.at.Values`currRequest, lattice.at.Values`pairsKnown, lattice.at.Values`recoverPairs
    ensures lattice.Valid() && Quiet(lattice.G(), lattice.State()) && In(lattice.G(), D(index + 1))
    ensures var (after, answer) :=
              Serve(lattice.G(), Session(old(lattice.State()), old(lattice.requestCounter)),
                    Request(D(index + 1), lattice.switchDepth, lattice.getter));
            && after == Session(lattice.State(), lattice.requestCounter)
            && (ok <==> answer.Got? && (after.st[D(index + 1)].repaired ==> ToUpload(answer) in uploads))
            && sent == if after.st[D(index + 1)].repaired then [ToUpload(answer)] else []
  {
    hide *;
    var chunk, hasRepaired := lattice.GetChunk(index + 1);
    ok, sent := chunk.Got?, [];
    if hasRepaired {
      var trimmed := Trim(if chunk.Got? then chunk.data else []);
      UploadIs(chunk);
      sent := [trimmed];
      ok := ok && trimmed in uploads;
    }
  }

  /**
    Repairs leaves on the lattice.  prepared says whether the lattice could be set up, uploads which chunks
    can be uploaded; sent are the chunks uploaded or tried.
   */
  method RepairFailedLeaves(lattice: Lattice, prepared: bool, leafIndices: seq<nat>, uploads: set<Chunk>)
    returns (result: map<nat, bool>, sent: seq<Chunk>)
    requires prepared ==>
               lattice.Valid() && Quiet(lattice.G(), lattice.State()) && Below(leafIndices, lattice.chunkNum)
    modifies lattice`requestCounter, lattice.at.Values`status, lattice.at.Values`data, lattice.at.Values`repaired,
             lattice.at.Values`currRequest, lattice.at.Values`pairsKnown, lattice.at.Values`recoverPairs
    ensures forall leaf :: leaf in result <==> leaf in leafIndices
    ensures !prepared ==> sent == [] && forall leaf :: leaf in result ==> !result[leaf]
    ensures prepared ==>
              var se := Session(old(lattice.State()), old(lattice.requestCounter));
              && lattice.Valid() && Quiet(lattice.G(), lattice.State())
              && result == Results(lattice.G(), se, leafIndices, lattice.switchDepth, lattice.getter, uploads)
              && sent == Sent(lattice.G(), se, leafIndices, lattice.switchDepth, lattice.getter)
              && Session(lattice.State(), lattice.requestCounter) ==
                 AfterLeaves(lattice.G(), se, leafIndices, lattice.switchDepth, lattice.getter)
  {
    hide *;
    result := Unrepaired(leafIndices);
    sent := [];
    if !prepared {
      return;
    }
    ghost var g, se, depth, store := lattice.G(), Session(lattice.State(), lattice.requestCounter), lattice.switchDepth, lattice.getter;
    ghost var blank := result;
    Ready(lattice);
    BelowPrefixes(leafIndices, lattice.chunkNum);
    NoLeaves(g, se, depth, store, uploads);
    assert leafIndices[..0] == [];
    ghost var done: map<nat, bool> := map[];
    for i := 0 to |leafIndices|
      invariant lattice.Valid() && Quiet(g, lattice.State()) && lattice.G() == g && lattice.getter == store
      invariant done == Results(g, se, leafIndices[..i], depth, store, uploads) && result == blank + done
      invariant sent == Sent(g, se, leafIndices[..i], depth, store)
      invariant Session(lattice.State(), lattice.requestCounter) == AfterLeaves(g, se, leafIndices[..i], depth, store)
    {
      var index := leafIndices[i];
      OneMoreLeaf(g, se, leafIndices, i, depth, store, uploads);
      var ok, uploaded := RepairLeaf(lattice, index, uploads);
      sent := sent + uploaded;
      OverrideNext(blank, done, index, ok);
      result := result[index := ok];
      done := done[index := ok];
    }
    assert leafIndices[..|leafIndices|] == leafIndices;
    OverrideAll(blank, done);
  }

  /** Carries out a request and answers it with one report. */
  method StartUnitRepair(lattice: Lattice, prepared: bool, op: Message, uploads: set<Chunk>) returns (response: Message)
    requires op.UnitRequest?
    requires prepared ==>
               lattice.Valid() && Quiet(lattice.G(), lattice.State()) && Below(op.failedIndices, lattice.chunkNum)
    modifies lattice`requestCounter, lattice.at.Values`status, lattice.at.Values`data, lattice.at.Values`repaired,
             lattice.at.Values`currRequest, lattice.at.Values`pairsKnown, lattice.at.Values`recoverPairs
    ensures response.UnitReport? && response.file == op.file && response.peer == op.peer && response.epoch == op.epoch
    ensures forall leaf :: leaf in response.repairStatus <==> leaf in op.failedIndices
    ensures !prepared ==> forall leaf :: leaf in response.repairStatus ==> !response.repairStatus[leaf]
    ensures prepared ==>
              lattice.Valid()
              && response.repairStatus ==
                 Results(lattice.G(), Session(old(lattice.State()), old(lattice.requestCounter)), op.failedIndices,
                         lattice.switchDepth, lattice.getter, uploads)
  {
    hide *;
    var res, _ := RepairFailedLeaves(lattice, prepared, op.failedIndices, uploads);
    response := UnitReport(op.file, op.peer, op.epoch, res);
  }
}
