/**
  What a successful job means: the coordinator's verdict, traced back through the protocol to the peers' work
  on the lattice and to what they uploaded.
 */
module RepairOutcome {
  import opened Bytes
  import opened LatticeGraph
  import opened RecoverySearch
  import opened RecoveryTheorems
  import opened LeafRepair
  import opened CollabRepair
  import opened CollabProtocol
  import opened Sequences

  // ----- where a verdict comes from

  /** A peer has found a leaf repaired while working for a job. */
  datatype Finding = Finding(file: string, epoch: nat, peer: string, leaf: nat)

  ghost function Findings(sys: System, a: Action): set<Finding>
    requires Enabled(sys, a)
  {
    match a
    case Work(x, outcome) =>
      var m := sys.network[x];
      set leaf | leaf in outcome && outcome[leaf] :: Finding(m.file, m.epoch, m.peer, leaf)
    case _ => {}
  }

  /** All that was found during a run. */
  ghost function History(sys: System, actions: seq<Action>): set<Finding>
    requires CanRun(sys, actions)
    decreases |actions|
  {
    if actions == [] then {} else Findings(sys, actions[0]) + History(Step(sys, actions[0]), actions[1..])
  }

  ghost predicate MessageFounded(m: Message, found: set<Finding>) {
    m.UnitReport? ==> forall leaf :: leaf in m.repairStatus && m.repairStatus[leaf] ==> Finding(m.file, m.epoch, m.peer, leaf) in found
  }

  ghost predicate PeerFounded(f: string, epoch: nat, p: string, info: CollabPeerInfo, found: set<Finding>) {
    forall leaf :: leaf in info.allocatedBlocks && info.allocatedBlocks[leaf] ==> Finding(f, epoch, p, leaf) in found
  }

  ghost predicate JobFounded(f: string, job: Job, found: set<Finding>) {
    forall p :: p in job.peers ==> PeerFounded(f, job.epoch, p, job.peers[p], found)
  }

  /** Every report in flight and every mark in a job record goes back to a finding for that very job. */
  ghost predicate Founded(sys: System, found: set<Finding>) {
    && (forall x :: 0 <= x < |sys.network| ==> MessageFounded(sys.network[x], found))
    && forall f :: f in sys.jobs ==> JobFounded(f, sys.jobs[f], found)
  }

  lemma FoundedMore(sys: System, found: set<Finding>, more: set<Finding>)
    requires Founded(sys, found)
    ensures Founded(sys, found + more)
  {
    forall f | f in sys.jobs
      ensures JobFounded(f, sys.jobs[f], found + more)
    {
      assert JobFounded(f, sys.jobs[f], found);
      forall p | p in sys.jobs[f].peers
        ensures PeerFounded(f, sys.jobs[f].epoch, p, sys.jobs[f].peers[p], found + more)
      {
        assert PeerFounded(f, sys.jobs[f].epoch, p, sys.jobs[f].peers[p], found);
      }
    }
    forall x | 0 <= x < |sys.network|
      ensures MessageFounded(sys.network[x], found + more)
    {
      assert MessageFounded(sys.network[x], found);
    }
  }

  lemma StartFounded(sys: System, file: string, leaves: Lookup<seq<nat>>, peers: Lookup<seq<string>>, wanted: int, found: set<Finding>)
    requires Founded(sys, found) && Enabled(sys, Start(file, leaves, peers, wanted))
    ensures Founded(Step(sys, Start(file, leaves, peers, wanted)), found)
  {
    hide JobFounded, Allocated, Share;
    var (jobs, sent) := StartJob(sys.jobs, file, leaves, peers, wanted);
    forall f | f in jobs
      ensures JobFounded(f, jobs[f], found)
    {
      if f == file && !Busy(sys.jobs, file) {
        if Divides(sys.jobs, file, leaves, peers) {
          var n := NumPeers(wanted, |peers.value|, |leaves.value|);
          NewJobFounded(f, leaves.value, peers.value, n, jobs[f].epoch, found);
        } else {
          NoPeersFounded(f, jobs[f], found);
        }
      }
    }
    var network := sys.network + sent;
    forall x | 0 <= x < |network|
      ensures MessageFounded(network[x], found)
    {
      if x < |sys.network| {
        assert network[x] == sys.network[x];
      } else {
        assert network[x] == sent[x - |sys.network|] && network[x].UnitRequest?;
      }
    }
  }

  lemma NoPeersFounded(f: string, job: Job, found: set<Finding>)
    requires job.peers == map[]
    ensures JobFounded(f, job, found)
  {
  }

  lemma NewJobFounded(f: string, leaves: seq<nat>, peers: seq<string>, n: nat, epoch: nat, found: set<Finding>)
    requires n <= |leaves| && n <= |peers| && NoRepeat(peers)
    ensures JobFounded(f, Job(PENDING, Allocated(leaves, peers, n, n), epoch, leaves), found)
  {
    hide Allocated, Share;
    AllocatedPeers(leaves, peers, n, n);
    forall p | p in Allocated(leaves, peers, n, n)
      ensures PeerFounded(f, epoch, p, Allocated(leaves, peers, n, n)[p], found)
    {
      var j :| 0 <= j < n && peers[j] == p;
    }
  }

  lemma DeliverFounded(sys: System, x: nat, found: set<Finding>)
    requires Inv(sys) && Founded(sys, found) && Enabled(sys, Deliver(x))
    ensures Founded(Step(sys, Deliver(x)), found)
  {
    hide Inv, AllTrue, AllDone, AllSucceeded, Without;
    var m, sys' := sys.network[x], Step(sys, Deliver(x));
    InvMessage(sys, x);
    assert MessageFounded(m, found) && JobFounded(m.file, sys.jobs[m.file], found);
    assert PeerFounded(m.file, m.epoch, m.peer, sys.jobs[m.file].peers[m.peer], found);
    forall y | 0 <= y < |sys'.network|
      ensures MessageFounded(sys'.network[y], found)
    {
      WithoutAt(sys.network, x, y);
    }
  }

  lemma StepFounded(sys: System, a: Action, found: set<Finding>)
    requires Inv(sys) && Founded(sys, found) && Enabled(sys, a)
    ensures Founded(Step(sys, a), found + Findings(sys, a))
  {
    hide Inv;
    match a
    case Start(file, leaves, peers, wanted) =>
      StartFounded(sys, file, leaves, peers, wanted, found);
      assert found + {} == found;
    case Work(x, outcome) =>
      FoundedMore(sys, found, Findings(sys, a));
    case Deliver(x) =>
      DeliverFounded(sys, x, found);
      assert found + {} == found;
    case Lose(x) =>
      forall y | 0 <= y < |sys.network| - 1
        ensures MessageFounded(Without(sys.network, x)[y], found)
      {
        WithoutAt(sys.network, x, y);
      }
      assert found + {} == found;
  }

  lemma {:induction false} RunFounded(sys: System, actions: seq<Action>, found: set<Finding>)
    requires Inv(sys) && Founded(sys, found) && CanRun(sys, actions)
    ensures Founded(CollabProtocol.Run(sys, actions), found + History(sys, actions))
    decreases |actions|
  {
    hide Inv, Founded, Step, Findings;
    if actions == [] {
      assert found + {} == found;
    } else {
      StepKeepsInv(sys, actions[0]);
      StepFounded(sys, actions[0], found);
      RunFounded(Step(sys, actions[0]), actions[1..], found + Findings(sys, actions[0]));
      assert found + Findings(sys, actions[0]) + History(Step(sys, actions[0]), actions[1..])
          == found + History(sys, actions);
    }
  }

  /**
    In every run from the empty system, each leaf of a job stored as successful was found repaired in that run
    by a peer working for this very job, not for an earlier one of the same file.
   */
  lemma SuccessFound(actions: seq<Action>, f: string)
    requires CanRun(System(map[], []), actions)
    ensures var s := CollabProtocol.Run(System(map[], []), actions);
            f in s.jobs && s.jobs[f].status == SUCCESS ==>
              forall leaf :: leaf in s.jobs[f].leaves ==>
                exists p :: p in s.jobs[f].peers && Finding(f, s.jobs[f].epoch, p, leaf) in History(System(map[], []), actions)
  {
    hide CollabProtocol.Run, CanRun, History, Inv;
    var empty := System(map[], []);
    EmptySystemOk();
    assert Founded(empty, {});
    RunFounded(empty, actions, {});
    CollabProtocol.RunSafe(empty, actions);
    var s, found := CollabProtocol.Run(empty, actions), History(empty, actions);
    assert {} + found == found;
    if f in s.jobs && s.jobs[f].status == SUCCESS {
      forall leaf | leaf in s.jobs[f].leaves
        ensures exists p :: p in s.jobs[f].peers && Finding(f, s.jobs[f].epoch, p, leaf) in found
      {
        assert Repaired(s.jobs[f], leaf);
        assert JobFounded(f, s.jobs[f], found);
        var p :| p in s.jobs[f].peers && leaf in s.jobs[f].peers[p].allocatedBlocks && s.jobs[f].peers[p].allocatedBlocks[leaf];
        assert PeerFounded(f, s.jobs[f].epoch, p, s.jobs[f].peers[p], found);
      }
    }
  }

  // ----- and nothing that was found is forgotten

  /** A finding for the current job: no other message of its peer is in flight, and once reported it is marked. */
  ghost predicate KeptNow(sys: System, fd: Finding)
    requires fd.file in sys.jobs
  {
    var job := sys.jobs[fd.file];
    && fd.peer in job.peers
    && (job.peers[fd.peer].status != PENDING ==>
          fd.leaf in job.peers[fd.peer].allocatedBlocks && job.peers[fd.peer].allocatedBlocks[fd.leaf])
    && forall x :: 0 <= x < |sys.network| && sys.network[x].file == fd.file && sys.network[x].peer == fd.peer ==> Says(sys.network[x], fd.leaf)
  }

  predicate Says(m: Message, leaf: nat) {
    m.UnitReport? && leaf in m.repairStatus && m.repairStatus[leaf]
  }

  ghost predicate KeptOne(sys: System, fd: Finding) {
    && fd.file in sys.jobs && fd.epoch <= sys.jobs[fd.file].epoch
    && (fd.epoch == sys.jobs[fd.file].epoch ==> KeptNow(sys, fd))
  }

  ghost predicate Kept(sys: System, found: set<Finding>) {
    forall fd :: fd in found ==> KeptOne(sys, fd)
  }

  lemma StartKept(sys: System, file: string, leaves: Lookup<seq<nat>>, peers: Lookup<seq<string>>, wanted: int, fd: Finding)
    requires KeptOne(sys, fd) && Enabled(sys, Start(file, leaves, peers, wanted))
    ensures KeptOne(Step(sys, Start(file, leaves, peers, wanted)), fd)
  {
    hide Allocated, Share, Says;
    var sys' := Step(sys, Start(file, leaves, peers, wanted));
    var sent := StartJob(sys.jobs, file, leaves, peers, wanted).1;
    assert forall y :: 0 <= y < |sent| ==> sent[y].file == file;
    if file != fd.file || Busy(sys.jobs, file) {
      assert sys'.jobs[fd.file] == sys.jobs[fd.file];
      if fd.epoch == sys.jobs[fd.file].epoch {
        forall x | 0 <= x < |sys'.network| && sys'.network[x].file == fd.file && sys'.network[x].peer == fd.peer
          ensures Says(sys'.network[x], fd.leaf)
        {
          assert x < |sys.network| && sys'.network[x] == sys.network[x];
        }
      }
    }
  }

  lemma WorkKept(sys: System, x: nat, outcome: map<nat, bool>, fd: Finding)
    requires Inv(sys) && Enabled(sys, Work(x, outcome)) && (KeptOne(sys, fd) || fd in Findings(sys, Work(x, outcome)))
    ensures KeptOne(Step(sys, Work(x, outcome)), fd)
  {
    hide Inv, JobOk;
    InvMessage(sys, x);
    var m := sys.network[x];
    if fd in Findings(sys, Work(x, outcome)) {
      forall y | 0 <= y < |sys.network| && y != x
        ensures sys.network[y].file != m.file || sys.network[y].peer != m.peer
      {
        InvOneEach(sys, x, y);
      }
    }
  }

  lemma DeliverKept(sys: System, x: nat, fd: Finding)
    requires Inv(sys) && Enabled(sys, Deliver(x)) && KeptOne(sys, fd)
    ensures KeptOne(Step(sys, Deliver(x)), fd)
  {
    hide Inv, ApplyReport, Without, AllTrue;
    DeliverMarks(sys, x);
    var sys' := Step(sys, Deliver(x));
    if fd.epoch == sys.jobs[fd.file].epoch {
      forall y | 0 <= y < |sys'.network| && sys'.network[y].file == fd.file && sys'.network[y].peer == fd.peer
        ensures Says(sys'.network[y], fd.leaf)
      {
        WithoutAt(sys.network, x, y);
      }
    }
  }

  lemma LoseKept(sys: System, x: nat, fd: Finding)
    requires Enabled(sys, Lose(x)) && KeptOne(sys, fd)
    ensures KeptOne(Step(sys, Lose(x)), fd)
  {
    hide Without, Says;
    var sys' := Step(sys, Lose(x));
    if fd.epoch == sys.jobs[fd.file].epoch {
      forall y | 0 <= y < |sys'.network| && sys'.network[y].file == fd.file && sys'.network[y].peer == fd.peer
        ensures Says(sys'.network[y], fd.leaf)
      {
        WithoutAt(sys.network, x, y);
      }
    }
  }

  lemma StepKept(sys: System, a: Action, found: set<Finding>)
    requires Inv(sys) && Kept(sys, found) && Enabled(sys, a)
    ensures Kept(Step(sys, a), found + Findings(sys, a))
  {
    hide Inv, KeptOne, Step, Enabled;
    forall fd | fd in found + Findings(sys, a)
      ensures KeptOne(Step(sys, a), fd)
    {
      match a
      case Start(file, leaves, peers, wanted) => StartKept(sys, file, leaves, peers, wanted, fd);
      case Work(x, outcome) => WorkKept(sys, x, outcome, fd);
      case Deliver(x) => DeliverKept(sys, x, fd);
      case Lose(x) => LoseKept(sys, x, fd);
    }
  }

  lemma {:induction false} RunKept(sys: System, actions: seq<Action>, found: set<Finding>)
    requires Inv(sys) && Kept(sys, found) && CanRun(sys, actions)
    ensures Kept(CollabProtocol.Run(sys, actions), found + History(sys, actions))
    decreases |actions|
  {
    hide Inv, Kept, Step, Findings;
    if actions == [] {
      assert found + {} == found;
    } else {
      StepKeepsInv(sys, actions[0]);
      StepKept(sys, actions[0], found);
      RunKept(Step(sys, actions[0]), actions[1..], found + Findings(sys, actions[0]));
      assert found + Findings(sys, actions[0]) + History(Step(sys, actions[0]), actions[1..])
          == found + History(sys, actions);
    }
  }

  /**
    The record is exact: in every run from the empty system, a peer of the file's current job that has reported
    has a leaf marked if and only if it found that leaf repaired, in this run and for this job.
   */
  lemma MarkedIffFound(actions: seq<Action>, f: string, p: string, leaf: nat)
    requires CanRun(System(map[], []), actions)
    ensures var s := CollabProtocol.Run(System(map[], []), actions);
            f in s.jobs && p in s.jobs[f].peers && s.jobs[f].peers[p].status != PENDING ==>
              (leaf in s.jobs[f].peers[p].allocatedBlocks && s.jobs[f].peers[p].allocatedBlocks[leaf]
               <==> Finding(f, s.jobs[f].epoch, p, leaf) in History(System(map[], []), actions))
  {
    hide CollabProtocol.Run, CanRun, History, Inv;
    var empty := System(map[], []);
    EmptySystemOk();
    assert Founded(empty, {}) && Kept(empty, {});
    RunFounded(empty, actions, {});
    RunKept(empty, actions, {});
    var s, found := CollabProtocol.Run(empty, actions), History(empty, actions);
    assert {} + found == found;
    if f in s.jobs && p in s.jobs[f].peers && s.jobs[f].peers[p].status != PENDING {
      assert JobFounded(f, s.jobs[f], found);
      assert PeerFounded(f, s.jobs[f].epoch, p, s.jobs[f].peers[p], found);
      if Finding(f, s.jobs[f].epoch, p, leaf) in found {
        assert KeptOne(s, Finding(f, s.jobs[f].epoch, p, leaf));
      }
    }
  }

  // ----- what the peers do

  /** The circumstances of a peer's work: depth, what can be downloaded, which chunks can be uploaded. */
  datatype Task = Task(depth: nat, store: Store, uploads: set<Chunk>)

  /** A report made with a new lattice over a true store. */
  function Report(g: Graph, t: Task, leaves: seq<nat>): map<nat, bool>
    requires g.Valid() && Below(leaves, g.n)
  {
    Results(g, Session(FreshState(g), 0), leaves, t.depth, t.store, t.uploads)
  }

  /** The block of a leaf when the work is done. */
  function CellAfter(g: Graph, t: Task, leaves: seq<nat>, leaf: nat): Cell
    requires g.Valid() && Below(leaves, g.n) && leaf < g.n
  {
    AfterLeaves(g, Session(FreshState(g), 0), leaves, t.depth, t.store).st[D(leaf + 1)]
  }

  ghost predicate WorkOf(g: Graph, data: seq<Chunk>, t: Task, leaves: seq<nat>, outcome: map<nat, bool>)
    requires g.Valid() && |data| == g.n
  {
    Below(leaves, g.n) && Honest(g, data, t.store) && outcome == Report(g, t, leaves)
  }

  /** Throughout the run the peers' reports about the file are what their lattices give. */
  ghost predicate TrueWork(g: Graph, data: seq<Chunk>, f: string, sys: System, actions: seq<Action>)
    requires g.Valid() && |data| == g.n && CanRun(sys, actions)
    decreases |actions|
  {
    actions == [] ||
    (TrueStep(g, data, f, sys, actions[0]) && TrueWork(g, data, f, Step(sys, actions[0]), actions[1..]))
  }

  ghost predicate TrueStep(g: Graph, data: seq<Chunk>, f: string, sys: System, a: Action)
    requires g.Valid() && |data| == g.n && Enabled(sys, a)
  {
    a.Work? && sys.network[a.x].file == f ==> exists t :: WorkOf(g, data, t, sys.network[a.x].failedIndices, a.outcome)
  }

  /** Some peer's work reports the leaf repaired. */
  ghost predicate Reported(g: Graph, data: seq<Chunk>, t: Task, leaves: seq<nat>, leaf: nat)
    requires g.Valid() && |data| == g.n
  {
    Below(leaves, g.n) && Honest(g, data, t.store) && leaf in leaves && leaf < g.n && leaf in Report(g, t, leaves) && Report(g, t, leaves)[leaf]
  }

  lemma {:induction false} FindingReported(g: Graph, data: seq<Chunk>, f: string, sys: System, actions: seq<Action>, epoch: nat, p: string, leaf: nat)
    returns (t: Task, leaves: seq<nat>)
    requires g.Valid() && |data| == g.n && CanRun(sys, actions) && TrueWork(g, data, f, sys, actions)
    requires Finding(f, epoch, p, leaf) in History(sys, actions)
    ensures Reported(g, data, t, leaves, leaf)
    decreases |actions|
  {
    hide Results, Honest, Step;
    var a := actions[0];
    if Finding(f, epoch, p, leaf) in Findings(sys, a) {
      assert TrueStep(g, data, f, sys, a);
      leaves := sys.network[a.x].failedIndices;
      t :| WorkOf(g, data, t, leaves, a.outcome);
      ReportKeys(g, t, leaves, leaf);
    } else {
      t, leaves := FindingReported(g, data, f, Step(sys, a), actions[1..], epoch, p, leaf);
    }
  }

  lemma ReportKeys(g: Graph, t: Task, leaves: seq<nat>, leaf: nat)
    requires g.Valid() && Below(leaves, g.n)
    ensures leaf in Report(g, t, leaves) <==> leaf in leaves
    ensures leaf in leaves ==> leaf < g.n
  {
    hide Results;
  }

  /** The leaf's own chunk is in the network again: it was there, or it is what was uploaded. */
  predicate Restored(c: Cell, chunk: Chunk) {
    c.repaired ==> Trim(c.data) == chunk
  }

  /** After a peer's work the leaf is held, and a rebuilt leaf has been uploaded, trimmed. */
  ghost predicate GivenBack(g: Graph, data: seq<Chunk>, t: Task, leaves: seq<nat>, leaf: nat)
    requires g.Valid() && |data| == g.n && Below(leaves, g.n) && leaf < g.n
  {
    var c := CellAfter(g, t, leaves, leaf);
    && Available(c)
    && (c.repaired ==> Trim(c.data) in t.uploads && Trim(c.data) in Sent(g, Session(FreshState(g), 0), leaves, t.depth, t.store))
    && (Restored(c, data[leaf]) <==> (c.repaired ==> NonZeroEnds(data[leaf])))
  }

  lemma ReportedGivenBack(g: Graph, data: seq<Chunk>, t: Task, leaves: seq<nat>, leaf: nat)
    requires g.Valid() && TwoColumns(g) && |data| == g.n && (forall d :: d in data ==> d != [])
    requires Reported(g, data, t, leaves, leaf)
    ensures GivenBack(g, data, t, leaves, leaf)
  {
    hide Results, AfterLeaves, Sent, Honest, Trim, FreshState, NonZeroEnds;
    assert data[leaf] in data;
    UploadRestoresIff(g, data, Session(FreshState(g), 0), leaves, t.depth, t.store, t.uploads, leaf);
  }

  /**
    End to end: in every run from the empty system with true peers, each leaf of a job stored as successful
    has gone through a peer that holds it, and uploaded it if it had to be rebuilt.  The leaf itself is
    restored if and only if it was not rebuilt or its chunk has non-zero ends.
   */
  lemma SuccessRestoresIff(g: Graph, data: seq<Chunk>, f: string, actions: seq<Action>, leaf: nat) returns (t: Task, leaves: seq<nat>)
    requires g.Valid() && TwoColumns(g) && |data| == g.n && (forall d :: d in data ==> d != [])
    requires CanRun(System(map[], []), actions) && TrueWork(g, data, f, System(map[], []), actions)
    requires var s := CollabProtocol.Run(System(map[], []), actions); f in s.jobs && s.jobs[f].status == SUCCESS && leaf in s.jobs[f].leaves
    ensures Reported(g, data, t, leaves, leaf) && GivenBack(g, data, t, leaves, leaf)
  {
    hide *;
    SuccessFound(actions, f);
    var s := CollabProtocol.Run(System(map[], []), actions);
    var p :| p in s.jobs[f].peers && Finding(f, s.jobs[f].epoch, p, leaf) in History(System(map[], []), actions);
    t, leaves := FindingReported(g, data, f, System(map[], []), actions, s.jobs[f].epoch, p, leaf);
    ReportedGivenBack(g, data, t, leaves, leaf);
  }

  // ----- a successful job that has not restored its leaf

  /** All parities of strand 0 are left, and nothing else. */
  lemma ParityStore(g: Graph, data: seq<Chunk>) returns (store: Store)
    requires g.Valid() && |data| == g.n && forall d :: d in data ==> d != []
    ensures Honest(g, data, store) && StrandSurvives(g, store, 0) && forall b :: b in store ==> b.P?
  {
    store := map b | b in Nodes(g) && b.P? && b.k == 0 :: ParityOf(g, data, b);
    forall b | In(g, b) && b in store
      ensures store[b] != [] && Same(store[b], Value(g, data, b))
    {
      Chains.ParityNonEmpty(data, g.s, 0, b.i);
    }
    forall i: nat | 1 <= i <= g.n
      ensures P(0, i) in store
    {
      assert In(g, P(0, i));
    }
  }

  function ParityOf(g: Graph, data: seq<Chunk>, b: Node): Chunk
    requires g.Valid() && |data| == g.n
  {
    if In(g, b) then Value(g, data, b) else []
  }

  /** A peer that finds only those parities rebuilds and uploads the leaf, and reports it repaired. */
  lemma RebuiltReport(g: Graph, data: seq<Chunk>, leaf: nat) returns (t: Task)
    requires g.Valid() && TwoColumns(g) && |data| == g.n && leaf < g.n && forall d :: d in data ==> d != []
    ensures Below([leaf], g.n) && Honest(g, data, t.store) && Report(g, t, [leaf]) == map[leaf := true]
    ensures CellAfter(g, t, [leaf], leaf).repaired
  {
    var store := ParityStore(g, data);
    hide Results, Honest, Search, Pairs, StrandSurvives;
    var st := FreshState(g);
    assert In(g, P(0, leaf + 1)) && In(g, D(leaf + 1));
    HonestNonEmpty(g, data, store, st);
    OneStrandSuffices(g, store, st, leaf + 1, 0, 0);
    RebuiltIsMarked(g, store, st, D(leaf + 1), 0, 3);
    var c := Search(g, store, st, D(leaf + 1), 0, 3)[D(leaf + 1)];
    t := Task(3, store, {Trim(c.data)});
    OneLeafReport(g, t, leaf);
  }

  lemma HonestNonEmpty(g: Graph, data: seq<Chunk>, store: Store, st: State)
    requires g.Valid() && |data| == g.n && Honest(g, data, store) && Fresh(g, st)
    ensures NonEmpty(g, store, st) && Quiet(g, st)
  {
    hide Same, Value;
  }

  /** A block that is not in the store can only be obtained by rebuilding it. */
  lemma RebuiltIsMarked(g: Graph, store: Store, st: State, b: Node, rid: nat, d: nat)
    requires g.Valid() && Covers(g, st) && In(g, b) && d >= 1 && b !in store && st[b].status == NoData
    requires Available(Search(g, store, st, b, rid, d)[b])
    ensures Search(g, store, st, b, rid, d)[b].repaired
  {
    hide Pairs, TryPairs;
    if d > 1 {
      PairsMark(g, store, st[b := Started(st[b], rid)], b, rid, d - 1, 0);
    }
  }

  lemma {:induction false} PairsMark(g: Graph, store: Store, st: State, b: Node, rid: nat, d: nat, j: nat)
    requires g.Valid() && Covers(g, st) && In(g, b) && d >= 1 && j <= |Pairs(g, b)| && st[b].status == RepairPending
    ensures var (st', ok) := TryPairs(g, store, st, b, rid, d, j);
            if ok then Available(st'[b]) && st'[b].repaired else st'[b] == st[b]
    decreases |Pairs(g, b)| - j
  {
    hide Pairs, Search, Xor;
    if j < |Pairs(g, b)| {
      var p := Pairs(g, b)[j];
      var st1 := Search(g, store, st, p.left, rid, d);
      SearchGrows(g, store, st, p.left, rid, d);
      if !Available(st1[p.left]) {
        PairsMark(g, store, st1, b, rid, d, j + 1);
      } else {
        var st2 := Search(g, store, st1, p.right, rid, d);
        SearchGrows(g, store, st1, p.right, rid, d);
        if !Available(st2[p.right]) || st2[p.left].data == [] || st2[p.right].data == [] {
          PairsMark(g, store, st2, b, rid, d, j + 1);
        }
      }
    }
  }

  lemma OneLeafReport(g: Graph, t: Task, leaf: nat)
    requires g.Valid() && leaf < g.n && t.depth > 0 && In(g, D(leaf + 1))
    requires var c := Search(g, t.store, FreshState(g), D(leaf + 1), 0, t.depth)[D(leaf + 1)];
             Available(c) && c.repaired && Trim(c.data) in t.uploads
    ensures Below([leaf], g.n) && Report(g, t, [leaf]) == map[leaf := true] && CellAfter(g, t, [leaf], leaf).repaired
  {
    hide Search, Trim, FreshState;
    var se := Session(FreshState(g), 0);
    NoLeaves(g, se, t.depth, t.store, t.uploads);
    OneMoreLeaf(g, se, [leaf], 0, t.depth, t.store, t.uploads);
    assert [leaf][..0] == [] && [leaf][..1] == [leaf];
    hide Results, AfterLeaves;
  }

  /** One job for one leaf and one peer, carried out and reported. */
  function OneJob(f: string, p: string, leaf: nat): seq<Action> {
    [Start(f, Found([leaf]), Found([p]), 1), Work(0, map[leaf := true]), Deliver(0)]
  }

  lemma OneJobRun(f: string, p: string, leaf: nat)
    ensures var empty, actions := System(map[], []), OneJob(f, p, leaf);
            && Enabled(empty, actions[0])
            && var s1 := Step(empty, actions[0]);
               && s1.network == [UnitRequest(f, p, 0, [leaf])] && Enabled(s1, actions[1])
               && var s2 := Step(s1, actions[1]);
                  && Enabled(s2, actions[2])
                  && var s3 := Step(s2, actions[2]);
                     f in s3.jobs && s3.jobs[f].status == SUCCESS && s3.jobs[f].leaves == [leaf]
  {
    var empty, actions := System(map[], []), OneJob(f, p, leaf);
    WholeShare(leaf);
    var s1 := Step(empty, actions[0]);
    assert Allocated([leaf], [p], 1, 1) == Allocate(Allocated([leaf], [p], 1, 0), p, Share([leaf], 1, 0));
    NothingAllocated([leaf], [p], 1);
    AllocateNew(map[], p, [leaf]);
    assert s1.network == [UnitRequest(f, p, 0, [leaf])];
    var s2 := Step(s1, actions[1]);
    assert s2.network == [UnitReport(f, p, 0, map[leaf := true])];
    var s3 := Step(s2, actions[2]);
    assert s3.jobs[f].peers == map[p := s3.jobs[f].peers[p]];
  }

  lemma WholeShare(leaf: nat)
    ensures Share([leaf], 1, 0) == [leaf]
  {
    SharesPartition([leaf], 1);
    assert Shares([leaf], 1, 1)[..0] == [];
    assert Joined([]) == [];
  }

  /**
    Success without restoring: whenever a leaf's chunk starts or ends with a zero byte there is a run, with a
    true peer, in which the job for this leaf is stored as successful although the chunk uploaded for it is
    another one.
   */
  lemma SuccessUnrestored(g: Graph, data: seq<Chunk>, f: string, p: string, leaf: nat) returns (t: Task)
    requires g.Valid() && TwoColumns(g) && |data| == g.n && leaf < g.n && (forall d :: d in data ==> d != [])
    requires !NonZeroEnds(data[leaf])
    ensures var actions := OneJob(f, p, leaf);
            && CanRun(System(map[], []), actions) && TrueWork(g, data, f, System(map[], []), actions)
            && var s := CollabProtocol.Run(System(map[], []), actions);
               f in s.jobs && s.jobs[f].status == SUCCESS && s.jobs[f].leaves == [leaf]
    ensures Below([leaf], g.n) && WorkOf(g, data, t, [leaf], map[leaf := true])
    ensures !Restored(CellAfter(g, t, [leaf], leaf), data[leaf])
  {
    hide Results, AfterLeaves, Honest, Trim, NonZeroEnds, Report, CellAfter, Step, Enabled, Sent;
    t := RebuiltReport(g, data, leaf);
    OneJobRun(f, p, leaf);
    ReportKeys(g, t, [leaf], leaf);
    ReportedGivenBack(g, data, t, [leaf], leaf);
    var empty, actions := System(map[], []), OneJob(f, p, leaf);
    var s1 := Step(empty, actions[0]);
    var s2 := Step(s1, actions[1]);
    assert actions == [actions[0], actions[1], actions[2]];
    assert TrueStep(g, data, f, s1, actions[1]) by {
      assert WorkOf(g, data, t, s1.network[0].failedIndices, actions[1].outcome);
    }
    ThreeSteps(g, data, f, empty, actions[0], actions[1], actions[2]);
  }

  lemma ThreeSteps(g: Graph, data: seq<Chunk>, f: string, s0: System, a: Action, b: Action, c: Action)
    requires g.Valid() && |data| == g.n && Enabled(s0, a) && Enabled(Step(s0, a), b) && Enabled(Step(Step(s0, a), b), c)
    requires TrueStep(g, data, f, s0, a) && TrueStep(g, data, f, Step(s0, a), b) && TrueStep(g, data, f, Step(Step(s0, a), b), c)
    ensures CanRun(s0, [a, b, c]) && TrueWork(g, data, f, s0, [a, b, c])
    ensures CollabProtocol.Run(s0, [a, b, c]) == Step(Step(Step(s0, a), b), c)
  {
    hide Step, Enabled, TrueStep;
    var s1 := Step(s0, a);
    var s2 := Step(s1, b);
    var s3 := Step(s2, c);
    var none: seq<Action> := [];
    assert CanRun(s3, none) && TrueWork(g, data, f, s3, none) && CollabProtocol.Run(s3, none) == s3;
    assert [c][1..] == none && [b, c][1..] == [c] && [a, b, c][1..] == [b, c];
    assert CanRun(s2, [c]) && TrueWork(g, data, f, s2, [c]) && CollabProtocol.Run(s2, [c]) == s3;
    assert CanRun(s1, [b, c]) && TrueWork(g, data, f, s1, [b, c]) && CollabProtocol.Run(s1, [b, c]) == s3;
  }
}
