/**
  The collaborative repair protocol: coordinator, peers and a network that may lose or reorder messages but
  does not duplicate them, as one state machine.
 */
module CollabProtocol {
  import opened CollabRepair
  import opened Sequences

  /** The coordinator's job records and the messages in flight, in no particular order. */
  datatype System = System(jobs: CollabData, network: seq<Message>)

  datatype Action =
    | Start(file: string, leaves: Lookup<seq<nat>>, peers: Lookup<seq<string>>, wanted: int)
    | Work(x: nat, outcome: map<nat, bool>)
    | Deliver(x: nat)
    | Lose(x: nat)

  /** A peer's answer covers exactly the leaves of the request. */
  ghost predicate Answers(outcome: map<nat, bool>, failedIndices: seq<nat>) {
    forall leaf :: leaf in outcome <==> leaf in failedIndices
  }

  ghost predicate Enabled(sys: System, a: Action) {
    match a
    case Start(file, leaves, peers, wanted) =>
      && Divisible(sys.jobs, file, leaves, peers, wanted)
      && (peers.Found? ==> NoRepeat(peers.value))
    case Work(x, outcome) => x < |sys.network| && sys.network[x].UnitRequest? && Answers(outcome, sys.network[x].failedIndices)
    case Deliver(x) => x < |sys.network| && sys.network[x].UnitReport?
    case Lose(x) => x < |sys.network|
  }

  function Without(ms: seq<Message>, x: nat): seq<Message>
    requires x < |ms|
  {
    ms[..x] + ms[x + 1..]
  }

  ghost function Step(sys: System, a: Action): System
    requires Enabled(sys, a)
  {
    match a
    case Start(file, leaves, peers, wanted) =>
      var (jobs, sent) := StartJob(sys.jobs, file, leaves, peers, wanted);
      System(jobs, sys.network + sent)
    case Work(x, outcome) =>
      var m := sys.network[x];
      sys.(network := sys.network[x := UnitReport(m.file, m.peer, m.epoch, outcome)])
    case Deliver(x) =>
      var m := sys.network[x];
      System(ApplyReport(sys.jobs, m.file, m.peer, m.repairStatus), Without(sys.network, x))
    case Lose(x) => sys.(network := Without(sys.network, x))
  }

  // ----- the invariant

  /** Some peer of the job was given the leaf. */
  ghost predicate Covered(job: Job, leaf: nat) {
    exists p :: p in job.peers && leaf in job.peers[p].allocatedBlocks
  }

  /** Some peer of the job has reported the leaf repaired. */
  ghost predicate Repaired(job: Job, leaf: nat) {
    exists p :: p in job.peers && leaf in job.peers[p].allocatedBlocks && job.peers[p].allocatedBlocks[leaf]
  }

  predicate NoneTrue(m: map<nat, bool>) {
    forall leaf :: leaf in m ==> !m[leaf]
  }

  /** A job record in a reachable state. */
  ghost predicate JobOk(job: Job) {
    && (job.status == PENDING <==> !AllDone(job.peers))
    && (if job.peers == map[] then job.status == SUCCESS ==> job.leaves == []
        else forall leaf :: leaf in job.leaves ==> Covered(job, leaf))
    && (job.peers != map[] && AllDone(job.peers) ==> (job.status == SUCCESS <==> AllSucceeded(job.peers)))
    && (forall p :: p in job.peers && job.peers[p].status == SUCCESS ==> AllTrue(job.peers[p].allocatedBlocks))
    && forall p :: p in job.peers && job.peers[p].status == PENDING ==> NoneTrue(job.peers[p].allocatedBlocks)
  }

  /** The leaves a message is about. */
  ghost predicate About(m: Message, leaf: nat) {
    match m
    case UnitRequest(_, _, _, failedIndices) => leaf in failedIndices
    case UnitReport(_, _, _, repairStatus) => leaf in repairStatus
  }

  /** A message in flight belongs to the current job of its file, to a pending peer, and is about that peer's leaves. */
  ghost predicate MessageOk(jobs: CollabData, m: Message) {
    && m.file in jobs && m.peer in jobs[m.file].peers
    && m.epoch == jobs[m.file].epoch
    && jobs[m.file].peers[m.peer].status == PENDING
    && forall leaf :: About(m, leaf) <==> leaf in jobs[m.file].peers[m.peer].allocatedBlocks
  }

  /** At most one message in flight for each file and peer. */
  ghost predicate OneEach(network: seq<Message>) {
    forall i, j :: 0 <= i < j < |network| ==> network[i].file != network[j].file || network[i].peer != network[j].peer
  }

  ghost predicate Inv(sys: System) {
    && (forall f :: f in sys.jobs ==> JobOk(sys.jobs[f]))
    && (forall x :: 0 <= x < |sys.network| ==> MessageOk(sys.jobs, sys.network[x]))
    && OneEach(sys.network)
  }

  // ----- starting a job

  /** After i accepted requests exactly the first i peers are in the record, pending, with their own share. */
  lemma {:induction false} AllocatedPeers(leaves: seq<nat>, peers: seq<string>, n: nat, i: nat)
    requires i <= n <= |leaves| && n <= |peers| && NoRepeat(peers)
    ensures forall p :: p in Allocated(leaves, peers, n, i) <==> p in peers[..i]
    ensures forall j :: 0 <= j < i ==>
              Allocated(leaves, peers, n, i)[peers[j]] == CollabPeerInfo(PENDING, AllFalse(Share(leaves, n, j)))
  {
    hide *;
    if i == 0 {
      NothingAllocated(leaves, peers, n);
    } else {
      AllocatedPeers(leaves, peers, n, i - 1);
      var before := Allocated(leaves, peers, n, i - 1);
      assert peers[..i] == peers[..i - 1] + [peers[i - 1]];
      FirstPeers(peers, i - 1);
      AllocatedNext(leaves, peers, n, i - 1);
      AllocateNew(before, peers[i - 1], Share(leaves, n, i - 1));
    }
  }

  lemma FirstPeers(peers: seq<string>, i: nat)
    requires i < |peers| && NoRepeat(peers)
    ensures peers[i] !in peers[..i]
    ensures forall j :: 0 <= j < i ==> peers[j] in peers[..i] && peers[j] != peers[i]
  {
  }

  lemma AllocateNew(before: map<string, CollabPeerInfo>, peer: string, part: seq<nat>)
    requires peer !in before
    ensures Allocate(before, peer, part) == before[peer := CollabPeerInfo(PENDING, AllFalse(part))]
  {
    assert map[] + AllFalse(part) == AllFalse(part);
  }

  /** No message is in flight for a file that is not busy. */
  lemma IdleFileQuiet(sys: System, file: string)
    requires Inv(sys) && !Busy(sys.jobs, file)
    ensures forall x :: 0 <= x < |sys.network| ==> sys.network[x].file != file
  {
    forall x | 0 <= x < |sys.network|
      ensures sys.network[x].file != file
    {
      assert MessageOk(sys.jobs, sys.network[x]);
    }
  }

  lemma StartKeepsInv(sys: System, file: string, leaves: Lookup<seq<nat>>, peers: Lookup<seq<string>>, wanted: int)
    requires Inv(sys) && Enabled(sys, Start(file, leaves, peers, wanted))
    ensures Inv(Step(sys, Start(file, leaves, peers, wanted)))
  {
    hide *;
    StartIs(sys, file, leaves, peers, wanted);
    if !Busy(sys.jobs, file) {
      IdleFileQuiet(sys, file);
      if Divides(sys.jobs, file, leaves, peers) {
        NewJob(sys, file, leaves.value, peers.value, NumPeers(wanted, |peers.value|, |leaves.value|));
      } else {
        JobWithoutPeers(sys, file, Step(sys, Start(file, leaves, peers, wanted)).jobs[file]);
      }
    }
  }

  /** What a start does, by cases. */
  lemma StartIs(sys: System, file: string, leaves: Lookup<seq<nat>>, peers: Lookup<seq<string>>, wanted: int)
    requires Enabled(sys, Start(file, leaves, peers, wanted))
    ensures var sys' := Step(sys, Start(file, leaves, peers, wanted));
            if Busy(sys.jobs, file) then sys' == sys
            else if Divides(sys.jobs, file, leaves, peers) then
              && leaves.Found? && peers.Found? && wanted >= 1 && NoRepeat(peers.value)
              && var n, epoch := NumPeers(wanted, |peers.value|, |leaves.value|), NextEpoch(sys.jobs, file);
                 && 1 <= n <= |leaves.value| && n <= |peers.value|
                 && sys' == System(sys.jobs[file := Job(PENDING, Allocated(leaves.value, peers.value, n, n), epoch, leaves.value)],
                                   sys.network + Requests(file, epoch, leaves.value, peers.value, n, n))
            else
              && file in sys'.jobs && sys'.jobs[file].peers == map[] && sys'.jobs[file].status != PENDING
              && (sys'.jobs[file].status == SUCCESS ==> sys'.jobs[file].leaves == [])
              && sys' == System(sys.jobs[file := sys'.jobs[file]], sys.network)
  {
    hide Allocated, Requests, NextEpoch;
    assert sys.network + [] == sys.network;
  }

  lemma JobWithoutPeers(sys: System, file: string, job: Job)
    requires Inv(sys) && forall x :: 0 <= x < |sys.network| ==> sys.network[x].file != file
    requires job.peers == map[] && job.status != PENDING && (job.status == SUCCESS ==> job.leaves == [])
    ensures Inv(System(sys.jobs[file := job], sys.network))
  {
    hide MessageOk;
    forall x | 0 <= x < |sys.network|
      ensures MessageOk(sys.jobs[file := job], sys.network[x])
    {
      OtherMessageOk(sys.jobs, file, job, sys.network[x]);
    }
  }

  lemma NewJob(sys: System, file: string, leaves: seq<nat>, peers: seq<string>, n: nat)
    requires Inv(sys) && 1 <= n <= |leaves| && n <= |peers| && NoRepeat(peers)
    requires forall x :: 0 <= x < |sys.network| ==> sys.network[x].file != file
    ensures var epoch := NextEpoch(sys.jobs, file);
            var job := Job(PENDING, Allocated(leaves, peers, n, n), epoch, leaves);
            Inv(System(sys.jobs[file := job], sys.network + Requests(file, epoch, leaves, peers, n, n)))
  {
    hide Allocated, Share, JobOk, MessageOk, NextEpoch;
    var epoch := NextEpoch(sys.jobs, file);
    var job := Job(PENDING, Allocated(leaves, peers, n, n), epoch, leaves);
    NewJobOk(leaves, peers, n, epoch);
    var sent := Requests(file, epoch, leaves, peers, n, n);
    var network := sys.network + sent;
    forall x | 0 <= x < |network|
      ensures MessageOk(sys.jobs[file := job], network[x])
    {
      if x < |sys.network| {
        OtherMessageOk(sys.jobs, file, job, sys.network[x]);
      } else {
        RequestOk(sys.jobs, file, leaves, peers, n, x - |sys.network|);
      }
    }
    assert forall j :: 0 <= j < n ==> sent[j].file == file && sent[j].peer == peers[j];
  }

  lemma OtherMessageOk(jobs: CollabData, file: string, job: Job, m: Message)
    requires MessageOk(jobs, m) && m.file != file
    ensures MessageOk(jobs[file := job], m)
  {
  }

  lemma NewJobOk(leaves: seq<nat>, peers: seq<string>, n: nat, epoch: nat)
    requires 1 <= n <= |leaves| && n <= |peers| && NoRepeat(peers)
    ensures JobOk(Job(PENDING, Allocated(leaves, peers, n, n), epoch, leaves))
  {
    hide Allocated, Share;
    var job := Job(PENDING, Allocated(leaves, peers, n, n), epoch, leaves);
    AllocatedPeers(leaves, peers, n, n);
    assert peers[0] in peers[..n] && peers[0] in job.peers;
    forall p | p in job.peers
      ensures job.peers[p].status == PENDING
    {
      var j :| 0 <= j < n && peers[j] == p;
    }
    forall leaf | leaf in leaves
      ensures Covered(job, leaf)
    {
      var i := LeafShared(leaves, n, leaf);
      assert peers[i] in peers[..n];
    }
  }

  lemma RequestOk(jobs: CollabData, file: string, leaves: seq<nat>, peers: seq<string>, n: nat, j: nat)
    requires 1 <= n <= |leaves| && n <= |peers| && NoRepeat(peers) && j < n
    ensures var epoch := NextEpoch(jobs, file);
            MessageOk(jobs[file := Job(PENDING, Allocated(leaves, peers, n, n), epoch, leaves)],
                      Requests(file, epoch, leaves, peers, n, n)[j])
  {
    hide Allocated, Share;
    AllocatedPeers(leaves, peers, n, n);
    assert peers[j] in peers[..n];
    var part := Share(leaves, n, j);
    var job := Job(PENDING, Allocated(leaves, peers, n, n), NextEpoch(jobs, file), leaves);
    RequestMatches(jobs[file := job], file, peers[j], part);
  }

  lemma RequestMatches(jobs: CollabData, file: string, peer: string, part: seq<nat>)
    requires file in jobs && peer in jobs[file].peers
    requires jobs[file].peers[peer] == CollabPeerInfo(PENDING, AllFalse(part))
    ensures MessageOk(jobs, UnitRequest(file, peer, jobs[file].epoch, part))
  {
    var m := UnitRequest(file, peer, jobs[file].epoch, part);
    assert forall leaf :: About(m, leaf) <==> leaf in AllFalse(part);
  }

  // ----- reports

  /** Applying the report of a pending peer to an intact job leaves an intact job. */
  lemma ReportKeepsJob(data: CollabData, file: string, peer: string, report: map<nat, bool>)
    requires file in data && peer in data[file].peers && JobOk(data[file])
    requires data[file].peers[peer].status == PENDING
    requires forall leaf :: leaf in report <==> leaf in data[file].peers[peer].allocatedBlocks
    ensures file in ApplyReport(data, file, peer, report) && JobOk(ApplyReport(data, file, peer, report)[file])
  {
    var job, job' := data[file], ApplyReport(data, file, peer, report)[file];
    assert peer in job'.peers;
    forall leaf | Covered(job, leaf)
      ensures Covered(job', leaf)
    {
      var p :| p in job.peers && leaf in job.peers[p].allocatedBlocks;
      assert p in job'.peers && leaf in job'.peers[p].allocatedBlocks;
    }
  }

  lemma DeliverKeepsInv(sys: System, x: nat)
    requires Inv(sys) && Enabled(sys, Deliver(x))
    ensures Inv(Step(sys, Deliver(x)))
  {
    hide *;
    DeliverIs(sys, x);
    var m := sys.network[x];
    InvMessage(sys, x);
    InvJob(sys, m.file);
    PendingMessage(sys, x);
    ReportKeepsJob(sys.jobs, m.file, m.peer, m.repairStatus);
    var jobs, network := ApplyReport(sys.jobs, m.file, m.peer, m.repairStatus), Without(sys.network, x);
    forall y | 0 <= y < |network|
      ensures MessageOk(jobs, network[y])
    {
      WithoutAt(sys.network, x, y);
      var z := if y < x then y else y + 1;
      InvMessage(sys, z);
      InvOneEach(sys, x, z);
      ReportOtherMessage(sys.jobs, m.file, m.peer, m.repairStatus, network[y]);
    }
    forall f | f in jobs
      ensures JobOk(jobs[f])
    {
      if f != m.file {
        ReportOtherJob(sys.jobs, m.file, m.peer, m.repairStatus, f);
        InvJob(sys, f);
      }
    }
    WithoutOneEach(sys, x);
    InvParts(System(jobs, network));
  }

  lemma DeliverIs(sys: System, x: nat)
    requires Enabled(sys, Deliver(x))
    ensures x < |sys.network| && sys.network[x].UnitReport?
    ensures var m := sys.network[x];
            Step(sys, Deliver(x)) == System(ApplyReport(sys.jobs, m.file, m.peer, m.repairStatus), Without(sys.network, x))
  {
    hide ApplyReport;
  }

  lemma PendingMessage(sys: System, x: nat)
    requires Inv(sys) && x < |sys.network| && sys.network[x].UnitReport?
    ensures var m := sys.network[x];
            && m.file in sys.jobs && m.peer in sys.jobs[m.file].peers && sys.jobs[m.file].peers[m.peer].status == PENDING
            && forall leaf :: leaf in m.repairStatus <==> leaf in sys.jobs[m.file].peers[m.peer].allocatedBlocks
  {
    var m := sys.network[x];
    assert MessageOk(sys.jobs, m);
    assert forall leaf :: About(m, leaf) <==> leaf in m.repairStatus;
    hide JobOk;
  }

  lemma InvJob(sys: System, f: string)
    requires Inv(sys)
    ensures f in sys.jobs ==> JobOk(sys.jobs[f])
  {
  }

  lemma InvOneEach(sys: System, x: nat, z: nat)
    requires Inv(sys) && x < |sys.network| && z < |sys.network| && x != z
    ensures sys.network[x].file != sys.network[z].file || sys.network[x].peer != sys.network[z].peer
  {
  }

  lemma InvParts(sys: System)
    requires forall f :: f in sys.jobs ==> JobOk(sys.jobs[f])
    requires forall x :: 0 <= x < |sys.network| ==> MessageOk(sys.jobs, sys.network[x])
    requires OneEach(sys.network)
    ensures Inv(sys)
  {
    hide JobOk, MessageOk, OneEach;
  }

  lemma WithoutAt(network: seq<Message>, x: nat, y: nat)
    requires x < |network| && y < |Without(network, x)|
    ensures |Without(network, x)| == |network| - 1 && Without(network, x)[y] == network[if y < x then y else y + 1]
  {
  }

  lemma WithoutOneEach(sys: System, x: nat)
    requires Inv(sys) && x < |sys.network|
    ensures OneEach(Without(sys.network, x))
  {
    hide MessageOk, JobOk;
  }

  /** A report leaves the messages of other peers intact. */
  lemma ReportOtherMessage(data: CollabData, file: string, peer: string, report: map<nat, bool>, m: Message)
    requires MessageOk(data, m) && (m.file != file || m.peer != peer)
    ensures MessageOk(ApplyReport(data, file, peer, report), m)
  {
    hide AllTrue, AllDone, AllSucceeded, Marked, About;
  }

  lemma ReportOtherJob(data: CollabData, file: string, peer: string, report: map<nat, bool>, f: string)
    requires f != file && f in ApplyReport(data, file, peer, report)
    ensures f in data && ApplyReport(data, file, peer, report)[f] == data[f]
  {
    hide AllTrue, AllDone, AllSucceeded, Marked;
  }

  /**
    What a delivered report leaves in the record, whatever the verdict: the peer's marks are the report itself,
    leaf by leaf, and the peer is decided by it; all other peers and jobs are as they were.
   */
  lemma DeliverMarks(sys: System, x: nat)
    requires Inv(sys) && Enabled(sys, Deliver(x))
    ensures x < |sys.network| && sys.network[x].UnitReport?
    ensures var (m, jobs, jobs') := (sys.network[x], sys.jobs, Step(sys, Deliver(x)).jobs);
            && m.file in jobs && m.file in jobs' && jobs'.Keys == jobs.Keys
            && m.peer in jobs[m.file].peers && jobs'[m.file].peers.Keys == jobs[m.file].peers.Keys
            && (forall leaf :: leaf in jobs[m.file].peers[m.peer].allocatedBlocks <==> leaf in m.repairStatus)
            && jobs'[m.file].peers[m.peer].allocatedBlocks == m.repairStatus
            && jobs'[m.file].peers[m.peer].status == (if AllTrue(m.repairStatus) then SUCCESS else FAILURE)
            && jobs'[m.file].epoch == jobs[m.file].epoch && jobs'[m.file].leaves == jobs[m.file].leaves
            && (forall p :: p in jobs[m.file].peers && p != m.peer ==> jobs'[m.file].peers[p] == jobs[m.file].peers[p])
            && forall f :: f in jobs && f != m.file ==> jobs'[f] == jobs[f]
  {
    hide Inv, JobOk, AllTrue, AllDone, AllSucceeded, Without, Marked;
    var m := sys.network[x];
    PendingMessage(sys, x);
    InvJob(sys, m.file);
    PendingMarks(sys.jobs[m.file], m.peer);
    MarkedIsReport(sys.jobs[m.file].peers[m.peer].allocatedBlocks, m.repairStatus);
  }

  lemma PendingMarks(job: Job, p: string)
    requires JobOk(job) && p in job.peers && job.peers[p].status == PENDING
    ensures NoneTrue(job.peers[p].allocatedBlocks)
  {
  }

  lemma MarkedIsReport(marks: map<nat, bool>, report: map<nat, bool>)
    requires NoneTrue(marks) && forall leaf :: leaf in report <==> leaf in marks
    ensures Marked(marks, report) == report
  {
  }

  /** Every step of the protocol keeps the invariant. */
  lemma StepKeepsInv(sys: System, a: Action)
    requires Inv(sys) && Enabled(sys, a)
    ensures Inv(Step(sys, a))
  {
    match a
    case Start(file, leaves, peers, wanted) => StartKeepsInv(sys, file, leaves, peers, wanted);
    case Work(x, outcome) =>
      assert MessageOk(sys.jobs, sys.network[x]);
      var m := sys.network[x];
      assert forall leaf :: About(UnitReport(m.file, m.peer, m.epoch, outcome), leaf) <==> About(m, leaf);
    case Deliver(x) => DeliverKeepsInv(sys, x);
    case Lose(x) =>
  }

  // ----- whole runs

  lemma JobVerdict(job: Job)
    requires JobOk(job)
    ensures job.status == PENDING <==> exists p :: p in job.peers && job.peers[p].status == PENDING
    ensures job.status == SUCCESS ==> forall p :: p in job.peers ==> AllTrue(job.peers[p].allocatedBlocks)
    ensures job.status == SUCCESS ==> forall leaf :: leaf in job.leaves ==> Repaired(job, leaf)
  {
    if job.status == SUCCESS {
      forall leaf | leaf in job.leaves
        ensures Repaired(job, leaf)
      {
        assert Covered(job, leaf);
      }
    }
  }

  ghost predicate CanRun(sys: System, actions: seq<Action>)
    decreases |actions|
  {
    actions == [] || (Enabled(sys, actions[0]) && CanRun(Step(sys, actions[0]), actions[1..]))
  }

  ghost function Run(sys: System, actions: seq<Action>): System
    requires CanRun(sys, actions)
    decreases |actions|
  {
    if actions == [] then sys else Run(Step(sys, actions[0]), actions[1..])
  }

  /**
    Safety over whole runs, from any intact state such as the empty one: a job is pending exactly while one
    of its peers is; every message in flight is the only one of its file and peer, belongs to the current
    job, and its peer is pending; and in a job stored as successful every leaf it was started for has been
    reported repaired, and so has every leaf allocated to any peer.
   */
  lemma {:induction false} RunSafe(sys: System, actions: seq<Action>)
    requires Inv(sys) && CanRun(sys, actions)
    ensures Inv(Run(sys, actions))
    ensures forall f :: f in Run(sys, actions).jobs ==>
              var job := Run(sys, actions).jobs[f];
              && (job.status == PENDING <==> exists p :: p in job.peers && job.peers[p].status == PENDING)
              && (job.status == SUCCESS ==> forall p :: p in job.peers ==> AllTrue(job.peers[p].allocatedBlocks))
              && (job.status == SUCCESS ==> forall leaf :: leaf in job.leaves ==> Repaired(job, leaf))
    decreases |actions|
  {
    hide Step;
    if actions == [] {
      forall f | f in sys.jobs
        ensures var job := sys.jobs[f];
                && (job.status == PENDING <==> exists p :: p in job.peers && job.peers[p].status == PENDING)
                && (job.status == SUCCESS ==> forall p :: p in job.peers ==> AllTrue(job.peers[p].allocatedBlocks))
                && (job.status == SUCCESS ==> forall leaf :: leaf in job.leaves ==> Repaired(job, leaf))
      {
        JobVerdict(sys.jobs[f]);
      }
    } else {
      StepKeepsInv(sys, actions[0]);
      RunSafe(Step(sys, actions[0]), actions[1..]);
    }
  }

  lemma EmptySystemOk()
    ensures Inv(System(map[], []))
  {
  }

  /** No report is ever applied to a job other than the one whose request it answers. */
  lemma NoStaleReport(sys: System, actions: seq<Action>, x: nat)
    requires Inv(sys) && CanRun(sys, actions) && Enabled(Run(sys, actions), Deliver(x))
    ensures var s, m := Run(sys, actions), Run(sys, actions).network[x];
            && m.file in s.jobs && m.epoch == s.jobs[m.file].epoch
            && m.peer in s.jobs[m.file].peers && s.jobs[m.file].peers[m.peer].status == PENDING
            && s.jobs[m.file].peers[m.peer].allocatedBlocks.Keys == m.repairStatus.Keys
  {
    RunSafe(sys, actions);
    hide Run, Inv;
    var s := Run(sys, actions);
    assert MessageOk(s.jobs, s.network[x]) by {
      InvMessage(s, x);
    }
    var m := s.network[x];
    assert forall leaf :: leaf in m.repairStatus <==> About(m, leaf);
  }

  lemma InvMessage(sys: System, x: nat)
    requires Inv(sys) && x < |sys.network|
    ensures MessageOk(sys.jobs, sys.network[x])
  {
  }

  // ----- a job can be decided exactly while no message it needs is lost

  /** Every pending peer of the file's job still has its message in flight. */
  ghost predicate Live(sys: System, file: string) {
    file in sys.jobs ==>
      forall p :: p in sys.jobs[file].peers && sys.jobs[file].peers[p].status == PENDING ==> Awaited(sys.network, file, p)
  }

  ghost predicate Awaited(network: seq<Message>, file: string, peer: string) {
    exists x :: 0 <= x < |network| && network[x].file == file && network[x].peer == peer
  }

  lemma StepKeepsLive(sys: System, a: Action, f: string)
    requires Inv(sys) && Live(sys, f) && Enabled(sys, a) && !a.Lose?
    ensures Live(Step(sys, a), f)
  {
    hide Inv, Awaited;
    match a
    case Start(file, leaves, peers, wanted) => StartKeepsLive(sys, file, leaves, peers, wanted, f);
    case Work(x, outcome) =>
      forall p | Awaited(sys.network, f, p)
        ensures Awaited(Step(sys, a).network, f, p)
      {
        WorkAwaited(sys, x, outcome, f, p);
      }
    case Deliver(x) => DeliverKeepsLive(sys, x, f);
  }

  /** A peer's work changes no addresses. */
  lemma WorkAwaited(sys: System, x: nat, outcome: map<nat, bool>, f: string, p: string)
    requires Enabled(sys, Work(x, outcome))
    ensures Awaited(Step(sys, Work(x, outcome)).network, f, p) <==> Awaited(sys.network, f, p)
  {
    var before, after := sys.network, Step(sys, Work(x, outcome)).network;
    assert |after| == |before| && forall y :: 0 <= y < |before| ==> after[y].file == before[y].file && after[y].peer == before[y].peer;
    if Awaited(before, f, p) {
      var y :| 0 <= y < |before| && before[y].file == f && before[y].peer == p;
      assert after[y].file == f && after[y].peer == p;
    }
  }

  lemma StartKeepsLive(sys: System, file: string, leaves: Lookup<seq<nat>>, peers: Lookup<seq<string>>, wanted: int, f: string)
    requires Live(sys, f) && Enabled(sys, Start(file, leaves, peers, wanted))
    ensures Live(Step(sys, Start(file, leaves, peers, wanted)), f)
  {
    var sys' := Step(sys, Start(file, leaves, peers, wanted));
    hide Step, Awaited;
    if f in sys'.jobs {
      forall p | p in sys'.jobs[f].peers && sys'.jobs[f].peers[p].status == PENDING
        ensures Awaited(sys'.network, f, p)
      {
        if f == file && !Busy(sys.jobs, file) {
          StartAwaited(sys, file, leaves, peers, wanted, p);
        } else {
          AwaitedMore(sys.network, StartJob(sys.jobs, file, leaves, peers, wanted).1, f, p);
        }
      }
    }
  }

  /** Taking one message away leaves all other file and peer pairs awaited that were. */
  lemma AwaitedWithout(network: seq<Message>, x: nat, f: string, p: string)
    requires x < |network| && Awaited(network, f, p) && (network[x].file != f || network[x].peer != p)
    ensures Awaited(Without(network, x), f, p)
  {
    var y :| 0 <= y < |network| && network[y].file == f && network[y].peer == p;
    var z := if y < x then y else y - 1;
    assert Without(network, x)[z] == network[y];
  }

  lemma DeliverKeepsLive(sys: System, x: nat, f: string)
    requires Inv(sys) && Live(sys, f) && Enabled(sys, Deliver(x))
    ensures Live(Step(sys, Deliver(x)), f)
  {
    hide Inv, AllTrue, AllDone, AllSucceeded, Marked, Awaited, Without;
    var sys', m := Step(sys, Deliver(x)), sys.network[x];
    InvMessage(sys, x);
    if f in sys'.jobs {
      forall p | p in sys'.jobs[f].peers && sys'.jobs[f].peers[p].status == PENDING
        ensures Awaited(sys'.network, f, p)
      {
        AwaitedWithout(sys.network, x, f, p);
      }
    }
  }

  lemma AwaitedMore(network: seq<Message>, more: seq<Message>, f: string, p: string)
    requires Awaited(network, f, p)
    ensures Awaited(network + more, f, p)
  {
    var x :| 0 <= x < |network| && network[x].file == f && network[x].peer == p;
    assert (network + more)[x] == network[x];
  }

  lemma StartAwaited(sys: System, file: string, leaves: Lookup<seq<nat>>, peers: Lookup<seq<string>>, wanted: int, p: string)
    requires !Busy(sys.jobs, file) && Enabled(sys, Start(file, leaves, peers, wanted))
    requires var (jobs, sent) := StartJob(sys.jobs, file, leaves, peers, wanted);
             file in jobs && p in jobs[file].peers
    ensures Awaited(sys.network + StartJob(sys.jobs, file, leaves, peers, wanted).1, file, p)
  {
    var n := NumPeers(wanted, |peers.value|, |leaves.value|);
    AllocatedPeers(leaves.value, peers.value, n, n);
    var sent := StartJob(sys.jobs, file, leaves, peers, wanted).1;
    var j :| 0 <= j < n && peers.value[j] == p;
    assert (sys.network + sent)[|sys.network| + j] == sent[j];
  }

  ghost predicate Lossless(actions: seq<Action>) {
    forall a :: a in actions ==> !a.Lose?
  }

  /** The file's job is decided, by the verdicts of its peers if any were asked. */
  ghost predicate Decided(jobs: CollabData, file: string) {
    && file in jobs && jobs[file].status != PENDING
    && (jobs[file].peers != map[] ==> (jobs[file].status == SUCCESS <==> AllSucceeded(jobs[file].peers)))
  }

  /** In an intact state a job is decided, by its peers' verdicts, exactly when no peer is pending. */
  lemma DecidedIff(sys: System, f: string)
    requires Inv(sys) && f in sys.jobs
    ensures Decided(sys.jobs, f) <==> sys.jobs[f].status != PENDING
    ensures Decided(sys.jobs, f) <==> AllDone(sys.jobs[f].peers)
  {
    assert JobOk(sys.jobs[f]);
  }

  lemma NothingAwaited(f: string)
    ensures forall p :: !Awaited([], f, p)
  {
  }

  /**
    If no message is lost, then whenever the network has drained every job is decided: SUCCESS if and only
    if every peer asked reported every one of its leaves repaired.
   */
  lemma {:induction false} DrainedDecided(sys: System, actions: seq<Action>, f: string)
    requires Inv(sys) && Live(sys, f) && CanRun(sys, actions) && Lossless(actions)
    requires Run(sys, actions).network == []
    ensures f in Run(sys, actions).jobs ==> Decided(Run(sys, actions).jobs, f)
    decreases |actions|
  {
    hide Step, Inv, Decided, Awaited;
    if actions == [] {
      if f in sys.jobs {
        DecidedIff(sys, f);
        NothingAwaited(f);
      }
    } else {
      StepKeepsInv(sys, actions[0]);
      assert actions[0] in actions;
      StepKeepsLive(sys, actions[0], f);
      DrainedDecided(Step(sys, actions[0]), actions[1..], f);
    }
  }

  /** The peer is pending in the file's current job, and no message for it or from it is in flight. */
  ghost predicate Stuck(sys: System, file: string, peer: string, epoch: nat) {
    && Busy(sys.jobs, file) && sys.jobs[file].epoch == epoch
    && peer in sys.jobs[file].peers && sys.jobs[file].peers[peer].status == PENDING
    && !Awaited(sys.network, file, peer)
  }

  /** Losing a message, request or report, leaves its peer stuck. */
  lemma LossSticks(sys: System, x: nat)
    requires Inv(sys) && Enabled(sys, Lose(x))
    ensures var m := sys.network[x];
            Stuck(Step(sys, Lose(x)), m.file, m.peer, m.epoch)
  {
    hide JobOk;
    var m := sys.network[x];
    assert MessageOk(sys.jobs, m);
    assert JobOk(sys.jobs[m.file]);
    PendingPeer(sys.jobs[m.file], m.peer);
    var network := Without(sys.network, x);
    forall y | 0 <= y < |network|
      ensures network[y].file != m.file || network[y].peer != m.peer
    {
      var z := if y < x then y else y + 1;
      assert network[y] == sys.network[z];
    }
  }

  lemma PendingPeer(job: Job, p: string)
    requires JobOk(job) && p in job.peers && job.peers[p].status == PENDING
    ensures job.status == PENDING
  {
  }

  lemma StepKeepsStuck(sys: System, a: Action, f: string, p: string, epoch: nat)
    requires Inv(sys) && Stuck(sys, f, p, epoch) && Enabled(sys, a)
    ensures Stuck(Step(sys, a), f, p, epoch)
    ensures a.Start? && a.file == f ==> Step(sys, a) == sys
  {
    hide Inv, Awaited;
    match a
    case Start(file, leaves, peers, wanted) =>
      var sent := StartJob(sys.jobs, file, leaves, peers, wanted).1;
      assert forall y :: 0 <= y < |sent| ==> sent[y].file == file;
      if file == f {
        assert sys.network + [] == sys.network;
      } else {
        StillUnawaited(sys.network, sent, f, p);
      }
    case Work(x, outcome) => WorkAwaited(sys, x, outcome, f, p);
    case Deliver(x) =>
      WithoutUnawaited(sys.network, x, f, p);
      DeliverKeepsPending(sys, x, f, p);
    case Lose(x) => WithoutUnawaited(sys.network, x, f, p);
  }

  lemma StillUnawaited(network: seq<Message>, more: seq<Message>, f: string, p: string)
    requires !Awaited(network, f, p) && forall y :: 0 <= y < |more| ==> more[y].file != f
    ensures !Awaited(network + more, f, p)
  {
  }

  /** With no message for the peer in flight, the message taken away is another's. */
  lemma WithoutUnawaited(network: seq<Message>, x: nat, f: string, p: string)
    requires x < |network| && !Awaited(network, f, p)
    ensures network[x].file != f || network[x].peer != p
    ensures !Awaited(Without(network, x), f, p)
  {
    forall y | 0 <= y < |network| - 1
      ensures Without(network, x)[y].file != f || Without(network, x)[y].peer != p
    {
      assert Without(network, x)[y] == network[if y < x then y else y + 1];
    }
  }

  /** A report of another peer leaves a pending peer, and its job, pending. */
  lemma DeliverKeepsPending(sys: System, x: nat, f: string, p: string)
    requires Enabled(sys, Deliver(x)) && (sys.network[x].file != f || sys.network[x].peer != p)
    requires Busy(sys.jobs, f) && p in sys.jobs[f].peers && sys.jobs[f].peers[p].status == PENDING
    ensures var jobs := Step(sys, Deliver(x)).jobs;
            Busy(jobs, f) && jobs[f].epoch == sys.jobs[f].epoch && p in jobs[f].peers && jobs[f].peers[p].status == PENDING
  {
    hide AllTrue, AllSucceeded, Marked;
  }

  /**
    A loss is final: after it, in every continuation, the job stays pending, waits for the same peer, and
    starting a repair of the file changes nothing.
   */
  lemma {:induction false} StuckForever(sys: System, actions: seq<Action>, f: string, p: string, epoch: nat)
    requires Inv(sys) && Stuck(sys, f, p, epoch) && CanRun(sys, actions)
    ensures Stuck(Run(sys, actions), f, p, epoch)
    ensures forall a :: Enabled(Run(sys, actions), a) && a.Start? && a.file == f ==> Step(Run(sys, actions), a) == Run(sys, actions)
    decreases |actions|
  {
    hide Step, Inv, Stuck, Enabled;
    if actions == [] {
      forall a | Enabled(sys, a) && a.Start? && a.file == f
        ensures Step(sys, a) == sys
      {
        StepKeepsStuck(sys, a, f, p, epoch);
      }
    } else {
      StepKeepsInv(sys, actions[0]);
      StepKeepsStuck(sys, actions[0], f, p, epoch);
      StuckForever(Step(sys, actions[0]), actions[1..], f, p, epoch);
    }
  }

  /** From every intact state the peers can answer and all answers can arrive. */
  lemma {:induction false} CanDrain(sys: System) returns (actions: seq<Action>)
    requires Inv(sys)
    ensures CanRun(sys, actions) && Lossless(actions) && Run(sys, actions).network == []
    decreases |sys.network|
  {
    if sys.network == [] {
      actions := [];
    } else if sys.network[0].UnitReport? {
      actions := DeliverFirst(sys);
    } else {
      var work := Work(0, AllFalse(sys.network[0].failedIndices));
      assert Enabled(sys, work);
      StepKeepsInv(sys, work);
      var rest := DeliverFirst(Step(sys, work));
      actions := [work] + rest;
      RunMore(sys, work, rest);
    }
  }

  lemma DeliverFirst(sys: System) returns (actions: seq<Action>)
    requires Inv(sys) && sys.network != [] && sys.network[0].UnitReport?
    ensures CanRun(sys, actions) && Lossless(actions) && Run(sys, actions).network == []
    decreases |sys.network|, 0
  {
    hide Inv;
    StepKeepsInv(sys, Deliver(0));
    var rest := CanDrain(Step(sys, Deliver(0)));
    actions := [Deliver(0)] + rest;
    RunMore(sys, Deliver(0), rest);
  }

  lemma RunMore(sys: System, a: Action, rest: seq<Action>)
    requires Enabled(sys, a) && CanRun(Step(sys, a), rest)
    ensures CanRun(sys, [a] + rest) && Run(sys, [a] + rest) == Run(Step(sys, a), rest)
  {
    hide Enabled, Step;
    assert ([a] + rest)[1..] == rest;
  }

  lemma {:induction false} RunKeepsInv(sys: System, actions: seq<Action>, f: string)
    requires Inv(sys) && CanRun(sys, actions)
    ensures Inv(Run(sys, actions)) && (f in sys.jobs ==> f in Run(sys, actions).jobs)
    decreases |actions|
  {
    hide Inv;
    if actions != [] {
      StepKeepsInv(sys, actions[0]);
      RunKeepsInv(Step(sys, actions[0]), actions[1..], f);
    }
  }

  ghost predicate Decides(sys: System, actions: seq<Action>, file: string) {
    CanRun(sys, actions) && Decided(Run(sys, actions).jobs, file)
  }

  /** A job can still be decided if and only if no message of a peer it waits for has been lost. */
  lemma DecidableIff(sys: System, f: string)
    requires Inv(sys) && f in sys.jobs
    ensures Live(sys, f) <==> exists actions :: Decides(sys, actions, f)
  {
    hide Run, CanRun, Step, Inv, Awaited;
    if Live(sys, f) {
      var actions := CanDrain(sys);
      RunKeepsInv(sys, actions, f);
      DrainedDecided(sys, actions, f);
      assert Decides(sys, actions, f);
    } else {
      var p :| p in sys.jobs[f].peers && sys.jobs[f].peers[p].status == PENDING && !Awaited(sys.network, f, p);
      DecidedIff(sys, f);
      forall actions | CanRun(sys, actions)
        ensures !Decides(sys, actions, f)
      {
        StuckForever(sys, actions, f, p, sys.jobs[f].epoch);
      }
    }
  }

  /** In every run of the system from its empty state, a job is pending, or decided by its peers, under exactly these conditions. */
  lemma RunFromEmpty(actions: seq<Action>, f: string)
    requires CanRun(System(map[], []), actions)
    ensures var s := Run(System(map[], []), actions);
            && Inv(s)
            && (f in s.jobs ==> (Live(s, f) <==> exists more :: Decides(s, more, f)))
            && (f in s.jobs ==> (Decided(s.jobs, f) <==> AllDone(s.jobs[f].peers)))
  {
    hide Run, CanRun, Inv, Live, Decides, Decided;
    EmptySystemOk();
    RunSafe(System(map[], []), actions);
    var s := Run(System(map[], []), actions);
    if f in s.jobs {
      DecidableIff(s, f);
      DecidedIff(s, f);
    }
  }
}
