/**
  Collaborative repair of one file's failed leaves.

  The coordinator splits the failed leaves over peers, keeps a job record per file, and folds the peers'
  asynchronous reports into a verdict.  The first part is the coordinator's code; the second part is the
  protocol: coordinator, peers and a network that may lose messages, as one state machine.
 */
module CollabRepair {
  import opened Reslicing
  import opened Sequences

  datatype RepairStatus = PENDING | SUCCESS | FAILURE

  /** What the coordinator knows of one peer: marks leaves are false until reported repaired. */
  datatype CollabPeerInfo = CollabPeerInfo(status: RepairStatus, allocatedBlocks: map<nat, bool>)

  /**
    A job record.  The last two fields are part of the model only: the epoch counts the jobs started for
    the file, and leaves are the failed leaves the job was started for.
   */
  datatype Job = Job(status: RepairStatus, peers: map<string, CollabPeerInfo>, epoch: nat, leaves: seq<nat>)

  type CollabData = map<string, Job>

  datatype Message =
    | UnitRequest(file: string, peer: string, epoch: nat, failedIndices: seq<nat>)
    | UnitReport(file: string, peer: string, epoch: nat, repairStatus: map<nat, bool>)

  // ----- partition of the leaves

  /** The leaves of peer i out of n: equal shares, the last peer takes the rest as well. */
  function Share(leaves: seq<nat>, n: nat, i: nat): (part: seq<nat>)
    requires i < n <= |leaves|
  {
    ShareBounds(|leaves|, n, i);
    var perPeer := Div(|leaves|, n);
    if i == n - 1 then leaves[Start(i, perPeer)..] else leaves[Start(i, perPeer)..Start(i + 1, perPeer)]
  }

  lemma ShareBounds(length: nat, n: nat, i: nat)
    requires i < n <= length
    ensures Div(length, n) >= 1 && Start(i, Div(length, n)) < length
    ensures Start(i, Div(length, n)) < Start(i + 1, Div(length, n)) <= length
  {
    var q := Div(length, n);
    DivBounds(length, n);
    assert q * n + Mod(length, n) == length;
    assert q == 0 ==> q * n == 0;
    assert Start(n, q) == n * q == q * n;
    hide Start, Div, Mod;
    StartStep(i, q);
    StartMonotone(i + 1, n, q);
  }

  function Joined(parts: seq<seq<nat>>): seq<nat> {
    if parts == [] then [] else Joined(parts[..|parts| - 1]) + parts[|parts| - 1]
  }

  /** The first i shares, in order. */
  function Shares(leaves: seq<nat>, n: nat, i: nat): (parts: seq<seq<nat>>)
    requires i <= n <= |leaves|
    ensures |parts| == i && forall j :: 0 <= j < i ==> parts[j] == Share(leaves, n, j)
  {
    seq(i, j requires 0 <= j < i => Share(leaves, n, j))
  }

  lemma {:induction false} SharesPrefix(leaves: seq<nat>, n: nat, i: nat)
    requires i < n <= |leaves|
    ensures Start(i, Div(|leaves|, n)) <= |leaves|
    ensures Joined(Shares(leaves, n, i)) == leaves[..Start(i, Div(|leaves|, n))]
  {
    hide *;
    ShareBounds(|leaves|, n, i);
    if i > 0 {
      SharesPrefix(leaves, n, i - 1);
      ShareBounds(|leaves|, n, i - 1);
      SharesNext(leaves, n, i - 1);
      ShareIs(leaves, n, i - 1);
      var a, b := Start(i - 1, Div(|leaves|, n)), Start(i, Div(|leaves|, n));
      assert leaves[..a] + leaves[a..b] == leaves[..b];
    } else {
      NoShares(leaves, n);
    }
  }

  lemma NoShares(leaves: seq<nat>, n: nat)
    requires 1 <= n <= |leaves|
    ensures Start(0, Div(|leaves|, n)) == 0 && Joined(Shares(leaves, n, 0)) == []
  {
    hide Div;
  }

  lemma SharesNext(leaves: seq<nat>, n: nat, i: nat)
    requires i < n <= |leaves|
    ensures Joined(Shares(leaves, n, i + 1)) == Joined(Shares(leaves, n, i)) + Share(leaves, n, i)
  {
    hide Share;
    assert Shares(leaves, n, i + 1)[..i] == Shares(leaves, n, i);
  }

  lemma ShareIs(leaves: seq<nat>, n: nat, i: nat)
    requires i < n <= |leaves|
    ensures var q := Div(|leaves|, n);
            && Start(i, q) < Start(i + 1, q) <= |leaves|
            && Share(leaves, n, i) == if i == n - 1 then leaves[Start(i, q)..] else leaves[Start(i, q)..Start(i + 1, q)]
  {
    ShareBounds(|leaves|, n, i);
    hide Start, Div;
  }

  /**
    The shares partition the failed leaves: glued in order they are the list itself, none is empty, and all
    but the last have exactly |leaves| / n leaves.
   */
  lemma SharesPartition(leaves: seq<nat>, n: nat)
    requires 1 <= n <= |leaves|
    ensures Joined(Shares(leaves, n, n)) == leaves
    ensures forall i :: 0 <= i < n ==> Share(leaves, n, i) != []
    ensures forall i :: 0 <= i < n - 1 ==> |Share(leaves, n, i)| == Div(|leaves|, n)
  {
    hide *;
    SharesPrefix(leaves, n, n - 1);
    SharesNext(leaves, n, n - 1);
    ShareIs(leaves, n, n - 1);
    ShareBounds(|leaves|, n, n - 1);
    var rest := Start(n - 1, Div(|leaves|, n));
    assert leaves[..rest] + leaves[rest..] == leaves;
    forall i | 0 <= i < n
      ensures Share(leaves, n, i) != []
      ensures i < n - 1 ==> |Share(leaves, n, i)| == Div(|leaves|, n)
    {
      ShareIs(leaves, n, i);
      ShareBounds(|leaves|, n, i);
      StartStep(i, Div(|leaves|, n));
    }
  }

  /** Every failed leaf is in some share. */
  lemma LeafShared(leaves: seq<nat>, n: nat, leaf: nat) returns (i: nat)
    requires 1 <= n <= |leaves| && leaf in leaves
    ensures i < n && leaf in Share(leaves, n, i)
  {
    hide Share;
    SharesPartition(leaves, n);
    i := JoinedMember(Shares(leaves, n, n), leaf);
  }

  lemma {:induction false} JoinedMember(parts: seq<seq<nat>>, leaf: nat) returns (i: nat)
    requires leaf in Joined(parts)
    ensures i < |parts| && leaf in parts[i]
  {
    var l := |parts| - 1;
    if leaf in parts[l] {
      i := l;
    } else {
      i := JoinedMember(parts[..l], leaf);
    }
  }

  /** Where a leaf of share i sits in the list. */
  lemma ShareRange(leaves: seq<nat>, n: nat, i: nat, leaf: nat) returns (x: nat)
    requires i < n <= |leaves| && leaf in Share(leaves, n, i)
    ensures x < |leaves| && leaves[x] == leaf && Start(i, Div(|leaves|, n)) <= x
    ensures i < n - 1 ==> x < Start(i + 1, Div(|leaves|, n))
  {
    ShareBounds(|leaves|, n, i);
    var part := Share(leaves, n, i);
    var y :| 0 <= y < |part| && part[y] == leaf;
    x := Start(i, Div(|leaves|, n)) + y;
  }

  /** Distinct leaves never go to two peers. */
  lemma SharesDisjoint(leaves: seq<nat>, n: nat, i: nat, j: nat, leaf: nat)
    requires i < n <= |leaves| && j < n && NoRepeat(leaves)
    requires leaf in Share(leaves, n, i) && leaf in Share(leaves, n, j)
    ensures i == j
  {
    hide Share, Start, Div;
    var x := ShareRange(leaves, n, i, leaf);
    var y := ShareRange(leaves, n, j, leaf);
    StartMonotone(i + 1, j, Div(|leaves|, n));
    StartMonotone(j + 1, i, Div(|leaves|, n));
    assert x == y;
  }

  // ----- the coordinator

  function AllFalse(leaves: seq<nat>): map<nat, bool> {
    map leaf | leaf in leaves :: false
  }

  /** A peer that accepted a request gets the leaves of the request; a peer met before keeps what it has. */
  function Allocate(peers: map<string, CollabPeerInfo>, peer: string, part: seq<nat>): map<string, CollabPeerInfo> {
    var before := if peer in peers then peers[peer] else CollabPeerInfo(PENDING, map[]);
    peers[peer := before.(allocatedBlocks := before.allocatedBlocks + AllFalse(part))]
  }

  /** The peers of a job after the first i requests were accepted. */
  function Allocated(leaves: seq<nat>, peers: seq<string>, n: nat, i: nat): map<string, CollabPeerInfo>
    requires i <= n <= |leaves| && n <= |peers|
  {
    if i == 0 then map[] else Allocate(Allocated(leaves, peers, n, i - 1), peers[i - 1], Share(leaves, n, i - 1))
  }

  lemma NothingAllocated(leaves: seq<nat>, peers: seq<string>, n: nat)
    requires n <= |leaves| && n <= |peers|
    ensures Allocated(leaves, peers, n, 0) == map[]
  {
  }

  lemma AllocatedNext(leaves: seq<nat>, peers: seq<string>, n: nat, i: nat)
    requires i < n <= |leaves| && n <= |peers|
    ensures Allocated(leaves, peers, n, i + 1) == Allocate(Allocated(leaves, peers, n, i), peers[i], Share(leaves, n, i))
  {
  }

  /**
    Who is given what, also if a peer is listed more than once: after i requests every peer asked is pending, with
    exactly the leaves of its requests, none of them marked.
   */
  lemma {:induction false} AllocatedAlways(leaves: seq<nat>, peers: seq<string>, n: nat, i: nat)
    requires i <= n <= |leaves| && n <= |peers|
    ensures forall p :: p in Allocated(leaves, peers, n, i) <==> exists j :: 0 <= j < i && peers[j] == p
    ensures forall p :: p in Allocated(leaves, peers, n, i) ==> Allocated(leaves, peers, n, i)[p].status == PENDING
    ensures forall p, leaf :: p in Allocated(leaves, peers, n, i) ==>
              (leaf in Allocated(leaves, peers, n, i)[p].allocatedBlocks <==>
                 exists j :: 0 <= j < i && peers[j] == p && leaf in Share(leaves, n, j))
    ensures forall p, leaf :: p in Allocated(leaves, peers, n, i) && leaf in Allocated(leaves, peers, n, i)[p].allocatedBlocks ==>
              !Allocated(leaves, peers, n, i)[p].allocatedBlocks[leaf]
  {
    hide *;
    if i == 0 {
      NothingAllocated(leaves, peers, n);
    } else {
      AllocatedAlways(leaves, peers, n, i - 1);
      AllocatedNext(leaves, peers, n, i - 1);
      AllocateAdds(Allocated(leaves, peers, n, i - 1), peers[i - 1], Share(leaves, n, i - 1));
    }
  }

  lemma AllocateAdds(peers: map<string, CollabPeerInfo>, peer: string, part: seq<nat>)
    ensures var after := Allocate(peers, peer, part);
            && (forall p :: p in after <==> p in peers || p == peer)
            && (forall p :: p in peers && p != peer ==> after[p] == peers[p])
            && after[peer].status == (if peer in peers then peers[peer].status else PENDING)
            && (forall leaf :: leaf in after[peer].allocatedBlocks <==> leaf in part || (peer in peers && leaf in peers[peer].allocatedBlocks))
            && forall leaf :: leaf in after[peer].allocatedBlocks ==>
                 after[peer].allocatedBlocks[leaf] == (leaf !in part && peer in peers && leaf in peers[peer].allocatedBlocks && peers[peer].allocatedBlocks[leaf])
  {
  }

  function Requests(file: string, epoch: nat, leaves: seq<nat>, peers: seq<string>, n: nat, i: nat): seq<Message>
    requires i <= n <= |leaves| && n <= |peers|
  {
    seq(i, j requires 0 <= j < i => UnitRequest(file, peers[j], epoch, Share(leaves, n, j)))
  }

  /** What a repair attempt finds out: the failed leaves and the peers of the cluster, or an error. */
  datatype Lookup<T> = Found(value: T) | Error

  predicate Busy(data: CollabData, file: string) {
    file in data && data[file].status == PENDING
  }

  function NextEpoch(data: CollabData, file: string): nat {
    if file in data then data[file].epoch + 1 else 0
  }

  function NumPeers(wanted: nat, peers: nat, leaves: nat): nat {
    var n := if peers < wanted then peers else wanted;
    if leaves < n then leaves else n
  }

  /** A start request gets as far as dividing the leaves over the peers. */
  predicate Divides(data: CollabData, file: string, leaves: Lookup<seq<nat>>, peers: Lookup<seq<string>>) {
    !Busy(data, file) && leaves.Found? && leaves.value != [] && peers.Found?
  }

  /** A division by the number of peers is met only with at least one. */
  predicate Divisible(data: CollabData, file: string, leaves: Lookup<seq<nat>>, peers: Lookup<seq<string>>, wanted: int) {
    Divides(data, file, leaves, peers) ==> wanted >= 1 && peers.value != []
  }

  /** A start request: the new job record, and the requests sent to the peers. */
  function StartJob(data: CollabData, file: string, leaves: Lookup<seq<nat>>, peers: Lookup<seq<string>>, wanted: int)
    : (CollabData, seq<Message>)
    requires Divisible(data, file, leaves, peers, wanted)
  {
    var epoch := NextEpoch(data, file);
    if Busy(data, file) then (data, [])
    else if leaves.Error? then (data[file := Job(FAILURE, map[], epoch, [])], [])
    else if leaves.value == [] then (data[file := Job(SUCCESS, map[], epoch, [])], [])
    else if peers.Error? then (data[file := Job(FAILURE, map[], epoch, leaves.value)], [])
    else
      var n := NumPeers(wanted, |peers.value|, |leaves.value|);
      (data[file := Job(PENDING, Allocated(leaves.value, peers.value, n, n), epoch, leaves.value)],
       Requests(file, epoch, leaves.value, peers.value, n, n))
  }

  /**
    The verdict a start request stores for a file that is not busy: FAILURE exactly if the failed leaves could
    not be listed, or there are some and the peers could not be looked up; SUCCESS exactly if there are none;
    PENDING otherwise.  Other files keep their jobs.
   */
  lemma StartVerdict(data: CollabData, file: string, leaves: Lookup<seq<nat>>, peers: Lookup<seq<string>>, wanted: int)
    requires Divisible(data, file, leaves, peers, wanted) && !Busy(data, file)
    ensures var (data', sent) := StartJob(data, file, leaves, peers, wanted);
            && file in data'
            && (data'[file].status == FAILURE <==> leaves.Error? || (leaves.value != [] && peers.Error?))
            && (data'[file].status == SUCCESS <==> leaves.Found? && leaves.value == [])
            && (data'[file].status == PENDING <==> leaves.Found? && leaves.value != [] && peers.Found?)
            && data'[file].leaves == (if leaves.Found? then leaves.value else [])
            && (file in data ==> data'[file].epoch > data[file].epoch)
            && (data'[file].status != PENDING ==> sent == [] && data'[file].peers == map[])
            && forall f :: f != file ==> (f in data' <==> f in data) && (f in data ==> data'[f] == data[f])
  {
    hide Allocated, Share;
  }

  /** The lists of leaves sent out. */
  function Parts(sent: seq<Message>): (parts: seq<seq<nat>>)
  {
    seq(|sent|, i requires 0 <= i < |sent| => if sent[i].UnitRequest? then sent[i].failedIndices else [])
  }

  /**
    The requests of a start: as many as are wanted, as there are peers and as there are leaves allow, to
    different peers in their order, for the new job, and together with exactly the leaves, none left empty.
   */
  lemma StartRequests(data: CollabData, file: string, leaves: Lookup<seq<nat>>, peers: Lookup<seq<string>>, wanted: int)
    requires Divisible(data, file, leaves, peers, wanted) && Divides(data, file, leaves, peers)
    ensures var (data', sent) := StartJob(data, file, leaves, peers, wanted);
            && file in data'
            && 1 <= |sent| <= wanted && |sent| <= |peers.value| && |sent| <= |leaves.value|
            && (|sent| == wanted || |sent| == |peers.value| || |sent| == |leaves.value|)
            && (forall i :: 0 <= i < |sent| ==>
                  && sent[i].UnitRequest? && sent[i].file == file && sent[i].peer == peers.value[i]
                  && sent[i].epoch == data'[file].epoch && sent[i].failedIndices != [])
            && (NoRepeat(peers.value) ==> forall i, j :: 0 <= i < j < |sent| ==> sent[i].peer != sent[j].peer)
            && Joined(Parts(sent)) == leaves.value
  {
    hide Allocated, Share, Joined, Shares;
    var n := NumPeers(wanted, |peers.value|, |leaves.value|);
    SharesPartition(leaves.value, n);
    var sent := StartJob(data, file, leaves, peers, wanted).1;
    assert Parts(sent) == Shares(leaves.value, n, n);
  }

  predicate AllTrue(m: map<nat, bool>) {
    forall leaf :: leaf in m ==> m[leaf]
  }

  predicate AllDone(peers: map<string, CollabPeerInfo>) {
    forall p :: p in peers ==> peers[p].status != PENDING
  }

  predicate AllSucceeded(peers: map<string, CollabPeerInfo>) {
    forall p :: p in peers ==> peers[p].status == SUCCESS
  }

  /** Leaves reported repaired are marked, whether or not they were marks to the peer. */
  function Marked(marks: map<nat, bool>, report: map<nat, bool>): map<nat, bool> {
    marks + map leaf | leaf in report && report[leaf] :: true
  }

  /** A report: the peer's verdict, and the job's verdict once no peer is pending. */
  function ApplyReport(data: CollabData, file: string, peer: string, report: map<nat, bool>): CollabData {
    if file !in data || peer !in data[file].peers then data
    else
      var info := data[file].peers[peer];
      var info' := CollabPeerInfo(if AllTrue(report) then SUCCESS else FAILURE, Marked(info.allocatedBlocks, report));
      var peers := data[file].peers[peer := info'];
      var status := if AllDone(peers) then (if AllSucceeded(peers) then SUCCESS else FAILURE) else data[file].status;
      data[file := data[file].(status := status, peers := peers)]
  }

  /**
    What any report does to the marks, of a peer pending or not: a leaf is marked afterwards if and only if it
    was before or the report says so.  The peer's verdict is that of the report, nobody else's marks change, and
    a report about an unknown file or from an unknown peer changes nothing.
   */
  lemma ReportMarks(data: CollabData, file: string, peer: string, report: map<nat, bool>)
    ensures file !in data || peer !in data[file].peers ==> ApplyReport(data, file, peer, report) == data
    ensures file in data && peer in data[file].peers ==>
              var before, data' := data[file].peers[peer].allocatedBlocks, ApplyReport(data, file, peer, report);
              && data'.Keys == data.Keys && data'[file].peers.Keys == data[file].peers.Keys
              && var info := data'[file].peers[peer];
                 && (info.status == SUCCESS <==> forall leaf :: leaf in report ==> report[leaf]) && info.status != PENDING
                 && (forall leaf :: leaf in info.allocatedBlocks && info.allocatedBlocks[leaf] <==>
                       (leaf in before && before[leaf]) || (leaf in report && report[leaf]))
                 && (forall leaf :: leaf in before ==> leaf in info.allocatedBlocks)
                 && (forall p :: p in data[file].peers && p != peer ==> data'[file].peers[p] == data[file].peers[p])
                 && (data'[file].status != data[file].status ==> forall p :: p in data'[file].peers ==> data'[file].peers[p].status != PENDING)
                 && (forall f :: f in data && f != file ==> data'[f] == data[f])
  {
    if file in data && peer in data[file].peers {
      ApplyReportIs(data, file, peer, report);
      hide ApplyReport;
      MarkedIff(data[file].peers[peer].allocatedBlocks, report);
      hide Marked;
    }
  }

  lemma ApplyReportIs(data: CollabData, file: string, peer: string, report: map<nat, bool>)
    requires file in data && peer in data[file].peers
    ensures var info := data[file].peers[peer];
            var info' := CollabPeerInfo(if AllTrue(report) then SUCCESS else FAILURE, Marked(info.allocatedBlocks, report));
            var peers := data[file].peers[peer := info'];
            ApplyReport(data, file, peer, report) ==
            data[file := data[file].(status := if AllDone(peers) then (if AllSucceeded(peers) then SUCCESS else FAILURE) else data[file].status,
                                     peers := peers)]
  {
  }

  lemma MarkedIff(marks: map<nat, bool>, report: map<nat, bool>)
    ensures forall leaf :: leaf in Marked(marks, report) && Marked(marks, report)[leaf] <==>
              (leaf in marks && marks[leaf]) || (leaf in report && report[leaf])
    ensures forall leaf :: leaf in marks ==> leaf in Marked(marks, report)
  {
  }

  lemma UpdatedTwice(data: CollabData, file: string, first: Job, second: Job)
    ensures data[file := first][file := second] == data[file := second]
  {
  }

  class Server {
    var collabData: CollabData

    /**
      Starts a collaborative repair.  The failed leaves, the shuffled list of cluster peers, and the fact
      that every request is accepted on first send come from outside.
     */
    method StartCollabRepair(file: string, failedLeaves: Lookup<seq<nat>>, clusterPeers: Lookup<seq<string>>, wanted: int)
      returns (sent: seq<Message>)
      requires Divisible(collabData, file, failedLeaves, clusterPeers, wanted)
      modifies this
      ensures (collabData, sent) == StartJob(old(collabData), file, failedLeaves, clusterPeers, wanted)
    {
      sent := [];
      if file in collabData && collabData[file].status == PENDING {
        return;
      }
      var epoch := if file in collabData then collabData[file].epoch + 1 else 0;
      collabData := collabData[file := Job(PENDING, map[], epoch, if failedLeaves.Found? then failedLeaves.value else [])];
      ghost var blank := collabData[file];
      if failedLeaves.Error? {
        collabData := collabData[file := collabData[file].(status := FAILURE)];
        UpdatedTwice(old(collabData), file, blank, collabData[file]);
        return;
      }
      var leaves := failedLeaves.value;
      if |leaves| == 0 {
        collabData := collabData[file := collabData[file].(status := SUCCESS)];
        UpdatedTwice(old(collabData), file, blank, collabData[file]);
        return;
      }
      if clusterPeers.Error? {
        collabData := collabData[file := collabData[file].(status := FAILURE)];
        UpdatedTwice(old(collabData), file, blank, collabData[file]);
        return;
      }
      var peers := clusterPeers.value;
      var numPeers := wanted;
      if |peers| < numPeers {
        numPeers := |peers|;
      }
      if |leaves| < numPeers {
        numPeers := |leaves|;
      }
      sent := SendRequests(file, epoch, leaves, peers, numPeers);
      UpdatedTwice(old(collabData), file, blank, collabData[file]);
    }

    /** The send loop: request i goes to peer i. */
    method SendRequests(file: string, epoch: nat, leaves: seq<nat>, peers: seq<string>, numPeers: nat)
      returns (sent: seq<Message>)
      requires numPeers <= |leaves| && numPeers <= |peers|
      requires file in collabData && collabData[file] == Job(PENDING, map[], epoch, leaves)
      modifies this
      ensures collabData == old(collabData)[file := Job(PENDING, Allocated(leaves, peers, numPeers, numPeers), epoch, leaves)]
      ensures sent == Requests(file, epoch, leaves, peers, numPeers, numPeers)
    {
      hide Allocated, Allocate, Share;
      NothingAllocated(leaves, peers, numPeers);
      sent := [];
      var sentRequests := 0;
      while sentRequests < numPeers
        invariant sentRequests <= numPeers
        invariant collabData == old(collabData)[file := Job(PENDING, Allocated(leaves, peers, numPeers, sentRequests), epoch, leaves)]
        invariant sent == Requests(file, epoch, leaves, peers, numPeers, sentRequests)
      {
        var i := sentRequests;
        var part := Share(leaves, numPeers, i);
        sent := sent + [UnitRequest(file, peers[i], epoch, part)];
        AllocatePeer(file, peers[i], part);
        AllocatedNext(leaves, peers, numPeers, i);
        sentRequests := sentRequests + 1;
      }
    }

    /** Records an accepted request: the peer, if new, and its leaves one by one. */
    method AllocatePeer(file: string, peer: string, part: seq<nat>)
      requires file in collabData
      modifies this
      ensures collabData == old(collabData)[file := old(collabData[file]).(peers := Allocate(old(collabData[file]).peers, peer, part))]
    {
      var job := collabData[file];
      var info := if peer in job.peers then job.peers[peer] else CollabPeerInfo(PENDING, map[]);
      var marks := info.allocatedBlocks;
      for x := 0 to |part|
        invariant marks == info.allocatedBlocks + AllFalse(part[..x])
      {
        marks := marks[part[x] := false];
      }
      assert part[..|part|] == part;
      collabData := collabData[file := job.(peers := job.peers[peer := info.(allocatedBlocks := marks)])];
    }

    /** Folds one report into the job record. */
    method ReportUnitRepair(file: string, origin: string, repairStatus: map<nat, bool>)
      modifies this
      ensures collabData == ApplyReport(old(collabData), file, origin, repairStatus)
    {
      if file !in collabData {
        return;
      }
      if origin !in collabData[file].peers {
        return;
      }
      var job := collabData[file];
      var marks, success := FoldReport(job.peers[origin].allocatedBlocks, repairStatus);
      var peers := job.peers[origin := CollabPeerInfo(if success then SUCCESS else FAILURE, marks)];
      var allPeersDone, allPeersSucceeded := PeerVerdicts(peers);
      var status := job.status;
      if allPeersDone {
        status := if allPeersSucceeded then SUCCESS else FAILURE;
      }
      collabData := collabData[file := job.(status := status, peers := peers)];
    }
  }

  /** The loop over the leaves of a report. */
  method FoldReport(before: map<nat, bool>, repairStatus: map<nat, bool>) returns (marks: map<nat, bool>, success: bool)
    ensures marks == Marked(before, repairStatus)
    ensures success <==> AllTrue(repairStatus)
  {
    marks, success := before, true;
    var todo := repairStatus.Keys;
    assert repairStatus - todo == map[];
    MarkedNone(before);
    hide Marked, AllTrue;
    while todo != {}
      invariant todo <= repairStatus.Keys
      invariant success <==> AllTrue(repairStatus - todo)
      invariant marks == Marked(before, repairStatus - todo)
      decreases |todo|
    {
      var leaf :| leaf in todo;
      MarkedStep(before, repairStatus, todo, leaf);
      success := success && repairStatus[leaf];
      if repairStatus[leaf] {
        marks := marks[leaf := true];
      }
      todo := todo - {leaf};
    }
    assert repairStatus - {} == repairStatus;
  }

  lemma MarkedNone(before: map<nat, bool>)
    ensures Marked(before, map[]) == before && AllTrue(map[])
  {
    var none: map<nat, bool> := map[];
    assert (map leaf | leaf in none && none[leaf] :: true) == none;
  }

  /** Looking at one more leaf of a report. */
  lemma MarkedStep(before: map<nat, bool>, report: map<nat, bool>, todo: set<nat>, leaf: nat)
    requires leaf in todo && leaf in report
    ensures Marked(before, report - (todo - {leaf})) ==
            if report[leaf] then Marked(before, report - todo)[leaf := true] else Marked(before, report - todo)
    ensures AllTrue(report - (todo - {leaf})) <==> AllTrue(report - todo) && report[leaf]
  {
    var seen, seen' := report - todo, report - (todo - {leaf});
    assert seen' == seen[leaf := report[leaf]];
    assert leaf in seen' && seen'[leaf] == report[leaf];
    assert forall x :: x in seen ==> x in seen' && seen'[x] == seen[x];
    assert forall x :: x in seen' && x != leaf ==> x in seen;
  }

  /** The loop over the peers of a job. */
  method PeerVerdicts(peers: map<string, CollabPeerInfo>) returns (allPeersDone: bool, allPeersSucceeded: bool)
    ensures allPeersDone <==> AllDone(peers)
    ensures allPeersSucceeded <==> AllSucceeded(peers)
  {
    allPeersDone, allPeersSucceeded := true, true;
    var rest := peers.Keys;
    while rest != {}
      invariant rest <= peers.Keys
      invariant allPeersDone <==> forall p :: p in peers && p !in rest ==> peers[p].status != PENDING
      invariant allPeersSucceeded <==> forall p :: p in peers && p !in rest ==> peers[p].status == SUCCESS
      decreases |rest|
    {
      var p :| p in rest;
      allPeersDone := allPeersDone && peers[p].status != PENDING;
      allPeersSucceeded := allPeersSucceeded && peers[p].status == SUCCESS;
      rest := rest - {p};
    }
  }
}
