/**
  The walk over a whole file: what it lists on the tree that belongs to the lattice.
 */
module FileWalk {
  import opened Bytes
  import opened LatticeGraph
  import opened RecoverySearch
  import opened RecoveryTheorems
  import opened TreeShape
  import opened TreeLabels
  import opened Trees
  import opened TreeWalks
  import opened TreeBuild
  import opened RepairWalk
  import opened MissedLeaves
  import opened FailedLeaves
  import opened CollabRepair

  /** The tree that ConstructTree builds for a file of as many nodes as the lattice has data blocks. */
  ghost predicate FileTree(g: Graph, sh: Shape, at: Nodes, childParent: map<nat, nat>, indexMap: map<nat, TreeNode>)
    reads at.Values`children, at.Values`parent, at.Values`preOrderIdx, at.Values`latticeIdx
  {
    && g.Valid() && Whole(sh, at) && |sh.Order()| == g.n
    && Indexed(sh, at, sh.SwapPass(g.s, g.s * g.s, g.n), childParent, indexMap)
  }

  /** The visits of the walk that starts at the root. */
  ghost function FileVisits(sh: Shape, at: Nodes): (vs: seq<Visit>)
    requires sh.Valid()
    reads at.Values`latticeIdx, at.Values`children
  {
    VisitsOf(at, Under(sh, sh.Root()))
  }

  lemma FileTreeFacts(g: Graph, sh: Shape, at: Nodes, childParent: map<nat, nat>, indexMap: map<nat, TreeNode>)
    requires FileTree(g, sh, at, childParent, indexMap)
    ensures g.Valid() && Whole(sh, at) && sh.Valid() && sh.Root() in at && g.n > 0 && DistinctLabels(at, g.n)
    ensures Under(sh, sh.Root()) == sh.Order() && |sh.Order()| == g.n && sh.Order()[0] == sh.Root()
    ensures forall q :: q in sh.Order() ==> q in at
  {
    sh.OrderComplete();
    PermutedLabelsDistinct(sh, at, sh.SwapPass(g.s, g.s * g.s, g.n));
    hide Shape.SwapPass, AllNumbered, ParentMap, Permutation, Labelled;
  }

  /** The tree's node of a label. */
  lemma LabelPlace(g: Graph, sh: Shape, at: Nodes, childParent: map<nat, nat>, indexMap: map<nat, TreeNode>, y: nat)
    returns (q: Place, x: nat)
    requires FileTree(g, sh, at, childParent, indexMap) && y < g.n
    ensures y in indexMap && q in at && indexMap[y] == at[q] && at[q].latticeIdx == y && x < |sh.Order()| && sh.Order()[x] == q
  {
    hide *;
    FileTreeFacts(g, sh, at, childParent, indexMap);
    var labels := TreeIndexed(g, sh, at, childParent, indexMap);
    q, x := NodeLabelled(sh, at, labels, childParent, indexMap, y);
  }

  lemma TreeIndexed(g: Graph, sh: Shape, at: Nodes, childParent: map<nat, nat>, indexMap: map<nat, TreeNode>) returns (labels: seq<nat>)
    requires FileTree(g, sh, at, childParent, indexMap)
    ensures |labels| == g.n && Indexed(sh, at, labels, childParent, indexMap)
  {
    hide Indexed, Linked, Shape.SwapPass, Shape.Order;
    labels := sh.SwapPass(g.s, g.s * g.s, g.n);
  }

  lemma NodeLabelled(sh: Shape, at: Nodes, labels: seq<nat>, childParent: map<nat, nat>, indexMap: map<nat, TreeNode>, y: nat)
    returns (q: Place, x: nat)
    requires Indexed(sh, at, labels, childParent, indexMap) && y < |labels|
    ensures sh.Valid() && y in indexMap && q in at && indexMap[y] == at[q] && at[q].latticeIdx == y
    ensures x < |sh.Order()| && sh.Order()[x] == q
  {
    hide AllNumbered, ParentMap, Permutation, Shape.Order, Shape.Number;
    q := LabelledNode(sh, labels, y);
    x := sh.Number(q);
  }

  /** Every node is visited once, the root first. */
  lemma FileVisitsFacts(g: Graph, sh: Shape, at: Nodes, childParent: map<nat, nat>, indexMap: map<nat, TreeNode>)
    requires FileTree(g, sh, at, childParent, indexMap)
    ensures g.Valid() && sh.Valid() && sh.Root() in at && Labels(g, FileVisits(sh, at)) && DistinctVisits(FileVisits(sh, at))
    ensures |FileVisits(sh, at)| == g.n > 0
    ensures FileVisits(sh, at)[0] == Visit(at[sh.Root()].latticeIdx, |at[sh.Root()].children|)
  {
    hide *;
    FileTreeFacts(g, sh, at, childParent, indexMap);
    FileVisitsAre(sh, at);
    VisitLabels(g, at, sh.Order());
    VisitsDistinct(sh, at, sh.Root(), g.n);
    VisitAt(at, sh.Order(), 0);
  }

  lemma FileVisitsAre(sh: Shape, at: Nodes)
    requires sh.Valid()
    ensures FileVisits(sh, at) == VisitsOf(at, Under(sh, sh.Root()))
  {
  }

  lemma LabelVisit(g: Graph, sh: Shape, at: Nodes, childParent: map<nat, nat>, indexMap: map<nat, TreeNode>, y: nat) returns (x: nat)
    requires FileTree(g, sh, at, childParent, indexMap) && y < g.n
    ensures sh.Valid() && x < |FileVisits(sh, at)| && y in indexMap && FileVisits(sh, at)[x] == Visit(y, |indexMap[y].children|)
  {
    hide *;
    FileTreeFacts(g, sh, at, childParent, indexMap);
    FileVisitsAre(sh, at);
    var q;
    q, x := LabelPlace(g, sh, at, childParent, indexMap, y);
    VisitAt(at, sh.Order(), x);
  }

  /**
    If no inner node has been lost, or repair has depth two at most, the walk over a file, with a new lattice,
    lists exactly the missing leaves unless it ends with an error.
   */
  lemma FileWalkExact(g: Graph, sh: Shape, at: Nodes, childParent: map<nat, nat>, indexMap: map<nat, TreeNode>, w: World, depth: nat)
    requires FileTree(g, sh, at, childParent, indexMap) && InnersKept(w, FileVisits(sh, at), depth)
    ensures g.Valid() && sh.Valid() && Labels(g, FileVisits(sh, at)) && FileVisits(sh, at) != []
    ensures ExactRun(g, FileVisits(sh, at), depth, w)
  {
    hide *;
    FileVisitsFacts(g, sh, at, childParent, indexMap);
    var vs := FileVisits(sh, at);
    NewGoing(g, vs, w);
    FreshLeaves(g, w, vs, FreshState(g));
    NewWalkIs(g, vs, depth, w);
    if NewWalk(g, vs, depth, w).ok {
      ExactWalk(g, StartStore(w, vs[0].index), w, Session(FreshState(g), 0), StartStore(w, vs[0].index), vs, depth);
    }
    ExactRunIs(g, vs, depth, w);
  }

  lemma FreshLeaves(g: Graph, w: World, vs: seq<Visit>, st: State)
    requires Fresh(g, st) && Labels(g, vs)
    ensures Covers(g, st) && LeavesKnown(g, w, vs, st)
  {
  }

  /** What the listing reports to the coordinator. */
  function Listing(r: Outcome): Lookup<seq<nat>> {
    if r.ok then Found(r.failed) else Error
  }

  /**
    The verdict stored for a listing: FAILURE exactly if the walk ended with an error, or leaves were listed and
    the peers could not be looked up; SUCCESS exactly if it ended without error and listed nothing.
   */
  lemma ListingVerdict(r: Outcome, jobs: CollabData, file: string, peers: Lookup<seq<string>>, wanted: int)
    requires !Busy(jobs, file) && Divisible(jobs, file, Listing(r), peers, wanted)
    ensures var jobs' := StartJob(jobs, file, Listing(r), peers, wanted).0;
            && file in jobs'
            && (jobs'[file].status == FAILURE <==> !r.ok || (r.failed != [] && peers.Error?))
            && (jobs'[file].status == SUCCESS <==> r.ok && r.failed == [])
            && (jobs'[file].status == PENDING <==> r.ok && r.failed != [] && peers.Found?)
  {
    hide StartJob;
    StartVerdict(jobs, file, Listing(r), peers, wanted);
  }

  /**
    If no inner node has been lost, or repair has depth two at most, and the walk ends without error, the job is
    stored as successful if and only if no leaf is missing.
   */
  lemma SuccessIffNoneMissing(g: Graph, sh: Shape, at: Nodes, childParent: map<nat, nat>, indexMap: map<nat, TreeNode>, w: World, depth: nat,
                              jobs: CollabData, file: string, peers: Lookup<seq<string>>, wanted: int)
    requires FileTree(g, sh, at, childParent, indexMap) && sh.Valid() && InnersKept(w, FileVisits(sh, at), depth) && !Busy(jobs, file)
    requires Labels(g, FileVisits(sh, at)) && FileVisits(sh, at) != [] && NewWalk(g, FileVisits(sh, at), depth, w).ok
    requires Divisible(jobs, file, Listing(NewWalk(g, FileVisits(sh, at), depth, w)), peers, wanted)
    ensures var vs, jobs' := FileVisits(sh, at), StartJob(jobs, file, Listing(NewWalk(g, FileVisits(sh, at), depth, w)), peers, wanted).0;
            && file in jobs'
            && (jobs'[file].status == SUCCESS <==> forall x :: 0 <= x < |vs| && vs[x].Leaf() ==> D(vs[x].index + 1) in w.net)
  {
    hide *;
    var vs := FileVisits(sh, at);
    FileVisitsFacts(g, sh, at, childParent, indexMap);
    FileWalkExact(g, sh, at, childParent, indexMap, w, depth);
    ExactRunIs(g, vs, depth, w);
    var r := NewWalk(g, vs, depth, w);
    ListingVerdict(r, jobs, file, peers, wanted);
    NewWalkIs(g, vs, depth, w);
    ListedOnce(g, Session(FreshState(g), 0), StartStore(w, vs[0].index), vs, depth, w);
    NothingListed(w, vs, r.failed);
  }

  /** An exact list of visited leaves is empty if and only if no leaf is missing. */
  lemma NothingListed(w: World, vs: seq<Visit>, failed: seq<nat>)
    requires Exact(w, vs, failed) && forall y :: y in failed ==> Visit(y, 0) in vs
    ensures failed == [] <==> forall x :: 0 <= x < |vs| && vs[x].Leaf() ==> D(vs[x].index + 1) in w.net
  {
    if failed != [] {
      var y := failed[0];
      assert y in failed && Visit(y, 0) in vs;
      var x :| 0 <= x < |vs| && vs[x] == Visit(y, 0);
      assert vs[x].Leaf();
    }
  }

  /** The root lies in the first column, the block behind it is a leaf, and inner nodes have non-zero ends. */
  ghost predicate RootBeforeLeaf(g: Graph, data: seq<Chunk>, sh: Shape, at: Nodes, indexMap: map<nat, TreeNode>)
    requires sh.Root() in at
    reads at.Values`latticeIdx, at.Values`children, indexMap.Values`children
  {
    var r := at[sh.Root()].latticeIdx;
    && TwoColumns(g) && |data| == g.n && r < g.s && r + g.s < g.n && |at[sh.Root()].children| > 0
    && r + g.s in indexMap && indexMap[r + g.s].children == []
    && forall q :: q in at && at[q].children != [] && at[q].latticeIdx < g.n ==> NonZeroEnds(data[at[q].latticeIdx])
  }

  /** In terms of visits. */
  lemma RootBeforeLeafVisits(g: Graph, data: seq<Chunk>, sh: Shape, at: Nodes, childParent: map<nat, nat>, indexMap: map<nat, TreeNode>)
    returns (y: nat)
    requires FileTree(g, sh, at, childParent, indexMap) && sh.Root() in at && RootBeforeLeaf(g, data, sh, at, indexMap)
    ensures sh.Valid() && LeafBehindRoot(g, data, FileVisits(sh, at), y)
    ensures FileVisits(sh, at)[0].index == at[sh.Root()].latticeIdx
    ensures FileVisits(sh, at)[y].index == at[sh.Root()].latticeIdx + g.s
  {
    hide *;
    FileVisitsFacts(g, sh, at, childParent, indexMap);
    FileTreeFacts(g, sh, at, childParent, indexMap);
    BeforeLeafFacts(g, data, sh, at, indexMap);
    y := LabelVisit(g, sh, at, childParent, indexMap, at[sh.Root()].latticeIdx + g.s);
    FileVisitsAre(sh, at);
    var vs := FileVisits(sh, at);
    forall x | 0 <= x < |vs| && vs[x].children > 0
      ensures vs[x].index < |data| && NonZeroEnds(data[vs[x].index])
    {
      assert sh.Order()[x] in sh.Order();
      VisitAt(at, sh.Order(), x);
      InnerEnds(g, data, sh, at, indexMap, sh.Order()[x]);
    }
    AsVisits(g, data, vs, y);
  }

  lemma BeforeLeafFacts(g: Graph, data: seq<Chunk>, sh: Shape, at: Nodes, indexMap: map<nat, TreeNode>)
    requires sh.Root() in at && RootBeforeLeaf(g, data, sh, at, indexMap)
    ensures var r := at[sh.Root()].latticeIdx;
            && TwoColumns(g) && |data| == g.n && r < g.s && r + g.s < g.n && |at[sh.Root()].children| > 0
            && r + g.s in indexMap && |indexMap[r + g.s].children| == 0
  {
  }

  lemma InnerEnds(g: Graph, data: seq<Chunk>, sh: Shape, at: Nodes, indexMap: map<nat, TreeNode>, q: Place)
    requires sh.Root() in at && RootBeforeLeaf(g, data, sh, at, indexMap) && DistinctLabels(at, g.n)
    requires q in at && |at[q].children| > 0
    ensures at[q].latticeIdx < |data| && NonZeroEnds(data[at[q].latticeIdx])
  {
    hide NonZeroEnds;
  }

  lemma AsVisits(g: Graph, data: seq<Chunk>, vs: seq<Visit>, y: nat)
    requires g.Valid() && TwoColumns(g) && |data| == g.n && Labels(g, vs) && DistinctVisits(vs) && y < |vs|
    requires vs[0].children > 0 && vs[0].index < g.s && vs[y] == Visit(vs[0].index + g.s, 0)
    requires forall x :: 0 <= x < |vs| && vs[x].children > 0 ==> vs[x].index < |data| && NonZeroEnds(data[vs[x].index])
    ensures LeafBehindRoot(g, data, vs, y)
  {
    hide NonZeroEnds;
  }

  /**
    A missing leaf that is not listed.  The file has lost its root, the horizontal parity of the root and the
    leaf behind the root, and nothing else.  With depth four or more the walk rebuilds the root and, on the way
    to it, the leaf; it ends without error and lists nothing, and the job is stored as successful.
   */
  lemma MissingLeafUnlisted(g: Graph, data: seq<Chunk>, sh: Shape, at: Nodes, childParent: map<nat, nat>, indexMap: map<nat, TreeNode>,
                            w: World, depth: nat, jobs: CollabData, file: string, peers: Lookup<seq<string>>, wanted: int)
    requires FileTree(g, sh, at, childParent, indexMap) && sh.Root() in at && RootBeforeLeaf(g, data, sh, at, indexMap)
    requires sh.Valid() && TrueWorld(g, data, FileVisits(sh, at), w) && OnlyLost(g, w.net, at[sh.Root()].latticeIdx + 1)
    requires depth >= 4 && !Busy(jobs, file)
    ensures Labels(g, FileVisits(sh, at)) && FileVisits(sh, at) != []
    ensures D(at[sh.Root()].latticeIdx + g.s + 1) !in w.net
    ensures var r := NewWalk(g, FileVisits(sh, at), depth, w);
            && r.ok && r.failed == []
            && var (jobs', sent) := StartJob(jobs, file, Found(r.failed), peers, wanted);
               file in jobs' && jobs'[file].status == SUCCESS && sent == []
  {
    hide *;
    FileVisitsFacts(g, sh, at, childParent, indexMap);
    var y := RootBeforeLeafVisits(g, data, sh, at, childParent, indexMap);
    LeafMissed(g, data, FileVisits(sh, at), w, y, depth);
    NothingToDo(jobs, file, peers, wanted);
  }

  lemma NothingToDo(jobs: CollabData, file: string, peers: Lookup<seq<string>>, wanted: int)
    requires !Busy(jobs, file)
    ensures Divisible(jobs, file, Found([]), peers, wanted)
    ensures var (jobs', sent) := StartJob(jobs, file, Found([]), peers, wanted);
            file in jobs' && jobs'[file].status == SUCCESS && sent == []
  {
  }

  /**
    For a file whose leaves are all children of the root, and for every loss: each walk without error lists
    exactly the missing leaves if and only if the depth is at most three or the root's chunk has a zero end.
   */
  lemma OneLevelFileExactIff(g: Graph, data: seq<Chunk>, sh: Shape, at: Nodes, childParent: map<nat, nat>, indexMap: map<nat, TreeNode>, depth: nat)
    requires FileTree(g, sh, at, childParent, indexMap) && sh.h == 1 && TwoColumns(g)
    requires |data| == g.n && forall d :: d in data ==> d != []
    ensures sh.Valid() && Labels(g, FileVisits(sh, at)) && FileVisits(sh, at) != []
    ensures ExactAlways(g, data, FileVisits(sh, at), depth) <==> depth <= 3 || !NonZeroEnds(data[0])
  {
    hide *;
    FileVisitsFacts(g, sh, at, childParent, indexMap);
    OneLevelVisits(g, sh, at, childParent, indexMap);
    OneLevelExactIff(g, data, FileVisits(sh, at), depth);
  }

  lemma OneLevelVisits(g: Graph, sh: Shape, at: Nodes, childParent: map<nat, nat>, indexMap: map<nat, TreeNode>)
    requires FileTree(g, sh, at, childParent, indexMap) && sh.h == 1 && TwoColumns(g)
    ensures sh.Valid() && OneLevel(g, FileVisits(sh, at))
  {
    FileVisitsFacts(g, sh, at, childParent, indexMap);
    FileTreeFacts(g, sh, at, childParent, indexMap);
    RootLabel(g, sh, at, childParent, indexMap);
    var vs := FileVisits(sh, at);
    var y := LabelVisit(g, sh, at, childParent, indexMap, g.s);
    assert vs[y].index == g.s;
    hide FileTree, VisitsOf, Shape.Order, Under, DistinctLabels;
    NodeOf(sh, at, sh.Root());
    LeafLevel(sh, sh.Root());
    forall x | 0 < x < |vs|
      ensures vs[x].Leaf()
    {
      var q := sh.Order()[x];
      assert q in sh.Order();
      VisitAt(at, sh.Order(), x);
      NodeOf(sh, at, q);
      LeafLevel(sh, q);
      BelowRoot(sh, x);
    }
  }

  lemma BelowRoot(sh: Shape, x: nat)
    requires sh.Valid() && sh.h == 1 && 0 < x < |sh.Order()|
    ensures sh.Order()[x].level == 0
  {
    NumberOf(sh, x);
  }

  /** The root of a one-level tree keeps its number as label. */
  lemma RootLabel(g: Graph, sh: Shape, at: Nodes, childParent: map<nat, nat>, indexMap: map<nat, TreeNode>)
    requires FileTree(g, sh, at, childParent, indexMap) && sh.h == 1
    ensures sh.Root() in at && at[sh.Root()].latticeIdx == 0
  {
    hide Shape.SwapPass, AllNumbered, ParentMap, Permutation, Shape.Order, Shape.Number, Linked, Labelled;
    FileTreeFacts(g, sh, at, childParent, indexMap);
    RootNumber(sh);
    RootLabelled(sh, at, sh.SwapPass(g.s, g.s * g.s, g.n));
    ParentOfLeavesStays(sh, g.s, g.s * g.s, sh.Root());
  }

  lemma RootNumber(sh: Shape)
    requires sh.Valid() && sh.Order() != [] && sh.Order()[0] == sh.Root() && sh.h == 1
    ensures sh.Has(sh.Root()) && sh.Number(sh.Root()) == 0 && sh.Root().level == 1
  {
    NumberOf(sh, 0);
    hide Shape.Order, Shape.Number;
  }

  lemma RootLabelled(sh: Shape, at: Nodes, labels: seq<nat>)
    requires Whole(sh, at) && sh.Valid() && |labels| == |sh.Order()| && Labelled(sh, at, labels)
    requires sh.Root() in at && sh.Has(sh.Root())
    ensures at[sh.Root()].latticeIdx == labels[sh.Number(sh.Root())]
  {
    hide Shape.Order, Shape.Number, Linked;
  }
}
