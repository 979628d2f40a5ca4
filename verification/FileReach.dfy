/**
  What can be downloaded while the failed leaves of a file are listed: exactly what the network has at or below
  a visited node, reached through nodes that the network has.
 */
module FileReach {
  import opened Bytes
  import opened Geometry
  import opened Chains
  import opened LatticeGraph
  import opened RecoverySearch
  import opened RecoveryTheorems
  import opened LatticeTriples
  import opened TreeShape
  import opened TreeLabels
  import opened Trees
  import opened TreeWalks
  import opened TreeBuild
  import opened RepairWalk
  import opened MissedLeaves
  import opened FailedLeaves
  import opened FileWalk
  import opened CollabRepair
  import LazyResolve

  // ----- what a walk gains

  /** How many visits a walk makes: it ends at the first inner node that does not pass. */
  function Made(g: Graph, se: Session, store: Store, vs: seq<Visit>, depth: nat, w: World): (m: nat)
    requires g.Valid() && Covers(g, se.st) && Labels(g, vs)
    ensures m <= |vs| && (vs != [] ==> m > 0)
    ensures WalkAll(g, se, store, vs, depth, w).ok ==> m == |vs|
  {
    if vs == [] then 0
    else if WalkAll(g, se, store, vs[..|vs| - 1], depth, w).ok then |vs|
    else Made(g, se, store, vs[..|vs| - 1], depth, w)
  }

  /** After a walk, with or without error, what can be downloaded is what could be before and what its visits gave. */
  lemma {:induction false} WalkGains(g: Graph, se: Session, store: Store, vs: seq<Visit>, depth: nat, w: World, b: Node)
    requires g.Valid() && Covers(g, se.st) && Labels(g, vs)
    ensures b in WalkAll(g, se, store, vs, depth, w).store <==>
            b in store || exists x :: 0 <= x < Made(g, se, store, vs, depth, w) && b in Gain(w, vs[x].index)
  {
    hide *;
    LabelsMean(g, vs);
    if vs == [] {
      NothingWalked(g, se, store, depth, w);
    } else {
      var init, l := vs[..|vs| - 1], |vs| - 1;
      LabelsMean(g, init);
      WalkGains(g, se, store, init, depth, w, b);
      WalkLast(g, se, store, vs, depth, w);
      MadeLast(g, se, store, vs, depth, w);
      var before := WalkAll(g, se, store, init, depth, w);
      if before.ok {
        WalkOneIs(g, before.se, before.store, vs[l], depth, w);
        InBoth(before.store, Gain(w, vs[l].index), b);
      }
      assert forall x :: 0 <= x < l ==> init[x] == vs[x];
    }
  }

  lemma InBoth(store: Store, more: Store, b: Node)
    ensures b in store + more <==> b in store || b in more
  {
  }

  lemma MadeLast(g: Graph, se: Session, store: Store, vs: seq<Visit>, depth: nat, w: World)
    requires g.Valid() && Covers(g, se.st) && Labels(g, vs) && vs != []
    ensures Labels(g, vs[..|vs| - 1])
    ensures Made(g, se, store, vs, depth, w) ==
            if WalkAll(g, se, store, vs[..|vs| - 1], depth, w).ok then |vs| else Made(g, se, store, vs[..|vs| - 1], depth, w)
    ensures WalkAll(g, se, store, vs[..|vs| - 1], depth, w).ok ==> Made(g, se, store, vs[..|vs| - 1], depth, w) == |vs| - 1
  {
    hide WalkAll;
  }

  // ----- in the tree

  /** The data block of a node. */
  ghost function BlockOf(at: Nodes, q: Place): Node
    requires q in at
    reads at.Values`latticeIdx
  {
    D(at[q].latticeIdx + 1)
  }

  /** q is p or lies below it, and the network has all nodes from q up to p. */
  ghost predicate Reaches(sh: Shape, at: Nodes, net: Store, p: Place, q: Place)
    requires sh.Valid()
    reads at.Values`latticeIdx
    decreases sh.h - q.level
  {
    && q in at && BlockOf(at, q) in net
    && (q == p || (q.level < sh.h && Reaches(sh, at, net, p, Parent(sh.k, q))))
  }

  /** below names exactly the nodes reached from each node. */
  ghost predicate BelowRight(sh: Shape, at: Nodes, w: World)
    requires sh.Valid()
    reads at.Values`latticeIdx
  {
    forall p, q :: p in at && q in at ==>
      (at[p].latticeIdx in w.below && at[q].latticeIdx in w.below[at[p].latticeIdx] <==> Reaches(sh, at, w.net, p, q))
  }

  /** Such a map exists. */
  lemma BelowExists(sh: Shape, at: Nodes, net: Store, n: nat) returns (below: map<nat, set<nat>>)
    requires sh.Valid() && DistinctLabels(at, n)
    ensures forall p, q :: p in at && q in at ==>
              (at[p].latticeIdx in below && at[q].latticeIdx in below[at[p].latticeIdx] <==> Reaches(sh, at, net, p, q))
  {
    hide Reaches;
    var labels := set p | p in at :: at[p].latticeIdx;
    below := map x | x in labels :: set p, q | p in at && q in at && at[p].latticeIdx == x && Reaches(sh, at, net, p, q) :: at[q].latticeIdx;
  }

  lemma {:induction false} ReachesTop(sh: Shape, at: Nodes, net: Store, p: Place, q: Place)
    requires sh.Valid() && Reaches(sh, at, net, p, q)
    ensures p in at && BlockOf(at, p) in net && q in at && BlockOf(at, q) in net
    decreases sh.h - q.level
  {
    if q != p {
      ReachesTop(sh, at, net, p, Parent(sh.k, q));
    }
  }

  /** What becomes available with a node's identifier: exactly the nodes reached from it. */
  lemma GainIff(sh: Shape, at: Nodes, w: World, n: nat, p: Place, q: Place)
    requires sh.Valid() && DistinctLabels(at, n) && BelowRight(sh, at, w) && p in at && q in at
    ensures BlockOf(at, q) in Gain(w, at[p].latticeIdx) <==> Reaches(sh, at, w.net, p, q)
  {
    if Reaches(sh, at, w.net, p, q) {
      ReachesTop(sh, at, w.net, p, q);
    }
    assert at[p].latticeIdx in w.below && at[q].latticeIdx in w.below[at[p].latticeIdx] <==> Reaches(sh, at, w.net, p, q);
    if p == q && BlockOf(at, q) in w.net {
      assert Reaches(sh, at, w.net, p, q);
    }
  }

  /**
    After the walk over a file, with or without error, a data block can be downloaded if and only if it is in
    the network and is that of a visited node, or lies below one with only nodes of the network between; and a
    parity if and only if it is in the network.
   */
  lemma DownloadableIff(g: Graph, sh: Shape, at: Nodes, childParent: map<nat, nat>, indexMap: map<nat, TreeNode>, w: World, depth: nat, m: nat, q: Place)
    requires FileTree(g, sh, at, childParent, indexMap) && sh.Valid() && BelowRight(sh, at, w) && q in at && 1 <= m <= g.n
    ensures |FileVisits(sh, at)| == |sh.Order()| == g.n && g.Valid() && Labels(g, FileVisits(sh, at)[..m]) && Covers(g, FreshState(g))
    ensures var vs, se, store := FileVisits(sh, at)[..m], Session(FreshState(g), 0), StartStore(w, FileVisits(sh, at)[0].index);
            && (BlockOf(at, q) in WalkAll(g, se, store, vs, depth, w).store <==>
                  exists x :: 0 <= x < Made(g, se, store, vs, depth, w) && Reaches(sh, at, w.net, sh.Order()[x], q))
            && forall k, i :: P(k, i) in WalkAll(g, se, store, vs, depth, w).store <==> P(k, i) in w.net
  {
    hide *;
    FileVisitsFacts(g, sh, at, childParent, indexMap);
    FileTreeFacts(g, sh, at, childParent, indexMap);
    FileVisitsAre(sh, at);
    NewGoing(g, FileVisits(sh, at), w);
    LabelsTo(g, FileVisits(sh, at), m);
    var vs, se, store := FileVisits(sh, at)[..m], Session(FreshState(g), 0), StartStore(w, FileVisits(sh, at)[0].index);
    var made, b := Made(g, se, store, vs, depth, w), BlockOf(at, q);
    WalkGains(g, se, store, vs, depth, w, b);
    BlockIsData(at, q);
    StartStoreIs(w, FileVisits(sh, at)[0].index, b);
    forall x | 0 <= x < made
      ensures b in Gain(w, vs[x].index) <==> Reaches(sh, at, w.net, sh.Order()[x], q)
    {
      assert vs[x] == FileVisits(sh, at)[x] && sh.Order()[x] in sh.Order();
      VisitAt(at, sh.Order(), x);
      GainIff(sh, at, w, g.n, sh.Order()[x], q);
    }
    assert vs[0] == FileVisits(sh, at)[0];
    forall k, i
      ensures P(k, i) in WalkAll(g, se, store, vs, depth, w).store <==> P(k, i) in w.net
    {
      WalkGains(g, se, store, vs, depth, w, P(k, i));
      StartStoreIs(w, FileVisits(sh, at)[0].index, P(k, i));
    }
  }

  lemma BlockIsData(at: Nodes, q: Place)
    requires q in at
    ensures BlockOf(at, q).D?
  {
  }

  lemma StartStoreIs(w: World, root: nat, b: Node)
    ensures b.D? ==> (b in StartStore(w, root) <==> b in Gain(w, root))
    ensures b.P? ==> (b in StartStore(w, root) <==> b in w.net)
    ensures b.P? ==> forall x: nat :: b !in Gain(w, x)
  {
    hide Gain;
  }

  // ----- and for the getter

  /** The lattice's view of the network agrees with the objects that can be fetched. */
  ghost predicate SameNet(sh: Shape, at: Nodes, up: LazyResolve.Upload, shell: LazyResolve.Network, lost: set<Place>, w: World)
    requires sh.Valid() && LazyResolve.Published(sh, up, shell)
    reads at.Values`latticeIdx
  {
    && (forall q :: q in at <==> sh.Has(q))
    && forall q :: q in at ==> (BlockOf(at, q) in w.net <==> q !in lost && up.cid[q] in shell)
  }

  /** From the root, reaching a node in the network is being able to fetch it and all nodes above it. */
  lemma {:induction false} ReachesIffAlive(sh: Shape, at: Nodes, up: LazyResolve.Upload, shell: LazyResolve.Network, lost: set<Place>, w: World, q: Place)
    requires sh.Valid() && LazyResolve.Published(sh, up, shell) && SameNet(sh, at, up, shell, lost, w) && sh.Has(q)
    ensures Reaches(sh, at, w.net, sh.Root(), q) <==> LazyResolve.Alive(sh, up, shell, lost, q)
    decreases sh.h - q.level
  {
    sh.BelowRoot(q);
    if q.level < sh.h {
      ParentInTree(sh.l, sh.k, sh.h, q);
      ReachesIffAlive(sh, at, up, shell, lost, w, Parent(sh.k, q));
    }
  }

  /**
    What can be downloaded when a walk starts is what the getter answers: a request for a node's content, with
    any cache filled by requests, succeeds if and only if the node's data block is in the start store.
   */
  lemma StartStoreIsGetter(sh: Shape, at: Nodes, up: LazyResolve.Upload, shell: LazyResolve.Network, lost: set<Place>, w: World,
                           n: nat, cache: LazyResolve.Cache, q: Place)
    requires sh.Valid() && LazyResolve.Published(sh, up, shell) && SameNet(sh, at, up, shell, lost, w)
    requires DistinctLabels(at, n) && BelowRight(sh, at, w) && q in at && sh.Root() in at
    requires LazyResolve.CacheTrue(sh, up, cache) && LazyResolve.Earned(sh, up, shell, lost, cache)
    ensures sh.Has(q)
    ensures LazyResolve.Resolve(sh, up, shell, lost, cache, q).ok <==> BlockOf(at, q) in StartStore(w, at[sh.Root()].latticeIdx)
  {
    hide LazyResolve.CacheTrue, LazyResolve.Earned, LazyResolve.Published, LazyResolve.Resolve, Reaches, LazyResolve.Alive, StartStore, Gain, Shape.Has, BelowRight, DistinctLabels;
    LazyResolve.ResolveIffAlive(sh, up, shell, lost, cache, q);
    ReachesIffAlive(sh, at, up, shell, lost, w, q);
    GainIff(sh, at, w, n, sh.Root(), q);
    StartStoreIs(w, at[sh.Root()].latticeIdx, BlockOf(at, q));
  }

  // ----- a lost inner node

  /** Node q lies at or below one of the first m visited nodes, reached in the network; so its block can be downloaded. */
  lemma ReachedIsStored(g: Graph, sh: Shape, at: Nodes, childParent: map<nat, nat>, indexMap: map<nat, TreeNode>, w: World, depth: nat, m: nat, x: nat, q: Place)
    requires FileTree(g, sh, at, childParent, indexMap) && sh.Valid() && BelowRight(sh, at, w) && q in at && x < m <= g.n
    requires |sh.Order()| == g.n && Reaches(sh, at, w.net, sh.Order()[x], q)
    requires g.Valid() && |FileVisits(sh, at)| == g.n && Labels(g, FileVisits(sh, at)[..m]) && Covers(g, FreshState(g))
    requires WalkAll(g, Session(FreshState(g), 0), StartStore(w, FileVisits(sh, at)[0].index), FileVisits(sh, at)[..m], depth, w).ok
    ensures BlockOf(at, q) in
              WalkAll(g, Session(FreshState(g), 0), StartStore(w, FileVisits(sh, at)[0].index), FileVisits(sh, at)[..m], depth, w).store
    ensures forall k, i :: P(k, i) in w.net ==>
              P(k, i) in WalkAll(g, Session(FreshState(g), 0), StartStore(w, FileVisits(sh, at)[0].index), FileVisits(sh, at)[..m], depth, w).store
  {
    hide *;
    DownloadableIff(g, sh, at, childParent, indexMap, w, depth, m, q);
  }

  lemma TrueNonEmpty(g: Graph, data: seq<Chunk>, store: Store, net: Store, st: State)
    requires g.Valid() && |data| == g.n && Covers(g, st) && Honest(g, data, net) && Part(store, net) && Correct(g, data, st)
    ensures NonEmpty(g, store, st)
  {
    hide Same, Value;
  }

  lemma GoingQuiet(g: Graph, low: Store, w: World, se: Session, store: Store)
    requires Going(g, low, w, se, store)
    ensures Covers(g, se.st) && Quiet(g, se.st) && Part(store, w.net)
  {
  }

  /** One visit of an inner node of the first column whose next block, on some strand, can be downloaded with its parity. */
  lemma VisitFromNext(g: Graph, data: seq<Chunk>, low: Store, w: World, se: Session, store: Store, vs: seq<Visit>, m: nat, depth: nat, k: nat)
    requires g.Valid() && TwoColumns(g) && |data| == g.n && Labels(g, vs) && m < |vs| && !vs[m].Leaf() && depth >= 2
    requires TrueWorld(g, data, vs, w) && Going(g, low, w, se, store) && Covers(g, se.st) && Correct(g, data, se.st)
    requires In(g, P(k, vs[m].index + 1)) && Col(g.s, vs[m].index + 1) == 0 && NonZeroEnds(data[vs[m].index])
    requires D(Next(g.s, g.n, k, vs[m].index + 1)) in store && P(k, Next(g.s, g.n, k, vs[m].index + 1)) in store
    ensures var r := WalkOne(g, se, store, vs[m], depth, w);
            r.ok && r.failed == [] && In(g, D(vs[m].index + 1)) && Available(r.se.st[D(vs[m].index + 1)])
  {
    hide *;
    var i := vs[m].index + 1;
    var store' := store + Gain(w, vs[m].index);
    GoingQuiet(g, low, w, se, store);
    GainPart(w, store, vs[m].index);
    TrueFacts(g, data, vs, w);
    TrueNonEmpty(g, data, store', w.net, se.st);
    NextDefined(g, k, i);
    NextWithinIs(g, store', se.st, i, k);
    InStore(g, store', se.st, D(Next(g.s, g.n, k, i)));
    InStore(g, store', se.st, P(k, Next(g.s, g.n, k, i)));
    WalkOneIs(g, se, store, vs[m], depth, w);
    NotALeaf(vs[m]);
    NextGives(g, store', se.st, i, k, se.counter, depth);
    ServeIs(g, se, Request(D(i), depth, store'));
    VisitOkIff(g, data, low, w, se, store, vs, m, depth);
    VisitKeeps(g, low, w, se, store, vs[m], depth);
  }

  lemma NextDefined(g: Graph, k: nat, i: nat)
    requires g.Valid() && In(g, P(k, i))
    ensures g.s >= 2 && k < 3 && 1 <= i <= g.n
  {
  }

  lemma NotALeaf(v: Visit)
    ensures v.Leaf() <==> v.children == 0
  {
  }

  lemma InStore(g: Graph, store: Store, st: State, b: Node)
    requires Covers(g, st) && In(g, b) && b in store
    ensures Within(g, store, st, b)
  {
  }

  /** The walk over the first m nodes of a file. */
  ghost function WalkTo(g: Graph, sh: Shape, at: Nodes, depth: nat, w: World, m: nat): (r: Outcome)
    requires g.Valid() && sh.Valid() && Labels(g, FileVisits(sh, at)) && 0 < m <= |FileVisits(sh, at)|
    reads at.Values`latticeIdx, at.Values`children
  {
    var vs := FileVisits(sh, at);
    LabelsTo(g, vs, m);
    WalkAll(g, Session(FreshState(g), 0), StartStore(w, vs[0].index), vs[..m], depth, w)
  }

  /**
    Visit m is of an inner node of the first column, and on strand k the next block is that of a node at or
    below visit x, reached in the network, which also has the parity leaving that block.
   */
  ghost predicate NextReached(g: Graph, sh: Shape, at: Nodes, w: World, m: nat, k: nat, x: nat, q: Place)
    requires g.Valid() && sh.Valid() && Labels(g, FileVisits(sh, at)) && x < m < |FileVisits(sh, at)| == |sh.Order()|
    reads at.Values`latticeIdx, at.Values`children
  {
    var v := FileVisits(sh, at)[m];
    && !v.Leaf() && k < g.alpha && Col(g.s, v.index + 1) == 0
    && q in at && BlockOf(at, q) == D(Next(g.s, g.n, k, v.index + 1)) && P(k, Next(g.s, g.n, k, v.index + 1)) in w.net
    && Reaches(sh, at, w.net, sh.Order()[x], q)
  }

  /**
    An inner node of the first column with non-zero ends is obtained with depth two, even if all parities
    leaving it are lost, when on some strand the next block lies at or below a node visited before, reached in
    the network, and the parity leaving that block is in the network.
   */
  lemma InnerNodeObtained(g: Graph, data: seq<Chunk>, sh: Shape, at: Nodes, childParent: map<nat, nat>, indexMap: map<nat, TreeNode>, w: World,
                          depth: nat, m: nat, k: nat, x: nat, q: Place)
    requires FileTree(g, sh, at, childParent, indexMap) && g.Valid() && TwoColumns(g) && sh.Valid() && BelowRight(sh, at, w) && depth >= 2
    requires Labels(g, FileVisits(sh, at)) && TrueWorld(g, data, FileVisits(sh, at), w)
    requires x < m < |FileVisits(sh, at)| == |sh.Order()| == |data| && NextReached(g, sh, at, w, m, k, x, q)
    requires WalkTo(g, sh, at, depth, w, m).ok && FileVisits(sh, at)[m].index < |data| && NonZeroEnds(data[FileVisits(sh, at)[m].index])
    ensures WalkTo(g, sh, at, depth, w, m + 1).ok
  {
    hide *;
    var vs, se, store := FileVisits(sh, at), Session(FreshState(g), 0), StartStore(w, FileVisits(sh, at)[0].index);
    FileVisitsFacts(g, sh, at, childParent, indexMap);
    FileTreeFacts(g, sh, at, childParent, indexMap);
    NewGoing(g, vs, w);
    WalkToIs(g, sh, at, depth, w, m);
    WalkToIs(g, sh, at, depth, w, m + 1);
    NextReachedFacts(g, sh, at, w, m, k, x, q);
    ReachedIsStored(g, sh, at, childParent, indexMap, w, depth, m, x, q);
    TrueFacts(g, data, vs, w);
    FreshCorrect(g, data, FreshState(g));
    assert vs[..m + 1][..m] == vs[..m];
    VisitIn(g, vs, m, k);
    WalkLast(g, se, store, vs[..m + 1], depth, w);
    var before := WalkAll(g, se, store, vs[..m], depth, w);
    WalkKeeps(g, store, w, se, store, vs[..m], depth);
    WalkCorrect(g, data, store, w, se, store, vs[..m], depth);
    NextDefined(g, k, vs[m].index + 1);
    VisitFromNext(g, data, store, w, before.se, before.store, vs, m, depth, k);
  }

  lemma WalkToIs(g: Graph, sh: Shape, at: Nodes, depth: nat, w: World, m: nat)
    requires g.Valid() && sh.Valid() && Labels(g, FileVisits(sh, at)) && 0 < m <= |FileVisits(sh, at)|
    ensures Labels(g, FileVisits(sh, at)[..m]) && Covers(g, FreshState(g))
    ensures WalkTo(g, sh, at, depth, w, m) ==
            WalkAll(g, Session(FreshState(g), 0), StartStore(w, FileVisits(sh, at)[0].index), FileVisits(sh, at)[..m], depth, w)
  {
    LabelsTo(g, FileVisits(sh, at), m);
    hide WalkAll, Labels, FileVisits, FreshState;
  }

  lemma NextReachedFacts(g: Graph, sh: Shape, at: Nodes, w: World, m: nat, k: nat, x: nat, q: Place)
    requires g.Valid() && sh.Valid() && Labels(g, FileVisits(sh, at)) && x < m < |FileVisits(sh, at)| == |sh.Order()|
    requires NextReached(g, sh, at, w, m, k, x, q)
    ensures var v := FileVisits(sh, at)[m];
            && !v.Leaf() && k < g.alpha && v.index < g.n && g.s >= 2 && k < 3 && Col(g.s, v.index + 1) == 0
            && q in at && BlockOf(at, q) == D(Next(g.s, g.n, k, v.index + 1)) && P(k, Next(g.s, g.n, k, v.index + 1)) in w.net
            && Reaches(sh, at, w.net, sh.Order()[x], q)
  {
    hide Reaches, Col, Next, FileVisits, Shape.Order;
  }

  lemma VisitIn(g: Graph, vs: seq<Visit>, m: nat, k: nat)
    requires Labels(g, vs) && m < |vs| && k < g.alpha
    ensures vs[m].index < g.n && In(g, P(k, vs[m].index + 1)) && In(g, D(vs[m].index + 1))
  {
  }
}
