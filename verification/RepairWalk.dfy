/**
  The walk that collects the failed leaves of a file, as a function of the lattice session and of what can be
  downloaded: inner nodes are repaired, leaves are only tried without repair, and those that fail are listed.
 */
module RepairWalk {
  import opened Bytes
  import opened Sequences
  import opened LatticeGraph
  import opened RecoverySearch
  import opened RecoveryTheorems

  /** One node of the walk: its label and the number of its children. */
  datatype Visit = Visit(index: nat, children: nat) {
    predicate Leaf() {
      children == 0
    }
  }

  /**
    What the walk finds outside.  net is what survives in the network; below names the nodes that can be
    reached from a node once its identifier is known; content is what the identifiers stand for, by label;
    uploads are the chunks that can be uploaded, links the numbers of links of the chunks that can be parsed.
   */
  datatype World = World(net: Store, below: map<nat, set<nat>>, content: seq<Chunk>, uploads: set<Chunk>, links: map<Chunk, nat>)

  /** The data that can be downloaded because the identifier of node x is known. */
  function Gain(w: World, x: nat): (gain: Store)
    ensures forall b :: b in gain ==> b in w.net && b.D? && gain[b] == w.net[b]
    ensures D(x + 1) in gain <==> D(x + 1) in w.net
    ensures D(x + 1) !in w.net ==> gain == map[]
  {
    if D(x + 1) !in w.net then map[] else
      map b | b in w.net && b.D? && (b.i == x + 1 || (x in w.below && b.i >= 1 && b.i - 1 in w.below[x])) :: w.net[b]
  }

  /** What can be downloaded when the identifiers of the root and of all parities are known. */
  function StartStore(w: World, root: nat): (store: Store)
    ensures Part(store, w.net) && forall b: Node :: b.P? ==> (b in store <==> b in w.net)
    ensures D(root + 1) !in w.net ==> forall b :: b in store ==> b.P?
  {
    (map b | b in w.net && b.P? :: w.net[b]) + Gain(w, root)
  }

  ghost predicate Part(store: Store, net: Store) {
    forall b :: b in store ==> b in net && store[b] == net[b]
  }

  /** What an inner node's content is parsed from: what was rebuilt is trimmed first. */
  function Raw(c: Cell): Chunk {
    if c.repaired then Trim(c.data) else c.data
  }

  /** What was rebuilt must be uploaded under the node's own identifier; and the content must name all children. */
  predicate Passes(w: World, v: Visit, c: Cell) {
    && (c.repaired ==> Raw(c) in w.uploads && v.index < |w.content| && Raw(c) == w.content[v.index])
    && Raw(c) in w.links && w.links[Raw(c)] == v.children
  }

  /** The lattice and what can be downloaded afterwards, whether the walk goes on, and the failed leaves. */
  datatype Outcome = Outcome(se: Session, store: Store, ok: bool, failed: seq<nat>)

  predicate Labels(g: Graph, vs: seq<Visit>) {
    forall x :: 0 <= x < |vs| ==> vs[x].index < g.n
  }

  function WalkOne(g: Graph, se: Session, store: Store, v: Visit, depth: nat, w: World): (r: Outcome)
    requires g.Valid() && Covers(g, se.st) && v.index < g.n
    ensures Covers(g, r.se.st)
  {
    var store' := store + Gain(w, v.index);
    var (se', answer) := Serve(g, se, Request(D(v.index + 1), if v.Leaf() then 1 else depth, store'));
    if v.Leaf() then Outcome(se', store', true, if answer.Failed? then [v.index] else [])
    else Outcome(se', store', answer.Got? && Passes(w, v, se'.st[D(v.index + 1)]), [])
  }

  /** The walk over a list of nodes; it ends at an inner node that cannot be obtained, uploaded or parsed. */
  function WalkAll(g: Graph, se: Session, store: Store, vs: seq<Visit>, depth: nat, w: World): (r: Outcome)
    requires g.Valid() && Covers(g, se.st) && Labels(g, vs)
    ensures Covers(g, r.se.st)
  {
    if vs == [] then Outcome(se, store, true, []) else
      var before := WalkAll(g, se, store, vs[..|vs| - 1], depth, w);
      if !before.ok then before else
        var r := WalkOne(g, before.se, before.store, vs[|vs| - 1], depth, w);
        Outcome(r.se, r.store, r.ok, before.failed + r.failed)
  }

  lemma {:induction false} WalkAppend(g: Graph, se: Session, store: Store, us: seq<Visit>, vs: seq<Visit>, depth: nat, w: World)
    requires g.Valid() && Covers(g, se.st) && Labels(g, us) && Labels(g, vs)
    ensures Labels(g, us + vs)
    ensures var first := WalkAll(g, se, store, us, depth, w);
            WalkAll(g, se, store, us + vs, depth, w) ==
            if !first.ok then first else
              var second := WalkAll(g, first.se, first.store, vs, depth, w);
              Outcome(second.se, second.store, second.ok, first.failed + second.failed)
  {
    hide *;
    LabelsMean(g, us);
    LabelsMean(g, vs);
    LabelsMean(g, us + vs);
    if vs == [] {
      assert us + vs == us;
      NothingWalked(g, WalkAll(g, se, store, us, depth, w).se, WalkAll(g, se, store, us, depth, w).store, depth, w);
    } else {
      var l := |vs| - 1;
      LabelsMean(g, vs[..l]);
      WalkAppend(g, se, store, us, vs[..l], depth, w);
      assert (us + vs)[..|us| + l] == us + vs[..l];
      var first := WalkAll(g, se, store, us, depth, w);
      WalkLast(g, se, store, us + vs, depth, w);
      WalkLast(g, first.se, first.store, vs, depth, w);
    }
  }

  lemma LabelsMean(g: Graph, vs: seq<Visit>)
    ensures Labels(g, vs) <==> forall x :: 0 <= x < |vs| ==> vs[x].index < g.n
  {
  }

  lemma NothingWalked(g: Graph, se: Session, store: Store, depth: nat, w: World)
    requires g.Valid() && Covers(g, se.st)
    ensures Labels(g, []) && WalkAll(g, se, store, [], depth, w) == Outcome(se, store, true, [])
  {
  }

  lemma WalkOfOne(g: Graph, se: Session, store: Store, v: Visit, depth: nat, w: World)
    requires g.Valid() && Covers(g, se.st) && v.index < g.n
    ensures Labels(g, [v])
    ensures WalkAll(g, se, store, [v], depth, w) == WalkOne(g, se, store, v, depth, w)
    ensures WalkAll(g, se, store, [], depth, w) == Outcome(se, store, true, [])
  {
    hide WalkOne;
    assert [v][..0] == [];
  }

  lemma WalkOneIs(g: Graph, se: Session, store: Store, v: Visit, depth: nat, w: World)
    requires g.Valid() && Covers(g, se.st) && v.index < g.n
    ensures In(g, D(v.index + 1))
    ensures var store' := store + Gain(w, v.index);
            var (se', answer) := Serve(g, se, Request(D(v.index + 1), if v.Leaf() then 1 else depth, store'));
            && Covers(g, se'.st)
            && WalkOne(g, se, store, v, depth, w) ==
               if v.Leaf() then Outcome(se', store', true, if answer.Failed? then [v.index] else [])
               else Outcome(se', store', answer.Got? && Passes(w, v, se'.st[D(v.index + 1)]), [])
  {
    hide Serve;
  }

  /** With the identifier of a node known, the node can be downloaded if it is in the network at all. */
  lemma GainPart(w: World, store: Store, x: nat)
    requires Part(store, w.net)
    ensures Part(store + Gain(w, x), w.net)
    ensures D(x + 1) in store + Gain(w, x) <==> D(x + 1) in w.net
    ensures forall b :: b in store ==> b in store + Gain(w, x)
  {
  }

  // ----- which leaves are listed

  /** Blocks held unrepaired came from the network; what was rebuilt could not be downloaded at the start. */
  ghost predicate Sourced(g: Graph, low: Store, net: Store, st: State)
    requires Covers(g, st)
  {
    forall b :: In(g, b) && Available(st[b]) ==> if st[b].repaired then b !in low else b in net && st[b].data == net[b]
  }

  ghost predicate Between(low: Store, store: Store, net: Store) {
    (forall b :: b in low ==> b in store) && Part(store, net)
  }

  lemma {:induction false} SearchSourced(g: Graph, low: Store, net: Store, store: Store, st: State, b: Node, rid: nat, d: nat)
    requires g.Valid() && Covers(g, st) && In(g, b) && d >= 1 && Between(low, store, net) && Sourced(g, low, net, st)
    ensures Sourced(g, low, net, Search(g, store, st, b, rid, d))
    decreases d, 0, 0
  {
    hide Pairs, TryPairs;
    if st[b].status == NoData && b !in store && d > 1 {
      var st1 := st[b := Started(st[b], rid)];
      TryPairsSourced(g, low, net, store, st1, b, rid, d - 1, 0);
      TryPairsGrows(g, store, st1, b, rid, d - 1, 0);
    }
  }

  lemma {:induction false} TryPairsSourced(g: Graph, low: Store, net: Store, store: Store, st: State, b: Node, rid: nat, d: nat, j: nat)
    requires g.Valid() && Covers(g, st) && In(g, b) && d >= 1 && j <= |Pairs(g, b)| && b !in store
    requires st[b].status == RepairPending && Between(low, store, net) && Sourced(g, low, net, st)
    ensures Sourced(g, low, net, TryPairs(g, store, st, b, rid, d, j).0)
    decreases d, 1, |Pairs(g, b)| - j
  {
    hide Pairs, Search, Xor;
    if j < |Pairs(g, b)| {
      var p := Pairs(g, b)[j];
      var st1 := Search(g, store, st, p.left, rid, d);
      SearchSourced(g, low, net, store, st, p.left, rid, d);
      SearchGrows(g, store, st, p.left, rid, d);
      if !Available(st1[p.left]) {
        TryPairsSourced(g, low, net, store, st1, b, rid, d, j + 1);
      } else {
        var st2 := Search(g, store, st1, p.right, rid, d);
        SearchSourced(g, low, net, store, st1, p.right, rid, d);
        SearchGrows(g, store, st1, p.right, rid, d);
        if !Available(st2[p.right]) || st2[p.left].data == [] || st2[p.right].data == [] {
          TryPairsSourced(g, low, net, store, st2, b, rid, d, j + 1);
        }
      }
    }
  }

  /** What a walk needs to know of the lattice. */
  ghost predicate Ready(g: Graph, low: Store, net: Store, st: State) {
    Covers(g, st) && Quiet(g, st) && Sourced(g, low, net, st)
  }

  /** One call keeps the lattice ready and blocks held; without repair it answers what is held or can be downloaded. */
  lemma ServeReady(g: Graph, low: Store, net: Store, se: Session, b: Node, depth: nat, store: Store)
    requires g.Valid() && In(g, b) && Between(low, store, net) && Ready(g, low, net, se.st)
    ensures var (se', answer) := Serve(g, se, Request(b, depth, store));
            && Ready(g, low, net, se'.st) && Kept(g, se.st, se'.st)
            && (answer.Got? ==> Available(se'.st[b]))
            && (depth == 1 ==> (answer.Got? <==> Available(se.st[b]) || b in store))
            && (depth >= 1 && b in store ==> answer.Got?)
  {
    if depth >= 1 {
      EndsQuiet(g, store, se.st, b, se.counter, depth);
      SearchSourced(g, low, net, store, se.st, b, se.counter, depth);
      SearchGrows(g, store, se.st, b, se.counter, depth);
      DepthOneAnswer(g, store, se.st, b, se.counter);
      DownloadAnswer(g, store, se.st, b, se.counter, depth);
    }
    hide Search, Sourced, Between;
  }

  lemma DepthOneAnswer(g: Graph, store: Store, st: State, b: Node, rid: nat)
    requires g.Valid() && Covers(g, st) && In(g, b) && st[b].status != RepairPending
    ensures Available(Search(g, store, st, b, rid, 1)[b]) <==> Available(st[b]) || b in store
  {
  }

  lemma DownloadAnswer(g: Graph, store: Store, st: State, b: Node, rid: nat, d: nat)
    requires g.Valid() && Covers(g, st) && In(g, b) && st[b].status != RepairPending && d >= 1
    ensures b in store ==> Available(Search(g, store, st, b, rid, d)[b])
  {
  }

  ghost predicate Kept(g: Graph, st: State, st': State)
    requires Covers(g, st) && Covers(g, st')
  {
    forall b :: In(g, b) && Available(st[b]) ==> st'[b] == st[b]
  }

  /** A lattice and a store from which a walk can go on. */
  ghost predicate Going(g: Graph, low: Store, w: World, se: Session, store: Store) {
    Ready(g, low, w.net, se.st) && Between(low, store, w.net)
  }

  lemma GoingCovers(g: Graph, low: Store, w: World, se: Session, store: Store)
    requires Going(g, low, w, se, store)
    ensures Covers(g, se.st)
  {
  }

  /** One visit keeps the lattice and the store in order, and a leaf is listed if it is neither held nor in the network. */
  lemma VisitKeeps(g: Graph, low: Store, w: World, se: Session, store: Store, v: Visit, depth: nat)
    requires g.Valid() && v.index < g.n && Going(g, low, w, se, store)
    ensures Covers(g, se.st) && In(g, D(v.index + 1))
    ensures var r := WalkOne(g, se, store, v, depth, w);
            && Going(g, low, w, r.se, r.store) && Kept(g, se.st, r.se.st)
            && (v.Leaf() ==> r.ok && r.failed == if Available(se.st[D(v.index + 1)]) || D(v.index + 1) in w.net then [] else [v.index])
            && (!v.Leaf() ==> r.failed == [] && (depth >= 1 && D(v.index + 1) in w.net ==> Available(r.se.st[D(v.index + 1)])))
            && (r.ok && v.index !in r.failed ==> Available(r.se.st[D(v.index + 1)]))
  {
    hide Ready, Serve, Kept, WalkOne, Passes;
    ReadyCovers(g, low, w.net, se.st);
    WalkOneIs(g, se, store, v, depth, w);
    GainPart(w, store, v.index);
    var store' := store + Gain(w, v.index);
    ServeReady(g, low, w.net, se, D(v.index + 1), if v.Leaf() then 1 else depth, store');
  }

  lemma ReadyCovers(g: Graph, low: Store, net: Store, st: State)
    requires Ready(g, low, net, st)
    ensures Covers(g, st)
  {
  }

  lemma {:induction false} WalkKeeps(g: Graph, low: Store, w: World, se: Session, store: Store, vs: seq<Visit>, depth: nat)
    requires g.Valid() && Labels(g, vs) && Going(g, low, w, se, store)
    ensures Covers(g, se.st)
    ensures var r := WalkAll(g, se, store, vs, depth, w);
            Going(g, low, w, r.se, r.store) && Kept(g, se.st, r.se.st)
  {
    hide Going, WalkOne;
    GoingCovers(g, low, w, se, store);
    if vs != [] {
      var l := |vs| - 1;
      WalkKeeps(g, low, w, se, store, vs[..l], depth);
      var before := WalkAll(g, se, store, vs[..l], depth, w);
      if before.ok {
        VisitKeeps(g, low, w, before.se, before.store, vs[l], depth);
      }
    }
  }

  /** The label of a leaf is listed exactly when the leaf is neither held when it is visited nor in the network. */
  ghost predicate ListedRight(g: Graph, se: Session, store: Store, vs: seq<Visit>, depth: nat, w: World, x: nat)
    requires g.Valid() && Covers(g, se.st) && Labels(g, vs) && x < |vs|
  {
    var leaf := D(vs[x].index + 1);
    && In(g, leaf) && Labels(g, vs[..x])
    && (vs[x].index in WalkAll(g, se, store, vs, depth, w).failed <==>
          !Available(WalkAll(g, se, store, vs[..x], depth, w).se.st[leaf]) && leaf !in w.net)
  }

  predicate DistinctVisits(vs: seq<Visit>) {
    forall x, y :: 0 <= x < y < |vs| ==> vs[x].index != vs[y].index
  }

  /** Only leaves that were visited are listed, once each. */
  lemma {:induction false} ListedOnce(g: Graph, se: Session, store: Store, vs: seq<Visit>, depth: nat, w: World)
    requires g.Valid() && Covers(g, se.st) && Labels(g, vs) && DistinctVisits(vs)
    ensures var failed := WalkAll(g, se, store, vs, depth, w).failed;
            && NoRepeat(failed) && forall y :: y in failed ==> Visit(y, 0) in vs
  {
    hide Serve;
    if vs != [] {
      ListedOnce(g, se, store, vs[..|vs| - 1], depth, w);
    }
  }

  /** All visits but the last. */
  lemma InitOf(g: Graph, vs: seq<Visit>)
    requires Labels(g, vs) && DistinctVisits(vs) && vs != []
    ensures var l := |vs| - 1;
            && Labels(g, vs[..l]) && DistinctVisits(vs[..l]) && vs[l].index < g.n
            && forall x :: 0 <= x < l ==> vs[..l][x] == vs[x] && vs[..l][..x] == vs[..x] && vs[x].index != vs[l].index
  {
  }

  lemma WalkLast(g: Graph, se: Session, store: Store, vs: seq<Visit>, depth: nat, w: World)
    requires g.Valid() && Covers(g, se.st) && Labels(g, vs) && vs != [] && Labels(g, vs[..|vs| - 1]) && vs[|vs| - 1].index < g.n
    ensures var (before, v) := (WalkAll(g, se, store, vs[..|vs| - 1], depth, w), vs[|vs| - 1]);
            WalkAll(g, se, store, vs, depth, w) ==
            if !before.ok then before else
              var r := WalkOne(g, before.se, before.store, v, depth, w);
              Outcome(r.se, r.store, r.ok, before.failed + r.failed)
  {
    hide WalkOne;
  }

  /**
    In a walk without error a leaf is listed if and only if it is not in the network and not held at the time
    of its visit.
   */
  lemma {:induction false} ListedIff(g: Graph, low: Store, se: Session, store: Store, vs: seq<Visit>, depth: nat, w: World, x: nat)
    requires g.Valid() && Labels(g, vs) && DistinctVisits(vs) && Going(g, low, w, se, store)
    requires Covers(g, se.st) && WalkAll(g, se, store, vs, depth, w).ok && x < |vs| && vs[x].Leaf()
    ensures ListedRight(g, se, store, vs, depth, w, x)
  {
    hide Going, Serve, WalkAll, Labels, DistinctVisits, WalkOne, NoRepeat;
    InitOf(g, vs);
    var l := |vs| - 1;
    var init := vs[..l];
    WalkLast(g, se, store, vs, depth, w);
    var before := WalkAll(g, se, store, init, depth, w);
    ListedOnce(g, se, store, init, depth, w);
    WalkKeeps(g, low, w, se, store, init, depth);
    VisitKeeps(g, low, w, before.se, before.store, vs[l], depth);
    if x < l {
      ListedIff(g, low, se, store, init, depth, w, x);
    }
  }

  /** Every listed leaf, even if the walk ends with an error, is not in the network and was not held at the start. */
  lemma {:induction false} ListedMissing(g: Graph, low: Store, se: Session, store: Store, vs: seq<Visit>, depth: nat, w: World, y: nat)
    requires g.Valid() && Labels(g, vs) && Going(g, low, w, se, store)
    requires Covers(g, se.st) && y in WalkAll(g, se, store, vs, depth, w).failed
    ensures In(g, D(y + 1)) && D(y + 1) !in w.net && !Available(se.st[D(y + 1)])
  {
    hide Going, WalkOne;
    var l := |vs| - 1;
    var before := WalkAll(g, se, store, vs[..l], depth, w);
    if y in before.failed {
      ListedMissing(g, low, se, store, vs[..l], depth, w, y);
    } else {
      WalkKeeps(g, low, w, se, store, vs[..l], depth);
      VisitKeeps(g, low, w, before.se, before.store, vs[l], depth);
    }
  }

  /**
    A leaf not listed by a walk without error is held afterwards: it was downloaded, or rebuilt as a
    by-product of repairing an inner node, and then it could not be downloaded at the start.
   */
  lemma {:induction false} UnlistedIff(g: Graph, low: Store, se: Session, store: Store, vs: seq<Visit>, depth: nat, w: World, x: nat)
    requires g.Valid() && Labels(g, vs) && DistinctVisits(vs) && Going(g, low, w, se, store)
    requires Covers(g, se.st) && WalkAll(g, se, store, vs, depth, w).ok && x < |vs| && vs[x].Leaf()
    requires vs[x].index !in WalkAll(g, se, store, vs, depth, w).failed
    ensures In(g, D(vs[x].index + 1))
    ensures var leaf, c := D(vs[x].index + 1), WalkAll(g, se, store, vs, depth, w).se.st[D(vs[x].index + 1)];
            && Available(c) && if c.repaired then leaf !in low else leaf in w.net && c.data == w.net[leaf]
  {
    hide Going, WalkAll, Labels, DistinctVisits, WalkOne;
    InitOf(g, vs);
    var l := |vs| - 1;
    var init := vs[..l];
    WalkLast(g, se, store, vs, depth, w);
    var before := WalkAll(g, se, store, init, depth, w);
    WalkKeeps(g, low, w, se, store, init, depth);
    WalkKeeps(g, low, w, se, store, vs, depth);
    VisitKeeps(g, low, w, before.se, before.store, vs[l], depth);
    if x < l {
      UnlistedIff(g, low, se, store, init, depth, w, x);
    }
    GoingSourced(g, low, w, WalkAll(g, se, store, vs, depth, w).se, WalkAll(g, se, store, vs, depth, w).store);
  }

  lemma GoingSourced(g: Graph, low: Store, w: World, se: Session, store: Store)
    requires Going(g, low, w, se, store)
    ensures Covers(g, se.st) && Sourced(g, low, w.net, se.st)
  {
  }

  /** What a walk without error has seen to: the inner node's content, as parsed, and how it got back into the network. */
  ghost predicate SeenTo(w: World, v: Visit, c: Cell) {
    var raw := if c.repaired then Trim(c.data) else c.data;
    && Available(c) && raw in w.links && w.links[raw] == v.children
    && (c.repaired ==> raw in w.uploads && v.index < |w.content| && raw == w.content[v.index])
  }

  /**
    After a walk without error every visited inner node is held, its content names as many children as the tree
    has, and what was rebuilt was uploaded and is what the node's identifier stands for.
   */
  lemma {:induction false} InnersSeenTo(g: Graph, low: Store, se: Session, store: Store, vs: seq<Visit>, depth: nat, w: World, x: nat)
    requires g.Valid() && Labels(g, vs) && DistinctVisits(vs) && Going(g, low, w, se, store)
    requires Covers(g, se.st) && WalkAll(g, se, store, vs, depth, w).ok && x < |vs| && !vs[x].Leaf()
    ensures In(g, D(vs[x].index + 1)) && SeenTo(w, vs[x], WalkAll(g, se, store, vs, depth, w).se.st[D(vs[x].index + 1)])
  {
    hide Going, WalkAll, Labels, DistinctVisits, WalkOne, SeenTo, Passes, Serve, Kept;
    InitOf(g, vs);
    var l := |vs| - 1;
    var init := vs[..l];
    WalkLast(g, se, store, vs, depth, w);
    var before := WalkAll(g, se, store, init, depth, w);
    WalkKeeps(g, low, w, se, store, init, depth);
    GoingCovers(g, low, w, before.se, before.store);
    VisitKeeps(g, low, w, before.se, before.store, vs[l], depth);
    WalkOneIs(g, before.se, before.store, vs[l], depth, w);
    if x < l {
      InnersSeenTo(g, low, se, store, init, depth, w, x);
      SeenToKept(g, w, vs[x], before.se.st, WalkOne(g, before.se, before.store, vs[l], depth, w).se.st);
    } else {
      PassedIsSeenTo(w, vs[l], WalkOne(g, before.se, before.store, vs[l], depth, w).se.st[D(vs[l].index + 1)]);
    }
  }

  lemma SeenToKept(g: Graph, w: World, v: Visit, st: State, st': State)
    requires Covers(g, st) && Covers(g, st') && Kept(g, st, st') && In(g, D(v.index + 1)) && SeenTo(w, v, st[D(v.index + 1)])
    ensures SeenTo(w, v, st'[D(v.index + 1)])
  {
  }

  lemma PassedIsSeenTo(w: World, v: Visit, c: Cell)
    requires Passes(w, v, c) && Available(c)
    ensures SeenTo(w, v, c)
  {
    hide Trim;
  }

  // ----- when exactly the missing leaves are listed

  /** The list names exactly the leaves that are missing from the network. */
  ghost predicate Exact(w: World, vs: seq<Visit>, failed: seq<nat>) {
    forall x :: 0 <= x < |vs| && vs[x].Leaf() ==> (vs[x].index in failed <==> D(vs[x].index + 1) !in w.net)
  }

  /** No leaf is held that is not in the network. */
  ghost predicate LeavesKnown(g: Graph, w: World, vs: seq<Visit>, st: State)
    requires Covers(g, st) && Labels(g, vs)
  {
    forall x :: 0 <= x < |vs| && vs[x].Leaf() ==>
      var leaf := D(vs[x].index + 1);
      In(g, leaf) && (Available(st[leaf]) ==> leaf in w.net)
  }

  /** A search of depth one obtains nothing but the block itself, and that by download. */
  lemma DepthOneOnly(g: Graph, store: Store, st: State, b: Node, rid: nat)
    requires g.Valid() && Covers(g, st) && In(g, b)
    ensures forall n :: In(g, n) && Available(Search(g, store, st, b, rid, 1)[n]) ==> Available(st[n]) || n in store
  {
    hide Pairs;
  }

  lemma {:induction false} DepthOnePairsOnly(g: Graph, store: Store, st: State, b: Node, rid: nat, j: nat)
    requires g.Valid() && Covers(g, st) && In(g, b) && j <= |Pairs(g, b)|
    ensures forall n :: In(g, n) && n != b && Available(TryPairs(g, store, st, b, rid, 1, j).0[n]) ==> Available(st[n]) || n in store
    decreases |Pairs(g, b)| - j
  {
    hide Pairs, Search, Xor;
    if j < |Pairs(g, b)| {
      var p := Pairs(g, b)[j];
      var st1 := Search(g, store, st, p.left, rid, 1);
      DepthOneOnly(g, store, st, p.left, rid);
      if !Available(st1[p.left]) {
        DepthOnePairsOnly(g, store, st1, b, rid, j + 1);
      } else {
        var st2 := Search(g, store, st1, p.right, rid, 1);
        DepthOneOnly(g, store, st1, p.right, rid);
        if !Available(st2[p.right]) || st2[p.left].data == [] || st2[p.right].data == [] {
          DepthOnePairsOnly(g, store, st2, b, rid, j + 1);
        }
      }
    }
  }

  /** A search that downloads its block, or has depth two, obtains no other block but by download. */
  lemma ShallowOnly(g: Graph, store: Store, st: State, b: Node, rid: nat, d: nat)
    requires g.Valid() && Covers(g, st) && In(g, b) && d >= 1 && (d <= 2 || b in store)
    ensures forall n :: In(g, n) && n != b && Available(Search(g, store, st, b, rid, d)[n]) ==> Available(st[n]) || n in store
  {
    hide Pairs, TryPairs;
    if st[b].status == NoData && b !in store && d == 2 {
      DepthOnePairsOnly(g, store, st[b := Started(st[b], rid)], b, rid, 0);
    }
  }

  /** Every inner node is in the network, or repair has depth two at most. */
  ghost predicate InnersKept(w: World, vs: seq<Visit>, depth: nat) {
    depth <= 2 || forall x :: 0 <= x < |vs| && !vs[x].Leaf() ==> D(vs[x].index + 1) in w.net
  }

  lemma VisitKeepsLeaves(g: Graph, low: Store, w: World, se: Session, store: Store, vs: seq<Visit>, m: nat, depth: nat)
    requires g.Valid() && Labels(g, vs) && DistinctVisits(vs) && m < |vs| && Going(g, low, w, se, store)
    requires InnersKept(w, vs, depth) && Covers(g, se.st) && LeavesKnown(g, w, vs, se.st)
    ensures LeavesKnown(g, w, vs, WalkOne(g, se, store, vs[m], depth, w).se.st)
  {
    hide Serve, Ready, Passes, WalkOne, Gain;
    var v := vs[m];
    GainPart(w, store, v.index);
    var store' := store + Gain(w, v.index);
    WalkOneIs(g, se, store, v, depth, w);
    ServeOnly(g, se, D(v.index + 1), if v.Leaf() then 1 else depth, store');
    assert !v.Leaf() ==> depth <= 2 || D(v.index + 1) in w.net;
    var st := WalkOne(g, se, store, v, depth, w).se.st;
    forall x | 0 <= x < |vs| && vs[x].Leaf() && Available(st[D(vs[x].index + 1)])
      ensures D(vs[x].index + 1) in w.net
    {
      assert !v.Leaf() ==> vs[x].index != v.index;
    }
  }

  lemma ServeOnly(g: Graph, se: Session, b: Node, d: nat, store: Store)
    requires g.Valid() && Covers(g, se.st) && In(g, b)
    ensures var st := Serve(g, se, Request(b, d, store)).0.st;
            && (d <= 2 || b in store ==> forall n :: In(g, n) && n != b && Available(st[n]) ==> Available(se.st[n]) || n in store)
            && (d == 1 ==> (Available(st[b]) ==> Available(se.st[b]) || b in store))
  {
    hide Search;
    if d >= 1 && (d <= 2 || b in store) {
      ShallowOnly(g, store, se.st, b, se.counter, d);
      DepthOneOnly(g, store, se.st, b, se.counter);
    }
  }

  lemma {:induction false} WalkKeepsLeaves(g: Graph, low: Store, w: World, se: Session, store: Store, vs: seq<Visit>, m: nat, depth: nat)
    requires g.Valid() && Labels(g, vs) && DistinctVisits(vs) && m <= |vs| && Going(g, low, w, se, store)
    requires InnersKept(w, vs, depth) && Covers(g, se.st) && LeavesKnown(g, w, vs, se.st)
    ensures Labels(g, vs[..m]) && LeavesKnown(g, w, vs, WalkAll(g, se, store, vs[..m], depth, w).se.st)
  {
    hide Going, WalkOne, DistinctVisits, InnersKept, LeavesKnown;
    if m > 0 {
      assert vs[..m][..m - 1] == vs[..m - 1];
      WalkKeepsLeaves(g, low, w, se, store, vs, m - 1, depth);
      WalkKeeps(g, low, w, se, store, vs[..m - 1], depth);
      var before := WalkAll(g, se, store, vs[..m - 1], depth, w);
      if before.ok {
        VisitKeepsLeaves(g, low, w, before.se, before.store, vs, m - 1, depth);
      }
    }
  }

  /**
    If all inner nodes are in the network, or repair has depth two at most, and no missing leaf is held at the
    start, a walk without error lists exactly the missing leaves.
   */
  lemma ExactWalk(g: Graph, low: Store, w: World, se: Session, store: Store, vs: seq<Visit>, depth: nat)
    requires g.Valid() && Labels(g, vs) && DistinctVisits(vs) && Going(g, low, w, se, store)
    requires InnersKept(w, vs, depth) && Covers(g, se.st) && LeavesKnown(g, w, vs, se.st)
    requires WalkAll(g, se, store, vs, depth, w).ok
    ensures Exact(w, vs, WalkAll(g, se, store, vs, depth, w).failed)
  {
    hide Going, WalkAll, DistinctVisits, InnersKept, Labels;
    forall x | 0 <= x < |vs| && vs[x].Leaf()
      ensures vs[x].index in WalkAll(g, se, store, vs, depth, w).failed <==> D(vs[x].index + 1) !in w.net
    {
      ListedIff(g, low, se, store, vs, depth, w, x);
      WalkKeepsLeaves(g, low, w, se, store, vs, x, depth);
    }
  }

  // ----- a true network

  /**
    The network holds true chunks and parities, everything is uploaded when asked to, and the content of every
    inner node names its children.
   */
  ghost predicate TrueWorld(g: Graph, data: seq<Chunk>, vs: seq<Visit>, w: World)
    requires g.Valid()
  {
    && |data| == g.n && w.content == data && Honest(g, data, w.net)
    && (forall i :: 0 <= i < |data| ==> data[i] != [] && data[i] in w.uploads && (D(i + 1) in w.net ==> w.net[D(i + 1)] == data[i]))
    && forall x :: 0 <= x < |vs| && !vs[x].Leaf() && vs[x].index < |data| ==>
         data[vs[x].index] in w.links && w.links[data[vs[x].index]] == vs[x].children
  }

  lemma HonestPart(g: Graph, data: seq<Chunk>, store: Store, net: Store)
    requires g.Valid() && |data| == g.n && Honest(g, data, net) && Part(store, net)
    ensures Honest(g, data, store)
  {
    hide Value, Same;
  }

  lemma {:induction false} WalkCorrect(g: Graph, data: seq<Chunk>, low: Store, w: World, se: Session, store: Store, vs: seq<Visit>, depth: nat)
    requires g.Valid() && TwoColumns(g) && |data| == g.n && Labels(g, vs) && Going(g, low, w, se, store)
    requires Covers(g, se.st) && Honest(g, data, w.net) && Correct(g, data, se.st)
    ensures Correct(g, data, WalkAll(g, se, store, vs, depth, w).se.st)
  {
    hide Going, WalkOne, Honest, Correct;
    if vs != [] {
      var l := |vs| - 1;
      WalkCorrect(g, data, low, w, se, store, vs[..l], depth);
      var before := WalkAll(g, se, store, vs[..l], depth, w);
      if before.ok {
        WalkKeeps(g, low, w, se, store, vs[..l], depth);
        VisitCorrect(g, data, low, w, before.se, before.store, vs[l], depth);
      }
    }
  }

  lemma VisitCorrect(g: Graph, data: seq<Chunk>, low: Store, w: World, se: Session, store: Store, v: Visit, depth: nat)
    requires g.Valid() && TwoColumns(g) && |data| == g.n && v.index < g.n && Going(g, low, w, se, store)
    requires Covers(g, se.st) && Honest(g, data, w.net) && Correct(g, data, se.st)
    ensures Correct(g, data, WalkOne(g, se, store, v, depth, w).se.st)
  {
    hide Search, Ready, Honest, Correct, Passes, Gain;
    GainPart(w, store, v.index);
    var store' := store + Gain(w, v.index);
    HonestPart(g, data, store', w.net);
    var d := if v.Leaf() then 1 else depth;
    if d >= 1 {
      SearchCorrect(g, data, store', se.st, D(v.index + 1), se.counter, d);
    }
  }

  /**
    An inner node that has been obtained passes if and only if it was downloaded or its chunk has non-zero
    ends: trimming must give back what the identifier stands for.
   */
  lemma VisitOkIff(g: Graph, data: seq<Chunk>, low: Store, w: World, se: Session, store: Store, vs: seq<Visit>, m: nat, depth: nat)
    requires g.Valid() && TwoColumns(g) && |data| == g.n && Labels(g, vs) && m < |vs| && !vs[m].Leaf()
    requires TrueWorld(g, data, vs, w) && Going(g, low, w, se, store) && Covers(g, se.st) && Correct(g, data, se.st)
    ensures In(g, D(vs[m].index + 1))
    ensures var r, c := WalkOne(g, se, store, vs[m], depth, w), WalkOne(g, se, store, vs[m], depth, w).se.st[D(vs[m].index + 1)];
            r.ok <==> depth >= 1 && Available(c) && (c.repaired ==> NonZeroEnds(data[vs[m].index]))
  {
    var v := vs[m];
    hide Search, Ready, Honest, Gain, Same, Passes, Trim, Going;
    VisitCorrect(g, data, low, w, se, store, v, depth);
    VisitKeeps(g, low, w, se, store, v, depth);
    WalkOneIs(g, se, store, v, depth, w);
    var r := WalkOne(g, se, store, v, depth, w);
    GoingSourced(g, low, w, r.se, r.store);
    assert In(g, D(v.index + 1));
    if Available(r.se.st[D(v.index + 1)]) {
      PassesIff(g, data, vs, m, low, w, r.se.st);
    }
  }

  lemma PassesIff(g: Graph, data: seq<Chunk>, vs: seq<Visit>, m: nat, low: Store, w: World, st: State)
    requires g.Valid() && |data| == g.n && Labels(g, vs) && m < |vs| && !vs[m].Leaf() && In(g, D(vs[m].index + 1))
    requires TrueWorld(g, data, vs, w) && Covers(g, st) && Correct(g, data, st) && Sourced(g, low, w.net, st)
    requires Available(st[D(vs[m].index + 1)])
    ensures var c := st[D(vs[m].index + 1)];
            Passes(w, vs[m], c) <==> (c.repaired ==> NonZeroEnds(data[vs[m].index]))
  {
    hide Honest, Same, Trim;
    var c := st[D(vs[m].index + 1)];
    assert Same(c.data, data[vs[m].index]);
    TrimRestores(c.data, data[vs[m].index]);
  }
}
