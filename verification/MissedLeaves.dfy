/**
  A leaf that the walk misses: repairing a lost inner node rebuilds lost leaves on the way, and a leaf held by
  the lattice is not listed.
 */
module MissedLeaves {
  import opened Bytes
  import opened Geometry
  import opened Chains
  import opened LatticeGraph
  import opened RecoverySearch
  import opened RecoveryTheorems
  import opened RepairWalk

  // ----- a block rebuilt on the way

  /** An available block other than the one being rebuilt stays available. */
  lemma StaysAvailable(g: Graph, store: Store, st: State, b: Node, rid: nat, d: nat, j: nat, x: Node)
    requires g.Valid() && Covers(g, st) && In(g, b) && In(g, x) && d >= 1 && j <= |Pairs(g, b)|
    requires st[b].status == RepairPending && Available(st[x]) && x != b
    ensures Available(TryPairs(g, store, st, b, rid, d, j).0[x])
  {
    hide Pairs, TryPairs;
    TryPairsGrows(g, store, st, b, rid, d, j);
  }

  /** What the searches for pair j have made available stays so until the block is done. */
  lemma ObtainedOnTheWay(g: Graph, store: Store, st: State, b: Node, rid: nat, d: nat, j: nat, x: Node)
    requires g.Valid() && Covers(g, st) && In(g, b) && In(g, x) && x != b && d >= 1 && j < |Pairs(g, b)|
    requires st[b].status == RepairPending
    requires var p := Pairs(g, b)[j];
             var st1 := Search(g, store, st, p.left, rid, d);
             Available(st1[x]) || (Available(st1[p.left]) && Available(Search(g, store, st1, p.right, rid, d)[x]))
    ensures Available(TryPairs(g, store, st, b, rid, d, j).0[x])
  {
    hide Pairs, Search, Xor;
    var p := Pairs(g, b)[j];
    var st1 := Search(g, store, st, p.left, rid, d);
    SearchGrows(g, store, st, p.left, rid, d);
    if !Available(st1[p.left]) {
      StaysAvailable(g, store, st1, b, rid, d, j + 1, x);
    } else {
      var st2 := Search(g, store, st1, p.right, rid, d);
      SearchGrows(g, store, st1, p.right, rid, d);
      if !Available(st2[p.right]) || st2[p.left].data == [] || st2[p.right].data == [] {
        StaysAvailable(g, store, st2, b, rid, d, j + 1, x);
      }
    }
  }

  /** A pair of an available and a pending block is passed over. */
  lemma PassedOver(g: Graph, store: Store, st: State, b: Node, rid: nat, d: nat, j: nat)
    requires g.Valid() && Covers(g, st) && In(g, b) && d >= 1 && j < |Pairs(g, b)|
    requires Available(st[Pairs(g, b)[j].left]) && st[Pairs(g, b)[j].right].status == RepairPending
    ensures TryPairs(g, store, st, b, rid, d, j) == TryPairs(g, store, st, b, rid, d, j + 1)
  {
    hide Pairs, Xor;
  }

  lemma SearchIsRepair(g: Graph, store: Store, st: State, b: Node, rid: nat, d: nat)
    requires g.Valid() && Covers(g, st) && In(g, b) && d >= 2 && st[b].status == NoData && b !in store
    ensures var (st2, ok) := TryPairs(g, store, st[b := Started(st[b], rid)], b, rid, d - 1, 0);
            forall x :: In(g, x) && x != b ==> Search(g, store, st, b, rid, d)[x] == st2[x]
  {
    hide TryPairs;
  }

  lemma AtHandDerivable(g: Graph, store: Store, st: State, b: Node)
    requires g.Valid() && Covers(g, st) && In(g, b) && b in store && st[b].status != RepairPending
    ensures Derivable(g, store, st, b, 1)
  {
  }

  /**
    Block i in the first column and block j behind it on the horizontal chain are lost, and of the parities
    only the one between them.
   */
  ghost predicate LostPair(g: Graph, store: Store, i: nat) {
    && g.Valid() && TwoColumns(g) && 1 <= i <= g.s
    && (forall b :: In(g, b) && b.P? ==> (b in store <==> b != P(0, i)))
    && D(i) !in store && D(i + g.s) !in store
    && forall b :: In(g, b) && b in store ==> store[b] != []
  }

  /** Where the two blocks are, and which pairs repair tries. */
  lemma PairFacts(g: Graph, i: nat) returns (l: Node)
    requires g.Valid() && TwoColumns(g) && 1 <= i <= g.s
    ensures var j := i + g.s;
            && j <= g.n && Col(g.s, i) == 0 && Col(g.s, j) == 1 && Next(g.s, g.n, 0, i) == j
            && In(g, P(0, i)) && In(g, D(i)) && In(g, D(j)) && In(g, P(0, j)) && In(g, P(1, j))
    ensures In(g, l) && l.P? && l != P(0, i) && l == P(0, Prev(g.s, g.n, 0, i))
    ensures Pairs(g, P(0, i)) == [Pair(l, D(i))]
    ensures |Pairs(g, D(i))| >= 2 && Pairs(g, D(i))[0] == Pair(l, P(0, i))
    ensures Pairs(g, D(i))[1] == Pair(D(i + g.s), P(0, i + g.s))
  {
    hide Entering, Next, Prev, Col, Len, Chain;
    FirstRow(g.s, g.n, i);
    ChainsLong(g, 0, i);
    EnteringKind(g, 0, i);
    l := Entering(g, 0, i);
    PrevCoordinates(g.s, g.n, 0, i);
    NextPrevInverse(g.s, g.n, 0, i);
    DataPairsFirst(g, i, g.alpha);
  }

  lemma FirstRow(s: nat, n: nat, i: nat)
    requires s >= 2 && 1 <= i <= s && n >= 2 * s
    ensures Col(s, i) == 0 && Col(s, i + s) == 1 && Next(s, n, 0, i) == i + s
    ensures Next(s, n, 1, i) != i + s
  {
    BaseSmall(s);
    ColRowOf(s, 0, i - 1);
    ColRowOf(s, 1, i - 1);
    LenColumns(s, n, 0, Chain(s, 0, i), 2);
    LenColumns(s, n, 1, Chain(s, 1, i), 2);
    MemberOfChain(s, 0, i);
    MemberOfChain(s, 1, i);
    NextOfMember(s, n, 0, Chain(s, 0, i), 0);
    NextOfMember(s, n, 1, Chain(s, 1, i), 0);
    ForwardRow(s, 0, i);
    ForwardRow(s, 1, i);
  }

  lemma {:induction false} DataPairsFirst(g: Graph, i: nat, k: nat)
    requires g.Valid() && 1 <= i <= g.n && 1 <= k <= g.alpha
    ensures StrandPairs(g, i, 0) <= DataPairs(g, i, k)
  {
    if k > 1 {
      DataPairsFirst(g, i, k - 1);
    }
  }

  /** Only block i is pending. */
  ghost predicate OnlyPending(g: Graph, st: State, i: nat)
    requires Covers(g, st)
  {
    forall b :: In(g, b) ==> (st[b].status == RepairPending <==> b == D(i))
  }

  /** While block i is being repaired, block j can be rebuilt from the next strand. */
  lemma RebuiltAside(g: Graph, store: Store, st: State, i: nat, rid: nat, d: nat)
    requires LostPair(g, store, i) && Covers(g, st) && NonEmpty(g, store, st) && OnlyPending(g, st, i) && d >= 3
    ensures In(g, D(i + g.s)) && Available(Search(g, store, st, D(i + g.s), rid, d)[D(i + g.s)])
  {
    hide *;
    var j := i + g.s;
    LostFacts(g, store, i);
    var l := PairFacts(g, i);
    var h := AsideFacts(g, i);
    PendingFacts(g, store, st, i, j, h);
    DataPairIn(g, h, 1);
    DataPairIn(g, j, 1);
    AtHandDerivable(g, store, st, P(1, h));
    AtHandDerivable(g, store, st, Entering(g, 1, h));
    HigherByPair(g, store, st, D(h), Pair(Entering(g, 1, h), P(1, h)), 1);
    AtHandDerivable(g, store, st, P(1, j));
    DerivableHigher(g, store, st, P(1, j), 1, 2);
    HigherByPair(g, store, st, D(j), Pair(D(h), P(1, j)), 2);
    DerivableHigher(g, store, st, D(j), 3, d);
    SearchComplete(g, store, st, D(j), rid, d);
  }

  lemma LostFacts(g: Graph, store: Store, i: nat)
    requires LostPair(g, store, i)
    ensures g.Valid() && g.alpha >= 2 && TwoColumns(g) && 1 <= i <= g.s && g.s >= 2
    ensures forall b :: In(g, b) && b.P? ==> (b in store <==> b != P(0, i))
    ensures D(i) !in store && D(i + g.s) !in store
  {
  }

  lemma PendingFacts(g: Graph, store: Store, st: State, i: nat, j: nat, h: nat)
    requires LostPair(g, store, i) && Covers(g, st) && OnlyPending(g, st, i) && j == i + g.s && h != i
    requires In(g, P(1, h)) && In(g, P(1, j)) && In(g, D(h)) && In(g, D(j)) && Entering(g, 1, h).P? && Entering(g, 1, h).k == 1
    ensures P(1, h) in store && P(1, j) in store && Entering(g, 1, h) in store
    ensures st[P(1, h)].status != RepairPending && st[P(1, j)].status != RepairPending && st[D(h)].status != RepairPending
    ensures st[D(j)].status != RepairPending && st[Entering(g, 1, h)].status != RepairPending
  {
    hide Entering;
  }

  /** The block before j on the right-handed strand is another one of the first column. */
  lemma AsideFacts(g: Graph, i: nat) returns (h: nat)
    requires g.Valid() && TwoColumns(g) && 1 <= i <= g.s && In(g, P(1, i + g.s))
    ensures In(g, P(1, h)) && In(g, D(h)) && h != i && Entering(g, 1, i + g.s) == D(h)
    ensures Entering(g, 1, h).P? && Entering(g, 1, h).k == 1
  {
    hide Entering, Prev, Next, Col;
    var j := i + g.s;
    FirstRow(g.s, g.n, i);
    EnteringKind(g, 1, j);
    h := Prev(g.s, g.n, 1, j);
    NextPrevInverse(g.s, g.n, 1, j);
    EnteringKind(g, 1, h);
  }

  /** Repair of the parity between the two blocks fails while block i is pending. */
  lemma ParityFails(g: Graph, store: Store, st: State, i: nat, rid: nat, d: nat, l: Node)
    requires LostPair(g, store, i) && Covers(g, st) && OnlyPending(g, st, i) && In(g, P(0, i)) && In(g, l) && l.P? && l != P(0, i)
    requires Pairs(g, P(0, i)) == [Pair(l, D(i))] && Available(st[l]) && !Available(st[P(0, i)]) && d >= 2
    ensures !Available(Search(g, store, st, P(0, i), rid, d)[P(0, i)])
  {
    var b := P(0, i);
    var st1 := st[b := Started(st[b], rid)];
    hide Pairs;
    assert Search(g, store, st1, l, rid, d - 1) == st1;
    assert Search(g, store, st1, D(i), rid, d - 1) == st1;
    assert TryPairs(g, store, st1, b, rid, d - 1, 0) == TryPairs(g, store, st1, b, rid, d - 1, 1) by {
      PassedOver(g, store, st1, b, rid, d - 1, 0);
    }
    assert TryPairs(g, store, st1, b, rid, d - 1, 1) == (st1, false);
  }

  /** Repairing block i with depth four or more rebuilds block j on the way. */
  lemma RebuiltOnTheWay(g: Graph, store: Store, st: State, i: nat, rid: nat, d: nat)
    requires LostPair(g, store, i) && Fresh(g, st) && d >= 4
    ensures In(g, D(i)) && In(g, D(i + g.s))
    ensures Available(Search(g, store, st, D(i), rid, d)[D(i)])
    ensures Available(Search(g, store, st, D(i), rid, d)[D(i + g.s)])
  {
    hide *;
    var b, j := D(i), i + g.s;
    LostFacts(g, store, i);
    var l := PairFacts(g, i);
    FreshFacts(g, store, st, i, rid);
    var st1 := st[b := Started(st[b], rid)];
    var st2 := Search(g, store, st1, l, rid, d - 1);
    LeftFacts(g, store, st1, i, l, rid, d - 1);
    var st3 := Search(g, store, st2, P(0, i), rid, d - 1);
    ParityFails(g, store, st2, i, rid, d - 1, l);
    PendingKept(g, store, st2, P(0, i), i, rid, d - 1);
    SearchNonEmpty(g, store, st2, P(0, i), rid, d - 1);
    FirstPairFails(g, store, st1, b, rid, d - 1);
    RebuiltAside(g, store, st3, i, rid, d - 1);
    PendingFact(g, st3, i);
    ObtainedOnTheWay(g, store, st3, b, rid, d - 1, 1, D(j));
    SearchIsRepair(g, store, st, b, rid, d);
    ItselfObtained(g, store, st, i, rid, d);
  }

  lemma PendingFact(g: Graph, st: State, i: nat)
    requires Covers(g, st) && OnlyPending(g, st, i) && In(g, D(i))
    ensures st[D(i)].status == RepairPending
  {
  }

  lemma FreshFacts(g: Graph, store: Store, st: State, i: nat, rid: nat)
    requires LostPair(g, store, i) && Fresh(g, st) && In(g, D(i))
    ensures Covers(g, st) && st[D(i)].status == NoData && Quiet(g, st) && NonEmpty(g, store, st)
    ensures var st1 := st[D(i) := Started(st[D(i)], rid)];
            && Covers(g, st1) && NonEmpty(g, store, st1) && OnlyPending(g, st1, i)
            && forall b :: In(g, b) && b.P? ==> st1[b].status == NoData
  {
  }

  /** The first parity is downloaded. */
  lemma LeftFacts(g: Graph, store: Store, st: State, i: nat, l: Node, rid: nat, d: nat)
    requires LostPair(g, store, i) && Covers(g, st) && OnlyPending(g, st, i) && NonEmpty(g, store, st) && d >= 1
    requires In(g, l) && l.P? && l != P(0, i) && In(g, P(0, i)) && forall b :: In(g, b) && b.P? ==> st[b].status == NoData
    ensures var st' := Search(g, store, st, l, rid, d);
            && OnlyPending(g, st', i) && NonEmpty(g, store, st') && Available(st'[l]) && !Available(st'[P(0, i)])
  {
    SearchNonEmpty(g, store, st, l, rid, d);
    hide NonEmpty;
  }

  lemma PendingKept(g: Graph, store: Store, st: State, b: Node, i: nat, rid: nat, d: nat)
    requires g.Valid() && Covers(g, st) && In(g, b) && OnlyPending(g, st, i) && d >= 1
    ensures OnlyPending(g, Search(g, store, st, b, rid, d), i)
  {
    hide Search;
    SearchGrows(g, store, st, b, rid, d);
  }

  lemma FirstPairFails(g: Graph, store: Store, st: State, b: Node, rid: nat, d: nat)
    requires g.Valid() && Covers(g, st) && In(g, b) && d >= 1 && |Pairs(g, b)| >= 2
    requires var st1 := Search(g, store, st, Pairs(g, b)[0].left, rid, d);
             Available(st1[Pairs(g, b)[0].left])
             && !Available(Search(g, store, st1, Pairs(g, b)[0].right, rid, d)[Pairs(g, b)[0].right])
    ensures var st1 := Search(g, store, st, Pairs(g, b)[0].left, rid, d);
            TryPairs(g, store, st, b, rid, d, 0) ==
            TryPairs(g, store, Search(g, store, st1, Pairs(g, b)[0].right, rid, d), b, rid, d, 1)
  {
    hide Pairs, Search;
  }

  /** Block i itself is obtained over the second strand. */
  lemma ItselfObtained(g: Graph, store: Store, st: State, i: nat, rid: nat, d: nat)
    requires LostPair(g, store, i) && Fresh(g, st) && In(g, D(i)) && d >= 4
    ensures Available(Search(g, store, st, D(i), rid, d)[D(i)])
  {
    assert StrandSurvives(g, store, 1) by {
      forall x: nat | 1 <= x <= g.n
        ensures P(1, x) in store
      {
        assert In(g, P(1, x));
      }
    }
    assert In(g, P(1, i)) && Quiet(g, st) && NonEmpty(g, store, st);
    hide Search, Pairs, Derivable, Fresh, LostPair, StrandSurvives;
    SurvivorHeight(g, store, st, i, 1);
    DerivableHigher(g, store, st, D(i), 3, d);
    SearchComplete(g, store, st, D(i), rid, d);
  }

  // ----- a walk that misses a leaf

  /** The session of a new lattice, and the walk that starts with it. */
  function NewWalk(g: Graph, vs: seq<Visit>, depth: nat, w: World): (r: Outcome)
    requires g.Valid() && Labels(g, vs) && vs != []
    ensures Covers(g, r.se.st)
  {
    WalkAll(g, Session(FreshState(g), 0), StartStore(w, vs[0].index), vs, depth, w)
  }

  lemma NewGoing(g: Graph, vs: seq<Visit>, w: World)
    requires g.Valid() && vs != []
    ensures var store := StartStore(w, vs[0].index);
            Going(g, store, w, Session(FreshState(g), 0), store) && Covers(g, FreshState(g)) && Fresh(g, FreshState(g))
  {
  }

  /** Of all blocks just the root i, its horizontal parity and the leaf behind it are lost. */
  ghost predicate OnlyLost(g: Graph, net: Store, i: nat) {
    forall b :: In(g, b) ==> (b in net <==> b != D(i) && b != P(0, i) && b != D(i + g.s))
  }

  /** The root lies in the first column, the block behind it is a leaf, and inner nodes have non-zero ends. */
  ghost predicate LeafBehindRoot(g: Graph, data: seq<Chunk>, vs: seq<Visit>, y: nat) {
    && g.Valid() && TwoColumns(g) && |data| == g.n && Labels(g, vs) && DistinctVisits(vs)
    && y < |vs| && !vs[0].Leaf() && vs[0].index < g.s && vs[y] == Visit(vs[0].index + g.s, 0)
    && forall x :: 0 <= x < |vs| && !vs[x].Leaf() ==> NonZeroEnds(data[vs[x].index])
  }

  lemma StartLost(g: Graph, data: seq<Chunk>, vs: seq<Visit>, w: World, y: nat)
    requires LeafBehindRoot(g, data, vs, y) && TrueWorld(g, data, vs, w) && OnlyLost(g, w.net, vs[0].index + 1)
    ensures var store := StartStore(w, vs[0].index);
            LostPair(g, store + Gain(w, vs[0].index), vs[0].index + 1)
  {
    hide Same, Value;
    var i, store := vs[0].index + 1, StartStore(w, vs[0].index);
    assert In(g, D(i)) && D(i) !in w.net;
    assert store + map[] == store;
  }

  /** The visit of the root rebuilds the leaf behind it. */
  lemma RootVisit(g: Graph, data: seq<Chunk>, vs: seq<Visit>, w: World, y: nat, depth: nat)
    requires LeafBehindRoot(g, data, vs, y) && TrueWorld(g, data, vs, w) && OnlyLost(g, w.net, vs[0].index + 1) && depth >= 4
    ensures Covers(g, FreshState(g)) && In(g, D(vs[y].index + 1))
    ensures var r := WalkOne(g, Session(FreshState(g), 0), StartStore(w, vs[0].index), vs[0], depth, w);
            r.ok && r.failed == [] && Available(r.se.st[D(vs[y].index + 1)])
  {
    hide *;
    BehindFacts(g, data, vs, y);
    var i := vs[0].index + 1;
    var se, store := Session(FreshState(g), 0), StartStore(w, vs[0].index);
    NewGoing(g, vs, w);
    StartLost(g, data, vs, w, y);
    FreshCorrect(g, data, FreshState(g));
    RebuiltOnTheWay(g, store + Gain(w, vs[0].index), FreshState(g), i, 0, depth);
    WalkOneIs(g, se, store, vs[0], depth, w);
    ServeIs(g, se, Request(D(i), depth, store + Gain(w, vs[0].index)));
    VisitOkIff(g, data, store, w, se, store, vs, 0, depth);
    VisitKeeps(g, store, w, se, store, vs[0], depth);
  }

  lemma FreshCorrect(g: Graph, data: seq<Chunk>, st: State)
    requires g.Valid() && |data| == g.n && Fresh(g, st)
    ensures Correct(g, data, st)
  {
  }

  lemma BehindFacts(g: Graph, data: seq<Chunk>, vs: seq<Visit>, y: nat)
    requires LeafBehindRoot(g, data, vs, y)
    ensures g.Valid() && TwoColumns(g) && |data| == g.n && Labels(g, vs) && DistinctVisits(vs)
    ensures 0 < y < |vs| && !vs[0].Leaf() && vs[y].Leaf() && vs[y].index == vs[0].index + g.s
    ensures forall x :: 0 <= x < |vs| ==> vs[x].index < g.n && In(g, D(vs[x].index + 1)) && Labels(g, vs[..x])
    ensures forall x :: 0 < x < |vs| ==> vs[x].index != vs[0].index
    ensures forall x :: 0 <= x < |vs| && x != y ==> vs[x].index != vs[y].index
    ensures forall x :: 0 <= x < |vs| && !vs[x].Leaf() ==> NonZeroEnds(data[vs[x].index])
  {
  }

  /** Of the nodes visited later only that leaf is not in the network. */
  lemma OthersInNet(g: Graph, data: seq<Chunk>, vs: seq<Visit>, w: World, y: nat, x: nat)
    requires LeafBehindRoot(g, data, vs, y) && OnlyLost(g, w.net, vs[0].index + 1) && 0 < x < |vs|
    ensures D(vs[x].index + 1) in w.net <==> x != y
  {
    BehindFacts(g, data, vs, y);
    assert In(g, D(vs[x].index + 1));
  }

  lemma {:induction false} NothingListed(g: Graph, data: seq<Chunk>, vs: seq<Visit>, w: World, y: nat, depth: nat, m: nat)
    requires LeafBehindRoot(g, data, vs, y) && TrueWorld(g, data, vs, w) && OnlyLost(g, w.net, vs[0].index + 1) && depth >= 4
    requires 1 <= m <= |vs|
    ensures Labels(g, vs[..m]) && Covers(g, FreshState(g)) && In(g, D(vs[y].index + 1))
    ensures var r := WalkAll(g, Session(FreshState(g), 0), StartStore(w, vs[0].index), vs[..m], depth, w);
            r.ok && r.failed == [] && Available(r.se.st[D(vs[y].index + 1)])
  {
    hide *;
    BehindFacts(g, data, vs, y);
    var se, store := Session(FreshState(g), 0), StartStore(w, vs[0].index);
    NewGoing(g, vs, w);
    if m == 1 {
      RootVisit(g, data, vs, w, y, depth);
      WalkOfOne(g, se, store, vs[0], depth, w);
      assert vs[..1] == [vs[0]];
    } else {
      var v, init := vs[m - 1], vs[..m - 1];
      NothingListed(g, data, vs, w, y, depth, m - 1);
      LabelsTo(g, vs, m);
      assert vs[..m][..m - 1] == init;
      WalkLast(g, se, store, vs[..m], depth, w);
      var before := WalkAll(g, se, store, init, depth, w);
      WalkKeeps(g, store, w, se, store, init, depth);
      FreshCorrect(g, data, FreshState(g));
      TrueFacts(g, data, vs, w);
      WalkCorrect(g, data, store, w, se, store, init, depth);
      OthersInNet(g, data, vs, w, y, m - 1);
      VisitKeeps(g, store, w, before.se, before.store, v, depth);
      StillHeld(g, before.se.st, WalkOne(g, before.se, before.store, v, depth, w).se.st, D(vs[y].index + 1));
      if !v.Leaf() {
        VisitOkIff(g, data, store, w, before.se, before.store, vs, m - 1, depth);
      }
    }
  }

  lemma LabelsTo(g: Graph, vs: seq<Visit>, m: nat)
    requires Labels(g, vs) && m <= |vs|
    ensures Labels(g, vs[..m])
  {
  }

  lemma StillHeld(g: Graph, st: State, st': State, b: Node)
    requires Covers(g, st) && Covers(g, st') && Kept(g, st, st') && In(g, b) && Available(st[b])
    ensures Available(st'[b])
  {
  }

  lemma TrueFacts(g: Graph, data: seq<Chunk>, vs: seq<Visit>, w: World)
    requires g.Valid() && TrueWorld(g, data, vs, w)
    ensures |data| == g.n && Honest(g, data, w.net)
  {
    hide Honest;
  }

  /**
    In a true network that has lost just the root, its horizontal parity and the leaf behind it, the walk with
    depth four or more repairs the root and ends without error and without listing the leaf.
   */
  lemma LeafMissed(g: Graph, data: seq<Chunk>, vs: seq<Visit>, w: World, y: nat, depth: nat)
    requires LeafBehindRoot(g, data, vs, y) && TrueWorld(g, data, vs, w) && OnlyLost(g, w.net, vs[0].index + 1) && depth >= 4
    ensures g.Valid() && Labels(g, vs)
    ensures var r := NewWalk(g, vs, depth, w);
            r.ok && r.failed == [] && D(vs[y].index + 1) !in w.net && !Exact(w, vs, r.failed)
  {
    hide *;
    BehindFacts(g, data, vs, y);
    NothingListed(g, data, vs, w, y, depth, |vs|);
    assert vs[..|vs|] == vs;
    NewWalkIs(g, vs, depth, w);
    NotExact(g, data, vs, w, y);
  }

  lemma NewWalkIs(g: Graph, vs: seq<Visit>, depth: nat, w: World)
    requires g.Valid() && Labels(g, vs) && vs != []
    ensures Covers(g, FreshState(g))
    ensures NewWalk(g, vs, depth, w) == WalkAll(g, Session(FreshState(g), 0), StartStore(w, vs[0].index), vs, depth, w)
  {
  }

  lemma NotExact(g: Graph, data: seq<Chunk>, vs: seq<Visit>, w: World, y: nat)
    requires LeafBehindRoot(g, data, vs, y) && OnlyLost(g, w.net, vs[0].index + 1)
    ensures D(vs[y].index + 1) !in w.net && !Exact(w, vs, [])
  {
    BehindFacts(g, data, vs, y);
    assert In(g, D(vs[y].index + 1));
  }

  /** Such a network exists for all data without empty chunks. */
  lemma LossyWorld(g: Graph, data: seq<Chunk>, vs: seq<Visit>, i: nat, links: map<Chunk, nat>) returns (w: World)
    requires g.Valid() && |data| == g.n && Labels(g, vs) && forall d :: d in data ==> d != []
    requires forall x :: 0 <= x < |vs| && !vs[x].Leaf() && vs[x].index < |data| ==>
               data[vs[x].index] in links && links[data[vs[x].index]] == vs[x].children
    ensures TrueWorld(g, data, vs, w) && OnlyLost(g, w.net, i)
  {
    var net := map b | b in Nodes(g) && b != D(i) && b != P(0, i) && b != D(i + g.s) :: ValueIn(g, data, b);
    w := World(net, map[], data, (set d | d in data), links);
    forall b | In(g, b) && b in net
      ensures net[b] != [] && Same(net[b], Value(g, data, b))
    {
      match b
      case D(x) => assert data[x - 1] in data;
      case P(k, x) => ParityNonEmpty(data, g.s, k, x);
    }
    assert forall x :: 0 <= x < |data| ==> data[x] in data;
  }

  function ValueIn(g: Graph, data: seq<Chunk>, b: Node): (v: Chunk)
    requires g.Valid() && |data| == g.n
    ensures In(g, b) ==> v == Value(g, data, b)
  {
    if In(g, b) then Value(g, data, b) else []
  }

  // ----- one level of leaves

  /** No data block is held. */
  ghost predicate NoDataHeld(g: Graph, st: State)
    requires Covers(g, st)
  {
    forall b :: In(g, b) && b.D? ==> !Available(st[b])
  }

  ghost predicate ParitiesOnly(store: Store) {
    forall b: Node :: b in store ==> b.P?
  }

  /** All pairs of a block of the second column start with a data block. */
  lemma SecondPairs(g: Graph, i: nat, p: Pair)
    requires g.Valid() && TwoColumns(g) && In(g, D(i)) && Col(g.s, i) == 1 && p in Pairs(g, D(i))
    ensures p.left.D?
  {
    DataPairsFrom(g, i, g.alpha, p);
    var k :| 0 <= k < g.alpha && p in StrandPairs(g, i, k);
    assert In(g, P(k, i));
    EnteringKind(g, k, i);
    ChainsLong(g, k, i);
  }

  /** The pairs of a block of the first column hold parities and blocks of the second column. */
  lemma FirstPairs(g: Graph, i: nat, p: Pair)
    requires g.Valid() && TwoColumns(g) && In(g, D(i)) && Col(g.s, i) == 0 && p in Pairs(g, D(i))
    ensures In(g, p.left) && In(g, p.right)
    ensures p.right.P? && (p.left.D? ==> Col(g.s, p.left.i) == 1)
  {
    hide Entering, Next, Col, Len, Chain;
    DataPairsFrom(g, i, g.alpha, p);
    var k :| 0 <= k < g.alpha && p in StrandPairs(g, i, k);
    assert In(g, P(k, i));
    EnteringKind(g, k, i);
    ChainsLong(g, k, i);
    NextCoordinates(g.s, g.n, k, i);
  }

  lemma {:induction false} SecondFails(g: Graph, store: Store, st: State, i: nat, rid: nat, j: nat)
    requires g.Valid() && TwoColumns(g) && Covers(g, st) && In(g, D(i)) && Col(g.s, i) == 1 && j <= |Pairs(g, D(i))|
    requires ParitiesOnly(store) && NoDataHeld(g, st)
    ensures !TryPairs(g, store, st, D(i), rid, 1, j).1 && NoDataHeld(g, TryPairs(g, store, st, D(i), rid, 1, j).0)
    decreases |Pairs(g, D(i))| - j
  {
    hide Pairs, Search, Col;
    if j < |Pairs(g, D(i))| {
      var p := Pairs(g, D(i))[j];
      SecondPairs(g, i, p);
      DepthOneOnly(g, store, st, p.left, rid);
      SecondFails(g, store, Search(g, store, st, p.left, rid, 1), i, rid, j + 1);
    }
  }

  /** With depth two no data block is obtained from parities, if it is of the second column. */
  lemma DepthTwoNoData(g: Graph, store: Store, st: State, b: Node, rid: nat)
    requires g.Valid() && TwoColumns(g) && Covers(g, st) && In(g, b) && (b.D? ==> Col(g.s, b.i) == 1)
    requires ParitiesOnly(store) && NoDataHeld(g, st)
    ensures NoDataHeld(g, Search(g, store, st, b, rid, 2))
  {
    hide Pairs, TryPairs, Col;
    ShallowOnly(g, store, st, b, rid, 2);
    if b.D? && st[b].status == NoData && b !in store {
      SecondFails(g, store, st[b := Started(st[b], rid)], b.i, rid, 0);
    }
  }

  lemma {:induction false} DepthTwoPairs(g: Graph, store: Store, st: State, i: nat, rid: nat, j: nat)
    requires g.Valid() && TwoColumns(g) && Covers(g, st) && In(g, D(i)) && Col(g.s, i) == 0 && j <= |Pairs(g, D(i))|
    requires ParitiesOnly(store) && NoDataHeld(g, st)
    ensures forall b :: In(g, b) && b.D? && b != D(i) ==> !Available(TryPairs(g, store, st, D(i), rid, 2, j).0[b])
    decreases |Pairs(g, D(i))| - j
  {
    hide Pairs, Search, Xor, Col;
    if j < |Pairs(g, D(i))| {
      var p := Pairs(g, D(i))[j];
      FirstPairs(g, i, p);
      var st1 := Search(g, store, st, p.left, rid, 2);
      DepthTwoNoData(g, store, st, p.left, rid);
      if !Available(st1[p.left]) {
        DepthTwoPairs(g, store, st1, i, rid, j + 1);
      } else {
        var st2 := Search(g, store, st1, p.right, rid, 2);
        DepthTwoNoData(g, store, st1, p.right, rid);
        if !Available(st2[p.right]) || st2[p.left].data == [] || st2[p.right].data == [] {
          DepthTwoPairs(g, store, st2, i, rid, j + 1);
        }
      }
    }
  }

  /** From parities alone, depth three obtains a block of the first column without any other data block. */
  lemma DepthThreeAlone(g: Graph, store: Store, st: State, i: nat, rid: nat, d: nat)
    requires g.Valid() && TwoColumns(g) && Covers(g, st) && In(g, D(i)) && Col(g.s, i) == 0 && 1 <= d <= 3
    requires ParitiesOnly(store) && NoDataHeld(g, st)
    ensures forall b :: In(g, b) && b.D? && b != D(i) ==> !Available(Search(g, store, st, D(i), rid, d)[b])
  {
    hide Pairs, TryPairs, Col;
    if d <= 2 {
      ShallowOnly(g, store, st, D(i), rid, d);
    } else if st[D(i)].status == NoData {
      DepthTwoPairs(g, store, st[D(i) := Started(st[D(i)], rid)], i, rid, 0);
    }
  }

  /** The walk over a tree of one level: the root, labelled 0, and all other blocks as leaves. */
  ghost predicate OneLevel(g: Graph, vs: seq<Visit>) {
    && g.Valid() && TwoColumns(g) && Labels(g, vs) && DistinctVisits(vs)
    && vs != [] && vs[0].index == 0 && !vs[0].Leaf()
    && (forall x :: 0 < x < |vs| ==> vs[x].Leaf())
    && exists y :: 0 <= y < |vs| && vs[y].index == g.s
  }

  ghost predicate ExactAlways(g: Graph, data: seq<Chunk>, vs: seq<Visit>, depth: nat)
    requires g.Valid() && Labels(g, vs) && vs != []
  {
    forall w :: TrueWorld(g, data, vs, w) ==> ExactRun(g, vs, depth, w)
  }

  ghost predicate ExactRun(g: Graph, vs: seq<Visit>, depth: nat, w: World)
    requires g.Valid() && Labels(g, vs) && vs != []
  {
    NewWalk(g, vs, depth, w).ok ==> Exact(w, vs, NewWalk(g, vs, depth, w).failed)
  }

  lemma OneLevelFacts(g: Graph, vs: seq<Visit>)
    requires OneLevel(g, vs)
    ensures g.Valid() && TwoColumns(g) && Labels(g, vs) && DistinctVisits(vs) && vs != [] && vs[0].index == 0 && !vs[0].Leaf()
    ensures g.s >= 2 && g.n >= 2 * g.s && In(g, D(1)) && Col(g.s, 1) == 0
    ensures Labels(g, vs[1..]) && DistinctVisits(vs[1..]) && [vs[0]] + vs[1..] == vs && Labels(g, [vs[0]])
    ensures forall x :: 0 <= x < |vs[1..]| ==> vs[1..][x] == vs[x + 1] && vs[x + 1].Leaf() && vs[x + 1].index != 0
  {
    FirstRow(g.s, g.n, 1);
  }

  /** With the root gone from the network, depth three or less leaves all leaves as they were. */
  lemma RootVisitAlone(g: Graph, vs: seq<Visit>, w: World, depth: nat)
    requires OneLevel(g, vs) && D(1) !in w.net && depth <= 3
    ensures Covers(g, FreshState(g)) && Labels(g, vs[1..])
    ensures LeavesKnown(g, w, vs[1..], WalkOne(g, Session(FreshState(g), 0), StartStore(w, 0), vs[0], depth, w).se.st)
  {
    hide *;
    OneLevelFacts(g, vs);
    NewGoing(g, vs, w);
    var se, store := Session(FreshState(g), 0), StartStore(w, 0);
    var store' := store + Gain(w, 0);
    WalkOneIs(g, se, store, vs[0], depth, w);
    ServeIs(g, se, Request(D(1), depth, store'));
    FreshNoData(g, FreshState(g));
    NoGain(w);
    if depth >= 1 {
      DepthThreeAlone(g, store', FreshState(g), 1, 0, depth);
    }
    NoneHeld(g, vs, w, WalkOne(g, se, store, vs[0], depth, w).se.st);
  }

  lemma NoGain(w: World)
    requires D(1) !in w.net
    ensures ParitiesOnly(StartStore(w, 0) + Gain(w, 0))
  {
  }

  lemma FreshNoData(g: Graph, st: State)
    requires Fresh(g, st)
    ensures Covers(g, st) && NoDataHeld(g, st) && forall b :: In(g, b) && b.D? && b != D(1) ==> !Available(st[b])
  {
  }

  lemma NoneHeld(g: Graph, vs: seq<Visit>, w: World, st: State)
    requires OneLevel(g, vs) && Covers(g, st) && forall b :: In(g, b) && b.D? && b != D(1) ==> !Available(st[b])
    ensures Labels(g, vs[1..]) && LeavesKnown(g, w, vs[1..], st)
  {
    OneLevelFacts(g, vs);
  }

  /** A walk on a one-level tree lists exactly the missing leaves, unless the root is rebuilt with depth four. */
  lemma OneLevelExact(g: Graph, data: seq<Chunk>, vs: seq<Visit>, w: World, depth: nat)
    requires OneLevel(g, vs) && |data| == g.n && TrueWorld(g, data, vs, w)
    requires depth <= 3 || !NonZeroEnds(data[0])
    ensures g.Valid() && Labels(g, vs) && vs != [] && ExactRun(g, vs, depth, w)
  {
    hide *;
    OneLevelFacts(g, vs);
    NewGoing(g, vs, w);
    NewWalkIs(g, vs, depth, w);
    var se, store := Session(FreshState(g), 0), StartStore(w, 0);
    if NewWalk(g, vs, depth, w).ok {
      if D(1) in w.net {
        RootKept(g, vs, w, depth);
        ExactWalk(g, store, w, se, store, vs, depth);
      } else {
        WalkOfOne(g, se, store, vs[0], depth, w);
        WalkAppend(g, se, store, [vs[0]], vs[1..], depth, w);
        var r := WalkOne(g, se, store, vs[0], depth, w);
        VisitKeeps(g, store, w, se, store, vs[0], depth);
        FreshCorrect(g, data, FreshState(g));
        VisitOkIff(g, data, store, w, se, store, vs, 0, depth);
        RebuiltRoot(g, w, r.se, r.store, store);
        assert depth <= 3;
        RootVisitAlone(g, vs, w, depth);
        LeavesOnly(w, vs, depth);
        ExactWalk(g, store, w, r.se, r.store, vs[1..], depth);
        AddRoot(w, vs, WalkAll(g, r.se, r.store, vs[1..], depth, w).failed);
      }
    }
    ExactRunIs(g, vs, depth, w);
  }

  lemma ExactRunIs(g: Graph, vs: seq<Visit>, depth: nat, w: World)
    requires g.Valid() && Labels(g, vs) && vs != []
    ensures ExactRun(g, vs, depth, w) <==> (NewWalk(g, vs, depth, w).ok ==> Exact(w, vs, NewWalk(g, vs, depth, w).failed))
  {
    hide NewWalk, Exact;
  }

  lemma RebuiltRoot(g: Graph, w: World, se: Session, store: Store, low: Store)
    requires Going(g, low, w, se, store) && In(g, D(1)) && D(1) !in w.net
    ensures Covers(g, se.st) && (Available(se.st[D(1)]) ==> se.st[D(1)].repaired)
  {
  }

  lemma RootKept(g: Graph, vs: seq<Visit>, w: World, depth: nat)
    requires OneLevel(g, vs) && D(1) in w.net
    ensures Covers(g, FreshState(g)) && Labels(g, vs) && InnersKept(w, vs, depth) && LeavesKnown(g, w, vs, FreshState(g))
  {
  }

  lemma LeavesOnly(w: World, vs: seq<Visit>, depth: nat)
    requires vs != [] && forall x :: 0 <= x < |vs[1..]| ==> vs[1..][x].Leaf()
    ensures InnersKept(w, vs[1..], depth)
  {
  }

  lemma AddRoot(w: World, vs: seq<Visit>, failed: seq<nat>)
    requires vs != [] && !vs[0].Leaf() && Exact(w, vs[1..], failed)
    ensures Exact(w, vs, failed) && [] + failed == failed
  {
    forall x | 0 <= x < |vs| && vs[x].Leaf()
      ensures vs[x].index in failed <==> D(vs[x].index + 1) !in w.net
    {
      assert vs[1..][x - 1] == vs[x];
    }
  }

  /**
    For a tree of one level: whatever is lost, every walk without error lists exactly the missing leaves, if
    and only if the depth is at most three or the root's chunk has a zero end (then a rebuilt root is an
    error).
   */
  lemma OneLevelExactIff(g: Graph, data: seq<Chunk>, vs: seq<Visit>, depth: nat)
    requires OneLevel(g, vs) && |data| == g.n && forall d :: d in data ==> d != []
    ensures g.Valid() && Labels(g, vs) && vs != []
    ensures ExactAlways(g, data, vs, depth) <==> depth <= 3 || !NonZeroEnds(data[0])
  {
    hide *;
    OneLevelFacts(g, vs);
    if depth <= 3 || !NonZeroEnds(data[0]) {
      forall w | TrueWorld(g, data, vs, w)
        ensures ExactRun(g, vs, depth, w)
      {
        OneLevelExact(g, data, vs, w, depth);
      }
      AlwaysIs(g, data, vs, depth);
    } else {
      var y := BehindOne(g, data, vs);
      var w := LossyWorld(g, data, vs, 1, map[data[0] := vs[0].children]);
      LeafMissed(g, data, vs, w, y, depth);
      ExactRunIs(g, vs, depth, w);
      AlwaysIs(g, data, vs, depth);
    }
  }

  lemma AlwaysIs(g: Graph, data: seq<Chunk>, vs: seq<Visit>, depth: nat)
    requires g.Valid() && Labels(g, vs) && vs != []
    ensures ExactAlways(g, data, vs, depth) <==> forall w :: TrueWorld(g, data, vs, w) ==> ExactRun(g, vs, depth, w)
  {
    hide TrueWorld, ExactRun;
  }

  lemma BehindOne(g: Graph, data: seq<Chunk>, vs: seq<Visit>) returns (y: nat)
    requires OneLevel(g, vs) && |data| == g.n && NonZeroEnds(data[0])
    ensures LeafBehindRoot(g, data, vs, y)
    ensures forall x :: 0 <= x < |vs| && !vs[x].Leaf() ==> x == 0
  {
    y :| 0 <= y < |vs| && vs[y].index == g.s;
  }
}
