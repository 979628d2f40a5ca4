/**
  What the search finds, and that what it finds is right.
 */
module RecoveryTheorems {
  import opened Bytes
  import opened Geometry
  import opened Chains
  import opened Emission
  import opened LatticeGraph
  import opened RecoverySearch

  // ----- completeness

  /** Everything held or downloadable is a non-empty chunk. */
  ghost predicate NonEmpty(g: Graph, store: Store, st: State)
    requires Covers(g, st)
  {
    && (forall b :: In(g, b) && b in store ==> store[b] != [])
    && forall b :: In(g, b) && Available(st[b]) ==> st[b].data != []
  }

  /** The block is held, or can be downloaded. */
  ghost predicate AtHand(g: Graph, store: Store, st: State, b: Node)
    requires Covers(g, st) && In(g, b)
  {
    Available(st[b]) || (b in store && st[b].status != RepairPending)
  }

  /** Block b has a repair derivation of height at most h that avoids pending blocks. */
  ghost predicate Derivable(g: Graph, store: Store, st: State, b: Node, h: nat)
    requires g.Valid() && Covers(g, st) && In(g, b)
    decreases h
  {
    && h > 0 && st[b].status != RepairPending
    && (AtHand(g, store, st, b) ||
        exists p :: p in Pairs(g, b) && Derivable(g, store, st, p.left, h - 1) && Derivable(g, store, st, p.right, h - 1))
  }

  lemma {:induction false} DerivableHigher(g: Graph, store: Store, st: State, b: Node, h: nat, h': nat)
    requires g.Valid() && Covers(g, st) && In(g, b) && h <= h'
    requires Derivable(g, store, st, b, h)
    ensures Derivable(g, store, st, b, h')
    decreases h
  {
    hide Pairs;
    if !AtHand(g, store, st, b) {
      var p :| p in Pairs(g, b) && Derivable(g, store, st, p.left, h - 1) && Derivable(g, store, st, p.right, h - 1);
      DerivableHigher(g, store, st, p.left, h - 1, h' - 1);
      DerivableHigher(g, store, st, p.right, h - 1, h' - 1);
    }
  }

  /** Progress of the search never destroys a derivation. */
  lemma {:induction false} DerivableGrows(g: Graph, store: Store, st: State, st': State, b: Node, h: nat)
    requires g.Valid() && Covers(g, st) && Covers(g, st') && In(g, b)
    requires Grows(g, st, st') && Derivable(g, store, st, b, h)
    ensures Derivable(g, store, st', b, h)
    decreases h
  {
    hide Pairs;
    if !AtHand(g, store, st, b) {
      var p :| p in Pairs(g, b) && Derivable(g, store, st, p.left, h - 1) && Derivable(g, store, st, p.right, h - 1);
      DerivableGrows(g, store, st, st', p.left, h - 1);
      DerivableGrows(g, store, st, st', p.right, h - 1);
    }
  }

  /**
    Marking b as pending loses nothing below the height of b's own lowest derivation: a derivation that
    low cannot pass through b.
   */
  lemma {:induction false} DerivableAvoids(g: Graph, store: Store, st: State, b: Node, rid: nat, n: Node, h: nat)
    requires g.Valid() && Covers(g, st) && In(g, b) && In(g, n)
    requires !Derivable(g, store, st, b, h)
    requires Derivable(g, store, st, n, h)
    ensures Derivable(g, store, st[b := Started(st[b], rid)], n, h)
    decreases h
  {
    hide Pairs;
    if !AtHand(g, store, st, n) {
      var p :| p in Pairs(g, n) && Derivable(g, store, st, p.left, h - 1) && Derivable(g, store, st, p.right, h - 1);
      if Derivable(g, store, st, b, h - 1) {
        DerivableHigher(g, store, st, b, h - 1, h);
      }
      DerivableAvoids(g, store, st, b, rid, p.left, h - 1);
      DerivableAvoids(g, store, st, b, rid, p.right, h - 1);
    }
  }

  /** A derivable block that is not at hand has a pair both of whose blocks are derivable lower than the block itself. */
  lemma {:induction false} LowestPair(g: Graph, store: Store, st: State, b: Node, h: nat) returns (m: nat, p: Pair)
    requires g.Valid() && Covers(g, st) && In(g, b)
    requires Derivable(g, store, st, b, h) && !AtHand(g, store, st, b)
    ensures m < h && p in Pairs(g, b) && !Derivable(g, store, st, b, m)
    ensures Derivable(g, store, st, p.left, m) && Derivable(g, store, st, p.right, m)
    decreases h
  {
    hide Pairs;
    if Derivable(g, store, st, b, h - 1) {
      m, p := LowestPair(g, store, st, b, h - 1);
    } else {
      m := h - 1;
      p :| p in Pairs(g, b) && Derivable(g, store, st, p.left, h - 1) && Derivable(g, store, st, p.right, h - 1);
    }
  }

  lemma {:induction false} SearchNonEmpty(g: Graph, store: Store, st: State, b: Node, rid: nat, depth: nat)
    requires g.Valid() && Covers(g, st) && In(g, b) && depth >= 1 && NonEmpty(g, store, st)
    ensures NonEmpty(g, store, Search(g, store, st, b, rid, depth))
    decreases depth, 0, 0
  {
    hide Pairs, TryPairs;
    if st[b].status == NoData && b !in store && depth > 1 {
      var st1 := st[b := Started(st[b], rid)];
      TryPairsNonEmpty(g, store, st1, b, rid, depth - 1, 0);
      TryPairsGrows(g, store, st1, b, rid, depth - 1, 0);
    }
  }

  lemma {:induction false} TryPairsNonEmpty(g: Graph, store: Store, st: State, b: Node, rid: nat, depth: nat, j: nat)
    requires g.Valid() && Covers(g, st) && In(g, b) && depth >= 1 && j <= |Pairs(g, b)|
    requires st[b].status == RepairPending && NonEmpty(g, store, st)
    ensures NonEmpty(g, store, TryPairs(g, store, st, b, rid, depth, j).0)
    decreases depth, 1, |Pairs(g, b)| - j
  {
    hide Pairs, Search;
    if j < |Pairs(g, b)| {
      var p := Pairs(g, b)[j];
      var st1 := Search(g, store, st, p.left, rid, depth);
      SearchNonEmpty(g, store, st, p.left, rid, depth);
      SearchGrows(g, store, st, p.left, rid, depth);
      if !Available(st1[p.left]) {
        TryPairsNonEmpty(g, store, st1, b, rid, depth, j + 1);
      } else {
        var st2 := Search(g, store, st1, p.right, rid, depth);
        SearchNonEmpty(g, store, st1, p.right, rid, depth);
        SearchGrows(g, store, st1, p.right, rid, depth);
        if !Available(st2[p.right]) || st2[p.left].data == [] || st2[p.right].data == [] {
          TryPairsNonEmpty(g, store, st2, b, rid, depth, j + 1);
        }
      }
    }
  }

  /** The search with depth d obtains every block that has a derivation of height at most d. */
  lemma {:induction false} SearchComplete(g: Graph, store: Store, st: State, b: Node, rid: nat, d: nat)
    requires g.Valid() && Covers(g, st) && In(g, b) && d >= 1 && NonEmpty(g, store, st)
    requires Derivable(g, store, st, b, d)
    ensures Available(Search(g, store, st, b, rid, d)[b])
    decreases d, 0, 0
  {
    hide Pairs, TryPairs;
    if st[b].status == NoData && b !in store {
      var st1 := st[b := Started(st[b], rid)];
      var p := PairBehind(g, store, st, b, rid, d);
      hide Derivable;
      TryPairsComplete(g, store, st1, b, rid, d - 1, 0, p);
      TryPairsGrows(g, store, st1, b, rid, d - 1, 0);
    }
  }

  /** Some pair stays derivable, one level lower, once b is pending. */
  lemma PairBehind(g: Graph, store: Store, st: State, b: Node, rid: nat, d: nat) returns (p: Pair)
    requires g.Valid() && Covers(g, st) && In(g, b)
    requires Derivable(g, store, st, b, d) && !AtHand(g, store, st, b)
    ensures d > 1 && p in Pairs(g, b)
    ensures var st1 := st[b := Started(st[b], rid)];
            Derivable(g, store, st1, p.left, d - 1) && Derivable(g, store, st1, p.right, d - 1)
  {
    hide Pairs, Derivable;
    var m: nat;
    m, p := LowestPair(g, store, st, b, d);
    DerivablePositive(g, store, st, p.left, m);
    hide Derivable;
    DerivableAvoids(g, store, st, b, rid, p.left, m);
    DerivableAvoids(g, store, st, b, rid, p.right, m);
    var st1 := st[b := Started(st[b], rid)];
    DerivableHigher(g, store, st1, p.left, m, d - 1);
    DerivableHigher(g, store, st1, p.right, m, d - 1);
  }

  /** If some pair not yet tried is derivable within depth, the block is rebuilt. */
  lemma {:induction false} TryPairsComplete(g: Graph, store: Store, st: State, b: Node, rid: nat, depth: nat, j: nat, p: Pair)
    requires g.Valid() && Covers(g, st) && In(g, b) && depth >= 1 && j <= |Pairs(g, b)|
    requires st[b].status == RepairPending && NonEmpty(g, store, st)
    requires p in Pairs(g, b)[j..]
    requires Derivable(g, store, st, p.left, depth) && Derivable(g, store, st, p.right, depth)
    ensures TryPairs(g, store, st, b, rid, depth, j).1
    decreases depth, 1, |Pairs(g, b)| - j
  {
    hide Pairs, Search, Derivable;
    var q := Pairs(g, b)[j];
    var st1 := Search(g, store, st, q.left, rid, depth);
    SearchGrows(g, store, st, q.left, rid, depth);
    SearchNonEmpty(g, store, st, q.left, rid, depth);
    DerivableGrows(g, store, st, st1, p.left, depth);
    DerivableGrows(g, store, st, st1, p.right, depth);
    if !Available(st1[q.left]) {
      if p == q {
        SearchComplete(g, store, st, p.left, rid, depth);
      }
      TryPairsComplete(g, store, st1, b, rid, depth, j + 1, p);
    } else {
      var st2 := Search(g, store, st1, q.right, rid, depth);
      SearchGrows(g, store, st1, q.right, rid, depth);
      SearchNonEmpty(g, store, st1, q.right, rid, depth);
      if !Available(st2[q.right]) {
        if p == q {
          SearchComplete(g, store, st1, p.right, rid, depth);
        }
        DerivableGrows(g, store, st1, st2, p.left, depth);
        DerivableGrows(g, store, st1, st2, p.right, depth);
        TryPairsComplete(g, store, st2, b, rid, depth, j + 1, p);
      }
    }
  }

  // ----- nothing else is found

  ghost predicate Repairable(g: Graph, store: Store, st: State, b: Node)
    requires g.Valid() && Covers(g, st) && In(g, b)
  {
    exists h: nat :: Derivable(g, store, st, b, h)
  }

  /** Every block held in st is derivable, at some height, from what was at hand in st0. */
  ghost predicate Justified(g: Graph, store: Store, st0: State, st: State)
    requires g.Valid() && Covers(g, st0) && Covers(g, st)
  {
    forall b :: In(g, b) && Available(st[b]) ==> Repairable(g, store, st0, b)
  }

  lemma JustifiedByPair(g: Graph, store: Store, st0: State, b: Node, p: Pair)
    requires g.Valid() && Covers(g, st0) && In(g, b) && p in Pairs(g, b) && Quiet(g, st0)
    requires Repairable(g, store, st0, p.left)
    requires Repairable(g, store, st0, p.right)
    ensures Repairable(g, store, st0, b)
  {
    hide Pairs;
    var hl: nat :| Derivable(g, store, st0, p.left, hl);
    var hr: nat :| Derivable(g, store, st0, p.right, hr);
    DerivableHigher(g, store, st0, p.left, hl, hl + hr);
    DerivableHigher(g, store, st0, p.right, hr, hl + hr);
    HigherByPair(g, store, st0, b, p, hl + hr);
  }

  lemma HigherByPair(g: Graph, store: Store, st: State, b: Node, p: Pair, h: nat)
    requires g.Valid() && Covers(g, st) && In(g, b) && p in Pairs(g, b) && st[b].status != RepairPending
    requires Derivable(g, store, st, p.left, h) && Derivable(g, store, st, p.right, h)
    ensures Derivable(g, store, st, b, h + 1)
  {
    hide Pairs;
  }

  lemma {:induction false} SearchJustified(g: Graph, store: Store, st0: State, st: State, b: Node, rid: nat, d: nat)
    requires g.Valid() && Covers(g, st0) && Covers(g, st) && In(g, b) && d >= 1
    requires Quiet(g, st0) && Justified(g, store, st0, st)
    ensures Justified(g, store, st0, Search(g, store, st, b, rid, d))
    decreases d, 0, 0
  {
    hide Pairs, TryPairs, Derivable;
    if st[b].status == NoData {
      var st1 := st[b := Started(st[b], rid)];
      if b in store {
        assert Derivable(g, store, st0, b, 1) by { Downloadable(g, store, st0, b); }
      } else if d > 1 {
        TryPairsJustified(g, store, st0, st1, b, rid, d - 1, 0);
        TryPairsGrows(g, store, st1, b, rid, d - 1, 0);
      }
    }
  }

  lemma Downloadable(g: Graph, store: Store, st: State, b: Node)
    requires g.Valid() && Covers(g, st) && In(g, b) && Quiet(g, st) && b in store
    ensures Derivable(g, store, st, b, 1)
  {
  }

  lemma {:induction false} TryPairsJustified(g: Graph, store: Store, st0: State, st: State, b: Node, rid: nat, d: nat, j: nat)
    requires g.Valid() && Covers(g, st0) && Covers(g, st) && In(g, b) && d >= 1 && j <= |Pairs(g, b)|
    requires st[b].status == RepairPending && Quiet(g, st0) && Justified(g, store, st0, st)
    ensures Justified(g, store, st0, TryPairs(g, store, st, b, rid, d, j).0)
    decreases d, 1, |Pairs(g, b)| - j
  {
    hide Pairs, Search, Derivable;
    if j < |Pairs(g, b)| {
      var p := Pairs(g, b)[j];
      var st1 := Search(g, store, st, p.left, rid, d);
      SearchJustified(g, store, st0, st, p.left, rid, d);
      SearchGrows(g, store, st, p.left, rid, d);
      if !Available(st1[p.left]) {
        TryPairsJustified(g, store, st0, st1, b, rid, d, j + 1);
      } else {
        var st2 := Search(g, store, st1, p.right, rid, d);
        SearchJustified(g, store, st0, st1, p.right, rid, d);
        SearchGrows(g, store, st1, p.right, rid, d);
        if !Available(st2[p.right]) || st2[p.left].data == [] || st2[p.right].data == [] {
          TryPairsJustified(g, store, st0, st2, b, rid, d, j + 1);
        } else {
          JustifiedByPair(g, store, st0, b, p);
        }
      }
    }
  }

  /** The search with depth d ends with block b held. */
  ghost predicate Obtains(g: Graph, store: Store, st: State, b: Node, rid: nat, d: nat)
    requires g.Valid() && Covers(g, st) && In(g, b)
  {
    d >= 1 && Available(Search(g, store, st, b, rid, d)[b])
  }

  /**
    What repair can achieve, exactly: a block can be obtained with some depth if and only if it has a
    derivation from what is held or downloadable; and every depth from the height of the derivation on
    does it.
   */
  lemma ObtainableIffDerivable(g: Graph, store: Store, st: State, b: Node, rid: nat)
    requires g.Valid() && Covers(g, st) && In(g, b) && Quiet(g, st) && NonEmpty(g, store, st)
    ensures (exists d: nat :: Obtains(g, store, st, b, rid, d)) <==> Repairable(g, store, st, b)
    ensures forall h: nat, d: nat :: Derivable(g, store, st, b, h) && h <= d ==> Obtains(g, store, st, b, rid, d)
  {
    hide Pairs, Search;
    forall h: nat, d: nat | Derivable(g, store, st, b, h) && h <= d
      ensures Obtains(g, store, st, b, rid, d)
    {
      DerivableHigher(g, store, st, b, h, d);
      SearchComplete(g, store, st, b, rid, d);
    }
    forall d: nat | Obtains(g, store, st, b, rid, d)
      ensures Repairable(g, store, st, b)
    {
      ObtainedIsDerivable(g, store, st, b, rid, d);
    }
    if Repairable(g, store, st, b) {
      var h: nat :| Derivable(g, store, st, b, h);
      assert Obtains(g, store, st, b, rid, h);
    }
  }

  lemma ObtainedIsDerivable(g: Graph, store: Store, st: State, b: Node, rid: nat, d: nat)
    requires g.Valid() && Covers(g, st) && In(g, b) && Quiet(g, st) && Obtains(g, store, st, b, rid, d)
    ensures Repairable(g, store, st, b)
  {
    hide Search, Derivable;
    HeldIsJustified(g, store, st);
    SearchJustified(g, store, st, st, b, rid, d);
  }

  lemma DerivablePositive(g: Graph, store: Store, st: State, b: Node, h: nat)
    requires g.Valid() && Covers(g, st) && In(g, b) && Derivable(g, store, st, b, h)
    ensures h >= 1
  {
  }

  lemma HeldIsJustified(g: Graph, store: Store, st: State)
    requires g.Valid() && Covers(g, st)
    ensures Justified(g, store, st, st)
  {
    forall b | In(g, b) && Available(st[b])
      ensures Repairable(g, store, st, b)
    {
      assert Derivable(g, store, st, b, 1);
    }
  }

  // ----- safety

  /** The store delivers true values, up to trailing zeros. */
  ghost predicate Honest(g: Graph, data: seq<Chunk>, store: Store)
    requires g.Valid() && |data| == g.n
  {
    forall b :: In(g, b) && b in store ==> store[b] != [] && Same(store[b], Value(g, data, b))
  }

  /** Every block held has its true value, up to trailing zeros. */
  ghost predicate Correct(g: Graph, data: seq<Chunk>, st: State)
    requires g.Valid() && |data| == g.n && Covers(g, st)
  {
    forall b :: In(g, b) && Available(st[b]) ==> st[b].data != [] && Same(st[b].data, Value(g, data, b))
  }

  /** What a store holds of an upload: original chunks, and parities one run of the entangler has sent. */
  ghost predicate Uploaded(g: Graph, data: seq<Chunk>, strands: seq<bool>, store: Store)
    requires g.Valid() && |strands| == g.alpha && g.s <= g.n == |data|
  {
    forall b :: In(g, b) && b in store ==>
      match b
      case D(i) => store[b] == data[i - 1]
      case P(k, i) => exists p :: p in RunOutput(data, g.s, strands) && p.strand == k && p.left == i && p.data == store[b]
  }

  /** Whatever part of an upload survives is an honest store. */
  lemma UploadHonest(g: Graph, data: seq<Chunk>, strands: seq<bool>, store: Store)
    requires g.Valid() && |strands| == g.alpha && g.s <= g.n == |data|
    requires (forall d :: d in data ==> d != []) && Uploaded(g, data, strands, store)
    ensures Honest(g, data, store)
  {
    hide RunOutput, ParityData;
    EmissionGenuine(data, g.s, strands);
    forall b | In(g, b) && b in store
      ensures store[b] != [] && Same(store[b], Value(g, data, b))
    {
      match b
      case D(i) => assert data[i - 1] in data;
      case P(k, i) =>
        var p :| p in RunOutput(data, g.s, strands) && p.strand == k && p.left == i && p.data == store[b];
        ParityNonEmpty(data, g.s, k, i);
    }
  }

  lemma RebuiltCorrect(g: Graph, data: seq<Chunk>, b: Node, p: Pair, l: Chunk, r: Chunk)
    requires g.Valid() && TwoColumns(g) && |data| == g.n && In(g, b) && p in Pairs(g, b)
    requires Same(l, Value(g, data, p.left)) && Same(r, Value(g, data, p.right)) && l != []
    ensures Xor(l, r) != [] && Same(Xor(l, r), Value(g, data, b))
  {
    hide Value, Pairs, Same;
    PairsSound(g, data, b);
    assert PairSound(g, data, b, p);
    XorRespectsSame(l, Value(g, data, p.left), r, Value(g, data, p.right));
    SameTransitive(Xor(l, r), Xor(Value(g, data, p.left), Value(g, data, p.right)), Value(g, data, b));
  }

  lemma {:induction false} SearchCorrect(g: Graph, data: seq<Chunk>, store: Store, st: State, b: Node, rid: nat, d: nat)
    requires g.Valid() && TwoColumns(g) && |data| == g.n && Covers(g, st) && In(g, b) && d >= 1
    requires Honest(g, data, store) && Correct(g, data, st)
    ensures Correct(g, data, Search(g, store, st, b, rid, d))
    decreases d, 0, 0
  {
    hide Pairs, TryPairs, Value, Same;
    if st[b].status == NoData && b !in store && d > 1 {
      var st1 := st[b := Started(st[b], rid)];
      TryPairsCorrect(g, data, store, st1, b, rid, d - 1, 0);
      TryPairsGrows(g, store, st1, b, rid, d - 1, 0);
    }
  }

  lemma {:induction false} TryPairsCorrect(g: Graph, data: seq<Chunk>, store: Store, st: State, b: Node, rid: nat, d: nat, j: nat)
    requires g.Valid() && TwoColumns(g) && |data| == g.n && Covers(g, st) && In(g, b) && d >= 1 && j <= |Pairs(g, b)|
    requires st[b].status == RepairPending && Honest(g, data, store) && Correct(g, data, st)
    ensures Correct(g, data, TryPairs(g, store, st, b, rid, d, j).0)
    decreases d, 1, |Pairs(g, b)| - j
  {
    hide Pairs, Search, Value, Same, Xor;
    if j < |Pairs(g, b)| {
      var p := Pairs(g, b)[j];
      var st1 := Search(g, store, st, p.left, rid, d);
      SearchCorrect(g, data, store, st, p.left, rid, d);
      SearchGrows(g, store, st, p.left, rid, d);
      if !Available(st1[p.left]) {
        TryPairsCorrect(g, data, store, st1, b, rid, d, j + 1);
      } else {
        var st2 := Search(g, store, st1, p.right, rid, d);
        SearchCorrect(g, data, store, st1, p.right, rid, d);
        SearchGrows(g, store, st1, p.right, rid, d);
        if !Available(st2[p.right]) || st2[p.left].data == [] || st2[p.right].data == [] {
          TryPairsCorrect(g, data, store, st2, b, rid, d, j + 1);
        } else {
          RebuiltCorrect(g, data, b, p, st2[p.left].data, st2[p.right].data);
        }
      }
    }
  }

  // ----- whole runs

  /** One call on the lattice: a block, a depth, and what the store delivers meanwhile. */
  datatype Request = Request(block: Node, depth: nat, store: Store)

  /** Request ids are an unsigned 64-bit counter. */
  function NextId(id: nat): nat {
    (id + 1) % 0x1_0000_0000_0000_0000
  }

  /** The id of the m-th request from counter c on. */
  function IdAt(c: nat, m: nat): nat {
    if m == 0 then c else NextId(IdAt(c, m - 1))
  }

  lemma {:induction false} IdShift(c: nat, a: nat, m: nat)
    ensures IdAt(c, a + m) == IdAt(IdAt(c, a), m)
  {
    if m > 0 {
      IdShift(c, a, m - 1);
    }
  }

  /** The counter counts up to 2^64 and starts again. */
  lemma {:induction false} IdClosedForm(c: nat, m: nat)
    requires c < 0x1_0000_0000_0000_0000 && m <= 0x1_0000_0000_0000_0000
    ensures IdAt(c, m) == if c + m < 0x1_0000_0000_0000_0000 then c + m else c + m - 0x1_0000_0000_0000_0000
  {
    if m > 0 {
      IdClosedForm(c, m - 1);
      NextOf(IdAt(c, m - 1));
    }
  }

  lemma NextOf(id: nat)
    requires id < 0x1_0000_0000_0000_0000
    ensures NextId(id) == if id + 1 < 0x1_0000_0000_0000_0000 then id + 1 else 0
  {
  }

  lemma {:induction false} IdsBounded(c: nat, m: nat)
    requires c < 0x1_0000_0000_0000_0000
    ensures IdAt(c, m) < 0x1_0000_0000_0000_0000
  {
    if m > 0 {
      IdsBounded(c, m - 1);
      NextOf(IdAt(c, m - 1));
    }
  }

  /** Fewer than 2^64 requests in a row all have different ids. */
  lemma IdsDistinct(c: nat, a: nat, b: nat)
    requires c < 0x1_0000_0000_0000_0000 && a < b < a + 0x1_0000_0000_0000_0000
    ensures IdAt(c, a) != IdAt(c, b)
  {
    hide IdAt;
    IdsBounded(c, a);
    IdShift(c, a, b - a);
    IdClosedForm(IdAt(c, a), b - a);
  }

  /** The lattice between calls: its blocks and the request counter, an unsigned 64-bit word. */
  datatype Session = Session(st: State, counter: nat)

  /** GetChunkDepth / GetChunk / GetParity: depth 0 always fails, even for a block already held. */
  function Serve(g: Graph, se: Session, req: Request): (r: (Session, Answer))
    requires g.Valid() && Covers(g, se.st) && In(g, req.block)
    ensures Covers(g, r.0.st)
  {
    var counter := NextId(se.counter);
    if req.depth == 0 then (Session(se.st, counter), Failed)
    else
      var st := Search(g, req.store, se.st, req.block, se.counter, req.depth);
      (Session(st, counter), if Available(st[req.block]) then Got(st[req.block].data) else Failed)
  }

  lemma ServeIs(g: Graph, se: Session, q: Request)
    requires g.Valid() && Covers(g, se.st) && In(g, q.block)
    ensures q.depth == 0 ==> Serve(g, se, q) == (Session(se.st, NextId(se.counter)), Failed)
    ensures q.depth > 0 ==>
              var st := Search(g, q.store, se.st, q.block, se.counter, q.depth);
              Serve(g, se, q) == (Session(st, NextId(se.counter)), if Available(st[q.block]) then Got(st[q.block].data) else Failed)
  {
    hide Search, NextId;
  }

  /** The state after a run, and the answers given. */
  function Run(g: Graph, se: Session, reqs: seq<Request>): (r: (Session, seq<Answer>))
    requires g.Valid() && Covers(g, se.st) && forall q :: q in reqs ==> In(g, q.block)
    ensures Covers(g, r.0.st) && |r.1| == |reqs|
  {
    if reqs == [] then (se, [])
    else
      var (se1, answers) := Run(g, se, reqs[..|reqs| - 1]);
      var (se2, answer) := Serve(g, se1, reqs[|reqs| - 1]);
      (se2, answers + [answer])
  }

  lemma NothingRun(g: Graph, se: Session)
    requires g.Valid() && Covers(g, se.st)
    ensures Run(g, se, []) == (se, [])
  {
  }

  lemma RunLast(g: Graph, se: Session, reqs: seq<Request>)
    requires g.Valid() && Covers(g, se.st) && reqs != [] && forall q :: q in reqs ==> In(g, q.block)
    ensures var (se1, answers) := Run(g, se, reqs[..|reqs| - 1]);
            var (se2, answer) := Serve(g, se1, reqs[|reqs| - 1]);
            Run(g, se, reqs) == (se2, answers + [answer])
  {
    hide Serve;
  }

  /**
    Repair safety over whole runs: whatever blocks are requested, with whatever depths, while the store
    loses and regains whatever it likes, every block held after the run and every answer given during it
    is the true value up to trailing zeros, and nothing is left pending.
   */
  lemma {:induction false} RunSafe(g: Graph, data: seq<Chunk>, se: Session, reqs: seq<Request>)
    requires g.Valid() && TwoColumns(g) && |data| == g.n && Fresh(g, se.st)
    requires forall q :: q in reqs ==> In(g, q.block) && Honest(g, data, q.store)
    ensures var (se', answers) := Run(g, se, reqs);
            && Correct(g, data, se'.st) && Quiet(g, se'.st)
            && forall x :: 0 <= x < |reqs| && answers[x].Got? ==> Same(answers[x].data, Value(g, data, reqs[x].block))
  {
    hide Search, Value, Same, Honest;
    if reqs != [] {
      var l := |reqs| - 1;
      RunSafe(g, data, se, reqs[..l]);
      var (se1, answers) := Run(g, se, reqs[..l]);
      var q := reqs[l];
      if q.depth > 0 {
        SearchCorrect(g, data, q.store, se1.st, q.block, se1.counter, q.depth);
        SearchGrows(g, q.store, se1.st, q.block, se1.counter, q.depth);
      }
      forall x | 0 <= x < |reqs| && Run(g, se, reqs).1[x].Got?
        ensures Same(Run(g, se, reqs).1[x].data, Value(g, data, reqs[x].block))
      {
        if x < l {
          assert reqs[..l][x] == reqs[x];
        }
      }
    }
  }

  /** The requests of a run have consecutive ids. */
  lemma {:induction false} RunIds(g: Graph, se: Session, reqs: seq<Request>)
    requires g.Valid() && Covers(g, se.st) && forall q :: q in reqs ==> In(g, q.block)
    ensures Run(g, se, reqs).0.counter == IdAt(se.counter, |reqs|)
  {
    hide Search, NextId;
    if reqs != [] {
      RunIds(g, se, reqs[..|reqs| - 1]);
    }
  }

  /** A block once held keeps its content for the rest of the run. */
  lemma {:induction false} RunKeeps(g: Graph, se: Session, reqs: seq<Request>, b: Node)
    requires g.Valid() && Covers(g, se.st) && In(g, b) && (forall q :: q in reqs ==> In(g, q.block))
    requires Available(se.st[b])
    ensures Run(g, se, reqs).0.st[b] == se.st[b]
  {
    hide Search;
    if reqs != [] {
      var l := |reqs| - 1;
      RunKeeps(g, se, reqs[..l], b);
      var se1, q := Run(g, se, reqs[..l]).0, reqs[l];
      if q.depth > 0 {
        SearchGrows(g, q.store, se1.st, q.block, se1.counter, q.depth);
      }
    }
  }

  /**
    End to end, as a caller sees it: in any run, an answered data block, trimmed of zeros the way the
    client trims it, is the original chunk if and only if the chunk neither starts nor ends with a zero byte.
   */
  lemma RunRestores(g: Graph, data: seq<Chunk>, se: Session, reqs: seq<Request>, x: nat)
    requires g.Valid() && TwoColumns(g) && |data| == g.n && Fresh(g, se.st)
    requires forall q :: q in reqs ==> In(g, q.block) && Honest(g, data, q.store)
    requires x < |reqs| && reqs[x].block.D? && Run(g, se, reqs).1[x].Got? && data[reqs[x].block.i - 1] != []
    ensures var d := data[reqs[x].block.i - 1];
            Trim(Run(g, se, reqs).1[x].data) == d <==> d[0] != 0 && d[|d| - 1] != 0
  {
    hide Run, Same;
    RunSafe(g, data, se, reqs);
    assert reqs[x] in reqs;
    TrimRestores(Run(g, se, reqs).1[x].data, data[reqs[x].block.i - 1]);
  }

  /**
    The safety of repair rests on two full columns and on nothing else: for data without all-zero chunks,
    no search over an honest store ever stores a wrong value if and only if n >= 2s.  With fewer blocks
    the last block of column 0, alone on its horizontal chain, is "rebuilt" from its parity and that same
    parity as all zeros.
   */
  lemma SafeIffTwoColumns(g: Graph, data: seq<Chunk>)
    requires g.Valid() && g.s <= g.n == |data|
    requires forall d :: d in data ==> !Same(d, [])
    ensures SearchSafe(g, data) <==> TwoColumns(g)
  {
    hide Pairs, Search, Value, Same;
    if TwoColumns(g) {
      forall store, b, d: nat | Honest(g, data, store) && In(g, b) && d >= 1
        ensures Correct(g, data, Search(g, store, FreshState(g), b, 0, d))
      {
        SearchCorrect(g, data, store, FreshState(g), b, 0, d);
      }
    } else {
      var store := LoneBlockZeroed(g, data);
      assert !Correct(g, data, Search(g, store, FreshState(g), D(g.s), 0, 2));
    }
  }

  ghost predicate SearchSafe(g: Graph, data: seq<Chunk>)
    requires g.Valid() && |data| == g.n
  {
    forall store: Store, b: Node, d: nat :: Honest(g, data, store) && In(g, b) && d >= 1
      ==> Correct(g, data, Search(g, store, FreshState(g), b, 0, d))
  }

  lemma LoneBlockZeroed(g: Graph, data: seq<Chunk>) returns (store: Store)
    requires g.Valid() && g.s <= g.n == |data| && !TwoColumns(g)
    requires forall d :: d in data ==> !Same(d, [])
    ensures Honest(g, data, store) && In(g, D(g.s))
    ensures var c := Search(g, store, FreshState(g), D(g.s), 0, 2)[D(g.s)];
            Available(c) && Same(c.data, []) && !Same(c.data, Value(g, data, D(g.s)))
  {
    hide Pairs, Same, Xor, Search, ParityData;
    LoneBlock(g);
    store := LoneStore(g, data);
    assert data[g.s - 1] in data;
    XorSelfDiffers(store[P(0, g.s)], data[g.s - 1]);
    SelfPaired(g, store, D(g.s), P(0, g.s));
  }

  lemma LoneStore(g: Graph, data: seq<Chunk>) returns (store: Store)
    requires g.Valid() && g.s <= g.n == |data| && In(g, P(0, g.s))
    requires forall d :: d in data ==> !Same(d, [])
    ensures Honest(g, data, store) && P(0, g.s) in store && D(g.s) !in store && store[P(0, g.s)] != []
  {
    NoneEmpty(data);
    hide ParityData;
    ParityNonEmpty(data, g.s, 0, g.s);
    store := map[P(0, g.s) := Value(g, data, P(0, g.s))];
  }

  lemma NoneEmpty(data: seq<Chunk>)
    requires forall d :: d in data ==> !Same(d, [])
    ensures forall d :: d in data ==> d != []
  {
  }

  /** A block whose first pair names one downloadable parity twice is given that parity XORed with itself. */
  lemma SelfPaired(g: Graph, store: Store, b: Node, p: Node)
    requires g.Valid() && In(g, b) && In(g, p) && b != p && |Pairs(g, b)| > 0 && Pairs(g, b)[0] == Pair(p, p)
    requires p in store && b !in store && store[p] != []
    ensures var c := Search(g, store, FreshState(g), b, 0, 2)[b];
            Available(c) && c.data == Xor(store[p], store[p])
  {
    hide Pairs, Xor, FreshState;
    var st := FreshState(g);
    var st1 := st[b := Started(st[b], 0)];
    var st2 := Search(g, store, st1, p, 0, 1);
    assert st2[p].data == store[p] && Available(st2[p]);
    assert Search(g, store, st2, p, 0, 1) == st2;
    assert TryPairs(g, store, st1, b, 0, 1, 0) == (st2[b := WithData(st2[b], Xor(store[p], store[p]), true)], true);
  }

  // ----- one surviving strand

  lemma DataPairIn(g: Graph, i: nat, k: nat)
    requires g.Valid() && In(g, P(k, i))
    ensures Pair(Entering(g, k, i), P(k, i)) in Pairs(g, D(i))
  {
    var p := Pair(Entering(g, k, i), P(k, i));
    assert p in StrandPairs(g, i, k);
    DataPairsFrom(g, i, g.alpha, p);
  }

  /** Only the second block of a chain is entered by a data block. */
  lemma EnteringKind(g: Graph, k: nat, i: nat)
    requires g.Valid() && TwoColumns(g) && In(g, P(k, i))
    ensures 1 <= Prev(g.s, g.n, k, i) <= g.n
    ensures var h := Prev(g.s, g.n, k, i);
            if Col(g.s, i) == 1 then Entering(g, k, i) == D(h) && Col(g.s, h) == 0 else Entering(g, k, i) == P(k, h)
  {
    PrevCoordinates(g.s, g.n, k, i);
    ChainsLong(g, k, i);
    ChainsLong(g, k, Prev(g.s, g.n, k, i));
  }

  ghost predicate StrandSurvives(g: Graph, store: Store, k: nat) {
    forall i: nat :: 1 <= i <= g.n ==> P(k, i) in store
  }

  lemma SurvivorHeight(g: Graph, store: Store, st: State, i: nat, k: nat)
    requires g.Valid() && TwoColumns(g) && Covers(g, st) && Quiet(g, st) && In(g, P(k, i))
    requires StrandSurvives(g, store, k)
    ensures Derivable(g, store, st, D(i), 3)
    ensures Col(g.s, i) != 1 ==> Derivable(g, store, st, D(i), 2)
  {
    hide Pairs, Entering, Prev;
    DataPairIn(g, i, k);
    EnteringKind(g, k, i);
    Downloadable(g, store, st, P(k, i));
    if Col(g.s, i) != 1 {
      Downloadable(g, store, st, Entering(g, k, i));
      HigherByPair(g, store, st, D(i), Pair(Entering(g, k, i), P(k, i)), 1);
      DerivableHigher(g, store, st, D(i), 2, 3);
    } else {
      var h := Prev(g.s, g.n, k, i);
      SurvivorHeight'(g, store, st, h, k);
      DerivableHigher(g, store, st, P(k, i), 1, 2);
      HigherByPair(g, store, st, D(i), Pair(D(h), P(k, i)), 2);
    }
  }

  lemma SurvivorHeight'(g: Graph, store: Store, st: State, h: nat, k: nat)
    requires g.Valid() && TwoColumns(g) && Covers(g, st) && Quiet(g, st) && In(g, P(k, h))
    requires StrandSurvives(g, store, k) && Col(g.s, h) != 1
    ensures Derivable(g, store, st, D(h), 2)
  {
    hide Pairs, Entering, Prev;
    DataPairIn(g, h, k);
    EnteringKind(g, k, h);
    Downloadable(g, store, st, P(k, h));
    Downloadable(g, store, st, Entering(g, k, h));
    HigherByPair(g, store, st, D(h), Pair(Entering(g, k, h), P(k, h)), 1);
  }

  /**
    One surviving strand is enough: whatever else is lost, with all parities of one strand downloadable
    depth 3 obtains every data block, from any reachable state; depth 2 does unless the block is the
    second of its chain.
   */
  lemma OneStrandSuffices(g: Graph, store: Store, st: State, i: nat, k: nat, rid: nat)
    requires g.Valid() && TwoColumns(g) && Covers(g, st) && Quiet(g, st) && NonEmpty(g, store, st) && In(g, P(k, i))
    requires StrandSurvives(g, store, k)
    ensures Available(Search(g, store, st, D(i), rid, 3)[D(i)])
    ensures Col(g.s, i) != 1 ==> Available(Search(g, store, st, D(i), rid, 2)[D(i)])
  {
    hide Pairs, Search, Derivable;
    SurvivorHeight(g, store, st, i, k);
    SearchComplete(g, store, st, D(i), rid, 3);
    if Col(g.s, i) != 1 {
      SearchComplete(g, store, st, D(i), rid, 2);
    }
  }

  // ----- depth two is exact

  /** Nothing is held but what could be downloaded anyway. */
  ghost predicate Cached(g: Graph, store: Store, st: State)
    requires Covers(g, st)
  {
    forall b :: In(g, b) && Available(st[b]) ==> b in store
  }

  /** Depth one only ever downloads. */
  lemma DepthOneDownloads(g: Graph, store: Store, st: State, b: Node, rid: nat)
    requires g.Valid() && Covers(g, st) && In(g, b) && Cached(g, store, st)
    ensures Cached(g, store, Search(g, store, st, b, rid, 1))
  {
    hide Pairs;
  }

  lemma {:induction false} DepthOnePairs(g: Graph, store: Store, st: State, b: Node, rid: nat, j: nat)
    requires g.Valid() && Covers(g, st) && In(g, b) && j <= |Pairs(g, b)| && Cached(g, store, st)
    requires TryPairs(g, store, st, b, rid, 1, j).1
    ensures exists p :: p in Pairs(g, b) && p.left in store && p.right in store
    decreases |Pairs(g, b)| - j
  {
    hide Pairs, Search;
    var p := Pairs(g, b)[j];
    var st1 := Search(g, store, st, p.left, rid, 1);
    DepthOneDownloads(g, store, st, p.left, rid);
    if !Available(st1[p.left]) {
      DepthOnePairs(g, store, st1, b, rid, j + 1);
    } else {
      var st2 := Search(g, store, st1, p.right, rid, 1);
      DepthOneDownloads(g, store, st1, p.right, rid);
      if !Available(st2[p.right]) || st2[p.left].data == [] || st2[p.right].data == [] {
        DepthOnePairs(g, store, st2, b, rid, j + 1);
      } else {
        assert p.left in store && p.right in store by {
          SearchGrows(g, store, st1, p.right, rid, 1);
        }
      }
    }
  }

  /**
    The bound is sharp: on a fresh lattice whose only surviving blocks are the parities of one strand,
    depth 2 obtains a data block if and only if the block is not the second of its chain.
   */
  lemma DepthTwoExact(g: Graph, store: Store, st: State, i: nat, k: nat, rid: nat)
    requires g.Valid() && TwoColumns(g) && Fresh(g, st) && NonEmpty(g, store, st) && In(g, P(k, i))
    requires forall b :: In(g, b) ==> (b in store <==> b.P? && b.k == k)
    ensures Available(Search(g, store, st, D(i), rid, 2)[D(i)]) <==> Col(g.s, i) != 1
  {
    if Col(g.s, i) != 1 {
      assert StrandSurvives(g, store, k) by {
        assert forall j: nat :: 1 <= j <= g.n ==> In(g, P(k, j));
      }
      OneStrandSuffices(g, store, st, i, k, rid);
    } else {
      SecondBlockPairs(g, store, i, k);
      hide Pairs, TryPairs;
      var st1 := st[D(i) := Started(st[D(i)], rid)];
      if TryPairs(g, store, st1, D(i), rid, 1, 0).1 {
        DepthOnePairs(g, store, st1, D(i), rid, 0);
      }
      TryPairsGrows(g, store, st1, D(i), rid, 1, 0);
    }
  }

  /** Every pair of a second block needs another data block or a parity of another strand. */
  lemma SecondBlockPairs(g: Graph, store: Store, i: nat, k: nat)
    requires g.Valid() && TwoColumns(g) && In(g, P(k, i)) && Col(g.s, i) == 1
    requires forall b :: In(g, b) ==> (b in store <==> b.P? && b.k == k)
    ensures forall p :: p in Pairs(g, D(i)) ==> !(p.left in store && p.right in store)
  {
    forall p | p in Pairs(g, D(i))
      ensures !(p.left in store && p.right in store)
    {
      DataPairsFrom(g, i, g.alpha, p);
      var k' :| 0 <= k' < g.alpha && p in StrandPairs(g, i, k');
      EnteringKind(g, k', i);
      ChainsLong(g, k', i);
    }
  }
}
