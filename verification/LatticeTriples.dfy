/**
  Which pairs a block can be rebuilt from: exactly those that meet it at some data block of some strand.
 */
module LatticeTriples {
  import opened Bytes
  import opened Geometry
  import opened Chains
  import opened LatticeGraph
  import opened RecoverySearch
  import opened RecoveryTheorems

  /** l and r are x and y. */
  predicate Both(l: Node, r: Node, x: Node, y: Node) {
    (l == x && r == y) || (l == y && r == x)
  }

  /**
    l, r and b are the three blocks that XOR to nothing at data block j of strand k: the block itself, the
    parity leaving it, and the parity leaving its predecessor.  The first parity of a chain of two or more
    blocks has been rebuilt, so its data block takes its place.
   */
  predicate Meet(g: Graph, k: nat, j: nat, l: Node, r: Node, b: Node)
    requires g.Valid() && In(g, P(k, j))
  {
    var h := Prev(g.s, g.n, k, j);
    PrevCoordinates(g.s, g.n, k, j);
    var e := if Col(g.s, h) == 0 && h != j then D(h) else P(k, h);
    || (b == e && Both(l, r, D(j), P(k, j)))
    || (b == D(j) && Both(l, r, e, P(k, j)))
    || (b == P(k, j) && Both(l, r, e, D(j)))
  }

  /** The blocks of a pair, in either order. */
  predicate Paired(g: Graph, b: Node, l: Node, r: Node)
    requires g.Valid() && In(g, b)
  {
    Pair(l, r) in Pairs(g, b) || Pair(r, l) in Pairs(g, b)
  }

  lemma MeetIs(g: Graph, k: nat, j: nat, l: Node, r: Node, b: Node)
    requires g.Valid() && In(g, P(k, j))
    ensures var e := Entering(g, k, j);
            Meet(g, k, j, l, r, b) <==>
              || (b == e && Both(l, r, D(j), P(k, j)))
              || (b == D(j) && Both(l, r, e, P(k, j)))
              || (b == P(k, j) && Both(l, r, e, D(j)))
  {
    NextPrevInverse(g.s, g.n, k, j);
    PrevCoordinates(g.s, g.n, k, j);
    hide Next, Prev, Col;
  }

  /** What enters the next block of the strand. */
  lemma EntersNext(g: Graph, k: nat, i: nat)
    requires g.Valid() && In(g, P(k, i))
    ensures var y := Next(g.s, g.n, k, i);
            && In(g, P(k, y)) && Leaving(g, k, i) == Pair(D(y), P(k, y))
            && Entering(g, k, y) == if WrapModified(g, k, i) then D(i) else P(k, i)
  {
    NextPrevInverse(g.s, g.n, k, i);
    hide Next, Prev, Col;
  }

  lemma PairedMeets(g: Graph, b: Node, p: Pair)
    requires g.Valid() && In(g, b) && p in Pairs(g, b)
    ensures exists k, j :: In(g, P(k, j)) && Meet(g, k, j, p.left, p.right, b)
  {
    hide Next, Prev, Col, Meet, Entering, Leaving, WrapModified;
    match b
    case P(k, i) =>
      StrandMeets(g, k, i, p, b);
    case D(i) =>
      DataPairsFrom(g, i, g.alpha, p);
      var k :| 0 <= k < g.alpha && p in StrandPairs(g, i, k);
      assert In(g, P(k, i));
      StrandMeets(g, k, i, p, b);
  }

  lemma StrandMeets(g: Graph, k: nat, i: nat, p: Pair, b: Node)
    requires g.Valid() && In(g, P(k, i))
    requires (b == D(i) && p in StrandPairs(g, i, k)) || (b == P(k, i) && p in ParityPairs(g, k, i))
    ensures exists k', j :: In(g, P(k', j)) && Meet(g, k', j, p.left, p.right, b)
  {
    hide Next, Prev, Col, Meet, Entering, Leaving, WrapModified;
    EntersNext(g, k, i);
    var y := Next(g.s, g.n, k, i);
    MeetIs(g, k, i, p.left, p.right, b);
    MeetIs(g, k, y, p.left, p.right, b);
    if p == Pair(Entering(g, k, i), if b.D? then P(k, i) else D(i)) {
      assert Meet(g, k, i, p.left, p.right, b);
    } else {
      assert Meet(g, k, y, p.left, p.right, b);
    }
  }

  /** Any two blocks of a meeting are a pair of the third. */
  lemma MeetsPaired(g: Graph, k: nat, j: nat, b: Node, l: Node, r: Node)
    requires g.Valid() && In(g, P(k, j)) && In(g, b) && Meet(g, k, j, l, r, b)
    ensures Paired(g, b, l, r)
  {
    hide Next, Prev, Col, Meet, Pairs, Entering;
    MeetIs(g, k, j, l, r, b);
    PairsOfMeeting(g, k, j);
  }

  lemma PairsOfMeeting(g: Graph, k: nat, j: nat)
    requires g.Valid() && In(g, P(k, j))
    ensures In(g, D(j)) && Pair(Entering(g, k, j), P(k, j)) in Pairs(g, D(j))
    ensures Pair(Entering(g, k, j), D(j)) in Pairs(g, P(k, j))
    ensures Pair(D(j), P(k, j)) in Pairs(g, Entering(g, k, j))
  {
    hide Next, Prev, Col, Entering, Leaving;
    NextPrevInverse(g.s, g.n, k, j);
    var h := Prev(g.s, g.n, k, j);
    assert In(g, P(k, h));
    EntersNext(g, k, h);
    var p, q := Pair(Entering(g, k, j), P(k, j)), Pair(D(j), P(k, j));
    assert p in StrandPairs(g, j, k);
    DataPairsFrom(g, j, g.alpha, p);
    if WrapModified(g, k, h) {
      assert q in StrandPairs(g, h, k);
      DataPairsFrom(g, h, g.alpha, q);
    } else {
      assert q in ParityPairs(g, k, h);
    }
  }

  /**
    The recover pairs are complete and nothing else: l and r are a pair of b if and only if l, r and b are the
    three blocks that meet at some data block of some strand.
   */
  lemma PairedIffMeeting(g: Graph, b: Node, l: Node, r: Node)
    requires g.Valid() && In(g, b)
    ensures Paired(g, b, l, r) <==> exists k, j :: In(g, P(k, j)) && Meet(g, k, j, l, r, b)
  {
    hide Pairs, Meet;
    if Pair(l, r) in Pairs(g, b) {
      PairedMeets(g, b, Pair(l, r));
    } else if Pair(r, l) in Pairs(g, b) {
      PairedMeets(g, b, Pair(r, l));
      var k, j :| In(g, P(k, j)) && Meet(g, k, j, r, l, b);
      MeetEither(g, k, j, l, r, b);
    }
    if k, j :| In(g, P(k, j)) && Meet(g, k, j, l, r, b) {
      MeetsPaired(g, k, j, b, l, r);
    }
  }

  lemma MeetEither(g: Graph, k: nat, j: nat, l: Node, r: Node, b: Node)
    requires g.Valid() && In(g, P(k, j))
    ensures Meet(g, k, j, l, r, b) <==> Meet(g, k, j, r, l, b)
  {
    hide Prev, Col;
  }

  // ----- the order of the pairs

  /** Of two pairs of data block i, the first comes from an earlier strand, or is the one with the block's own parity. */
  ghost predicate Before(g: Graph, i: nat, p: Pair, q: Pair)
    requires g.Valid() && 1 <= i <= g.n
  {
    && p.right.P? && q.right.P?
    && (p.right.k < q.right.k || (p.right.k == q.right.k < g.alpha && p.right.i == i && q == Pair(D(Next(g.s, g.n, p.right.k, i)), P(p.right.k, Next(g.s, g.n, p.right.k, i)))))
  }

  lemma {:induction false} DataPairsOrder(g: Graph, i: nat, k: nat)
    requires g.Valid() && 1 <= i <= g.n && k <= g.alpha
    ensures forall x :: 0 <= x < |DataPairs(g, i, k)| ==> DataPairs(g, i, k)[x].right.P? && DataPairs(g, i, k)[x].right.k < k
    ensures forall x, y :: 0 <= x < y < |DataPairs(g, i, k)| ==> Before(g, i, DataPairs(g, i, k)[x], DataPairs(g, i, k)[y])
  {
    hide Next, Entering, WrapModified;
    if k > 0 {
      DataPairsOrder(g, i, k - 1);
      assert In(g, P(k - 1, i));
    }
  }

  /**
    The order in which pairs are tried.  For data: strand by strand, on each the block's own parity first and then
    what follows the block.  For a parity: its data block with what enters that, then what follows the parity.
   */
  lemma PairsInOrder(g: Graph, b: Node)
    requires g.Valid() && In(g, b)
    ensures b.D? ==> forall x, y :: 0 <= x < y < |Pairs(g, b)| ==> Before(g, b.i, Pairs(g, b)[x], Pairs(g, b)[y])
    ensures b.P? ==> 1 <= |Pairs(g, b)| <= 2 && Pairs(g, b)[0].right == D(b.i)
    ensures b.P? && |Pairs(g, b)| == 2 ==> var y := Next(g.s, g.n, b.k, b.i); Pairs(g, b)[1] == Pair(D(y), P(b.k, y))
  {
    hide Next, Entering, WrapModified;
    if b.D? {
      DataPairsOrder(g, b.i, g.alpha);
    }
  }

  /** Any two blocks that meet give the third, data or parity, with depth two or more. */
  lemma TwoGiveThird(g: Graph, store: Store, st: State, k: nat, j: nat, b: Node, l: Node, r: Node, rid: nat, d: nat)
    requires d >= 2 && g.Valid() && Covers(g, st) && Quiet(g, st) && NonEmpty(g, store, st) && In(g, P(k, j)) && In(g, b)
    requires In(g, l) && In(g, r) && Meet(g, k, j, l, r, b)
    requires AtHand(g, store, st, l) && AtHand(g, store, st, r)
    ensures Available(Search(g, store, st, b, rid, d)[b])
  {
    hide Pairs, Search, Meet;
    MeetsPaired(g, k, j, b, l, r);
    assert Derivable(g, store, st, l, 1) && Derivable(g, store, st, r, 1);
    if Pair(l, r) in Pairs(g, b) {
      HigherByPair(g, store, st, b, Pair(l, r), 1);
    } else {
      HigherByPair(g, store, st, b, Pair(r, l), 1);
    }
    DerivableHigher(g, store, st, b, 2, d);
    SearchComplete(g, store, st, b, rid, d);
  }

  // ----- a block whose own parities are lost

  /** Held, or in the store. */
  ghost predicate Within(g: Graph, store: Store, st: State, b: Node)
    requires Covers(g, st) && In(g, b)
  {
    Available(st[b]) || b in store
  }

  /** With depth one a pair succeeds only if both its blocks are held or in the store. */
  lemma {:induction false} DepthOneNeeds(g: Graph, store: Store, st: State, b: Node, rid: nat, j: nat)
    requires g.Valid() && Covers(g, st) && In(g, b) && j <= |Pairs(g, b)| && TryPairs(g, store, st, b, rid, 1, j).1
    ensures exists p :: p in Pairs(g, b) && Within(g, store, st, p.left) && Within(g, store, st, p.right)
    decreases |Pairs(g, b)| - j
  {
    hide Pairs, Search;
    var p := Pairs(g, b)[j];
    var st1 := Search(g, store, st, p.left, rid, 1);
    DepthOneWithin(g, store, st, p.left, rid);
    if !Available(st1[p.left]) {
      DepthOneNeeds(g, store, st1, b, rid, j + 1);
    } else {
      var st2 := Search(g, store, st1, p.right, rid, 1);
      DepthOneWithin(g, store, st1, p.right, rid);
      if !Available(st2[p.right]) || st2[p.left].data == [] || st2[p.right].data == [] {
        DepthOneNeeds(g, store, st2, b, rid, j + 1);
      } else {
        assert Within(g, store, st, p.left) && Within(g, store, st, p.right);
      }
    }
  }

  lemma DepthOneWithin(g: Graph, store: Store, st: State, b: Node, rid: nat)
    requires g.Valid() && Covers(g, st) && In(g, b)
    ensures forall n :: In(g, n) ==> (Within(g, store, Search(g, store, st, b, rid, 1), n) <==> Within(g, store, st, n))
    ensures Available(Search(g, store, st, b, rid, 1)[b]) ==> Within(g, store, st, b)
  {
    hide Pairs;
  }

  /** The next block on strand k, and the parity leaving it, are held or in the store. */
  ghost predicate NextWithin(g: Graph, store: Store, st: State, i: nat, k: nat)
    requires g.Valid() && Covers(g, st) && In(g, P(k, i))
  {
    var y := Next(g.s, g.n, k, i);
    NextCoordinates(g.s, g.n, k, i);
    Within(g, store, st, D(y)) && Within(g, store, st, P(k, y))
  }

  /**
    A block of the first column that is lost with all parities leaving it is obtained with depth two if and only
    if on some strand the next block and the parity leaving that are held or in the store.
   */
  lemma FirstColumnLostIff(g: Graph, store: Store, st: State, i: nat, rid: nat)
    requires g.Valid() && TwoColumns(g) && Covers(g, st) && Quiet(g, st) && NonEmpty(g, store, st)
    requires In(g, D(i)) && Col(g.s, i) == 0 && !Within(g, store, st, D(i))
    requires forall k: nat :: k < g.alpha ==> In(g, P(k, i)) && !Within(g, store, st, P(k, i))
    ensures Available(Search(g, store, st, D(i), rid, 2)[D(i)]) <==>
            exists k: nat :: k < g.alpha && NextWithin(g, store, st, i, k)
  {
    hide Search, Pairs, Next, Prev, Col, Meet, Within, NextWithin;
    if k: nat :| k < g.alpha && NextWithin(g, store, st, i, k) {
      NextGives(g, store, st, i, k, rid, 2);
    }
    if Available(Search(g, store, st, D(i), rid, 2)[D(i)]) {
      var p := NeededPair(g, store, st, D(i), rid);
      var k := OwnOrNext(g, i, p);
      assert NextWithin(g, store, st, i, k) by {
        NextWithinIs(g, store, st, i, k);
      }
    }
  }

  lemma NextWithinIs(g: Graph, store: Store, st: State, i: nat, k: nat)
    requires g.Valid() && Covers(g, st) && In(g, P(k, i))
    ensures var y := Next(g.s, g.n, k, i);
            && In(g, D(y)) && In(g, P(k, y))
            && (NextWithin(g, store, st, i, k) <==> Within(g, store, st, D(y)) && Within(g, store, st, P(k, y)))
  {
    NextCoordinates(g.s, g.n, k, i);
    hide Next, Within;
  }

  /** The next block of the strand and its parity give back a block of the first column. */
  lemma NextGives(g: Graph, store: Store, st: State, i: nat, k: nat, rid: nat, d: nat)
    requires d >= 2 && g.Valid() && TwoColumns(g) && Covers(g, st) && Quiet(g, st) && NonEmpty(g, store, st)
    requires In(g, P(k, i)) && In(g, D(i)) && Col(g.s, i) == 0 && NextWithin(g, store, st, i, k)
    ensures Available(Search(g, store, st, D(i), rid, d)[D(i)])
  {
    hide Search, Next, Prev, Col, Meet, Entering, Leaving;
    var y := Next(g.s, g.n, k, i);
    NextWithinIs(g, store, st, i, k);
    ChainsLong(g, k, i);
    EntersNext(g, k, i);
    MeetIs(g, k, y, D(y), P(k, y), D(i));
    TwoGiveThird(g, store, st, k, y, D(i), D(y), P(k, y), rid, d);
  }

  lemma NeededPair(g: Graph, store: Store, st: State, b: Node, rid: nat) returns (p: Pair)
    requires g.Valid() && Covers(g, st) && Quiet(g, st) && In(g, b) && !Within(g, store, st, b)
    requires Available(Search(g, store, st, b, rid, 2)[b])
    ensures p in Pairs(g, b) && In(g, p.left) && In(g, p.right)
    ensures (p.left != b ==> Within(g, store, st, p.left)) && (p.right != b ==> Within(g, store, st, p.right))
  {
    hide Pairs, TryPairs;
    var st1 := st[b := Started(st[b], rid)];
    if TryPairs(g, store, st1, b, rid, 1, 0).1 {
      DepthOneNeeds(g, store, st1, b, rid, 0);
      p :| p in Pairs(g, b) && Within(g, store, st1, p.left) && Within(g, store, st1, p.right);
    } else {
      TryPairsGrows(g, store, st1, b, rid, 1, 0);
      assert false;
    }
  }

  /** A pair of a block of the first column holds a parity leaving it, or is what follows it on a strand. */
  lemma OwnOrNext(g: Graph, i: nat, p: Pair) returns (k: nat)
    requires g.Valid() && TwoColumns(g) && In(g, D(i)) && Col(g.s, i) == 0 && p in Pairs(g, D(i))
    ensures k < g.alpha && In(g, P(k, i)) && p.left != D(i) && p.right != D(i)
    ensures p.right == P(k, i) || p == Pair(D(Next(g.s, g.n, k, i)), P(k, Next(g.s, g.n, k, i)))
  {
    hide Entering, Next, Prev, Col, Len, Chain;
    DataPairsFrom(g, i, g.alpha, p);
    var k' :| 0 <= k' < g.alpha && p in StrandPairs(g, i, k');
    k := k';
    assert In(g, P(k, i));
    EnteringKind(g, k, i);
    ChainsLong(g, k, i);
  }
}
