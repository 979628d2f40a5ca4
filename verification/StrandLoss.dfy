/**
  The search over a getter that gives strands up: when a node above the leaves of a parity tree cannot be
  obtained, its strand is refused from then on, in the middle of a search as well.
 */
module StrandLoss {
  import opened Bytes
  import opened LatticeGraph
  import opened RecoverySearch
  import opened RecoveryTheorems

  /** What can be obtained, and which parities lie under a node that cannot be. */
  datatype Feed = Feed(store: Store, fatal: set<Node>)

  /** The strands still available after asking for block b. */
  function StrandsAfter(feed: Feed, up: set<nat>, b: Node): set<nat> {
    if b.P? && b in feed.fatal then up - {b.k} else up
  }

  predicate Delivers(feed: Feed, up: set<nat>, b: Node) {
    b in feed.store && (b.P? ==> b.k in up)
  }

  /** A search: the blocks and strands afterwards, and which blocks the getter has delivered and refused. */
  datatype Trace = Trace(st: State, up: set<nat>, got: set<Node>, refused: set<Node>)

  function After(t: Trace, u: Trace): Trace {
    Trace(u.st, u.up, t.got + u.got, t.refused + u.refused)
  }

  // ----- the search, as in RecoverySearch but for the getter

  function SearchOn(g: Graph, feed: Feed, st: State, up: set<nat>, b: Node, rid: nat, depth: nat): (t: Trace)
    requires g.Valid() && Covers(g, st) && In(g, b) && depth >= 1
    ensures Covers(g, t.st)
    decreases depth, 0, 0
  {
    if st[b].status != NoData then Trace(st, up, {}, {})
    else
      var st1, up1 := st[b := Started(st[b], rid)], StrandsAfter(feed, up, b);
      if Delivers(feed, up, b) then
        Trace(st1[b := Finished(WithData(st1[b], feed.store[b], false), true)], up1, {b}, {})
      else if depth == 1 then Trace(st1[b := Finished(st1[b], false)], up1, {}, {b})
      else
        var (t, success) := TryPairsOn(g, feed, st1, up1, b, rid, depth - 1, 0);
        Trace(t.st[b := Finished(t.st[b], success)], t.up, t.got, t.refused + {b})
  }

  function TryPairsOn(g: Graph, feed: Feed, st: State, up: set<nat>, b: Node, rid: nat, depth: nat, j: nat): (r: (Trace, bool))
    requires g.Valid() && Covers(g, st) && In(g, b) && depth >= 1 && j <= |Pairs(g, b)|
    ensures Covers(g, r.0.st)
    decreases depth, 1, |Pairs(g, b)| - j
  {
    if j == |Pairs(g, b)| then (Trace(st, up, {}, {}), false)
    else
      var p := Pairs(g, b)[j];
      var t1 := SearchOn(g, feed, st, up, p.left, rid, depth);
      if !Available(t1.st[p.left]) then
        var (u, ok) := TryPairsOn(g, feed, t1.st, t1.up, b, rid, depth, j + 1);
        (After(t1, u), ok)
      else
        var t2 := After(t1, SearchOn(g, feed, t1.st, t1.up, p.right, rid, depth));
        var l, r := t2.st[p.left].data, t2.st[p.right].data;
        if !Available(t2.st[p.right]) || l == [] || r == [] then
          var (u, ok) := TryPairsOn(g, feed, t2.st, t2.up, b, rid, depth, j + 1);
          (After(t2, u), ok)
        else (t2.(st := t2.st[b := WithData(t2.st[b], Xor(l, r), true)]), true)
  }

  // ----- what is delivered once is never refused

  /** No node above the leaves of the strand is lost. */
  ghost predicate Sound(feed: Feed, k: nat) {
    forall b :: b in feed.fatal && b.P? ==> b.k != k
  }

  /** A parity of strand k under a lost node has been asked for. */
  ghost predicate FatalAsked(feed: Feed, t: Trace, k: nat) {
    exists b :: (b in t.got || b in t.refused) && b.P? && b.k == k && b in feed.fatal
  }

  /** What a search from st does to the strands, and what it gets and is refused. */
  ghost predicate Orderly(g: Graph, feed: Feed, st: State, up: set<nat>, t: Trace)
    requires Covers(g, st)
  {
    && Covers(g, t.st) && t.up <= up && (forall k :: k in up ==> (k !in t.up <==> FatalAsked(feed, t, k)))
    && (forall b :: In(g, b) && Available(t.st[b]) && !Available(st[b]) && !t.st[b].repaired ==> b in t.got)
    && t.got !! t.refused
    && (forall b :: b in t.got ==> In(g, b) && st[b].status == NoData && Available(t.st[b]) && b in feed.store && (b.P? ==> b.k in up))
    && (forall b :: b in t.refused ==> In(g, b) && st[b].status == NoData && (b in feed.store ==> b.P? && b.k !in t.up))
  }

  /** Two searches one after the other. */
  lemma OrderlyTwo(g: Graph, feed: Feed, st: State, up: set<nat>, t: Trace, u: Trace)
    requires Covers(g, st) && Orderly(g, feed, st, up, t) && Grows(g, st, t.st)
    requires Orderly(g, feed, t.st, t.up, u) && Covers(g, u.st) && Grows(g, t.st, u.st)
    ensures Orderly(g, feed, st, up, After(t, u)) && Grows(g, st, u.st)
  {
    FatalEither(feed, t, u);
    hide FatalAsked;
  }

  lemma FatalEither(feed: Feed, t: Trace, u: Trace)
    ensures forall k :: FatalAsked(feed, After(t, u), k) <==> FatalAsked(feed, t, k) || FatalAsked(feed, u, k)
  {
  }

  /** In a strand without a lost node no parity is fatal. */
  lemma SoundStays(g: Graph, feed: Feed, st: State, up: set<nat>, t: Trace)
    requires Covers(g, st) && Orderly(g, feed, st, up, t)
    ensures forall k :: k in up && Sound(feed, k) ==> k in t.up
  {
  }

  lemma NothingDone(g: Graph, feed: Feed, st: State, up: set<nat>)
    requires Covers(g, st)
    ensures Orderly(g, feed, st, up, Trace(st, up, {}, {})) && Grows(g, st, st)
  {
  }

  lemma {:induction false} SearchOrderly(g: Graph, feed: Feed, st: State, up: set<nat>, b: Node, rid: nat, depth: nat)
    requires g.Valid() && Covers(g, st) && In(g, b) && depth >= 1
    ensures var t := SearchOn(g, feed, st, up, b, rid, depth);
            Orderly(g, feed, st, up, t) && Grows(g, st, t.st)
    decreases depth, 0, 0
  {
    hide *;
    StartedPending(g, st, b, rid);
    NothingDone(g, feed, st, up);
    SearchCases(g, feed, st, up, b, rid, depth);
    if st[b].status == NoData {
      if Delivers(feed, up, b) {
        DeliveredOrderly(g, feed, st, up, b, rid);
      } else if depth == 1 {
        NothingDone(g, feed, st[b := Started(st[b], rid)], StrandsAfter(feed, up, b));
        RefusedOrderly(g, feed, st, up, b, rid, (Trace(st[b := Started(st[b], rid)], StrandsAfter(feed, up, b), {}, {}), false));
      } else {
        TryPairsOrderly(g, feed, st[b := Started(st[b], rid)], StrandsAfter(feed, up, b), b, rid, depth - 1, 0);
        RefusedOrderly(g, feed, st, up, b, rid,
                       TryPairsOn(g, feed, st[b := Started(st[b], rid)], StrandsAfter(feed, up, b), b, rid, depth - 1, 0));
      }
    }
  }

  lemma StartedPending(g: Graph, st: State, b: Node, rid: nat)
    requires Covers(g, st) && In(g, b)
    ensures b in st && Covers(g, st[b := Started(st[b], rid)]) && st[b := Started(st[b], rid)][b].status == RepairPending
  {
  }

  /** A search, by cases. */
  lemma SearchCases(g: Graph, feed: Feed, st: State, up: set<nat>, b: Node, rid: nat, depth: nat)
    requires g.Valid() && Covers(g, st) && In(g, b) && depth >= 1
    ensures var t, st1, up1 := SearchOn(g, feed, st, up, b, rid, depth), st[b := Started(st[b], rid)], StrandsAfter(feed, up, b);
            && Covers(g, st1)
            && if st[b].status != NoData then t == Trace(st, up, {}, {})
               else if Delivers(feed, up, b) then
                 b in feed.store && t == Trace(st1[b := Finished(WithData(st1[b], feed.store[b], false), true)], up1, {b}, {})
               else
                 var (u, ok) := if depth == 1 then (Trace(st1, up1, {}, {}), false) else TryPairsOn(g, feed, st1, up1, b, rid, depth - 1, 0);
                 Covers(g, u.st) && t == Trace(u.st[b := Finished(u.st[b], ok)], u.up, u.got, u.refused + {b})
  {
    hide TryPairsOn;
  }

  lemma DeliveredOrderly(g: Graph, feed: Feed, st: State, up: set<nat>, b: Node, rid: nat)
    requires Covers(g, st) && In(g, b) && st[b].status == NoData && Delivers(feed, up, b)
    ensures b in feed.store
    ensures var c := Finished(WithData(Started(st[b], rid), feed.store[b], false), true);
            var t := Trace(st[b := Started(st[b], rid)][b := c], StrandsAfter(feed, up, b), {b}, {});
            Orderly(g, feed, st, up, t) && Grows(g, st, t.st)
  {
  }

  /** A block that is not delivered, after the search for its pairs. */
  lemma RefusedOrderly(g: Graph, feed: Feed, st: State, up: set<nat>, b: Node, rid: nat, r: (Trace, bool))
    requires Covers(g, st) && In(g, b) && st[b].status == NoData && !Delivers(feed, up, b) && Covers(g, r.0.st)
    requires var st1 := st[b := Started(st[b], rid)];
             && Covers(g, st1) && Orderly(g, feed, st1, StrandsAfter(feed, up, b), r.0)
             && (if r.1 then Available(r.0.st[b]) && r.0.st[b].repaired && Grows(g, st1, r.0.st[b := st1[b]]) else Grows(g, st1, r.0.st))
    ensures var t := Trace(r.0.st[b := Finished(r.0.st[b], r.1)], r.0.up, r.0.got, r.0.refused + {b});
            Orderly(g, feed, st, up, t) && Grows(g, st, t.st)
  {
    var t := Trace(r.0.st[b := Finished(r.0.st[b], r.1)], r.0.up, r.0.got, r.0.refused + {b});
    FatalWith(feed, r.0, t, b);
    hide FatalAsked;
  }

  lemma FatalWith(feed: Feed, u: Trace, t: Trace, b: Node)
    requires t.got == u.got && t.refused == u.refused + {b}
    ensures forall k :: FatalAsked(feed, t, k) <==> FatalAsked(feed, u, k) || (b.P? && b.k == k && b in feed.fatal)
  {
  }

  /** While b is pending: on success b has been given data, and otherwise nothing has happened to it. */
  lemma {:induction false} TryPairsOrderly(g: Graph, feed: Feed, st: State, up: set<nat>, b: Node, rid: nat, depth: nat, j: nat)
    requires g.Valid() && Covers(g, st) && In(g, b) && depth >= 1 && j <= |Pairs(g, b)| && st[b].status == RepairPending
    ensures var (t, ok) := TryPairsOn(g, feed, st, up, b, rid, depth, j);
            && Orderly(g, feed, st, up, t)
            && if ok then Available(t.st[b]) && t.st[b].repaired && Grows(g, st, t.st[b := st[b]]) else Grows(g, st, t.st)
    decreases depth, 1, |Pairs(g, b)| - j
  {
    hide Pairs, SearchOn, Xor, Orderly;
    NothingDone(g, feed, st, up);
    if j < |Pairs(g, b)| {
      var p := Pairs(g, b)[j];
      var t1 := SearchOn(g, feed, st, up, p.left, rid, depth);
      SearchOrderly(g, feed, st, up, p.left, rid, depth);
      if !Available(t1.st[p.left]) {
        TryPairsOrderly(g, feed, t1.st, t1.up, b, rid, depth, j + 1);
        FailsOrSets(g, feed, st, up, t1, b, TryPairsOn(g, feed, t1.st, t1.up, b, rid, depth, j + 1));
      } else {
        var s2 := SearchOn(g, feed, t1.st, t1.up, p.right, rid, depth);
        SearchOrderly(g, feed, t1.st, t1.up, p.right, rid, depth);
        OrderlyTwo(g, feed, st, up, t1, s2);
        var t2 := After(t1, s2);
        var l, r := t2.st[p.left].data, t2.st[p.right].data;
        if !Available(t2.st[p.right]) || l == [] || r == [] {
          TryPairsOrderly(g, feed, t2.st, t2.up, b, rid, depth, j + 1);
          FailsOrSets(g, feed, st, up, t2, b, TryPairsOn(g, feed, t2.st, t2.up, b, rid, depth, j + 1));
        } else {
          SetsPending(g, feed, st, up, t2, b, WithData(t2.st[b], Xor(l, r), true));
        }
      }
    }
  }

  lemma SetsPending(g: Graph, feed: Feed, st: State, up: set<nat>, t: Trace, b: Node, c: Cell)
    requires Covers(g, st) && In(g, b) && st[b].status == RepairPending && Orderly(g, feed, st, up, t) && Grows(g, st, t.st)
    requires Available(c) ==> c.repaired
    ensures Orderly(g, feed, st, up, t.(st := t.st[b := c])) && Grows(g, st, t.st[b := c][b := st[b]])
  {
    hide Sound;
    assert t.st[b := c][b := st[b]] == t.st;
    assert forall k :: FatalAsked(feed, t.(st := t.st[b := c]), k) <==> FatalAsked(feed, t, k);
  }

  lemma FailsOrSets(g: Graph, feed: Feed, st: State, up: set<nat>, t: Trace, b: Node, r: (Trace, bool))
    requires Covers(g, st) && In(g, b) && st[b].status == RepairPending && Orderly(g, feed, st, up, t) && Grows(g, st, t.st)
    requires Covers(g, r.0.st) && Orderly(g, feed, t.st, t.up, r.0)
    requires if r.1 then Available(r.0.st[b]) && Grows(g, t.st, r.0.st[b := t.st[b]]) else Grows(g, t.st, r.0.st)
    ensures Orderly(g, feed, st, up, After(t, r.0))
    ensures if r.1 then Available(r.0.st[b]) && Grows(g, st, r.0.st[b := st[b]]) else Grows(g, st, r.0.st)
  {
    FatalEither(feed, t, r.0);
    hide Sound, FatalAsked;
  }

  // ----- giving strands up

  /** No parity of strand k is held that was not before, except by rebuilding. */
  ghost predicate NotDownloaded(g: Graph, st: State, st': State, k: nat)
    requires Covers(g, st) && Covers(g, st')
  {
    forall i :: In(g, P(k, i)) && Available(st'[P(k, i)]) && !Available(st[P(k, i)]) ==> st'[P(k, i)].repaired
  }

  /**
    A search gives a strand up if and only if it asks for one of the strand's parities that lie under a lost
    node; a strand given up stays so, and none of its parities is obtained by download.
   */
  lemma GivenUpIff(g: Graph, feed: Feed, st: State, up: set<nat>, b: Node, rid: nat, depth: nat, k: nat)
    requires g.Valid() && Covers(g, st) && In(g, b) && depth >= 1
    ensures var t := SearchOn(g, feed, st, up, b, rid, depth);
            && (k in up ==> (k !in t.up <==> FatalAsked(feed, t, k)))
            && (k !in up ==> k !in t.up && NotDownloaded(g, st, t.st, k))
  {
    hide SearchOn, FatalAsked;
    SearchOrderly(g, feed, st, up, b, rid, depth);
  }

  /** What a search asks the getter for: its own block, unless it is held or pending already. */
  lemma AsksFirst(g: Graph, feed: Feed, st: State, up: set<nat>, b: Node, rid: nat, depth: nat)
    requires g.Valid() && Covers(g, st) && In(g, b) && depth >= 1 && st[b].status == NoData
    ensures var t := SearchOn(g, feed, st, up, b, rid, depth);
            && (b in t.got <==> Delivers(feed, up, b))
            && (b in t.refused <==> !Delivers(feed, up, b))
            && (b.P? && b in feed.fatal ==> b.k !in t.up)
  {
    var st1, up1 := st[b := Started(st[b], rid)], StrandsAfter(feed, up, b);
    hide Pairs, TryPairsOn, FatalAsked;
    if !Delivers(feed, up, b) && depth > 1 {
      TryPairsOrderly(g, feed, st1, up1, b, rid, depth - 1, 0);
    }
  }

  // ----- the same search over a smaller store

  /** A part of the getter's store that agrees with one search: what it got is in it, what it was refused is not. */
  ghost predicate Agrees(feed: Feed, store: Store, t: Trace) {
    && (forall b :: b in store ==> b in feed.store && store[b] == feed.store[b])
    && (forall b :: b in t.got ==> b in store)
    && forall b :: b in t.refused ==> b !in store
  }

  lemma AgreesParts(feed: Feed, store: Store, t: Trace, u: Trace)
    requires Agrees(feed, store, After(t, u))
    ensures Agrees(feed, store, t) && Agrees(feed, store, u)
  {
  }

  lemma {:induction false} SearchAgrees(g: Graph, feed: Feed, store: Store, st: State, up: set<nat>, b: Node, rid: nat, depth: nat)
    requires g.Valid() && Covers(g, st) && In(g, b) && depth >= 1
    requires Agrees(feed, store, SearchOn(g, feed, st, up, b, rid, depth))
    ensures SearchOn(g, feed, st, up, b, rid, depth).st == Search(g, store, st, b, rid, depth)
    decreases depth, 0, 0
  {
    hide Pairs, TryPairsOn, TryPairs;
    if st[b].status == NoData && !Delivers(feed, up, b) && depth > 1 {
      TryPairsAgree(g, feed, store, st[b := Started(st[b], rid)], StrandsAfter(feed, up, b), b, rid, depth - 1, 0);
    }
  }

  lemma {:induction false} TryPairsAgree(g: Graph, feed: Feed, store: Store, st: State, up: set<nat>, b: Node, rid: nat, depth: nat, j: nat)
    requires g.Valid() && Covers(g, st) && In(g, b) && depth >= 1 && j <= |Pairs(g, b)|
    requires Agrees(feed, store, TryPairsOn(g, feed, st, up, b, rid, depth, j).0)
    ensures var (t, ok) := TryPairsOn(g, feed, st, up, b, rid, depth, j);
            (t.st, ok) == TryPairs(g, store, st, b, rid, depth, j)
    decreases depth, 1, |Pairs(g, b)| - j
  {
    hide Pairs, SearchOn, Search, Xor, Agrees;
    if j < |Pairs(g, b)| {
      var p := Pairs(g, b)[j];
      var t1 := SearchOn(g, feed, st, up, p.left, rid, depth);
      if !Available(t1.st[p.left]) {
        AgreesParts(feed, store, t1, TryPairsOn(g, feed, t1.st, t1.up, b, rid, depth, j + 1).0);
        SearchAgrees(g, feed, store, st, up, p.left, rid, depth);
        TryPairsAgree(g, feed, store, t1.st, t1.up, b, rid, depth, j + 1);
      } else {
        var s2 := SearchOn(g, feed, t1.st, t1.up, p.right, rid, depth);
        var t2 := After(t1, s2);
        if !Available(t2.st[p.right]) || t2.st[p.left].data == [] || t2.st[p.right].data == [] {
          AgreesParts(feed, store, t2, TryPairsOn(g, feed, t2.st, t2.up, b, rid, depth, j + 1).0);
          TryPairsAgree(g, feed, store, t2.st, t2.up, b, rid, depth, j + 1);
        } else {
          AgreesState(feed, store, t2, t2.st[b := WithData(t2.st[b], Xor(t2.st[p.left].data, t2.st[p.right].data), true)]);
        }
        AgreesParts(feed, store, t1, s2);
        SearchAgrees(g, feed, store, st, up, p.left, rid, depth);
        SearchAgrees(g, feed, store, t1.st, t1.up, p.right, rid, depth);
      }
    }
  }

  lemma AgreesState(feed: Feed, store: Store, t: Trace, st: State)
    requires Agrees(feed, store, t.(st := st))
    ensures Agrees(feed, store, t)
  {
  }

  /** What no loss of a strand takes away: data, and parities of available strands that have lost no inner node. */
  ghost predicate Lasting(feed: Feed, up: set<nat>, b: Node) {
    b in feed.store && (b.P? ==> b.k in up && Sound(feed, b.k))
  }

  /** A store between what lasts and what there is at first. */
  ghost predicate Within(feed: Feed, up: set<nat>, store: Store) {
    && (forall b :: b in store ==> b in feed.store && store[b] == feed.store[b])
    && forall b :: Lasting(feed, up, b) ==> b in store
  }

  /**
    A search during which strands are given up is a search over one store that does not change: it holds
    everything that lasts and nothing that was not there at first.  So all theorems about searches apply.
   */
  lemma LossIsSmallerStore(g: Graph, feed: Feed, st: State, up: set<nat>, b: Node, rid: nat, depth: nat) returns (store: Store)
    requires g.Valid() && Covers(g, st) && In(g, b) && depth >= 1
    ensures Within(feed, up, store)
    ensures SearchOn(g, feed, st, up, b, rid, depth).st == Search(g, store, st, b, rid, depth)
  {
    hide SearchOn, Search;
    var t := SearchOn(g, feed, st, up, b, rid, depth);
    SearchOrderly(g, feed, st, up, b, rid, depth);
    store := map n | n in feed.store && n !in t.refused :: feed.store[n];
    SearchAgrees(g, feed, store, st, up, b, rid, depth);
  }

  /** If no node above the leaves is lost and all strands are available, it is the search over the whole store. */
  lemma NoLossSame(g: Graph, feed: Feed, st: State, up: set<nat>, b: Node, rid: nat, depth: nat)
    requires g.Valid() && Covers(g, st) && In(g, b) && depth >= 1 && feed.fatal == {} && forall n: Node :: n in feed.store && n.P? ==> n.k in up
    ensures SearchOn(g, feed, st, up, b, rid, depth).st == Search(g, feed.store, st, b, rid, depth)
  {
    var store := LossIsSmallerStore(g, feed, st, up, b, rid, depth);
    assert forall n :: n in feed.store ==> Lasting(feed, up, n);
    assert store == feed.store;
  }

  /**
    Safety and completeness with strands lost during the search: over an honest store all blocks held stay
    true, and every block with a derivation from what lasts is obtained within the height of the derivation.
   */
  lemma LossSafeComplete(g: Graph, data: seq<Chunk>, feed: Feed, st: State, up: set<nat>, b: Node, rid: nat, depth: nat, lasting: Store)
    requires g.Valid() && TwoColumns(g) && |data| == g.n && Covers(g, st) && In(g, b) && depth >= 1
    requires Honest(g, data, feed.store) && Correct(g, data, st)
    requires forall n :: n in lasting ==> Lasting(feed, up, n)
    ensures var st' := SearchOn(g, feed, st, up, b, rid, depth).st;
            && Correct(g, data, st') && Grows(g, st, st')
            && (Derivable(g, lasting, st, b, depth) ==> Available(st'[b]))
  {
    hide SearchOn, Search, Same, Value, Derivable;
    var store := LossIsSmallerStore(g, feed, st, up, b, rid, depth);
    SearchCorrect(g, data, store, st, b, rid, depth);
    SearchGrows(g, store, st, b, rid, depth);
    if Derivable(g, lasting, st, b, depth) {
      DerivableMore(g, lasting, store, st, b, depth);
      SearchComplete(g, store, st, b, rid, depth);
    }
  }

  /** A larger store derives more. */
  lemma {:induction false} DerivableMore(g: Graph, store: Store, more: Store, st: State, b: Node, h: nat)
    requires g.Valid() && Covers(g, st) && In(g, b) && (forall n :: n in store ==> n in more) && Derivable(g, store, st, b, h)
    ensures Derivable(g, more, st, b, h)
    decreases h
  {
    hide Pairs;
    if !AtHand(g, store, st, b) {
      var p :| p in Pairs(g, b) && Derivable(g, store, st, p.left, h - 1) && Derivable(g, store, st, p.right, h - 1);
      DerivableMore(g, store, more, st, p.left, h - 1);
      DerivableMore(g, store, more, st, p.right, h - 1);
    }
  }

  /** And nothing is obtained that has no derivation from what there was at first. */
  lemma LossJustified(g: Graph, feed: Feed, st: State, up: set<nat>, b: Node, rid: nat, depth: nat)
    requires g.Valid() && Covers(g, st) && In(g, b) && depth >= 1 && Quiet(g, st)
    requires Available(SearchOn(g, feed, st, up, b, rid, depth).st[b])
    ensures Repairable(g, feed.store, st, b)
  {
    hide SearchOn, Search, Derivable;
    var store := LossIsSmallerStore(g, feed, st, up, b, rid, depth);
    ObtainedIsDerivable(g, store, st, b, rid, depth);
    var h: nat :| Derivable(g, store, st, b, h);
    DerivableMore(g, store, feed.store, st, b, h);
  }

  // ----- whole runs

  datatype Ask = Ask(block: Node, depth: nat)

  /** One call on the lattice, as Serve. */
  function ServeOn(g: Graph, feed: Feed, se: Session, up: set<nat>, q: Ask): (r: (Session, set<nat>, Answer))
    requires g.Valid() && Covers(g, se.st) && In(g, q.block)
    ensures Covers(g, r.0.st)
  {
    var counter := NextId(se.counter);
    if q.depth == 0 then (Session(se.st, counter), up, Failed)
    else
      var t := SearchOn(g, feed, se.st, up, q.block, se.counter, q.depth);
      (Session(t.st, counter), t.up, if Available(t.st[q.block]) then Got(t.st[q.block].data) else Failed)
  }

  function RunOn(g: Graph, feed: Feed, se: Session, up: set<nat>, asks: seq<Ask>): (r: (Session, set<nat>, seq<Answer>))
    requires g.Valid() && Covers(g, se.st) && forall q :: q in asks ==> In(g, q.block)
    ensures Covers(g, r.0.st) && |r.2| == |asks|
  {
    if asks == [] then (se, up, [])
    else
      var (se1, up1, answers) := RunOn(g, feed, se, up, asks[..|asks| - 1]);
      var (se2, up2, answer) := ServeOn(g, feed, se1, up1, asks[|asks| - 1]);
      (se2, up2, answers + [answer])
  }

  lemma ServeOnIs(g: Graph, feed: Feed, se: Session, up: set<nat>, q: Ask) returns (store: Store)
    requires g.Valid() && Covers(g, se.st) && In(g, q.block)
    ensures Within(feed, up, store)
    ensures var (se', up', answer) := ServeOn(g, feed, se, up, q);
            && (se', answer) == Serve(g, se, Request(q.block, q.depth, store))
            && forall b :: Lasting(feed, up, b) ==> Lasting(feed, up', b)
  {
    hide SearchOn, Search, NextId, Sound;
    if q.depth > 0 {
      store := LossIsSmallerStore(g, feed, se.st, up, q.block, se.counter, q.depth);
      SearchOrderly(g, feed, se.st, up, q.block, se.counter, q.depth);
      SoundStays(g, feed, se.st, up, SearchOn(g, feed, se.st, up, q.block, se.counter, q.depth));
    } else {
      store := feed.store;
    }
  }

  /**
    A whole run in which strands are given up is a run whose requests meet stores that may differ but all lie
    between what lasts and what there was at first; so answers are true and blocks are kept as in any run.
   */
  lemma {:induction false} LossyRun(g: Graph, feed: Feed, se: Session, up: set<nat>, asks: seq<Ask>) returns (reqs: seq<Request>)
    requires g.Valid() && Covers(g, se.st) && forall q :: q in asks ==> In(g, q.block)
    ensures |reqs| == |asks| && forall q :: q in reqs ==> In(g, q.block) && Within(feed, up, q.store)
    ensures forall x :: 0 <= x < |asks| ==> reqs[x].block == asks[x].block && reqs[x].depth == asks[x].depth
    ensures var (se', up', answers) := RunOn(g, feed, se, up, asks);
            && (se', answers) == Run(g, se, reqs)
            && forall b :: Lasting(feed, up, b) ==> Lasting(feed, up', b)
  {
    hide *;
    if asks == [] {
      reqs := [];
      NothingRun(g, se);
      NothingAsked(g, feed, se, up);
    } else {
      var l := |asks| - 1;
      var init := LossyRun(g, feed, se, up, asks[..l]);
      var (se1, up1, answers) := RunOn(g, feed, se, up, asks[..l]);
      var store := ServeOnIs(g, feed, se1, up1, asks[l]);
      WithinEarlier(feed, up, up1, store);
      var last := Request(asks[l].block, asks[l].depth, store);
      reqs := init + [last];
      assert reqs[..l] == init && reqs[l] == last;
      OneMore(g, feed, up, init, last);
      RunLast(g, se, reqs);
      RunOnLast(g, feed, se, up, asks);
    }
  }

  lemma OneMore(g: Graph, feed: Feed, up: set<nat>, init: seq<Request>, last: Request)
    requires forall q :: q in init ==> In(g, q.block) && Within(feed, up, q.store)
    requires In(g, last.block) && Within(feed, up, last.store)
    ensures forall q :: q in init + [last] ==> In(g, q.block) && Within(feed, up, q.store)
  {
    hide In, Within;
  }

  lemma NothingAsked(g: Graph, feed: Feed, se: Session, up: set<nat>)
    requires g.Valid() && Covers(g, se.st)
    ensures RunOn(g, feed, se, up, []) == (se, up, [])
  {
  }

  lemma RunOnLast(g: Graph, feed: Feed, se: Session, up: set<nat>, asks: seq<Ask>)
    requires g.Valid() && Covers(g, se.st) && asks != [] && forall q :: q in asks ==> In(g, q.block)
    ensures var (se1, up1, answers) := RunOn(g, feed, se, up, asks[..|asks| - 1]);
            var (se2, up2, answer) := ServeOn(g, feed, se1, up1, asks[|asks| - 1]);
            RunOn(g, feed, se, up, asks) == (se2, up2, answers + [answer])
  {
    hide ServeOn;
  }

  lemma WithinEarlier(feed: Feed, up: set<nat>, up': set<nat>, store: Store)
    requires Within(feed, up', store) && forall b :: Lasting(feed, up, b) ==> Lasting(feed, up', b)
    ensures Within(feed, up, store)
  {
    hide Lasting;
  }

  /** Safety of such runs. */
  lemma LossyRunSafe(g: Graph, data: seq<Chunk>, feed: Feed, se: Session, up: set<nat>, asks: seq<Ask>)
    requires g.Valid() && TwoColumns(g) && |data| == g.n && Fresh(g, se.st) && Honest(g, data, feed.store)
    requires forall q :: q in asks ==> In(g, q.block)
    ensures var (se', up', answers) := RunOn(g, feed, se, up, asks);
            && Correct(g, data, se'.st) && Quiet(g, se'.st)
            && forall x :: 0 <= x < |asks| && answers[x].Got? ==> Same(answers[x].data, Value(g, data, asks[x].block))
  {
    hide RunOn, Run, Same, Value, Correct, Quiet, Lasting;
    var reqs := LossyRun(g, feed, se, up, asks);
    forall q | q in reqs
      ensures Honest(g, data, q.store)
    {
      assert Within(feed, up, q.store);
    }
    RunSafe(g, data, se, reqs);
  }

  /** Once a strand has been given up, no later request of a run obtains one of its parities by download. */
  lemma {:induction false} RunRefuses(g: Graph, feed: Feed, se: Session, up: set<nat>, asks: seq<Ask>, k: nat)
    requires g.Valid() && Covers(g, se.st) && (forall q :: q in asks ==> In(g, q.block)) && k !in up
    ensures var (se', up', answers) := RunOn(g, feed, se, up, asks);
            k !in up' && NotDownloaded(g, se.st, se'.st, k) && Grows(g, se.st, se'.st)
  {
    hide *;
    StillGrows(g, se.st);
    if asks == [] {
      NothingAsked(g, feed, se, up);
    } else {
      var l := |asks| - 1;
      RunRefuses(g, feed, se, up, asks[..l], k);
      var (se1, up1, answers) := RunOn(g, feed, se, up, asks[..l]);
      var (se2, up2, answer) := ServeOn(g, feed, se1, up1, asks[l]);
      RunOnLast(g, feed, se, up, asks);
      ServeRefuses(g, feed, se1, up1, asks[l], k);
      RefusedTwice(g, se.st, se1.st, se2.st, k);
    }
  }

  lemma StillGrows(g: Graph, st: State)
    requires Covers(g, st)
    ensures forall k :: NotDownloaded(g, st, st, k)
    ensures Grows(g, st, st)
  {
  }

  lemma ServeRefuses(g: Graph, feed: Feed, se: Session, up: set<nat>, q: Ask, k: nat)
    requires g.Valid() && Covers(g, se.st) && In(g, q.block) && k !in up
    ensures var (se', up', answer) := ServeOn(g, feed, se, up, q);
            k !in up' && NotDownloaded(g, se.st, se'.st, k) && Grows(g, se.st, se'.st)
  {
    hide SearchOn, FatalAsked;
    StillGrows(g, se.st);
    if q.depth > 0 {
      GivenUpIff(g, feed, se.st, up, q.block, se.counter, q.depth, k);
      SearchOrderly(g, feed, se.st, up, q.block, se.counter, q.depth);
    }
  }

  lemma RefusedTwice(g: Graph, st: State, st1: State, st2: State, k: nat)
    requires Covers(g, st) && Covers(g, st1) && Covers(g, st2) && Grows(g, st, st1) && Grows(g, st1, st2)
    requires NotDownloaded(g, st, st1, k) && NotDownloaded(g, st1, st2, k)
    ensures NotDownloaded(g, st, st2, k) && Grows(g, st, st2)
  {
  }
}
