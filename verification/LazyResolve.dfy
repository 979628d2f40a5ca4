/**
  Lazy resolution of tree nodes: a node's content identifier is learnt by fetching its parent first.
 */
module LazyResolve {
  import opened Bytes
  import opened Reslicing
  import opened TreeShape
  import opened TreeLabels
  import opened Trees

  /** What the network returns for a content identifier. */
  datatype Object = Object(data: Chunk, links: seq<string>)

  /** The objects that can be fetched. */
  type Network = map<string, Object>

  /** What is known about a node. */
  datatype Slot = Slot(cid: string, data: Option<Chunk>)

  type Cache = map<Place, Slot>

  /** The uploaded tree. */
  datatype Upload = Upload(cid: map<Place, string>, data: map<Place, Chunk>)

  ghost predicate IsObjectOf(sh: Shape, up: Upload, p: Place, obj: Object)
    requires sh.Valid() && sh.Has(p) && p in up.data
  {
    && obj.data == up.data[p] && |obj.links| == ChildCount(sh.l, sh.k, p)
    && forall i :: 0 <= i < |obj.links| ==> Child(sh.k, p, i) in up.cid && obj.links[i] == up.cid[Child(sh.k, p, i)]
  }

  /** Every node was uploaded, and whatever the network returns for it has its data and its children's links. */
  ghost predicate Published(sh: Shape, up: Upload, net: Network)
    requires sh.Valid()
  {
    forall p :: sh.Has(p) ==>
      && p in up.cid && p in up.data && up.cid[p] != ""
      && (up.cid[p] in net ==> IsObjectOf(sh, up, p, net[up.cid[p]]))
  }

  ghost predicate SlotTrue(sh: Shape, up: Upload, cache: Cache, p: Place)
    requires sh.Valid() && sh.Has(p)
  {
    && p in cache && p in up.cid && p in up.data && sh.Over(p) in cache
    && (cache[p].cid == "" || cache[p].cid == up.cid[p])
    && (cache[p].data == None || cache[p].data == Some(up.data[p]))
    && (p.level < sh.h && cache[sh.Over(p)].data.Some? ==> cache[p].cid != "")
  }

  /** All that is known is true, and whoever has data knows its children's identifiers. */
  ghost predicate CacheTrue(sh: Shape, up: Upload, cache: Cache)
    requires sh.Valid()
  {
    (forall p :: p in cache <==> sh.Has(p)) && forall p :: sh.Has(p) ==> SlotTrue(sh, up, cache, p)
  }

  /** Nothing known is forgotten. */
  ghost predicate Keeps(cache: Cache, cache': Cache) {
    forall p :: p in cache ==>
      && p in cache'
      && (cache[p].cid != "" ==> cache'[p].cid == cache[p].cid)
      && (cache[p].data.Some? ==> cache'[p].data == cache[p].data)
  }

  /** Which child of p the node q is, or -1. */
  ghost function ChildNumber(sh: Shape, p: Place, q: Place): int
    requires sh.Valid()
  {
    if q.level < sh.h && Parent(sh.k, q) == p then q.pos - Start(p.pos, sh.k) else -1
  }

  /** Node p gets the object's data, and its children the linked identifiers. */
  ghost function Filled(sh: Shape, cache: Cache, p: Place, obj: Object): Cache
    requires sh.Valid()
  {
    map q | q in cache ::
      if q == p then cache[q].(data := Some(obj.data))
      else if 0 <= ChildNumber(sh, p, q) < |obj.links| then cache[q].(cid := obj.links[ChildNumber(sh, p, q)])
      else cache[q]
  }

  /** What filling p changes at node q. */
  lemma FilledAt(sh: Shape, up: Upload, cache: Cache, p: Place, obj: Object, q: Place)
    requires sh.Valid() && sh.Has(p) && sh.Has(q) && q in cache && p in up.data && q in up.cid
    requires IsObjectOf(sh, up, p, obj)
    ensures q in Filled(sh, cache, p, obj)
    ensures Filled(sh, cache, p, obj)[q] ==
            if q == p then cache[q].(data := Some(up.data[p]))
            else if q.level < sh.h && sh.Over(q) == p then cache[q].(cid := up.cid[q])
            else cache[q]
  {
    if q.level < sh.h && Parent(sh.k, q) == p {
      ParentInTree(sh.l, sh.k, sh.h, q);
    }
  }

  lemma FilledSlot(sh: Shape, up: Upload, cache: Cache, p: Place, obj: Object, q: Place)
    requires sh.Valid() && sh.Has(p) && sh.Has(q) && SlotTrue(sh, up, cache, q)
    requires p in up.data && IsObjectOf(sh, up, p, obj) && up.cid[q] != ""
    requires sh.Has(sh.Over(q)) && sh.Over(q) in up.cid
    ensures SlotTrue(sh, up, Filled(sh, cache, p, obj), q)
    ensures cache[q].cid != "" ==> Filled(sh, cache, p, obj)[q].cid == cache[q].cid
    ensures cache[q].data.Some? ==> Filled(sh, cache, p, obj)[q].data == cache[q].data
  {
    FilledAt(sh, up, cache, p, obj, q);
    FilledAt(sh, up, cache, p, obj, sh.Over(q));
    hide Filled, IsObjectOf, Shape.Has, InTree;
  }

  lemma FilledTrue(sh: Shape, up: Upload, cache: Cache, p: Place, obj: Object)
    requires sh.Valid() && sh.Has(p) && CacheTrue(sh, up, cache) && p in up.data && IsObjectOf(sh, up, p, obj)
    requires forall q :: sh.Has(q) ==> q in up.cid && up.cid[q] != ""
    ensures CacheTrue(sh, up, Filled(sh, cache, p, obj)) && Keeps(cache, Filled(sh, cache, p, obj))
    ensures Filled(sh, cache, p, obj)[p].data == Some(up.data[p])
  {
    hide *;
    var cache' := Filled(sh, cache, p, obj);
    forall q | sh.Has(q)
      ensures q in cache && SlotTrue(sh, up, cache', q) && q in cache'
      ensures cache[q].cid != "" ==> cache'[q].cid == cache[q].cid
      ensures cache[q].data.Some? ==> cache'[q].data == cache[q].data
    {
      SlotOf(sh, up, cache, q);
      OverInTree(sh, q);
      FilledAt(sh, up, cache, p, obj, q);
      FilledSlot(sh, up, cache, p, obj, q);
    }
    AllSlots(sh, up, cache, p, obj);
    FilledAt(sh, up, cache, p, obj, p);
  }

  lemma SlotOf(sh: Shape, up: Upload, cache: Cache, q: Place)
    requires sh.Valid() && sh.Has(q) && CacheTrue(sh, up, cache)
    ensures q in cache && SlotTrue(sh, up, cache, q)
  {
  }

  lemma AllSlots(sh: Shape, up: Upload, cache: Cache, p: Place, obj: Object)
    requires sh.Valid() && CacheTrue(sh, up, cache)
    requires forall q :: sh.Has(q) ==> q in Filled(sh, cache, p, obj) && SlotTrue(sh, up, Filled(sh, cache, p, obj), q)
    requires forall q :: sh.Has(q) ==>
               && q in cache
               && (cache[q].cid != "" ==> Filled(sh, cache, p, obj)[q].cid == cache[q].cid)
               && (cache[q].data.Some? ==> Filled(sh, cache, p, obj)[q].data == cache[q].data)
    ensures CacheTrue(sh, up, Filled(sh, cache, p, obj)) && Keeps(cache, Filled(sh, cache, p, obj))
  {
    hide SlotTrue, Shape.Has;
  }

  lemma OverInTree(sh: Shape, q: Place)
    requires sh.Valid() && sh.Has(q)
    ensures sh.Has(sh.Over(q))
  {
    if q.level < sh.h {
      ParentInTree(sh.l, sh.k, sh.h, q);
    }
  }

  /** What one request leads to: the new cache, and whether there is data. */
  datatype Outcome = Outcome(cache: Cache, ok: bool)

  /** Fetches a node whose identifier is known. */
  ghost function Fetch(sh: Shape, net: Network, cache: Cache, p: Place): Outcome
    requires sh.Valid() && p in cache
  {
    if cache[p].cid in net then Outcome(Filled(sh, cache, p, net[cache[p].cid]), true) else Outcome(cache, false)
  }

  /** Obtains a node: from the cache, by its identifier, or after obtaining its parent. */
  ghost function Resolve(sh: Shape, up: Upload, net: Network, lost: set<Place>, cache: Cache, p: Place): (r: Outcome)
    requires sh.Valid() && sh.Has(p) && Published(sh, up, net) && CacheTrue(sh, up, cache)
    ensures CacheTrue(sh, up, r.cache) && Keeps(cache, r.cache) && (r.ok ==> r.cache[p].data == Some(up.data[p]))
    decreases sh.h - p.level
  {
    if p in lost then Outcome(cache, false)
    else if cache[p].data.Some? then Outcome(cache, true)
    else if cache[p].cid != "" then
      FetchTrue(sh, up, net, cache, p);
      Fetch(sh, net, cache, p)
    else if p.level == sh.h then Outcome(cache, false)
    else
      ParentInTree(sh.l, sh.k, sh.h, p);
      var above := Resolve(sh, up, net, lost, cache, Parent(sh.k, p));
      if !above.ok then above else
        KnownUnderData(sh, up, above.cache, p);
        FetchTrue(sh, up, net, above.cache, p);
        KeepsTransitive(cache, above.cache, Fetch(sh, net, above.cache, p).cache);
        Fetch(sh, net, above.cache, p)
  }

  lemma KnownUnderData(sh: Shape, up: Upload, cache: Cache, p: Place)
    requires sh.Valid() && sh.Has(p) && p.level < sh.h && CacheTrue(sh, up, cache)
    requires sh.Has(Parent(sh.k, p)) && cache[Parent(sh.k, p)].data.Some?
    ensures p in cache && cache[p].cid != ""
  {
    assert SlotTrue(sh, up, cache, p);
  }

  lemma FetchTrue(sh: Shape, up: Upload, net: Network, cache: Cache, p: Place)
    requires sh.Valid() && sh.Has(p) && Published(sh, up, net) && CacheTrue(sh, up, cache)
    requires p in cache && cache[p].cid != ""
    ensures cache[p].cid == up.cid[p]
    ensures var r := Fetch(sh, net, cache, p);
            CacheTrue(sh, up, r.cache) && Keeps(cache, r.cache) && (r.ok ==> r.cache[p].data == Some(up.data[p]))
  {
    assert SlotTrue(sh, up, cache, p);
    if cache[p].cid in net {
      FilledTrue(sh, up, cache, p, net[cache[p].cid]);
    }
  }

  lemma KeepsTransitive(a: Cache, b: Cache, c: Cache)
    requires Keeps(a, b) && Keeps(b, c)
    ensures Keeps(a, c)
  {
  }

  /** The cases of a request, as the getter goes through them. */
  lemma ResolveCases(sh: Shape, up: Upload, net: Network, lost: set<Place>, cache: Cache, p: Place)
    requires sh.Valid() && sh.Has(p) && Published(sh, up, net) && CacheTrue(sh, up, cache)
    ensures p in cache && p in up.data && (cache[p].data.Some? ==> cache[p].data == Some(up.data[p]))
    ensures var r := Resolve(sh, up, net, lost, cache, p);
            if p in lost then r == Outcome(cache, false)
            else if cache[p].data.Some? then r == Outcome(cache, true)
            else if cache[p].cid != "" then r == Fetch(sh, net, cache, p)
            else if p.level == sh.h then r == Outcome(cache, false)
            else
              && sh.Has(Parent(sh.k, p))
              && var above := Resolve(sh, up, net, lost, cache, Parent(sh.k, p));
                 if !above.ok then r == above
                 else p in above.cache && above.cache[p].cid != "" && r == Fetch(sh, net, above.cache, p)
  {
    SlotOf(sh, up, cache, p);
    if p.level < sh.h {
      ParentInTree(sh.l, sh.k, sh.h, p);
      var above := Resolve(sh, up, net, lost, cache, Parent(sh.k, p));
      if above.ok {
        KnownUnderData(sh, up, above.cache, p);
      }
    }
  }

  /** What fetching a node with a known identifier does. */
  lemma FetchCases(sh: Shape, up: Upload, net: Network, cache: Cache, p: Place)
    requires sh.Valid() && sh.Has(p) && Published(sh, up, net) && CacheTrue(sh, up, cache)
    requires p in cache && cache[p].cid != ""
    ensures p in up.data
    ensures var r := Fetch(sh, net, cache, p);
            CacheTrue(sh, up, r.cache)
            && if cache[p].cid in net then
                 var obj := net[cache[p].cid];
                 r == Outcome(Filled(sh, cache, p, obj), true) && obj.data == up.data[p]
                 && |obj.links| == ChildCount(sh.l, sh.k, p)
               else r == Outcome(cache, false)
  {
    FetchTrue(sh, up, net, cache, p);
  }

  // ----- which nodes can be obtained

  /** The node and everything above it can be fetched and is not masked. */
  ghost predicate Alive(sh: Shape, up: Upload, net: Network, lost: set<Place>, p: Place)
    requires sh.Valid() && sh.Has(p) && Published(sh, up, net)
    decreases sh.h - p.level
  {
    && p !in lost && up.cid[p] in net
    && (p.level < sh.h ==> sh.Has(Parent(sh.k, p)) && Alive(sh, up, net, lost, Parent(sh.k, p)))
  }

  ghost predicate SlotEarned(sh: Shape, up: Upload, net: Network, lost: set<Place>, cache: Cache, p: Place)
    requires sh.Valid() && sh.Has(p) && Published(sh, up, net) && p in cache
  {
    && (cache[p].data.Some? ==> Alive(sh, up, net, lost, p))
    && (if p.level == sh.h then cache[p].cid != "" else
          cache[p].cid != "" ==> sh.Has(Parent(sh.k, p)) && Alive(sh, up, net, lost, Parent(sh.k, p)))
  }

  /** All that is known was learnt on the way down from the root, whose identifier is given. */
  ghost predicate Earned(sh: Shape, up: Upload, net: Network, lost: set<Place>, cache: Cache)
    requires sh.Valid() && Published(sh, up, net)
  {
    forall p :: sh.Has(p) ==> p in cache && SlotEarned(sh, up, net, lost, cache, p)
  }

  lemma FetchEarned(sh: Shape, up: Upload, net: Network, lost: set<Place>, cache: Cache, p: Place)
    requires sh.Valid() && sh.Has(p) && Published(sh, up, net) && CacheTrue(sh, up, cache)
    requires Earned(sh, up, net, lost, cache) && p !in lost && p in cache && cache[p].cid != ""
    ensures Fetch(sh, net, cache, p).ok <==> Alive(sh, up, net, lost, p)
    ensures Earned(sh, up, net, lost, Fetch(sh, net, cache, p).cache)
  {
    FetchTrue(sh, up, net, cache, p);
    AliveStep(sh, up, net, lost, cache, p);
    if cache[p].cid in net {
      var obj := net[cache[p].cid];
      assert IsObjectOf(sh, up, p, obj);
      hide IsObjectOf, CacheTrue;
      forall q | sh.Has(q)
        ensures q in Filled(sh, cache, p, obj) && SlotEarned(sh, up, net, lost, Filled(sh, cache, p, obj), q)
      {
        FilledAt(sh, up, cache, p, obj, q);
        SlotStaysEarned(sh, up, net, lost, cache, p, q, Filled(sh, cache, p, obj));
      }
    }
  }

  lemma AliveStep(sh: Shape, up: Upload, net: Network, lost: set<Place>, cache: Cache, p: Place)
    requires sh.Valid() && sh.Has(p) && Published(sh, up, net) && p !in lost && p in cache && cache[p].cid != ""
    requires SlotEarned(sh, up, net, lost, cache, p)
    ensures p in up.cid && (up.cid[p] in net <==> Alive(sh, up, net, lost, p))
  {
  }

  lemma SlotStaysEarned(sh: Shape, up: Upload, net: Network, lost: set<Place>, cache: Cache, p: Place, q: Place, cache': Cache)
    requires sh.Valid() && sh.Has(p) && sh.Has(q) && Published(sh, up, net) && q in cache && q in cache' && q in up.cid && p in up.data
    requires SlotEarned(sh, up, net, lost, cache, q) && Alive(sh, up, net, lost, p)
    requires cache'[q] ==
             if q == p then cache[q].(data := Some(up.data[p]))
             else if q.level < sh.h && sh.Over(q) == p then cache[q].(cid := up.cid[q])
             else cache[q]
    ensures SlotEarned(sh, up, net, lost, cache', q)
  {
    OverInTree(sh, q);
    hide Published, Alive;
  }

  /**
    Caching never changes an answer: in every cache that was filled by requests, a node is obtained exactly
    when it and all nodes above it are reachable.
   */
  lemma {:induction false} ResolveIffAlive(sh: Shape, up: Upload, net: Network, lost: set<Place>, cache: Cache, p: Place)
    requires sh.Valid() && sh.Has(p) && Published(sh, up, net) && CacheTrue(sh, up, cache)
    requires Earned(sh, up, net, lost, cache)
    ensures Resolve(sh, up, net, lost, cache, p).ok <==> Alive(sh, up, net, lost, p)
    ensures Earned(sh, up, net, lost, Resolve(sh, up, net, lost, cache, p).cache)
    decreases sh.h - p.level
  {
    assert SlotEarned(sh, up, net, lost, cache, p);
    if p in lost || cache[p].data.Some? {
    } else if cache[p].cid != "" {
      FetchEarned(sh, up, net, lost, cache, p);
    } else {
      ParentInTree(sh.l, sh.k, sh.h, p);
      ResolveIffAlive(sh, up, net, lost, cache, Parent(sh.k, p));
      var above := Resolve(sh, up, net, lost, cache, Parent(sh.k, p));
      if above.ok {
        KnownUnderData(sh, up, above.cache, p);
        FetchEarned(sh, up, net, lost, above.cache, p);
      }
    }
  }

  /** Nothing is known of a node below one that cannot be obtained. */
  lemma UnknownBelowLost(sh: Shape, up: Upload, net: Network, lost: set<Place>, cache: Cache, p: Place)
    requires sh.Valid() && sh.Has(p) && Published(sh, up, net) && Earned(sh, up, net, lost, cache) && p.level < sh.h
    requires sh.Has(sh.Over(p)) && !Alive(sh, up, net, lost, sh.Over(p))
    ensures p in cache && cache[p] == Slot("", None)
  {
    assert SlotEarned(sh, up, net, lost, cache, p);
    hide Published, Earned, Shape.Has;
  }

  // ----- runs

  /** Only the root's identifier is known. */
  ghost predicate JustOpened(sh: Shape, up: Upload, cache: Cache)
    requires sh.Valid()
  {
    && (forall p :: p in cache <==> sh.Has(p))
    && forall p :: p in cache ==> p in up.cid && cache[p] == Slot(if p == sh.Root() then up.cid[p] else "", None)
  }

  lemma JustOpenedFine(sh: Shape, up: Upload, net: Network, lost: set<Place>, cache: Cache)
    requires sh.Valid() && Published(sh, up, net) && JustOpened(sh, up, cache)
    ensures CacheTrue(sh, up, cache) && Earned(sh, up, net, lost, cache)
  {
    forall p | sh.Has(p)
      ensures SlotTrue(sh, up, cache, p)
    {
      if p.level < sh.h {
        ParentInTree(sh.l, sh.k, sh.h, p);
      }
    }
  }

  /** The cache after a list of requests. */
  ghost function Requested(sh: Shape, up: Upload, net: Network, lost: set<Place>, cache: Cache, ps: seq<Place>): (r: Cache)
    requires sh.Valid() && Published(sh, up, net) && CacheTrue(sh, up, cache) && forall p :: p in ps ==> sh.Has(p)
    ensures CacheTrue(sh, up, r)
  {
    if ps == [] then cache else
      Resolve(sh, up, net, lost, Requested(sh, up, net, lost, cache, ps[..|ps| - 1]), ps[|ps| - 1]).cache
  }

  /** After any requests, the next answer depends only on what is reachable. */
  lemma {:induction false} AnswersDoNotDependOnCache(sh: Shape, up: Upload, net: Network, lost: set<Place>, cache: Cache,
                                                      ps: seq<Place>, p: Place)
    requires sh.Valid() && sh.Has(p) && Published(sh, up, net) && JustOpened(sh, up, cache)
    requires forall q :: q in ps ==> sh.Has(q)
    ensures CacheTrue(sh, up, cache)
    ensures Earned(sh, up, net, lost, Requested(sh, up, net, lost, cache, ps))
    ensures Resolve(sh, up, net, lost, Requested(sh, up, net, lost, cache, ps), p).ok <==> Alive(sh, up, net, lost, p)
  {
    JustOpenedFine(sh, up, net, lost, cache);
    if ps != [] {
      var q := ps[|ps| - 1];
      AnswersDoNotDependOnCache(sh, up, net, lost, cache, ps[..|ps| - 1], q);
      ResolveIffAlive(sh, up, net, lost, Requested(sh, up, net, lost, cache, ps[..|ps| - 1]), q);
    }
    ResolveIffAlive(sh, up, net, lost, Requested(sh, up, net, lost, cache, ps), p);
  }
}
