/**
  Collecting the failed leaves of a file on the linked tree and the linked lattice.
 */
module FailedLeaves {
  import opened Bytes
  import opened LatticeGraph
  import opened Sequences
  import opened RecoverySearch
  import opened RecoveryTheorems
  import opened Lattices
  import opened TreeShape
  import opened TreeLabels
  import opened Trees
  import opened TreeWalks
  import opened RepairWalk
  import Reslicing

  /** The visits of a walk over the given places. */
  ghost function VisitsOf(at: Nodes, places: seq<Place>): (vs: seq<Visit>)
    reads at.Values`latticeIdx, at.Values`children
    ensures |vs| == |places|
  {
    if places == [] then [] else
      VisitsOf(at, places[..|places| - 1]) + [VisitOf(at, places[|places| - 1])]
  }

  ghost function VisitOf(at: Nodes, q: Place): (v: Visit)
    reads at.Values`latticeIdx, at.Values`children
  {
    if q in at then Visit(at[q].latticeIdx, |at[q].children|) else Visit(0, 0)
  }

  lemma {:induction false} VisitsAppend(at: Nodes, ps: seq<Place>, qs: seq<Place>)
    ensures VisitsOf(at, ps + qs) == VisitsOf(at, ps) + VisitsOf(at, qs)
  {
    if qs == [] {
      assert ps + qs == ps;
    } else {
      var l := |qs| - 1;
      VisitsAppend(at, ps, qs[..l]);
      assert (ps + qs)[..|ps| + l] == ps + qs[..l];
    }
  }

  lemma {:induction false} VisitAt(at: Nodes, places: seq<Place>, x: nat)
    requires x < |places| && places[x] in at
    ensures VisitsOf(at, places)[x] == Visit(at[places[x]].latticeIdx, |at[places[x]].children|)
  {
    if x < |places| - 1 {
      VisitAt(at, places[..|places| - 1], x);
    }
  }

  lemma VisitOne(at: Nodes, p: Place)
    requires p in at
    ensures VisitsOf(at, [p]) == [Visit(at[p].latticeIdx, |at[p].children|)] && VisitsOf(at, []) == []
  {
    assert [p][..0] == [];
  }

  /** Labels are below the number of blocks. */
  lemma {:induction false} VisitLabels(g: Graph, at: Nodes, places: seq<Place>)
    requires DistinctLabels(at, g.n) && g.n > 0
    ensures Labels(g, VisitsOf(at, places))
  {
    if places != [] {
      VisitLabels(g, at, places[..|places| - 1]);
    }
  }

  /** The nodes under a node are visited under different labels. */
  lemma VisitsDistinct(sh: Shape, at: Nodes, p: Place, n: nat)
    requires Whole(sh, at) && p in at && DistinctLabels(at, n)
    ensures DistinctVisits(VisitsOf(at, Under(sh, p)))
  {
    var places := Under(sh, p);
    NodeOf(sh, at, p);
    PreNoRepeat(sh.l, sh.k, p.level, p.pos);
    UnderIsInTree(sh, p);
    hide Under, Linked;
    forall x, y | 0 <= x < y < |places|
      ensures VisitsOf(at, places)[x].index != VisitsOf(at, places)[y].index
    {
      PlaceIn(sh, at, p, places[x]);
      PlaceIn(sh, at, p, places[y]);
      VisitAt(at, places, x);
      VisitAt(at, places, y);
    }
  }

  lemma PlaceIn(sh: Shape, at: Nodes, p: Place, q: Place)
    requires Whole(sh, at) && p in at && q in Under(sh, p)
    ensures q in at
  {
    NodeOf(sh, at, p);
    UnderIsInTree(sh, p);
    hide Under;
  }

  lemma Asked(lattice: Lattice, at: Nodes, p: Place)
    requires lattice.Valid() && DistinctLabels(at, lattice.chunkNum) && p in at
    ensures at[p].latticeIdx < lattice.chunkNum == lattice.G().n && In(lattice.G(), D(at[p].latticeIdx + 1))
    ensures lattice.G().Valid() && Covers(lattice.G(), lattice.State())
  {
  }

  /** A leaf: it is listed if it can neither be downloaded nor is held. */
  method VisitLeaf(lattice: Lattice, index: nat, w: World) returns (failed: seq<nat>)
    requires lattice.Valid() && Quiet(lattice.G(), lattice.State()) && index < lattice.chunkNum
    modifies lattice`requestCounter, lattice`getter, lattice.at.Values`status, lattice.at.Values`data,
             lattice.at.Values`repaired, lattice.at.Values`currRequest, lattice.at.Values`pairsKnown,
             lattice.at.Values`recoverPairs
    ensures lattice.Valid() && Quiet(lattice.G(), lattice.State())
    ensures lattice.G().Valid() && Covers(lattice.G(), old(lattice.State())) && index < lattice.G().n
    ensures Outcome(Session(lattice.State(), lattice.requestCounter), lattice.getter, true, failed) ==
            WalkOne(lattice.G(), Session(old(lattice.State()), old(lattice.requestCounter)), old(lattice.getter),
                    Visit(index, 0), lattice.switchDepth, w)
  {
    hide *;
    Sized(lattice);
    WalkOneIs(lattice.G(), Session(lattice.State(), lattice.requestCounter), lattice.getter, Visit(index, 0), lattice.switchDepth, w);
    LeafVisit(Visit(index, 0));
    lattice.getter := lattice.getter + Gain(w, index);
    failed := [];
    var chunk, _ := lattice.GetChunkDepth(index + 1, 1);
    if chunk.Failed? {
      failed := [index];
    }
  }

  /** An inner node: it is repaired, uploaded again if it was rebuilt, and parsed. */
  method VisitInner(lattice: Lattice, index: nat, children: nat, w: World) returns (ok: bool)
    requires lattice.Valid() && Quiet(lattice.G(), lattice.State()) && index < lattice.chunkNum && children > 0
    modifies lattice`requestCounter, lattice`getter, lattice.at.Values`status, lattice.at.Values`data,
             lattice.at.Values`repaired, lattice.at.Values`currRequest, lattice.at.Values`pairsKnown,
             lattice.at.Values`recoverPairs
    ensures lattice.Valid() && Quiet(lattice.G(), lattice.State())
    ensures lattice.G().Valid() && Covers(lattice.G(), old(lattice.State())) && index < lattice.G().n
    ensures Outcome(Session(lattice.State(), lattice.requestCounter), lattice.getter, ok, []) ==
            WalkOne(lattice.G(), Session(old(lattice.State()), old(lattice.requestCounter)), old(lattice.getter),
                    Visit(index, children), lattice.switchDepth, w)
  {
    hide *;
    Sized(lattice);
    ghost var se, v := Session(lattice.State(), lattice.requestCounter), Visit(index, children);
    WalkOneIs(lattice.G(), se, lattice.getter, v, lattice.switchDepth, w);
    LeafVisit(v);
    lattice.getter := lattice.getter + Gain(w, index);
    GotIs(lattice.G(), se, D(index + 1), lattice.switchDepth, lattice.getter, w, v);
    var chunk, hasRepaired := lattice.GetChunk(index + 1);
    if chunk.Failed? {
      return false;
    }
    var raw := chunk.data;
    if hasRepaired {
      raw := Trim(raw);
      if raw !in w.uploads || index >= |w.content| || raw != w.content[index] {
        return false;
      }
    }
    ok := raw in w.links && w.links[raw] == children;
  }

  lemma Sized(lattice: Lattice)
    requires lattice.Valid()
    ensures lattice.G().Valid() && lattice.G().n == lattice.chunkNum && Covers(lattice.G(), lattice.State())
    ensures forall i :: 1 <= i <= lattice.chunkNum ==> In(lattice.G(), D(i))
  {
  }

  /**
    Lists the failed leaves under a node whose identifier the caller has set.  An inner node that cannot be
    obtained, or rebuilt but not uploaded under its own identifier, or whose content does not name all
    children, ends the walk with an error.
   */
  method RetrieveFailedLeaves(lattice: Lattice, node: TreeNode, w: World, ghost sh: Shape, ghost at: Nodes, ghost p: Place)
    returns (ok: bool, failed: seq<nat>)
    requires Whole(sh, at) && sh.Valid() && p in at && node == at[p] && DistinctLabels(at, lattice.chunkNum)
    requires lattice.Valid() && Quiet(lattice.G(), lattice.State())
    modifies lattice`requestCounter, lattice`getter, lattice.at.Values`status, lattice.at.Values`data,
             lattice.at.Values`repaired, lattice.at.Values`currRequest, lattice.at.Values`pairsKnown,
             lattice.at.Values`recoverPairs
    ensures lattice.Valid() && Quiet(lattice.G(), lattice.State())
    ensures lattice.G().Valid() && Covers(lattice.G(), old(lattice.State())) && Labels(lattice.G(), VisitsOf(at, Under(sh, p)))
    ensures Outcome(Session(lattice.State(), lattice.requestCounter), lattice.getter, ok, failed) ==
            WalkAll(lattice.G(), Session(old(lattice.State()), old(lattice.requestCounter)), old(lattice.getter),
                    VisitsOf(at, Under(sh, p)), lattice.switchDepth, w)
    decreases p.level
  {
    hide *;
    NodeOf(sh, at, p);
    UnderSteps(sh, p);
    Asked(lattice, at, p);
    ghost var g, depth := lattice.G(), lattice.switchDepth;
    ghost var se, store := Session(lattice.State(), lattice.requestCounter), lattice.getter;
    ghost var v := Visit(node.latticeIdx, |node.children|);
    VisitLabels(g, at, Under(sh, p));
    VisitOne(at, p);
    LeafLevel(sh, p);
    WalkOfOne(g, se, store, v, depth, w);
    if |node.children| == 0 {
      failed := VisitLeaf(lattice, node.latticeIdx, w);
      assert Under(sh, p) == [p];
      return true, failed;
    }
    ghost var done := [p];
    assert done == [p] + UnderFirst(sh, p, 0);
    failed := [];
    ok := VisitInner(lattice, node.latticeIdx, |node.children|, w);
    if !ok {
      WalkStops(g, se, store, at, sh, p, 0, |node.children|, depth, w);
      return;
    }
    for i := 0 to |node.children|
      invariant lattice.Valid() && Quiet(g, lattice.State()) && lattice.G() == g
      invariant done == [p] + UnderFirst(sh, p, i) && Labels(g, VisitsOf(at, done))
      invariant WalkAll(g, se, store, VisitsOf(at, done), depth, w) ==
                Outcome(Session(lattice.State(), lattice.requestCounter), lattice.getter, true, failed)
    {
      ghost var c := UnderNext(sh, at, p, i);
      NodeOf(sh, at, c);
      var below;
      ok, below := RetrieveFailedLeaves(lattice, node.children[i], w, sh, at, c);
      WalkAppend(g, se, store, VisitsOf(at, done), VisitsOf(at, Under(sh, c)), depth, w);
      VisitsAppend(at, done, Under(sh, c));
      failed := failed + below;
      done := done + Under(sh, c);
      assert done == [p] + UnderFirst(sh, p, i + 1);
      if !ok {
        WalkStops(g, se, store, at, sh, p, i + 1, |node.children|, depth, w);
        return;
      }
    }
    ok := true;
  }

  lemma LeafVisit(v: Visit)
    ensures v.Leaf() <==> v.children == 0
  {
  }

  /** What is answered is what the block holds, and that decides whether the node passes. */
  lemma GotIs(g: Graph, se: Session, b: Node, depth: nat, store: Store, w: World, v: Visit)
    requires g.Valid() && Covers(g, se.st) && In(g, b)
    ensures var (se', answer) := Serve(g, se, Request(b, depth, store));
            answer.Got? ==>
              var raw := if se'.st[b].repaired then Trim(answer.data) else answer.data;
              Passes(w, v, se'.st[b]) <==>
                && (se'.st[b].repaired ==> raw in w.uploads && v.index < |w.content| && raw == w.content[v.index])
                && raw in w.links && w.links[raw] == v.children
  {
    hide Search, Trim;
  }

  /** A walk that has ended with an error under the first i children is the whole walk. */
  lemma WalkStops(g: Graph, se: Session, store: Store, at: Nodes, sh: Shape, p: Place, i: nat, n: nat, depth: nat, w: World)
    requires g.Valid() && Covers(g, se.st) && DistinctLabels(at, g.n) && g.n > 0
    requires sh.Valid() && i <= n && Under(sh, p) == [p] + UnderFirst(sh, p, n)
    ensures Labels(g, VisitsOf(at, [p] + UnderFirst(sh, p, i))) && Labels(g, VisitsOf(at, Under(sh, p)))
    ensures var r := WalkAll(g, se, store, VisitsOf(at, [p] + UnderFirst(sh, p, i)), depth, w);
            !r.ok ==> WalkAll(g, se, store, VisitsOf(at, Under(sh, p)), depth, w) == r
  {
    hide *;
    UnderFirstPrefix(sh, p, i, n);
    var done, all := [p] + UnderFirst(sh, p, i), Under(sh, p);
    var rest := all[|done|..];
    assert all == done + rest;
    VisitLabels(g, at, done);
    VisitLabels(g, at, rest);
    VisitLabels(g, at, all);
    VisitsAppend(at, done, rest);
    WalkAppend(g, se, store, VisitsOf(at, done), VisitsOf(at, rest), depth, w);
  }

  lemma UnderFirstPrefix(sh: Shape, p: Place, i: nat, n: nat)
    requires sh.Valid() && i <= n
    ensures UnderFirst(sh, p, i) <= UnderFirst(sh, p, n)
  {
    hide Size;
    if p.level > 0 {
      var lo := Reslicing.Start(p.pos, sh.k);
      PreListSplit(sh.l, sh.k, p.level - 1, lo, lo + i, lo + n);
    }
  }

  lemma LeafLevel(sh: Shape, p: Place)
    requires sh.Valid() && sh.Has(p)
    ensures ChildCount(sh.l, sh.k, p) == 0 <==> p.level == 0
    ensures p.level == 0 ==> UnderFirst(sh, p, 0) == []
  {
  }
}
