/**
  Regenerating a strand from repaired data.  The lattice's answers are fed to the entangler as they are, with
  whatever zeros repair has appended.
 */
module Regeneration {
  import opened Bytes
  import opened Geometry
  import opened Chains
  import opened LatticeGraph
  import opened RecoverySearch
  import opened RecoveryTheorems
  import opened Reslicing
  import opened ParityStorage

  /** v is w with zeros appended. */
  ghost predicate Padded(v: Chunk, w: Chunk) {
    Same(v, w) && |v| >= |w|
  }

  // ----- repair never cuts

  ghost predicate LongStore(g: Graph, data: seq<Chunk>, store: Store)
    requires g.Valid() && |data| == g.n
  {
    forall b :: In(g, b) && b in store ==> |store[b]| >= |Value(g, data, b)|
  }

  ghost predicate LongState(g: Graph, data: seq<Chunk>, st: State)
    requires g.Valid() && |data| == g.n && Covers(g, st)
  {
    forall b :: In(g, b) && Available(st[b]) ==> |st[b].data| >= |Value(g, data, b)|
  }

  lemma {:induction false} SearchLong(g: Graph, data: seq<Chunk>, store: Store, st: State, b: Node, rid: nat, d: nat)
    requires g.Valid() && TwoColumns(g) && |data| == g.n && Covers(g, st) && In(g, b) && d >= 1
    requires LongStore(g, data, store) && LongState(g, data, st)
    ensures LongState(g, data, Search(g, store, st, b, rid, d))
    decreases d, 0, 0
  {
    hide Pairs, TryPairs, Value;
    if st[b].status == NoData && b !in store && d > 1 {
      var st1 := st[b := Started(st[b], rid)];
      TryPairsLong(g, data, store, st1, b, rid, d - 1, 0);
      TryPairsGrows(g, store, st1, b, rid, d - 1, 0);
    }
  }

  lemma {:induction false} TryPairsLong(g: Graph, data: seq<Chunk>, store: Store, st: State, b: Node, rid: nat, d: nat, j: nat)
    requires g.Valid() && TwoColumns(g) && |data| == g.n && Covers(g, st) && In(g, b) && d >= 1 && j <= |Pairs(g, b)|
    requires st[b].status == RepairPending && LongStore(g, data, store) && LongState(g, data, st)
    ensures LongState(g, data, TryPairs(g, store, st, b, rid, d, j).0)
    decreases d, 1, |Pairs(g, b)| - j
  {
    hide Pairs, Search, Value, Xor;
    if j < |Pairs(g, b)| {
      var p := Pairs(g, b)[j];
      var st1 := Search(g, store, st, p.left, rid, d);
      SearchLong(g, data, store, st, p.left, rid, d);
      SearchGrows(g, store, st, p.left, rid, d);
      if !Available(st1[p.left]) {
        TryPairsLong(g, data, store, st1, b, rid, d, j + 1);
      } else {
        var st2 := Search(g, store, st1, p.right, rid, d);
        SearchLong(g, data, store, st1, p.right, rid, d);
        SearchGrows(g, store, st1, p.right, rid, d);
        if !Available(st2[p.right]) || st2[p.left].data == [] || st2[p.right].data == [] {
          TryPairsLong(g, data, store, st2, b, rid, d, j + 1);
        } else {
          PairsLong(g, data, b);
          assert PairLong(g, data, b, p);
          XorLength(st2[p.left].data, st2[p.right].data);
        }
      }
    }
  }

  /** Over whole runs, every answer is the true value with zeros appended. */
  lemma {:induction false} RunLong(g: Graph, data: seq<Chunk>, se: Session, reqs: seq<Request>)
    requires g.Valid() && TwoColumns(g) && |data| == g.n && Fresh(g, se.st)
    requires forall q :: q in reqs ==> In(g, q.block) && LongStore(g, data, q.store)
    ensures var (se', answers) := Run(g, se, reqs);
            && LongState(g, data, se'.st)
            && forall x :: 0 <= x < |reqs| && answers[x].Got? ==> |answers[x].data| >= |Value(g, data, reqs[x].block)|
  {
    hide Search, Value, LongStore;
    if reqs != [] {
      var l := |reqs| - 1;
      RunLong(g, data, se, reqs[..l]);
      var (se1, answers) := Run(g, se, reqs[..l]);
      var q := reqs[l];
      if q.depth > 0 {
        SearchLong(g, data, q.store, se1.st, q.block, se1.counter, q.depth);
      }
      forall x | 0 <= x < |reqs| && Run(g, se, reqs).1[x].Got?
        ensures |Run(g, se, reqs).1[x].data| >= |Value(g, data, reqs[x].block)|
      {
        if x < l {
          assert reqs[..l][x] == reqs[x];
        }
      }
    }
  }

  /** Every chunk of the repaired stream is the original with zeros appended. */
  ghost predicate PaddedData(data': seq<Chunk>, data: seq<Chunk>) {
    |data'| == |data| && forall i :: 0 <= i < |data| ==> Padded(data'[i], data[i])
  }

  /** The stream that RepairStrand feeds to the entangler: all data blocks, in order, as the lattice answers them. */
  lemma AnswersPadded(g: Graph, data: seq<Chunk>, se: Session, reqs: seq<Request>, data': seq<Chunk>)
    requires g.Valid() && TwoColumns(g) && |data| == g.n == |reqs| == |data'| && Fresh(g, se.st)
    requires forall q :: q in reqs ==> In(g, q.block) && Honest(g, data, q.store) && LongStore(g, data, q.store)
    requires forall i :: 0 <= i < |reqs| ==> reqs[i].block == D(i + 1) && Run(g, se, reqs).1[i] == Got(data'[i])
    ensures PaddedData(data', data)
  {
    hide Run, Honest, LongStore, Same;
    RunSafe(g, data, se, reqs);
    RunLong(g, data, se, reqs);
    forall i | 0 <= i < |data|
      ensures Padded(data'[i], data[i])
    {
      assert Run(g, se, reqs).1[i].Got?;
      assert Value(g, data, reqs[i].block) == data[i];
    }
  }

  // ----- parities of padded data

  lemma {:induction false} XorAllSame(vs: seq<Chunk>, ws: seq<Chunk>)
    requires |vs| == |ws| && forall j :: 0 <= j < |vs| ==> Same(vs[j], ws[j])
    ensures Same(XorAll(vs), XorAll(ws))
  {
    hide Same, Xor;
    if vs == [] {
      SameSelf([]);
    } else {
      var l := |vs| - 1;
      XorAllSame(vs[..l], ws[..l]);
      XorRespectsSame(vs[l], ws[l], XorAll(vs[..l]), XorAll(ws[..l]));
    }
  }

  lemma SameSelf(v: Chunk)
    ensures Same(v, v)
  {
  }

  lemma {:induction false} MaxLenGrows(vs: seq<Chunk>, ws: seq<Chunk>)
    requires |vs| == |ws| && forall j :: 0 <= j < |vs| ==> |vs[j]| >= |ws[j]|
    ensures MaxLen(vs) >= MaxLen(ws)
  {
    if vs != [] {
      MaxLenGrows(vs[..|vs| - 1], ws[..|ws| - 1]);
    }
  }

  /** Padded data has padded parities. */
  lemma ParityPadded(data': seq<Chunk>, data: seq<Chunk>, s: nat, k: nat, i: nat)
    requires s >= 2 && k < 3 && 1 <= i <= |data| && PaddedData(data', data)
    ensures Padded(ParityData(data', s, k, i), ParityData(data, s, k, i))
  {
    var a := Chain(s, k, i);
    var d', d := ChainData(data', s, k, a), ChainData(data, s, k, a);
    hide Same, Xor, Len, Member, Chain, Col, XorAll;
    forall j | 0 <= j < |d|
      ensures Padded(d'[j], d[j])
    {
      LenMeaning(s, |data|, k, a, j);
    }
    ParityLength(data', s, k, i);
    ParityLength(data, s, k, i);
    var m := Covered(s, |data|, k, i);
    MaxLenGrows(d'[..m], d[..m]);
    ParitySame(data', data, s, k, i);
  }

  lemma ParitySame(data': seq<Chunk>, data: seq<Chunk>, s: nat, k: nat, i: nat)
    requires s >= 2 && k < 3 && 1 <= i <= |data| == |data'|
    requires forall j :: 0 <= j < |data| ==> Same(data'[j], data[j])
    ensures Same(ParityData(data', s, k, i), ParityData(data, s, k, i))
  {
    var a, c := Chain(s, k, i), Col(s, i);
    LenPositive(s, |data|, k, i);
    var d', d := ChainData(data', s, k, a), ChainData(data, s, k, a);
    hide Same, Xor, Len, Member, Chain, Col, XorAll;
    forall j | 0 <= j < |d|
      ensures Same(d'[j], d[j])
    {
      LenMeaning(s, |data|, k, a, j);
    }
    XorAllSame(d'[..c + 1], d[..c + 1]);
    XorAllSame(d'[..|d|], d[..|d|]);
    XorRespectsSame(data'[i - 1], data[i - 1], XorAll(d'[..|d|]), XorAll(d[..|d|]));
  }

  // ----- the regenerated strand

  lemma {:induction false} MergedLonger(vs: seq<Chunk>, ws: seq<Chunk>)
    requires |vs| == |ws| && forall j :: 0 <= j < |vs| ==> Padded(vs[j], ws[j])
    ensures |Merged(vs)| >= |Merged(ws)|
    ensures |Merged(vs)| == |Merged(ws)| ==> vs == ws
  {
    hide Same;
    if vs != [] {
      var l := |vs| - 1;
      MergedLonger(vs[..l], ws[..l]);
      if |Merged(vs)| == |Merged(ws)| {
        PaddedEqual(vs[l], ws[l]);
        assert vs == vs[..l] + [vs[l]] && ws == ws[..l] + [ws[l]];
      }
    }
  }

  lemma PaddedEqual(v: Chunk, w: Chunk)
    requires Padded(v, w)
    ensures v == w <==> |v| == |w|
  {
    if |v| == |w| {
      assert forall i :: 0 <= i < |v| ==> v[i] == At(v, i) == At(w, i) == w[i];
    }
  }

  /**
    The regenerated strand, all parities merged, is byte for byte the uploaded one if and only if padding has
    made no parity longer, that is, the longest chunk each parity covers is no longer than it was.
   */
  lemma RegeneratedIdenticalIff(data': seq<Chunk>, data: seq<Chunk>, s: nat, k: nat)
    requires s >= 2 && k < 3 && |data'| == |data| && PaddedData(data', data)
    ensures Merged(StrandParities(data', s, k)) == Merged(StrandParities(data, s, k)) <==>
            forall i :: 1 <= i <= |data| ==> SameLength(data', data, s, k, i)
  {
    hide *;
    var ps', ps := StrandParities(data', s, k), StrandParities(data, s, k);
    forall j | 0 <= j < |ps|
      ensures Padded(ps'[j], ps[j])
      ensures ps'[j] == ps[j] <==> SameLength(data', data, s, k, j + 1)
    {
      ParityEqualIff(data', data, s, k, j);
    }
    MergedLonger(ps', ps);
    SameLengthEverywhere(data', data, s, k);
  }

  /** The longest chunk that parity i covers has kept its length. */
  ghost predicate SameLength(data': seq<Chunk>, data: seq<Chunk>, s: nat, k: nat, i: nat)
    requires s >= 2 && k < 3 && 1 <= i <= |data| == |data'|
  {
    LongestCovered(data', s, k, i) == LongestCovered(data, s, k, i)
  }

  lemma ParityEqualIff(data': seq<Chunk>, data: seq<Chunk>, s: nat, k: nat, j: nat)
    requires s >= 2 && k < 3 && j < |data| == |data'| && PaddedData(data', data)
    ensures Padded(StrandParities(data', s, k)[j], StrandParities(data, s, k)[j])
    ensures StrandParities(data', s, k)[j] == StrandParities(data, s, k)[j] <==> SameLength(data', data, s, k, j + 1)
  {
    hide ParityData, LongestCovered, Padded;
    var i := j + 1;
    ParityPadded(data', data, s, k, i);
    ParityLength(data', s, k, i);
    ParityLength(data, s, k, i);
    PaddedEqual(ParityData(data', s, k, i), ParityData(data, s, k, i));
  }

  lemma SameLengthEverywhere(data': seq<Chunk>, data: seq<Chunk>, s: nat, k: nat)
    requires s >= 2 && k < 3 && |data'| == |data|
    requires forall j :: 0 <= j < |data| ==>
               (StrandParities(data', s, k)[j] == StrandParities(data, s, k)[j] <==> SameLength(data', data, s, k, j + 1))
    ensures StrandParities(data', s, k) == StrandParities(data, s, k) <==>
            forall i :: 1 <= i <= |data| ==> SameLength(data', data, s, k, i)
  {
    var ps', ps := StrandParities(data', s, k), StrandParities(data, s, k);
    hide *;
    if ps' == ps {
      forall i | 1 <= i <= |data|
        ensures SameLength(data', data, s, k, i)
      {
        assert ps'[i - 1] == ps[i - 1];
      }
    }
    if forall i :: 1 <= i <= |data| ==> SameLength(data', data, s, k, i) {
      forall j | 0 <= j < |ps|
        ensures ps'[j] == ps[j]
      {
        var i := j + 1;
        assert SameLength(data', data, s, k, i);
      }
    }
  }

  /** A strand whose chains all start with a full-size block regenerates identically if padding stays within that size. */
  lemma FullStrandRegenerates(data': seq<Chunk>, data: seq<Chunk>, s: nat, k: nat, size: nat)
    requires s >= 2 && k < 3 && |data| >= 2 * s && PaddedData(data', data)
    requires FullStarts(data, s, k, size) && forall j :: 0 <= j < |data| ==> |data'[j]| <= size
    ensures StrandParities(data', s, k) == StrandParities(data, s, k)
  {
    hide ParityData, FullStart, Padded, Same;
    assert forall j :: 0 <= j < |data| ==> |data[j]| <= size by {
      PaddedLengths(data', data);
    }
    FullStartsKept(data', data, s, k, size);
    FullParitiesIff(data', s, k, size);
    FullParitiesIff(data, s, k, size);
    forall i | 1 <= i <= |data|
      ensures ParityData(data', s, k, i) == ParityData(data, s, k, i)
    {
      ParityPadded(data', data, s, k, i);
      PaddedEqual(ParityData(data', s, k, i), ParityData(data, s, k, i));
    }
    var ps', ps := StrandParities(data', s, k), StrandParities(data, s, k);
    forall j | 0 <= j < |ps|
      ensures ps'[j] == ps[j]
    {
      var i := j + 1;
      assert ParityData(data', s, k, i) == ParityData(data, s, k, i);
    }
  }

  lemma PaddedLengths(data': seq<Chunk>, data: seq<Chunk>)
    requires PaddedData(data', data)
    ensures forall j :: 0 <= j < |data| ==> |data'[j]| >= |data[j]|
  {
  }

  lemma FullStartsKept(data': seq<Chunk>, data: seq<Chunk>, s: nat, k: nat, size: nat)
    requires s >= 2 && k < 3 && |data| >= 2 * s && PaddedData(data', data)
    requires FullStarts(data, s, k, size) && forall j :: 0 <= j < |data| ==> |data'[j]| <= size
    ensures FullStarts(data', s, k, size)
  {
    hide Same, Member;
    forall a: nat | a < s
      ensures FullStart(data', s, k, a, size)
    {
      FirstTwo(s, |data|, k, a);
      assert FullStart(data, s, k, a, size);
    }
  }

  // ----- repair through the re-slicing getter

  /** The bytes the getter reads for the parity of block i of a stored strand. */
  function SlicedParity(data: seq<Chunk>, s: nat, k: nat, i: nat, size: nat): Chunk
    requires s >= 2 && k < 3 && 1 <= i && Start(i - 1, size) + size <= |Merged(StrandParities(data, s, k))|
  {
    Merged(StrandParities(data, s, k))[Start(i - 1, size)..Start(i - 1, size) + size]
  }

  /** A store of original chunks and of parities read back from stored strands. */
  ghost predicate ReadBack(g: Graph, data: seq<Chunk>, size: nat, store: Store)
    requires g.Valid() && |data| == g.n
  {
    forall b :: In(g, b) && b in store ==>
      match b
      case D(i) => store[b] == data[i - 1]
      case P(k, i) => Start(i - 1, size) + size <= |Merged(StrandParities(data, g.s, k))|
                      && store[b] == SlicedParity(data, g.s, k, i, size)
  }

  /**
    Strands whose chains all have a full-size block among their first two are read back right, so repair
    through the getter works on an honest store.
   */
  lemma ReadBackHonest(g: Graph, data: seq<Chunk>, size: nat, store: Store)
    requires g.Valid() && TwoColumns(g) && |data| == g.n && ReadBack(g, data, size, store)
    requires forall j :: 0 <= j < |data| ==> data[j] != [] && |data[j]| <= size
    requires forall k: nat :: k < g.alpha ==> FullStarts(data, g.s, k, size)
    ensures Honest(g, data, store) && LongStore(g, data, store)
  {
    hide FullStarts, ParityData, Merged, Same;
    forall b | In(g, b) && b in store
      ensures store[b] == Value(g, data, b) && store[b] != []
    {
      match b
      case D(i) => assert data[i - 1] != [];
      case P(k, i) =>
        StrandEvenIff(data, g.s, k, size);
        MergedEven(StrandParities(data, g.s, k), size, i - 1);
        ParityNonEmpty(data, g.s, k, i);
    }
    SameValues(g, data, store);
  }

  lemma SameValues(g: Graph, data: seq<Chunk>, store: Store)
    requires g.Valid() && |data| == g.n
    requires forall b :: In(g, b) && b in store ==> store[b] == Value(g, data, b) && store[b] != []
    ensures Honest(g, data, store) && LongStore(g, data, store)
  {
    hide Value;
  }
}
