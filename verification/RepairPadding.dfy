/**
  How repair lengthens a block, and what becomes of a strand regenerated from it.  One block of the first
  column is lost; the stream for regeneration asks for all blocks in order.
 */
module RepairPadding {
  import opened Bytes
  import opened Geometry
  import opened Chains
  import opened LatticeGraph
  import opened RecoverySearch
  import opened RecoveryTheorems
  import opened Reslicing
  import opened ParityStorage
  import opened Regeneration
  import opened MissedLeaves

  /** All data blocks but number i are in the store, and the two parities of its horizontal strand. */
  ghost predicate OneLost(g: Graph, data: seq<Chunk>, store: Store, i: nat) {
    && g.Valid() && TwoColumns(g) && |data| == g.n && 1 <= i <= g.s && (forall d :: d in data ==> d != [])
    && (forall x :: 1 <= x <= g.n && x != i ==> D(x) in store && store[D(x)] == data[x - 1])
    && D(i) !in store
    && (forall b :: b == P(0, i) || b == P(0, Prev(g.s, g.n, 0, i)) ==> In(g, b) && b in store && store[b] == Value(g, data, b))
  }

  /** What the search makes of the lost block: the XOR of the two parities around it. */
  function Rebuilt(g: Graph, data: seq<Chunk>, i: nat): Chunk
    requires g.Valid() && |data| == g.n && 1 <= i <= g.n
  {
    PrevCoordinates(g.s, g.n, 0, i);
    Xor(ParityData(data, g.s, 0, Prev(g.s, g.n, 0, i)), ParityData(data, g.s, 0, i))
  }

  /** The horizontal chain of block i. */
  function Line(g: Graph, data: seq<Chunk>, i: nat): seq<Chunk>
    requires g.Valid() && |data| == g.n && 1 <= i <= g.n
  {
    ChainData(data, g.s, 0, Chain(g.s, 0, i))
  }

  /** The rebuilt block is as long as the longest block of its horizontal chain. */
  lemma RebuiltLength(g: Graph, data: seq<Chunk>, i: nat)
    requires g.Valid() && TwoColumns(g) && |data| == g.n && 1 <= i <= g.s
    ensures |Rebuilt(g, data, i)| == MaxLen(Line(g, data, i)) >= |data[i - 1]|
  {
    hide ParityData, Chain, Col, Member, Len, Prev, LongestCovered;
    var h := Prev(g.s, g.n, 0, i);
    PrevCoordinates(g.s, g.n, 0, i);
    assert In(g, P(0, i));
    ChainsLong(g, 0, i);
    FirstRow(g.s, g.n, i);
    ParityLength(data, g.s, 0, i);
    ParityLength(data, g.s, 0, h);
    XorLength(ParityData(data, g.s, 0, h), ParityData(data, g.s, 0, i));
    CoversAll(g.s, g.n, i, h);
    var d := Line(g, data, i);
    assert d[..|d|] == d;
    MaxLenMeaning(d);
    FirstOfLine(g, data, i);
  }

  /** The first and the last parity of a chain cover all of it. */
  lemma CoversAll(s: nat, n: nat, i: nat, h: nat)
    requires s >= 2 && 1 <= i <= n && 1 <= h <= n && Chain(s, 0, h) == Chain(s, 0, i)
    requires Col(s, i) == 0 && Len(s, n, 0, Chain(s, 0, i)) >= 2 && Col(s, h) == Len(s, n, 0, Chain(s, 0, i)) - 1
    ensures Covered(s, n, 0, i) == Covered(s, n, 0, h) == Len(s, n, 0, Chain(s, 0, i))
  {
    hide Col, Chain, Len;
  }

  lemma FirstOfLine(g: Graph, data: seq<Chunk>, i: nat)
    requires g.Valid() && |data| == g.n && 1 <= i <= g.n && Col(g.s, i) == 0
    ensures |Line(g, data, i)| > 0 && Line(g, data, i)[0] == data[i - 1]
  {
    MemberOfChain(g.s, 0, i);
    LenPositive(g.s, g.n, 0, i);
    hide Chain, Col, Len, Member;
  }

  // ----- the run

  /** Requests for all data blocks in order. */
  function AllBlocks(n: nat, depth: nat, store: Store): (reqs: seq<Request>)
    ensures |reqs| == n && forall x :: 0 <= x < n ==> reqs[x] == Request(D(x + 1), depth, store)
  {
    seq(n, x requires 0 <= x < n => Request(D(x + 1), depth, store))
  }

  /** After m requests: the first m data blocks are held, and before the lost one no parity has been touched. */
  ghost predicate Served(g: Graph, data': seq<Chunk>, i: nat, st: State, m: nat) {
    && Covers(g, st) && |data'| == g.n
    && (forall x: nat :: 1 <= x <= m && x <= g.n ==> In(g, D(x)) && Available(st[D(x)]) && st[D(x)].data == data'[x - 1])
    && (forall x: nat :: m < x <= g.n ==> In(g, D(x)) && st[D(x)].status == NoData)
    && (m < i ==> forall b :: In(g, b) && b.P? ==> st[b].status == NoData)
  }

  lemma DownloadServed(g: Graph, data: seq<Chunk>, data': seq<Chunk>, store: Store, i: nat, st: State, m: nat, rid: nat, d: nat)
    requires OneLost(g, data, store, i) && m < g.n && m + 1 != i && Served(g, data', i, st, m) && data'[m] == data[m] && d >= 1
    ensures In(g, D(m + 1)) && Served(g, data', i, Search(g, store, st, D(m + 1), rid, d), m + 1)
  {
    assert In(g, D(m + 1)) && D(m + 1) in store;
    hide TryPairs, Pairs, Value, Prev;
  }

  lemma RebuildServed(g: Graph, data: seq<Chunk>, data': seq<Chunk>, store: Store, i: nat, st: State, rid: nat, d: nat)
    requires OneLost(g, data, store, i) && Served(g, data', i, st, i - 1) && data'[i - 1] == Rebuilt(g, data, i) && d >= 2
    ensures In(g, D(i)) && Served(g, data', i, Search(g, store, st, D(i), rid, d), i)
  {
    hide *;
    LostFactsOne(g, data, store, i);
    var l := PairFacts(g, i);
    ServedFacts(g, data', i, st, l);
    RebuiltIs(g, data, store, i, l);
    var st1 := st[D(i) := Started(st[D(i)], rid)];
    StartedFacts(g, st, D(i), rid);
    TwoDownloads(g, store, st1, D(i), l, P(0, i), rid, d - 1);
    SearchOfLost(g, store, st, D(i), rid, d);
    assert forall n :: In(g, n) && n != D(i) ==> st1[n] == st[n];
    NowServed(g, data', i, st, Search(g, store, st, D(i), rid, d), l);
  }

  lemma LostFactsOne(g: Graph, data: seq<Chunk>, store: Store, i: nat)
    requires OneLost(g, data, store, i)
    ensures g.Valid() && TwoColumns(g) && |data| == g.n && 1 <= i <= g.s && i <= g.n && g.s >= 2 && D(i) !in store
  {
  }

  lemma RebuiltIs(g: Graph, data: seq<Chunk>, store: Store, i: nat, l: Node)
    requires OneLost(g, data, store, i) && In(g, l) && l == P(0, Prev(g.s, g.n, 0, i))
    ensures l in store && P(0, i) in store && store[l] != [] && store[P(0, i)] != []
    ensures 1 <= i <= g.n && Xor(store[l], store[P(0, i)]) == Rebuilt(g, data, i)
  {
    hide ParityData, Prev, Xor;
    assert store[P(0, i)] == Value(g, data, P(0, i));
    ParityNonEmpty(data, g.s, 0, i);
    ParityNonEmpty(data, g.s, 0, l.i);
  }

  lemma StartedFacts(g: Graph, st: State, b: Node, rid: nat)
    requires Covers(g, st) && In(g, b)
    ensures Covers(g, st[b := Started(st[b], rid)]) && st[b := Started(st[b], rid)][b].status == RepairPending
  {
  }

  lemma ServedFacts(g: Graph, data': seq<Chunk>, i: nat, st: State, l: Node)
    requires 1 <= i <= g.n && Served(g, data', i, st, i - 1) && In(g, l) && l.P? && In(g, P(0, i))
    ensures Covers(g, st) && In(g, D(i)) && st[D(i)].status == NoData && st[l].status == NoData && st[P(0, i)].status == NoData
  {
  }

  /** The first pair is downloaded, and gives the block. */
  lemma TwoDownloads(g: Graph, store: Store, st: State, b: Node, l: Node, r: Node, rid: nat, d: nat)
    requires g.Valid() && Covers(g, st) && In(g, b) && In(g, l) && In(g, r) && d >= 1 && b != l && b != r && l != r
    requires |Pairs(g, b)| > 0 && Pairs(g, b)[0] == Pair(l, r) && l in store && r in store && store[l] != [] && store[r] != []
    requires st[b].status == RepairPending && st[l].status == NoData && st[r].status == NoData
    ensures var (st', ok) := TryPairs(g, store, st, b, rid, d, 0);
            && ok && Available(st'[b]) && st'[b].data == Xor(store[l], store[r])
            && forall n :: In(g, n) && n != b && n != l && n != r ==> st'[n] == st[n]
  {
    hide Pairs, Xor;
    var st1 := Search(g, store, st, l, rid, d);
    var st2 := Search(g, store, st1, r, rid, d);
    assert st1[l].data == store[l] && st2[r].data == store[r] && st2[l] == st1[l];
  }

  lemma SearchOfLost(g: Graph, store: Store, st: State, b: Node, rid: nat, d: nat)
    requires g.Valid() && Covers(g, st) && In(g, b) && d >= 2 && st[b].status == NoData && b !in store
    ensures var (st2, ok) := TryPairs(g, store, st[b := Started(st[b], rid)], b, rid, d - 1, 0);
            && (Available(st2[b]) ==> Search(g, store, st, b, rid, d)[b].data == st2[b].data && Available(Search(g, store, st, b, rid, d)[b]))
            && forall x :: In(g, x) && x != b ==> Search(g, store, st, b, rid, d)[x] == st2[x]
  {
    hide TryPairs;
  }

  lemma NowServed(g: Graph, data': seq<Chunk>, i: nat, st: State, st': State, l: Node)
    requires 1 <= i <= g.n && Served(g, data', i, st, i - 1) && Covers(g, st') && l.P? && In(g, D(i))
    requires Available(st'[D(i)]) && st'[D(i)].data == data'[i - 1]
    requires forall n :: In(g, n) && n != D(i) && n != l && n != P(0, i) ==> st'[n] == st[n]
    ensures Served(g, data', i, st', i)
  {
    forall x: nat | 1 <= x <= g.n && x != i
      ensures In(g, D(x)) && st'[D(x)] == st[D(x)]
    {
      assert In(g, D(x));
    }
  }

  /** The stream that is fed to the entangler: the data with the lost block replaced by what repair gives. */
  lemma {:induction false} StreamIs(g: Graph, data: seq<Chunk>, store: Store, i: nat, depth: nat, m: nat)
    requires OneLost(g, data, store, i) && depth >= 2 && m <= g.n
    ensures 1 <= i <= |data| == g.n && g.Valid()
    ensures var data' := data[i - 1 := Rebuilt(g, data, i)];
            var reqs := AllBlocks(g.n, depth, store)[..m];
            && (forall q :: q in reqs ==> In(g, q.block)) && Covers(g, FreshState(g))
            && Served(g, data', i, Run(g, Session(FreshState(g), 0), reqs).0.st, m)
            && forall x :: 0 <= x < m ==> Run(g, Session(FreshState(g), 0), reqs).1[x] == Got(data'[x])
  {
    hide *;
    LostFactsOne(g, data, store, i);
    var data' := data[i - 1 := Rebuilt(g, data, i)];
    var all := AllBlocks(g.n, depth, store);
    FreshServed(g, data', i);
    if m == 0 {
      NothingRun(g, Session(FreshState(g), 0));
    } else {
      StreamIs(g, data, store, i, depth, m - 1);
      assert all[..m][..m - 1] == all[..m - 1];
      var se := Run(g, Session(FreshState(g), 0), all[..m - 1]).0;
      if m == i {
        RebuildServed(g, data, data', store, i, se.st, se.counter, depth);
      } else {
        DownloadServed(g, data, data', store, i, se.st, m - 1, se.counter, depth);
      }
      LastServed(g, data', i, Search(g, store, se.st, D(m), se.counter, depth), m);
      BlocksIn(g, depth, store, m);
      RunLast(g, Session(FreshState(g), 0), all[..m]);
      ServeIs(g, se, all[m - 1]);
    }
  }

  lemma BlocksIn(g: Graph, depth: nat, store: Store, m: nat)
    requires m <= g.n
    ensures forall q :: q in AllBlocks(g.n, depth, store)[..m] ==> In(g, q.block)
  {
  }

  lemma FreshServed(g: Graph, data': seq<Chunk>, i: nat)
    requires |data'| == g.n
    ensures Covers(g, FreshState(g)) && Served(g, data', i, FreshState(g), 0)
  {
  }

  lemma LastServed(g: Graph, data': seq<Chunk>, i: nat, st: State, m: nat)
    requires Served(g, data', i, st, m) && 1 <= m <= g.n
    ensures Covers(g, st) && In(g, D(m)) && Available(st[D(m)]) && st[D(m)].data == data'[m - 1]
  {
  }

  // ----- the regenerated strand

  lemma {:induction false} MaxLenFirst(vs: seq<Chunk>, first: Chunk)
    requires vs != [] && |first| >= |vs[0]|
    ensures MaxLen(vs[0 := first]) == if |first| > MaxLen(vs) then |first| else MaxLen(vs)
  {
    var l := |vs| - 1;
    if l == 0 {
      assert vs[0 := first] == [first] && vs[..0] == [] == [first][..0];
    } else {
      MaxLenFirst(vs[..l], first);
      assert vs[0 := first][..l] == vs[..l][0 := first];
    }
  }

  lemma {:induction false} MaxLenPrefix(vs: seq<Chunk>, m: nat)
    requires m <= |vs|
    ensures MaxLen(vs[..m]) <= MaxLen(vs)
  {
    if m == |vs| {
      assert vs[..m] == vs;
    } else {
      MaxLenPrefix(vs[..|vs| - 1], m);
      assert vs[..|vs| - 1][..m] == vs[..m];
    }
  }

  /** A lengthened first block lengthens exactly the chain data of its own chain, there at the front. */
  lemma ChainWithFirst(data: seq<Chunk>, s: nat, k: nat, i: nat, first: Chunk, a: nat)
    requires s >= 2 && k < 3 && 1 <= i <= |data| && Col(s, i) == 0 && a < s
    ensures var d, d' := ChainData(data, s, k, a), ChainData(data[i - 1 := first], s, k, a);
            if a == Chain(s, k, i) then |d| > 0 && d[0] == data[i - 1] && d' == d[0 := first] else d' == d
  {
    hide Member, Chain, Col, Len;
    MemberOfChain(s, k, i);
    LenPositive(s, |data|, k, i);
    var d, d' := ChainData(data, s, k, a), ChainData(data[i - 1 := first], s, k, a);
    forall c | 0 <= c < |d|
      ensures d'[c] == if a == Chain(s, k, i) && c == 0 then first else d[c]
    {
      MemberCoordinates(s, k, a, c);
      LenMeaning(s, |data|, k, a, c);
    }
  }

  /** A parity keeps its length unless it covers the lengthened block and nothing as long. */
  lemma SameLengthIff(data: seq<Chunk>, s: nat, k: nat, i: nat, first: Chunk, j: nat)
    requires s >= 2 && k < 3 && 1 <= i <= |data| && Col(s, i) == 0 && 1 <= j <= |data| && |first| >= |data[i - 1]|
    ensures SameLength(data[i - 1 := first], data, s, k, j) <==>
            Chain(s, k, j) == Chain(s, k, i) ==> |first| <= LongestCovered(data, s, k, j)
  {
    var a, m := Chain(s, k, j), Covered(s, |data|, k, j);
    hide Chain, Col, Len, Covered, ChainData;
    ChainWithFirst(data, s, k, i, first, a);
    var d := ChainData(data, s, k, a);
    if a == Chain(s, k, i) {
      MaxLenFirst(d[..m], first);
      assert d[0 := first][..m] == d[..m][0 := first];
    }
  }

  /** Every parity of a chain covers the first two blocks, and one covers just these. */
  lemma SecondParity(data: seq<Chunk>, s: nat, k: nat, i: nat)
    requires s >= 2 && k < 3 && 1 <= i <= |data| && Col(s, i) == 0 && |data| >= 2 * s
    ensures 1 <= Next(s, |data|, k, i) <= |data| && Chain(s, k, Next(s, |data|, k, i)) == Chain(s, k, i)
    ensures LongestCovered(data, s, k, Next(s, |data|, k, i)) == Longer(data[i - 1], data[Next(s, |data|, k, i) - 1])
    ensures forall j :: 1 <= j <= |data| && Chain(s, k, j) == Chain(s, k, i) ==>
              LongestCovered(data, s, k, j) >= Longer(data[i - 1], data[Next(s, |data|, k, i) - 1])
  {
    var n, a := |data|, Chain(s, k, i);
    FirstTwo(s, n, k, a);
    MemberOfChain(s, k, i);
    NextOfMember(s, n, k, a, 0);
    MemberCoordinates(s, k, a, 1);
    var y := Next(s, n, k, i);
    var d := ChainData(data, s, k, a);
    hide Chain, Col, Len, Next, Member;
    assert d[0] == data[i - 1] && d[1] == data[y - 1];
    TwoLongest(d);
    CoversTwo(s, n, k, y);
    forall j | 1 <= j <= n && Chain(s, k, j) == a
      ensures LongestCovered(data, s, k, j) >= MaxLen(d[..2])
    {
      CoversTwo(s, n, k, j);
      MaxLenPrefix(d[..Covered(s, n, k, j)], 2);
      assert d[..Covered(s, n, k, j)][..2] == d[..2];
    }
  }

  lemma TwoLongest(d: seq<Chunk>)
    requires |d| >= 2
    ensures MaxLen(d[..2]) == Longer(d[0], d[1])
  {
    var one, two := [d[0]], d[..2];
    assert one[..0] == [] && two[..1] == one;
    assert MaxLen(one) == |d[0]|;
  }

  /** What repair gives is the block with zeros appended. */
  lemma RebuiltPadded(g: Graph, data: seq<Chunk>, i: nat)
    requires g.Valid() && TwoColumns(g) && |data| == g.n && 1 <= i <= g.s
    ensures i <= g.n && PaddedData(data[i - 1 := Rebuilt(g, data, i)], data)
  {
    hide ParityData, Prev, Xor, Same, Pairs, Line, MaxLen, Col, Next;
    var l := PairFacts(g, i);
    PairsSound(g, data, D(i));
    assert PairSound(g, data, D(i), Pairs(g, D(i))[0]);
    RebuiltLength(g, data, i);
    forall x | 0 <= x < |data|
      ensures Padded(data[i - 1 := Rebuilt(g, data, i)][x], data[x])
    {
      SameSelf(data[x]);
    }
  }

  /**
    The stream of a file that has lost one block of the first column: repair fills the block with zeros up to
    the longest block of its horizontal chain, all other blocks come as they are.  So a strand regenerated from
    the stream is the uploaded one, byte for byte, if and only if one of the first two blocks on the strand's
    chain of the lost block is as long as that.
   */
  lemma LostBlockStrandIff(g: Graph, data: seq<Chunk>, store: Store, i: nat, depth: nat, k: nat)
    requires OneLost(g, data, store, i) && depth >= 2 && k < g.alpha
    ensures g.Valid() && 1 <= i <= |data| == g.n && k < 3 && Covers(g, FreshState(g))
    ensures forall q :: q in AllBlocks(g.n, depth, store) ==> In(g, q.block)
    ensures var data' := data[i - 1 := Rebuilt(g, data, i)];
            && (forall x :: 0 <= x < g.n ==>
                  Run(g, Session(FreshState(g), 0), AllBlocks(g.n, depth, store)).1[x] == Got(data'[x]))
            && PaddedData(data', data) && |data'[i - 1]| == MaxLen(Line(g, data, i))
            && 1 <= Next(g.s, g.n, k, i) <= g.n
            && (Merged(StrandParities(data', g.s, k)) == Merged(StrandParities(data, g.s, k)) <==>
                  |data'[i - 1]| <= Longer(data[i - 1], data[Next(g.s, g.n, k, i) - 1]))
  {
    hide *;
    LostFactsOne(g, data, store, i);
    ValidFacts(g);
    var r := Rebuilt(g, data, i);
    var data' := data[i - 1 := r];
    FirstRow(g.s, g.n, i);
    StreamIs(g, data, store, i, depth, g.n);
    assert AllBlocks(g.n, depth, store)[..g.n] == AllBlocks(g.n, depth, store);
    RebuiltPadded(g, data, i);
    RebuiltLength(g, data, i);
    RegeneratedIdenticalIff(data', data, g.s, k);
    SecondParity(data, g.s, k, i);
    forall j | 1 <= j <= |data|
      ensures SameLength(data', data, g.s, k, j) <==>
              Chain(g.s, k, j) == Chain(g.s, k, i) ==> |r| <= LongestCovered(data, g.s, k, j)
    {
      SameLengthIff(data, g.s, k, i, r, j);
    }
  }

  lemma ValidFacts(g: Graph)
    requires g.Valid() && TwoColumns(g)
    ensures g.s >= 2 && g.alpha <= 3 && g.n >= 2 * g.s
  {
  }

  /**
    An input where the strand changes: two columns, the first block lost, the block behind it on the
    horizontal chain longer than both blocks of its left-handed chain.
   */
  lemma StrandLengthened(g: Graph, data: seq<Chunk>, store: Store, depth: nat)
    requires OneLost(g, data, store, 1) && depth >= 2 && g.n == 2 * g.s && g.alpha == 3
    requires |data[g.s]| > |data[0]| && |data[g.s]| > |data[2 * g.s - 1]|
    ensures var data' := data[0 := Rebuilt(g, data, 1)];
            && |data'[0]| == |data[g.s]|
            && Merged(StrandParities(data', g.s, 2)) != Merged(StrandParities(data, g.s, 2))
  {
    hide Merged, StrandParities, Rebuilt, Line, Next, MaxLen, Run, AllBlocks, OneLost, PaddedData;
    LostFactsOne(g, data, store, 1);
    LostBlockStrandIff(g, data, store, 1, depth, 2);
    TwoOnLine(g, data);
    BehindFirst(g.s);
  }

  lemma BehindFirst(s: nat)
    requires s >= 2
    ensures Next(s, 2 * s, 2, 1) == 2 * s
  {
    FirstTwo(s, 2 * s, 2, 0);
    BaseSmall(s);
    RemOne(s);
    assert Rem(s, 0) == 0;
    assert Member(s, 2, 0, 0) == 1 && Member(s, 2, 0, 1) == 2 * s;
    LenIsTwo(s);
    NextOfMember(s, 2 * s, 2, 0, 0);
  }

  lemma TwoOnLine(g: Graph, data: seq<Chunk>)
    requires g.Valid() && |data| == g.n == 2 * g.s
    ensures MaxLen(Line(g, data, 1)) == Longer(data[0], data[g.s])
  {
    var s := g.s;
    FirstRow(s, g.n, 1);
    FirstTwo(s, g.n, 0, 0);
    BaseSmall(s);
    RemOne(s);
    assert Rem(s, 0) == 0 && Chain(s, 0, 1) == 0;
    assert Member(s, 0, 0, 0) == 1 && Member(s, 0, 0, 1) == s + 1;
    LenIs(s, 2 * s, 0, 0, 2);
    var d := Line(g, data, 1);
    TwoLongest(d);
    assert d[..2] == d;
  }

  /** Such a store exists for all data without empty chunks. */
  lemma LossyStore(g: Graph, data: seq<Chunk>, i: nat) returns (store: Store)
    requires g.Valid() && TwoColumns(g) && |data| == g.n && 1 <= i <= g.s && forall d :: d in data ==> d != []
    ensures OneLost(g, data, store, i)
  {
    hide Prev, ParityData;
    PrevCoordinates(g.s, g.n, 0, i);
    store := map b | b in Nodes(g) && b != D(i) :: ValueIn(g, data, b);
    assert In(g, P(0, i)) && In(g, P(0, Prev(g.s, g.n, 0, i)));
    assert forall x :: 1 <= x <= g.n ==> In(g, D(x));
  }
}
