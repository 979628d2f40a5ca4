/**
  What one run of the entangler sends, as a function of the data stream: for every block its forward
  parity on every enabled strand, except that the parities leaving the first block of a chain are held
  back and sent, wrapped, at the very end.
 */
module Emission {
  import opened Bytes
  import opened Geometry
  import opened Chains

  datatype Parity = Parity(left: nat, right: nat, data: Chunk, strand: nat)

  /**
    The parity sent for block i.  Its right index is the forward neighbour even when that lies beyond the
    last block; only a wrapped parity of a one-block chain points back at its own block.
   */
  function Emitted(data: seq<Chunk>, s: nat, k: nat, i: nat): (p: Parity)
    requires s >= 2 && k < 3 && 1 <= i <= |data|
    ensures p.strand == k && p.left == i
  {
    var a, c := Chain(s, k, i), Col(s, i);
    var right := if c == 0 && Len(s, |data|, k, a) < 2 then i else Member(s, k, a, c + 1);
    Parity(i, right, ParityData(data, s, k, i), k)
  }

  /**
    The right index lies beyond the last block exactly for the last parity of a chain of two or more blocks:
    closing the chain does not reach the parity already sent.
   */
  lemma EmittedBeyondIff(data: seq<Chunk>, s: nat, k: nat, i: nat)
    requires s >= 2 && k < 3 && 1 <= i <= |data|
    ensures var l := Len(s, |data|, k, Chain(s, k, i));
            Emitted(data, s, k, i).right > |data| <==> l >= 2 && Col(s, i) + 1 == l
  {
    LenPositive(s, |data|, k, i);
    LenMeaning(s, |data|, k, Chain(s, k, i), Col(s, i) + 1);
  }

  /** Sent while block i streams through, strands 0..k-1. */
  function BlockOut(data: seq<Chunk>, s: nat, strands: seq<bool>, i: nat, k: nat): seq<Parity>
    requires s >= 2 && |strands| <= 3 && k <= |strands| && 1 <= i <= |data|
  {
    if k == 0 then [] else
      BlockOut(data, s, strands, i, k - 1) +
      if strands[k - 1] && Col(s, i) > 0 then [Emitted(data, s, k - 1, i)] else []
  }

  /** Sent while the first m blocks stream through. */
  function StreamOut(data: seq<Chunk>, s: nat, strands: seq<bool>, m: nat): seq<Parity>
    requires s >= 2 && |strands| <= 3 && m <= |data|
  {
    if m == 0 then [] else
      StreamOut(data, s, strands, m - 1) + BlockOut(data, s, strands, m, |strands|)
  }

  /** Sent when chains 0..a-1 of strand k are wrapped. */
  function WrapRow(data: seq<Chunk>, s: nat, k: nat, a: nat): seq<Parity>
    requires s >= 2 && k < 3 && a <= s <= |data|
  {
    if a == 0 then [] else
      FirstColumn(s, k, a - 1);
      WrapRow(data, s, k, a - 1) + [Emitted(data, s, k, Member(s, k, a - 1, 0))]
  }

  /** Sent when strands 0..k-1 are wrapped. */
  function WrapOut(data: seq<Chunk>, s: nat, strands: seq<bool>, k: nat): seq<Parity>
    requires s >= 2 && |strands| <= 3 && k <= |strands| && s <= |data|
  {
    if k == 0 then [] else
      WrapOut(data, s, strands, k - 1) + if strands[k - 1] then WrapRow(data, s, k - 1, s) else []
  }

  /** Everything one run sends, in order. */
  function RunOutput(data: seq<Chunk>, s: nat, strands: seq<bool>): seq<Parity>
    requires s >= 2 && |strands| <= 3 && s <= |data|
  {
    StreamOut(data, s, strands, |data|) + WrapOut(data, s, strands, |strands|)
  }

  lemma FirstColumn(s: nat, k: nat, a: nat)
    requires s >= 2 && k < 3 && a < s
    ensures 1 <= Member(s, k, a, 0) <= s
    ensures Chain(s, k, Member(s, k, a, 0)) == a && Col(s, Member(s, k, a, 0)) == 0
  {
    MemberCoordinates(s, k, a, 0);
  }

  // ----- every parity is sent exactly once

  /** How many parities of strand k with left index i are in ps. */
  function Count(ps: seq<Parity>, k: nat, i: nat): nat {
    if ps == [] then 0 else
      Count(ps[..|ps| - 1], k, i) + if ps[|ps| - 1].strand == k && ps[|ps| - 1].left == i then 1 else 0
  }

  lemma {:induction false} CountConcat(ps: seq<Parity>, qs: seq<Parity>, k: nat, i: nat)
    ensures Count(ps + qs, k, i) == Count(ps, k, i) + Count(qs, k, i)
  {
    if qs == [] {
      assert ps + qs == ps;
    } else {
      var l := |qs| - 1;
      CountConcat(ps, qs[..l], k, i);
      assert (ps + qs)[..|ps + qs| - 1] == ps + qs[..l];
    }
  }

  lemma CountNone(k: nat, i: nat)
    ensures Count([], k, i) == 0
  {
  }

  lemma CountOne(p: Parity, k: nat, i: nat)
    ensures Count([p], k, i) == if p.strand == k && p.left == i then 1 else 0
  {
    assert [p][..0] == [];
  }

  lemma {:induction false} CountBlockOut(data: seq<Chunk>, s: nat, strands: seq<bool>, i: nat, k': nat, k: nat, j: nat)
    requires s >= 2 && |strands| <= 3 && k' <= |strands| && 1 <= i <= |data|
    ensures Count(BlockOut(data, s, strands, i, k'), k, j) ==
            if j == i && k < k' && strands[k] && Col(s, i) > 0 then 1 else 0
  {
    hide Emitted, Col, Count;
    if k' == 0 {
      CountNone(k, j);
    } else {
      CountNone(k, j);
      CountBlockOut(data, s, strands, i, k' - 1, k, j);
      var p := Emitted(data, s, k' - 1, i);
      CountOne(p, k, j);
      CountConcat(BlockOut(data, s, strands, i, k' - 1), if strands[k' - 1] && Col(s, i) > 0 then [p] else [], k, j);
    }
  }

  lemma {:induction false} CountStreamOut(data: seq<Chunk>, s: nat, strands: seq<bool>, m: nat, k: nat, j: nat)
    requires s >= 2 && |strands| <= 3 && m <= |data| && j >= 1
    ensures Count(StreamOut(data, s, strands, m), k, j) ==
            if j <= m && k < |strands| && strands[k] && Col(s, j) > 0 then 1 else 0
  {
    hide BlockOut;
    if m > 0 {
      CountStreamOut(data, s, strands, m - 1, k, j);
      CountBlockOut(data, s, strands, m, |strands|, k, j);
      CountConcat(StreamOut(data, s, strands, m - 1), BlockOut(data, s, strands, m, |strands|), k, j);
    }
  }

  lemma {:induction false} CountWrapRow(data: seq<Chunk>, s: nat, k': nat, a: nat, k: nat, j: nat)
    requires s >= 2 && k' < 3 && a <= s <= |data| && j >= 1
    ensures Count(WrapRow(data, s, k', a), k, j) ==
            if k == k' && Col(s, j) == 0 && Chain(s, k, j) < a then 1 else 0
  {
    hide Emitted, Member, Chain, Col, Count;
    if a == 0 {
      CountNone(k, j);
    } else {
      CountWrapRow(data, s, k', a - 1, k, j);
      var i := Member(s, k', a - 1, 0);
      FirstColumn(s, k', a - 1);
      if k == k' && Col(s, j) == 0 && Chain(s, k, j) == a - 1 {
        CoordinatesDetermine(s, k, i, j);
      }
      var p := Emitted(data, s, k', i);
      CountOne(p, k, j);
      CountConcat(WrapRow(data, s, k', a - 1), [p], k, j);
    }
  }

  lemma {:induction false} CountWrapOut(data: seq<Chunk>, s: nat, strands: seq<bool>, k': nat, k: nat, j: nat)
    requires s >= 2 && |strands| <= 3 && k' <= |strands| && s <= |data| && j >= 1
    ensures Count(WrapOut(data, s, strands, k'), k, j) ==
            if k < k' && strands[k] && Col(s, j) == 0 then 1 else 0
  {
    hide WrapRow;
    if k' > 0 {
      CountWrapOut(data, s, strands, k' - 1, k, j);
      CountWrapRow(data, s, k' - 1, s, k, j);
      CountConcat(WrapOut(data, s, strands, k' - 1), if strands[k' - 1] then WrapRow(data, s, k' - 1, s) else [], k, j);
    }
  }

  /**
    One run sends exactly one parity for every enabled strand and every block, and none for a disabled
    strand or an index outside the stream.
   */
  lemma EachParityOnce(data: seq<Chunk>, s: nat, strands: seq<bool>, k: nat, j: nat)
    requires s >= 2 && |strands| <= 3 && s <= |data| && j >= 1
    ensures Count(RunOutput(data, s, strands), k, j) ==
            if k < |strands| && strands[k] && j <= |data| then 1 else 0
  {
    CountStreamOut(data, s, strands, |data|, k, j);
    CountWrapOut(data, s, strands, |strands|, k, j);
    CountConcat(StreamOut(data, s, strands, |data|), WrapOut(data, s, strands, |strands|), k, j);
    if j > |data| {
      ColRowOf(s, 0, 0);
      IndexOf(s, j);
    }
  }

  lemma {:induction false} CountWitness(ps: seq<Parity>, k: nat, i: nat)
    requires Count(ps, k, i) == 1
    ensures exists x: nat :: x < |ps| && ps[x].strand == k && ps[x].left == i
                             && forall y: nat :: y < |ps| && ps[y].strand == k && ps[y].left == i ==> y == x
  {
    var l := |ps| - 1;
    if ps[l].strand == k && ps[l].left == i {
      CountZero(ps[..l], k, i);
      assert forall y: nat :: y < l ==> ps[..l][y] == ps[y];
    } else {
      CountWitness(ps[..l], k, i);
      var x: nat :| x < l && ps[..l][x].strand == k && ps[..l][x].left == i
                    && forall y: nat :: y < l && ps[..l][y].strand == k && ps[..l][y].left == i ==> y == x;
      assert ps[x].strand == k && ps[x].left == i;
      forall y: nat | y < |ps| && ps[y].strand == k && ps[y].left == i
        ensures y == x
      {
        assert y < l;
        assert ps[..l][y] == ps[y];
      }
    }
  }

  lemma {:induction false} CountZero(ps: seq<Parity>, k: nat, i: nat)
    requires Count(ps, k, i) == 0
    ensures forall y: nat :: y < |ps| ==> !(ps[y].strand == k && ps[y].left == i)
  {
    if ps != [] {
      var l := |ps| - 1;
      CountZero(ps[..l], k, i);
      forall y: nat | y < |ps|
        ensures !(ps[y].strand == k && ps[y].left == i)
      {
        if y < l {
          assert ps[..l][y] == ps[y];
        }
      }
    }
  }

  // ----- every parity sent carries the value of its block

  ghost predicate Genuine(data: seq<Chunk>, s: nat, strands: seq<bool>, p: Parity)
    requires s >= 2 && |strands| <= 3
  {
    && p.strand < |strands| && strands[p.strand] && 1 <= p.left <= |data|
    && p == Emitted(data, s, p.strand, p.left)
  }

  lemma {:induction false} BlockOutGenuine(data: seq<Chunk>, s: nat, strands: seq<bool>, i: nat, k: nat)
    requires s >= 2 && |strands| <= 3 && k <= |strands| && 1 <= i <= |data|
    ensures forall p :: p in BlockOut(data, s, strands, i, k) ==> Genuine(data, s, strands, p)
  {
    hide ParityData;
    if k > 0 {
      BlockOutGenuine(data, s, strands, i, k - 1);
    }
  }

  lemma {:induction false} StreamOutGenuine(data: seq<Chunk>, s: nat, strands: seq<bool>, m: nat)
    requires s >= 2 && |strands| <= 3 && m <= |data|
    ensures forall p :: p in StreamOut(data, s, strands, m) ==> Genuine(data, s, strands, p)
  {
    hide Genuine, BlockOut;
    if m > 0 {
      StreamOutGenuine(data, s, strands, m - 1);
      BlockOutGenuine(data, s, strands, m, |strands|);
    }
  }

  lemma {:induction false} WrapRowGenuine(data: seq<Chunk>, s: nat, strands: seq<bool>, k: nat, a: nat)
    requires s >= 2 && |strands| <= 3 && k < |strands| && strands[k] && a <= s <= |data|
    ensures forall p :: p in WrapRow(data, s, k, a) ==> Genuine(data, s, strands, p)
  {
    if a > 0 {
      WrapRowGenuine(data, s, strands, k, a - 1);
      FirstColumn(s, k, a - 1);
    }
  }

  lemma {:induction false} WrapOutGenuine(data: seq<Chunk>, s: nat, strands: seq<bool>, k: nat)
    requires s >= 2 && |strands| <= 3 && k <= |strands| && s <= |data|
    ensures forall p :: p in WrapOut(data, s, strands, k) ==> Genuine(data, s, strands, p)
  {
    hide Genuine, WrapRow;
    if k > 0 {
      WrapOutGenuine(data, s, strands, k - 1);
      if strands[k - 1] {
        WrapRowGenuine(data, s, strands, k - 1, s);
      }
    }
  }

  /** Whatever is sent is the parity of its own strand and left index. */
  lemma EmissionGenuine(data: seq<Chunk>, s: nat, strands: seq<bool>)
    requires s >= 2 && |strands| <= 3 && s <= |data|
    ensures forall p :: p in RunOutput(data, s, strands) ==> Genuine(data, s, strands, p)
  {
    StreamOutGenuine(data, s, strands, |data|);
    WrapOutGenuine(data, s, strands, |strands|);
  }

  /** The one parity with strand k and left index i is there, at one position, and has the right value. */
  lemma EmissionIndexed(data: seq<Chunk>, s: nat, strands: seq<bool>, k: nat, i: nat)
    requires s >= 2 && |strands| <= 3 && s <= |data|
    requires k < |strands| && strands[k] && 1 <= i <= |data|
    ensures var out := RunOutput(data, s, strands);
            exists x: nat :: x < |out| && out[x] == Emitted(data, s, k, i)
                             && forall y: nat :: y < |out| && out[y].strand == k && out[y].left == i ==> y == x
  {
    var out := RunOutput(data, s, strands);
    EachParityOnce(data, s, strands, k, i);
    CountWitness(out, k, i);
    var x: nat :| x < |out| && out[x].strand == k && out[x].left == i
                  && forall y: nat :: y < |out| && out[y].strand == k && out[y].left == i ==> y == x;
    EmissionGenuine(data, s, strands);
    assert out[x] in out;
  }

  /**
    The receiver of a single-strand run writes every parity at its left index.  Parities may arrive in any
    order; each cell is written exactly once and ends up with the parity value of its block.
   */
  method CollectStrand(arrived: seq<Parity>, blockNum: nat, ghost data: seq<Chunk>, ghost s: nat,
                       ghost strands: seq<bool>, ghost k: nat)
    returns (parityBlocks: seq<Chunk>)
    requires s >= 2 && |strands| <= 3 && s <= |data| == blockNum
    requires k < |strands| && strands[k] && forall j :: 0 <= j < |strands| && j != k ==> !strands[j]
    requires multiset(arrived) == multiset(RunOutput(data, s, strands))
    ensures |parityBlocks| == blockNum
    ensures forall i: nat :: i < blockNum ==> parityBlocks[i] == ParityData(data, s, k, i + 1)
  {
    hide ParityData;
    ArrivedComplete(arrived, data, s, strands, k);
    var blocks := new Chunk[blockNum](_ => []);
    for x := 0 to |arrived|
      invariant forall y: nat :: y < x ==> blocks[arrived[y].left - 1] == ParityData(data, s, k, arrived[y].left)
    {
      blocks[arrived[x].left - 1] := arrived[x].data;
    }
    forall i: nat | i < blockNum
      ensures blocks[i] == ParityData(data, s, k, i + 1)
    {
      assert Hit(arrived, i + 1);
    }
    parityBlocks := blocks[..];
  }

  ghost predicate Hit(arrived: seq<Parity>, i: nat) {
    exists y: nat :: y < |arrived| && arrived[y].left == i
  }

  /** Whatever the order of arrival: every parity is in range with its block's value, and every index is hit. */
  lemma ArrivedComplete(arrived: seq<Parity>, data: seq<Chunk>, s: nat, strands: seq<bool>, k: nat)
    requires s >= 2 && |strands| <= 3 && s <= |data|
    requires k < |strands| && strands[k] && forall j :: 0 <= j < |strands| && j != k ==> !strands[j]
    requires multiset(arrived) == multiset(RunOutput(data, s, strands))
    ensures forall y: nat :: y < |arrived| ==>
              1 <= arrived[y].left <= |data| && arrived[y].data == ParityData(data, s, k, arrived[y].left)
    ensures forall i: nat :: 1 <= i <= |data| ==> Hit(arrived, i)
  {
    hide ParityData;
    var out := RunOutput(data, s, strands);
    EmissionGenuine(data, s, strands);
    forall y: nat | y < |arrived|
      ensures 1 <= arrived[y].left <= |data| && arrived[y].data == ParityData(data, s, k, arrived[y].left)
    {
      assert arrived[y] in multiset(arrived);
      assert arrived[y] in out;
    }
    forall i: nat | 1 <= i <= |data|
      ensures Hit(arrived, i)
    {
      EmissionIndexed(data, s, strands, k, i);
      var p := Emitted(data, s, k, i);
      assert p in out;
      assert p in multiset(arrived);
      var y: nat :| y < |arrived| && arrived[y] == p;
    }
  }

  // ----- regenerating a single strand

  /** The parities of strand k, in order. */
  function OnlyStrand(ps: seq<Parity>, k: nat): seq<Parity> {
    if ps == [] then [] else
      OnlyStrand(ps[..|ps| - 1], k) + if ps[|ps| - 1].strand == k then [ps[|ps| - 1]] else []
  }

  lemma {:induction false} OnlyStrandConcat(ps: seq<Parity>, qs: seq<Parity>, k: nat)
    ensures OnlyStrand(ps + qs, k) == OnlyStrand(ps, k) + OnlyStrand(qs, k)
  {
    if qs == [] {
      assert ps + qs == ps;
    } else {
      var l := |qs| - 1;
      OnlyStrandConcat(ps, qs[..l], k);
      assert (ps + qs)[..|ps + qs| - 1] == ps + qs[..l];
    }
  }

  lemma {:induction false} OnlyStrandOfOne(ps: seq<Parity>, k: nat, j: nat)
    requires forall p :: p in ps ==> p.strand == j
    ensures OnlyStrand(ps, k) == if k == j then ps else []
  {
    if ps != [] {
      var l := |ps| - 1;
      OnlyStrandOfOne(ps[..l], k, j);
      assert ps == ps[..l] + [ps[l]];
    }
  }

  lemma {:induction false} BlockOutOnly(data: seq<Chunk>, s: nat, strands: seq<bool>, i: nat, k': nat, k: nat)
    requires s >= 2 && |strands| <= 3 && k' <= |strands| && 1 <= i <= |data| && k < |strands|
    ensures OnlyStrand(BlockOut(data, s, strands, i, k'), k) ==
            if k < k' && strands[k] && Col(s, i) > 0 then [Emitted(data, s, k, i)] else []
  {
    hide Emitted, Col, OnlyStrand;
    if k' == 0 {
      OnlyStrandOfOne([], k, k);
    } else {
      BlockOutOnly(data, s, strands, i, k' - 1, k);
      var init := BlockOut(data, s, strands, i, k' - 1);
      var p := Emitted(data, s, k' - 1, i);
      var last := if strands[k' - 1] && Col(s, i) > 0 then [p] else [];
      assert BlockOut(data, s, strands, i, k') == init + last;
      OnlyStrandOfOne(last, k, k' - 1);
      OnlyStrandConcat(init, last, k);
    }
  }

  lemma StreamStepOnly(data: seq<Chunk>, s: nat, strands: seq<bool>, m: nat, k: nat)
    requires s >= 2 && |strands| <= 3 && k < |strands| && 1 <= m <= |data| && strands[k]
    ensures OnlyStrand(StreamOut(data, s, strands, m), k) ==
            OnlyStrand(StreamOut(data, s, strands, m - 1), k) + if Col(s, m) > 0 then [Emitted(data, s, k, m)] else []
  {
    BlockOutOnly(data, s, strands, m, |strands|, k);
    OnlyStrandConcat(StreamOut(data, s, strands, m - 1), BlockOut(data, s, strands, m, |strands|), k);
  }

  lemma {:induction false} StreamOutOnly(data: seq<Chunk>, s: nat, one: seq<bool>, all: seq<bool>, m: nat, k: nat)
    requires s >= 2 && |one| <= 3 && |all| <= 3 && k < |one| && k < |all| && m <= |data| && one[k] && all[k]
    ensures OnlyStrand(StreamOut(data, s, one, m), k) == OnlyStrand(StreamOut(data, s, all, m), k)
  {
    hide Emitted, BlockOut;
    if m > 0 {
      StreamOutOnly(data, s, one, all, m - 1, k);
      StreamStepOnly(data, s, one, m, k);
      StreamStepOnly(data, s, all, m, k);
    }
  }

  lemma {:induction false} WrapRowStrand(data: seq<Chunk>, s: nat, k: nat, a: nat)
    requires s >= 2 && k < 3 && a <= s <= |data|
    ensures forall p :: p in WrapRow(data, s, k, a) ==> p.strand == k
  {
    if a > 0 {
      WrapRowStrand(data, s, k, a - 1);
    }
  }

  lemma {:induction false} WrapOutOnly(data: seq<Chunk>, s: nat, strands: seq<bool>, k': nat, k: nat)
    requires s >= 2 && |strands| <= 3 && k' <= |strands| && s <= |data| && k < |strands|
    ensures OnlyStrand(WrapOut(data, s, strands, k'), k) ==
            if k < k' && strands[k] then WrapRow(data, s, k, s) else []
  {
    hide WrapRow;
    if k' > 0 {
      WrapOutOnly(data, s, strands, k' - 1, k);
      WrapRowStrand(data, s, k' - 1, s);
      var last := if strands[k' - 1] then WrapRow(data, s, k' - 1, s) else [];
      OnlyStrandOfOne(last, k, k' - 1);
      OnlyStrandConcat(WrapOut(data, s, strands, k' - 1), last, k);
    }
  }

  lemma OnlyStrandEmission(data: seq<Chunk>, s: nat, one: seq<bool>, all: seq<bool>, k: nat)
    requires s >= 2 && |one| <= 3 && |all| <= 3 && k < |one| && k < |all| && s <= |data| && one[k] && all[k]
    ensures OnlyStrand(RunOutput(data, s, one), k) == OnlyStrand(RunOutput(data, s, all), k)
  {
    StreamOutOnly(data, s, one, all, |data|, k);
    WrapOutOnly(data, s, one, |one|, k);
    WrapOutOnly(data, s, all, |all|, k);
    OnlyStrandConcat(StreamOut(data, s, one, |data|), WrapOut(data, s, one, |one|), k);
    OnlyStrandConcat(StreamOut(data, s, all, |data|), WrapOut(data, s, all, |all|), k);
  }

  /**
    A run with only strand k enabled sends, parity for parity and in the same order, what a run with
    more strands enabled sends on strand k.
   */
  lemma SingleStrandRegeneration(data: seq<Chunk>, s: nat, one: seq<bool>, all: seq<bool>, k: nat)
    requires s >= 2 && |one| <= 3 && |all| <= 3 && k < |one| && k < |all| && s <= |data|
    requires one[k] && all[k] && forall j :: 0 <= j < |one| && j != k ==> !one[j]
    ensures RunOutput(data, s, one) == OnlyStrand(RunOutput(data, s, all), k)
  {
    EmissionGenuine(data, s, one);
    OnlyStrandOfOne(RunOutput(data, s, one), k, k);
    OnlyStrandEmission(data, s, one, all, k);
  }
}
