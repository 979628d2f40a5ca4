/**
  How long the parities are, and so when the strand that is stored as their concatenation can be read back
  at multiples of one size.
 */
module ParityStorage {
  import opened Bytes
  import opened Geometry
  import opened Chains
  import opened Reslicing

  // ----- lengths

  /** The length of the longest chunk. */
  function MaxLen(vs: seq<Chunk>): nat {
    if vs == [] then 0 else
      var l, m := |vs[|vs| - 1]|, MaxLen(vs[..|vs| - 1]);
      if l < m then m else l
  }

  lemma {:induction false} XorAllLength(vs: seq<Chunk>)
    ensures |XorAll(vs)| == MaxLen(vs)
  {
    if vs != [] {
      XorAllLength(vs[..|vs| - 1]);
    }
  }

  /** MaxLen is the least bound of the lengths, and one of them unless there are none. */
  lemma {:induction false} MaxLenMeaning(vs: seq<Chunk>)
    ensures forall j :: 0 <= j < |vs| ==> |vs[j]| <= MaxLen(vs)
    ensures vs != [] ==> exists j :: 0 <= j < |vs| && |vs[j]| == MaxLen(vs)
  {
    if vs != [] {
      var l := |vs| - 1;
      MaxLenMeaning(vs[..l]);
      assert forall j :: 0 <= j < l ==> vs[..l][j] == vs[j];
      if |vs[l]| >= MaxLen(vs[..l]) {
        assert |vs[l]| == MaxLen(vs);
      } else {
        var j :| 0 <= j < l && |vs[..l][j]| == MaxLen(vs[..l]);
        assert |vs[j]| == MaxLen(vs);
      }
    }
  }

  /** How many blocks of its chain a parity covers: those up to its own block, or all if it was wrapped. */
  function Covered(s: nat, n: nat, k: nat, i: nat): (m: nat)
    requires s >= 2 && k < 3 && 1 <= i <= n
    ensures 1 <= m <= Len(s, n, k, Chain(s, k, i))
  {
    LenPositive(s, n, k, i);
    var l := Len(s, n, k, Chain(s, k, i));
    if Col(s, i) == 0 && l >= 2 then l else Col(s, i) + 1
  }

  /** The length of the longest block that parity i covers. */
  function LongestCovered(data: seq<Chunk>, s: nat, k: nat, i: nat): nat
    requires s >= 2 && k < 3 && 1 <= i <= |data|
  {
    MaxLen(ChainData(data, s, k, Chain(s, k, i))[..Covered(s, |data|, k, i)])
  }

  /** A parity is as long as the longest block it covers. */
  lemma ParityLength(data: seq<Chunk>, s: nat, k: nat, i: nat)
    requires s >= 2 && k < 3 && 1 <= i <= |data|
    ensures |ParityData(data, s, k, i)| == LongestCovered(data, s, k, i)
    ensures LongestCovered(data, s, k, i) == MaxLen(ChainData(data, s, k, Chain(s, k, i))[..Covered(s, |data|, k, i)])
  {
    var a, c := Chain(s, k, i), Col(s, i);
    var d := ChainData(data, s, k, a);
    LenPositive(s, |data|, k, i);
    MemberOfChain(s, k, i);
    XorAllLength(d[..Covered(s, |data|, k, i)]);
    if c == 0 && |d| >= 2 {
      assert d[0] == data[i - 1];
      assert d[..|d|] == d;
      MaxLenMeaning(d);
    }
  }

  // ----- when all parities of a strand have full size

  /** Every parity of strand k has the given length. */
  ghost predicate FullParities(data: seq<Chunk>, s: nat, k: nat, size: nat)
    requires s >= 2 && k < 3
  {
    forall i :: 1 <= i <= |data| ==> |ParityData(data, s, k, i)| == size
  }

  /** Every chain of strand k has a block of the given length among its first two. */
  ghost predicate FullStarts(data: seq<Chunk>, s: nat, k: nat, size: nat)
    requires s >= 2 && k < 3 && |data| >= 2 * s
  {
    forall a: nat :: a < s ==> FullStart(data, s, k, a, size)
  }

  ghost predicate FullStart(data: seq<Chunk>, s: nat, k: nat, a: nat, size: nat)
    requires s >= 2 && k < 3 && |data| >= 2 * s && a < s
  {
    FirstTwo(s, |data|, k, a);
    |data[Member(s, k, a, 0) - 1]| == size || |data[Member(s, k, a, 1) - 1]| == size
  }

  lemma FirstTwo(s: nat, n: nat, k: nat, a: nat)
    requires s >= 2 && k < 3 && a < s && n >= 2 * s
    ensures 1 <= Member(s, k, a, 0) <= n && 1 <= Member(s, k, a, 1) <= n
    ensures Len(s, n, k, a) >= 2
  {
    BaseSmall(s);
    LenColumns(s, n, k, a, 2);
    LenMeaning(s, n, k, a, 0);
    LenMeaning(s, n, k, a, 1);
  }

  /** The first two blocks of a chain decide the length of all its parities. */
  lemma ChainFullIff(data: seq<Chunk>, s: nat, k: nat, a: nat, size: nat)
    requires s >= 2 && k < 3 && a < s && |data| >= 2 * s && forall j :: 0 <= j < |data| ==> |data[j]| <= size
    ensures forall i :: 1 <= i <= |data| && Chain(s, k, i) == a && FullStart(data, s, k, a, size) ==>
              |ParityData(data, s, k, i)| == size
    ensures 1 <= Member(s, k, a, 1) <= |data|
    ensures |ParityData(data, s, k, Member(s, k, a, 1))| == size ==> FullStart(data, s, k, a, size)
  {
    hide *;
    var d := ChainData(data, s, k, a);
    FirstTwo(s, |data|, k, a);
    ChainBlocks(data, s, k, a, size);
    forall i | 1 <= i <= |data| && Chain(s, k, i) == a && FullStart(data, s, k, a, size)
      ensures |ParityData(data, s, k, i)| == size
    {
      ParityLength(data, s, k, i);
      CoversTwo(s, |data|, k, i);
      MaxReached(d[..Covered(s, |data|, k, i)], size);
    }
    var i := Member(s, k, a, 1);
    MemberCoordinates(s, k, a, 1);
    ParityLength(data, s, k, i);
    CoversTwo(s, |data|, k, i);
    MaxLenMeaning(d[..2]);
  }

  /** The blocks of a chain, and its first two. */
  lemma ChainBlocks(data: seq<Chunk>, s: nat, k: nat, a: nat, size: nat)
    requires s >= 2 && k < 3 && a < s && |data| >= 2 * s && forall j :: 0 <= j < |data| ==> |data[j]| <= size
    ensures |ChainData(data, s, k, a)| == Len(s, |data|, k, a) >= 2
    ensures forall j :: 0 <= j < |ChainData(data, s, k, a)| ==> |ChainData(data, s, k, a)[j]| <= size
    ensures FullStart(data, s, k, a, size) <==>
            |ChainData(data, s, k, a)[0]| == size || |ChainData(data, s, k, a)[1]| == size
  {
    FirstTwo(s, |data|, k, a);
    hide Member, Len;
    forall j | 0 <= j < |ChainData(data, s, k, a)|
      ensures |ChainData(data, s, k, a)[j]| <= size
    {
      LenMeaning(s, |data|, k, a, j);
    }
  }

  lemma CoversTwo(s: nat, n: nat, k: nat, i: nat)
    requires s >= 2 && k < 3 && 1 <= i <= n && Len(s, n, k, Chain(s, k, i)) >= 2
    ensures Covered(s, n, k, i) >= 2 && (Col(s, i) == 1 ==> Covered(s, n, k, i) == 2)
  {
  }

  lemma MaxReached(vs: seq<Chunk>, size: nat)
    requires |vs| >= 2 && (|vs[0]| == size || |vs[1]| == size)
    requires forall j :: 0 <= j < |vs| ==> |vs[j]| <= size
    ensures MaxLen(vs) == size
  {
    MaxLenMeaning(vs);
  }

  /**
    With two columns and no block longer than size, all parities of a strand have that size if and only if
    every one of its chains has a block of that size among its first two.
   */
  lemma FullParitiesIff(data: seq<Chunk>, s: nat, k: nat, size: nat)
    requires s >= 2 && k < 3 && |data| >= 2 * s && forall j :: 0 <= j < |data| ==> |data[j]| <= size
    ensures FullParities(data, s, k, size) <==> FullStarts(data, s, k, size)
  {
    hide FullStart, ParityData, Member, Chain;
    forall a: nat | a < s && FullParities(data, s, k, size)
      ensures FullStart(data, s, k, a, size)
    {
      ChainFullIff(data, s, k, a, size);
    }
    forall i | 1 <= i <= |data| && FullStarts(data, s, k, size)
      ensures |ParityData(data, s, k, i)| == size
    {
      ChainFullIff(data, s, k, Chain(s, k, i), size);
    }
  }

  // ----- a stored strand

  /** All parities of a strand, in the order in which they are merged. */
  function StrandParities(data: seq<Chunk>, s: nat, k: nat): (blocks: seq<Chunk>)
    requires s >= 2 && k < 3
    ensures |blocks| == |data|
  {
    seq(|data|, j requires 0 <= j < |data| => ParityData(data, s, k, j + 1))
  }

  /** The merged parities have one size exactly under the condition on the chains' first two blocks. */
  lemma StrandEvenIff(data: seq<Chunk>, s: nat, k: nat, size: nat)
    requires s >= 2 && k < 3 && |data| >= 2 * s && forall j :: 0 <= j < |data| ==> |data[j]| <= size
    ensures SizesEqual(StrandParities(data, s, k), size) <==> FullStarts(data, s, k, size)
  {
    hide FullStarts, ParityData;
    var blocks := StrandParities(data, s, k);
    FullParitiesIff(data, s, k, size);
    assert FullParities(data, s, k, size) ==> SizesEqual(blocks, size);
    if SizesEqual(blocks, size) {
      forall i | 1 <= i <= |data|
        ensures |ParityData(data, s, k, i)| == size
      {
        assert |blocks[i - 1]| == size;
      }
    }
  }

  /**
    Reading back a stored strand: the slices computed for every index give the parity of that index if and
    only if every chain of the strand has a block of full size among its first two.
   */
  lemma StoredStrandServed(data: seq<Chunk>, s: nat, k: nat, size: nat, c: nat, slices: seq<seq<Slice>>)
    requires s >= 2 && k < 3 && |data| >= 2 * s && forall j :: 0 <= j < |data| ==> |data[j]| <= size
    requires size > 0 && c > 0 && |slices| == |data|
    requires forall i :: 0 <= i < |data| ==> Tiles(slices[i], c, Start(i, size), Start(i, size) + size)
    ensures AllServed(StrandParities(data, s, k), c, slices) <==> FullStarts(data, s, k, size)
  {
    hide Start, Tiles, AllServed, FullStarts, ParityData;
    ReslicingRoundTrip(StrandParities(data, s, k), size, c, slices);
    StrandEvenIff(data, s, k, size);
  }

  /**
    The condition fails for a file of exactly two columns whose first and last blocks, the root of its tree
    and the end of the file, are short: they are the only blocks of one left-handed chain.
   */
  lemma TwoShortBlocks(data: seq<Chunk>, s: nat, size: nat)
    requires s >= 2 && |data| == 2 * s && |data[0]| < size && |data[2 * s - 1]| < size
    ensures !FullStarts(data, s, 2, size) && !FullParities(data, s, 2, size)
    ensures |ParityData(data, s, 2, 1)| < size && |ParityData(data, s, 2, 2 * s)| < size
  {
    FirstTwo(s, |data|, 2, 0);
    BaseSmall(s);
    assert Rem(s, 0) == 0;
    RemOne(s);
    assert Member(s, 2, 0, 0) == 1 && Member(s, 2, 0, 1) == 2 * s;
    MemberCoordinates(s, 2, 0, 0);
    MemberCoordinates(s, 2, 0, 1);
    LenIsTwo(s);
    var d := ChainData(data, s, 2, 0);
    assert |d| == 2 && d[0] == data[0] && d[1] == data[2 * s - 1];
    ParityLength(data, s, 2, 1);
    ParityLength(data, s, 2, 2 * s);
    MaxLenMeaning(d[..2]);
    assert !FullStart(data, s, 2, 0, size);
  }

  /**
    What is read in that case for the parity of block 1: its own bytes and the first ones of the next parity.
    It is right, up to padding, if and only if those are all zero.
   */
  lemma ShortParityRead(data: seq<Chunk>, s: nat, size: nat, c: nat, slices: seq<Slice>)
    requires s >= 2 && |data| == 2 * s && |data[0]| < size && |data[2 * s - 1]| < size && c > 0
    requires Tiles(slices, c, 0, size) && size <= |Merged(StrandParities(data, s, 2))|
    ensures var stream, p := Merged(StrandParities(data, s, 2)), ParityData(data, s, 2, 1);
            && |p| < size && Readable(slices, stream, c)
            && (Same(Glued(slices, stream, c), p) <==> Same(stream[|p|..size], []))
  {
    hide Tiles, Readable, Glued, Same, Merged, FullStarts, ParityData;
    TwoShortBlocks(data, s, size);
    StartZero(size);
    FirstShortBlock(StrandParities(data, s, 2), size, c, 0, slices);
  }

  lemma RemOne(s: nat)
    requires s >= 2
    ensures Rem(s, 1) == 1
  {
  }

  lemma LenIsTwo(s: nat)
    requires s >= 2
    ensures Len(s, 2 * s, 2, 0) == 2
  {
    BaseSmall(s);
    LenIs(s, 2 * s, 2, 0, 2);
  }
}
