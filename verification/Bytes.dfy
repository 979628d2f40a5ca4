/**
  Chunks of bytes and the XOR the entanglement code is built on.

  The program pads the shorter operand with zero bytes before it XORs, so a value that has
  travelled through a repair may carry extra trailing zeros.  `Same` is equality up to that
  padding; every repair theorem of the project is stated with it.
 */
module Bytes {

  type Chunk = seq<bv8>

  /** The byte at position i of a chunk read as an infinite, zero-extended string. */
  function At(v: Chunk, i: nat): bv8 {
    if i < |v| then v[i] else 0
  }

  /** Equality up to trailing zero bytes. */
  ghost predicate Same(v: Chunk, w: Chunk) {
    forall i: nat :: At(v, i) == At(w, i)
  }

  function Longer(v: Chunk, w: Chunk): nat {
    if |v| < |w| then |w| else |v|
  }

  /** Specification of the padded XOR: as long as the longer operand, bytewise XOR of the zero extensions. */
  function Xor(v: Chunk, w: Chunk): Chunk {
    seq(Longer(v, w), i requires 0 <= i => At(v, i) ^ At(w, i))
  }

  lemma XorAt(v: Chunk, w: Chunk, i: nat)
    ensures At(Xor(v, w), i) == At(v, i) ^ At(w, i)
  {
  }

  lemma XorLength(v: Chunk, w: Chunk)
    ensures |Xor(v, w)| == Longer(v, w)
  {
  }

  lemma XorEmpty(v: Chunk)
    ensures Xor(v, []) == v
    ensures Xor([], v) == v
  {
    assert forall i: nat | i < |v| :: At(v, i) ^ 0 == At(v, i);
    assert forall i: nat | i < |v| :: 0 ^ At(v, i) == At(v, i);
  }

  lemma XorCommutes(v: Chunk, w: Chunk)
    ensures Xor(v, w) == Xor(w, v)
  {
    assert forall i: nat | i < Longer(v, w) :: At(v, i) ^ At(w, i) == At(w, i) ^ At(v, i);
  }

  lemma XorAssociates(u: Chunk, v: Chunk, w: Chunk)
    ensures Xor(Xor(u, v), w) == Xor(u, Xor(v, w))
  {
    var l, r := Xor(Xor(u, v), w), Xor(u, Xor(v, w));
    assert |l| == |r|;
    forall i: nat | i < |l|
      ensures l[i] == r[i]
    {
      XorAt(u, v, i);
      XorAt(v, w, i);
      BitsAssociate(At(u, i), At(v, i), At(w, i));
    }
  }

  lemma BitsAssociate(x: bv8, y: bv8, z: bv8)
    ensures (x ^ y) ^ z == x ^ (y ^ z)
  {
  }

  lemma BitsCancel(x: bv8, y: bv8)
    ensures x ^ (y ^ x) == y
  {
  }

  /** XORing twice with the same chunk gives the other operand back, up to padding. */
  lemma XorCancels(v: Chunk, w: Chunk)
    ensures Same(Xor(v, Xor(w, v)), w)
  {
    forall i: nat
      ensures At(Xor(v, Xor(w, v)), i) == At(w, i)
    {
      XorAt(v, Xor(w, v), i);
      XorAt(w, v, i);
      BitsCancel(At(v, i), At(w, i));
    }
  }

  lemma XorRespectsSame(v: Chunk, v': Chunk, w: Chunk, w': Chunk)
    requires Same(v, v') && Same(w, w')
    ensures Same(Xor(v, w), Xor(v', w'))
  {
    forall i: nat
      ensures At(Xor(v, w), i) == At(Xor(v', w'), i)
    {
      XorAt(v, w, i);
      XorAt(v', w', i);
    }
  }

  /** a, b and c XOR to nothing: each of the three is the XOR of the other two, up to padding. */
  ghost predicate Triple(a: Chunk, b: Chunk, c: Chunk) {
    Same(Xor(a, b), c)
  }

  lemma TripleRotates(a: Chunk, b: Chunk, c: Chunk)
    requires Triple(a, b, c)
    ensures Triple(b, a, c) && Triple(b, c, a) && Triple(c, b, a) && Triple(a, c, b) && Triple(c, a, b)
  {
    XorCommutes(a, b);
    XorCommutes(b, c);
    XorCommutes(a, c);
    XorRespectsSame(b, b, c, Xor(a, b));
    XorCancels(b, a);
    XorRespectsSame(a, a, c, Xor(b, a));
    XorCancels(a, b);
    SameTransitive(Xor(b, c), Xor(b, Xor(a, b)), a);
    SameTransitive(Xor(a, c), Xor(a, Xor(b, a)), b);
  }

  lemma TripleOf(x: Chunk, d: Chunk)
    ensures Triple(x, d, Xor(d, x))
  {
    XorCommutes(d, x);
  }

  lemma SameTransitive(u: Chunk, v: Chunk, w: Chunk)
    requires Same(u, v) && Same(v, w)
    ensures Same(u, w)
  {
  }

  /** XOR of a whole list of chunks, the first one innermost. */
  function XorAll(vs: seq<Chunk>): Chunk {
    if vs == [] then [] else Xor(vs[|vs| - 1], XorAll(vs[..|vs| - 1]))
  }

  /** The first chunk can be split off the front of the list as well. */
  lemma {:induction false} XorAllFront(vs: seq<Chunk>)
    requires vs != []
    ensures XorAll(vs) == Xor(vs[0], XorAll(vs[1..]))
  {
    var n := |vs| - 1;
    if n == 0 {
      XorEmpty(vs[0]);
    } else {
      var init := vs[..n];
      XorAllFront(init);
      assert vs[1..][..n - 1] == init[1..];
      var mid := XorAll(init[1..]);
      XorAssociates(vs[n], vs[0], mid);
      XorCommutes(vs[n], vs[0]);
      XorAssociates(vs[0], vs[n], mid);
    }
  }

  // ----- the program's own code

  /** Two chunks padded to one length (the program writes through two pointers). */
  method PaddingData(chunk1: Chunk, chunk2: Chunk) returns (c1: Chunk, c2: Chunk)
    ensures |c1| == |c2| == Longer(chunk1, chunk2)
    ensures forall i: nat :: At(c1, i) == At(chunk1, i) && At(c2, i) == At(chunk2, i)
  {
    c1, c2 := chunk1, chunk2;
    if |c1| > |c2| {
      c2 := c2 + seq(|c1| - |c2|, _ => 0);
    } else if |c1| < |c2| {
      c1 := c1 + seq(|c2| - |c1|, _ => 0);
    }
  }

  method XorChunkData(chunk1: Chunk, chunk2: Chunk) returns (result: Chunk)
    ensures result == Xor(chunk1, chunk2)
  {
    if |chunk1| == 0 {
      XorEmpty(chunk2);
      return chunk2;
    }
    if |chunk2| == 0 {
      XorEmpty(chunk1);
      return chunk1;
    }
    var c1, c2 := PaddingData(chunk1, chunk2);
    var buffer := new bv8[|c1|];
    for i := 0 to |c1|
      invariant forall j: nat | j < i :: buffer[j] == At(chunk1, j) ^ At(chunk2, j)
    {
      assert c1[i] == At(chunk1, i) && c2[i] == At(chunk2, i);
      buffer[i] := c1[i] ^ c2[i];
    }
    result := buffer[..];
  }

  // ----- trimming zeros before a repaired chunk is uploaded again

  function TrimLeft(v: Chunk): Chunk {
    if v != [] && v[0] == 0 then TrimLeft(v[1..]) else v
  }

  function TrimRight(v: Chunk): Chunk {
    if v != [] && v[|v| - 1] == 0 then TrimRight(v[..|v| - 1]) else v
  }

  /** bytes.Trim(v, "\x00"): zero bytes are cut from both ends. */
  function Trim(v: Chunk): Chunk {
    TrimRight(TrimLeft(v))
  }

  /** Neither the first nor the last byte is zero. */
  predicate NonZeroEnds(d: Chunk) {
    d != [] && d[0] != 0 && d[|d| - 1] != 0
  }

  lemma {:induction false} TrimRightSame(v: Chunk)
    ensures Same(TrimRight(v), v)
    ensures |TrimRight(v)| <= |v| && TrimRight(v) == v[..|TrimRight(v)|]
    ensures TrimRight(v) != [] ==> TrimRight(v)[|TrimRight(v)| - 1] != 0
  {
    if v != [] && v[|v| - 1] == 0 {
      TrimRightSame(v[..|v| - 1]);
      assert forall i: nat :: At(v, i) == At(v[..|v| - 1], i);
    }
  }

  /** Same chunks that both end in a non-zero byte (or are empty) are equal. */
  lemma SameTight(v: Chunk, w: Chunk)
    requires Same(v, w)
    requires v != [] ==> v[|v| - 1] != 0
    requires w != [] ==> w[|w| - 1] != 0
    ensures v == w
  {
    if w != [] {
      assert At(v, |w| - 1) == At(w, |w| - 1) != 0;
    }
    if v != [] {
      assert At(w, |v| - 1) == At(v, |v| - 1) != 0;
    }
    assert forall i: nat | i < |v| :: v[i] == At(v, i) == At(w, i);
  }

  lemma {:induction false} TrimLeftHead(v: Chunk)
    ensures TrimLeft(v) != [] ==> TrimLeft(v)[0] != 0
  {
    if v != [] && v[0] == 0 {
      TrimLeftHead(v[1..]);
    }
  }

  /**
    The question the program leaves open in a comment ("does trimming zero always works?"): trimming a
    repaired copy of chunk d returns d exactly when d neither starts nor ends with a zero byte.
   */
  lemma TrimRestores(v: Chunk, d: Chunk)
    requires Same(v, d) && d != []
    ensures Trim(v) == d <==> d[0] != 0 && d[|d| - 1] != 0
  {
    TrimRightSame(TrimLeft(v));
    TrimLeftHead(v);
    var t := Trim(v);
    if t == d {
      assert t[0] == TrimLeft(v)[0];
    }
    if d[0] != 0 && d[|d| - 1] != 0 {
      assert At(v, 0) == At(d, 0);
      assert TrimLeft(v) == v;
      SameTransitive(t, v, d);
      SameTight(t, d);
    }
  }
}
