/**
  Parity blocks of one size are concatenated and stored in chunks of another size.  To read parity block
  number i back, the getter computes which slices of which chunks to glue together.
 */
module Reslicing {
  import opened Bytes

  /** Bytes from..to of chunk number block. */
  datatype Slice = Slice(block: nat, from: nat, to: nat)

  /** Where chunk j of size c starts. */
  function Start(j: nat, c: nat): nat {
    j * c
  }

  function Div(x: nat, c: nat): nat
    requires c > 0
  {
    x / c
  }

  function Mod(x: nat, c: nat): nat
    requires c > 0
  {
    x % c
  }

  /**
    The slices name, in order, non-empty pieces of pairwise different chunks of size c, and together the
    byte positions a..b of the stream, each exactly once.
   */
  ghost predicate Tiles(slices: seq<Slice>, c: nat, a: nat, b: nat) {
    if slices == [] then a == b
    else
      var l := |slices| - 1;
      var last := slices[l];
      && last.from < last.to <= c && Start(last.block, c) + last.to == b
      && (l > 0 ==> slices[l - 1].block < last.block)
      && Tiles(slices[..l], c, a, Start(last.block, c) + last.from)
  }

  lemma TilesExtend(slices: seq<Slice>, c: nat, a: nat, s: Slice)
    requires s.from < s.to <= c && Tiles(slices, c, a, Start(s.block, c) + s.from)
    requires slices != [] ==> slices[|slices| - 1].block < s.block
    ensures Tiles(slices + [s], c, a, Start(s.block, c) + s.to)
  {
    assert (slices + [s])[..|slices|] == slices;
  }

  lemma DivBounds(x: nat, c: nat)
    requires c > 0
    ensures Start(Div(x, c), c) + Mod(x, c) == x && Mod(x, c) < c
  {
  }

  lemma StartZero(c: nat)
    ensures Start(0, c) == 0
  {
  }

  lemma StartStep(j: nat, c: nat)
    ensures Start(j + 1, c) == Start(j, c) + c
  {
  }

  lemma StartMonotone(i: nat, j: nat, c: nat)
    ensures i <= j ==> Start(i, c) <= Start(j, c)
  {
    if i < j {
      assert j * c == i * c + (j - i) * c;
    }
  }

  /** Which slices of new blocks make up the original block of the given index. */
  method CalculateNewBlocks(originalBlockSize: nat, newBlockSize: nat, originalIndex: nat) returns (result: seq<Slice>)
    requires originalBlockSize > 0 && newBlockSize > 0
    ensures var a := Start(originalIndex, originalBlockSize);
            Tiles(result, newBlockSize, a, a + originalBlockSize)
  {
    var c := newBlockSize;
    var startByte := Start(originalIndex, originalBlockSize);
    var endByte := startByte + originalBlockSize;
    hide Start, Div, Mod;
    var startBlock, first := Div(startByte, c), Mod(startByte, c);
    var endBlock, last := Div(endByte - 1, c), Mod(endByte - 1, c) + 1;
    DivBounds(startByte, c);
    DivBounds(endByte - 1, c);
    BlocksOrdered(startByte, endByte - 1, c);
    assert Start(startBlock, c) + first == startByte && Start(endBlock, c) + last == endByte;
    result := [];
    if startBlock != endBlock {
      // first block range
      StartStep(startBlock, c);
      TilesExtend(result, c, startByte, Slice(startBlock, first, c));
      result := result + [Slice(startBlock, first, c)];
      // intermediate full blocks
      for blockIndex := startBlock + 1 to endBlock
        invariant result != [] && result[|result| - 1].block == blockIndex - 1
        invariant Tiles(result, c, startByte, Start(blockIndex, c))
      {
        StartStep(blockIndex, c);
        TilesExtend(result, c, startByte, Slice(blockIndex, 0, c));
        result := result + [Slice(blockIndex, 0, c)];
      }
      // last block range
      TilesExtend(result, c, startByte, Slice(endBlock, 0, last));
      result := result + [Slice(endBlock, 0, last)];
    } else {
      TilesExtend(result, c, startByte, Slice(startBlock, first, last));
      result := result + [Slice(startBlock, first, last)];
    }
  }

  lemma BlocksOrdered(x: nat, y: nat, c: nat)
    requires c > 0 && x <= y
    ensures Div(x, c) <= Div(y, c)
    ensures Div(x, c) == Div(y, c) ==> Mod(x, c) <= Mod(y, c)
  {
    hide Start, Div, Mod;
    DivBounds(x, c);
    DivBounds(y, c);
    StartMonotone(Div(y, c) + 1, Div(x, c), c);
    StartStep(Div(y, c), c);
  }

  // ----- reading the slices back

  /** Chunk j of a stream cut into chunks of size c; the last one may be short. */
  function ChunkOf(stream: Chunk, c: nat, j: nat): (r: Chunk)
    requires c > 0 && Start(j, c) <= |stream|
    ensures |r| <= c
  {
    var base := Start(j, c);
    if |stream| - base < c then stream[base..] else stream[base..base + c]
  }

  /** The number of chunks: the stream length divided by c, rounded up the way the client computes it. */
  function ChunkCount(length: nat, c: nat): nat
    requires c > 0
  {
    Div(length + c - 1, c)
  }

  lemma ChunkInRange(length: nat, c: nat, j: nat)
    requires c > 0
    ensures Start(j, c) < length <==> j < ChunkCount(length, c)
  {
    hide Start, Div, Mod;
    var n := ChunkCount(length, c);
    DivBounds(length + c - 1, c);
    if j < n {
      StartMonotone(j + 1, n, c);
      StartStep(j, c);
    } else {
      StartMonotone(n, j, c);
    }
  }

  /** The glued slices, as the getter appends them. */
  function Glued(slices: seq<Slice>, stream: Chunk, c: nat): Chunk
    requires c > 0 && Readable(slices, stream, c)
  {
    if slices == [] then [] else
      var l := |slices| - 1;
      Glued(slices[..l], stream, c) + ChunkOf(stream, c, slices[l].block)[slices[l].from..slices[l].to]
  }

  /** The slice names an existing chunk and lies inside it. */
  predicate Fits(s: Slice, stream: Chunk, c: nat)
    requires c > 0
  {
    && s.block < ChunkCount(|stream|, c) && Start(s.block, c) <= |stream|
    && s.from <= s.to <= |ChunkOf(stream, c, s.block)|
  }

  predicate Readable(slices: seq<Slice>, stream: Chunk, c: nat)
    requires c > 0
  {
    forall j :: 0 <= j < |slices| ==> Fits(slices[j], stream, c)
  }

  lemma FitsMeaning(s: Slice, stream: Chunk, c: nat)
    requires c > 0
    ensures Fits(s, stream, c) <==> s.block < ChunkCount(|stream|, c) && Start(s.block, c) <= |stream|
                                    && s.from <= s.to <= |ChunkOf(stream, c, s.block)|
  {
  }

  /** One more slice. */
  lemma GlueStep(slices: seq<Slice>, stream: Chunk, c: nat, j: nat)
    requires c > 0 && j < |slices| && Readable(slices[..j], stream, c)
    ensures !Fits(slices[j], stream, c) ==> !Readable(slices, stream, c)
    ensures Fits(slices[j], stream, c) ==>
              && Start(slices[j].block, c) <= |stream|
              && slices[j].from <= slices[j].to <= |ChunkOf(stream, c, slices[j].block)|
              && Readable(slices[..j + 1], stream, c)
              && Glued(slices[..j + 1], stream, c) ==
                 Glued(slices[..j], stream, c) + ChunkOf(stream, c, slices[j].block)[slices[j].from..slices[j].to]
  {
    hide Start, ChunkOf, ChunkCount;
    if Fits(slices[j], stream, c) {
      var before, after := slices[..j], slices[..j + 1];
      forall x | 0 <= x < |after|
        ensures Fits(after[x], stream, c)
      {
        assert after[x] == slices[x] && (x < j ==> before[x] == slices[x]);
      }
      assert after[..j] == before;
    }
  }

  lemma NothingGlued(stream: Chunk, c: nat)
    requires c > 0
    ensures Readable([], stream, c) && Glued([], stream, c) == []
  {
  }

  /** Slices that tile a..b are readable and glue to exactly the bytes a..b of the stream. */
  lemma {:induction false} TilesGlue(slices: seq<Slice>, stream: Chunk, c: nat, a: nat, b: nat)
    requires c > 0 && Tiles(slices, c, a, b) && b <= |stream|
    ensures a <= b && Readable(slices, stream, c) && Glued(slices, stream, c) == stream[a..b]
  {
    hide *;
    if slices == [] {
      NothingTiled(c, a, b);
      NothingGlued(stream, c);
    } else {
      var l := |slices| - 1;
      var last := slices[l];
      TilesInit(slices, c, a, b);
      TilesGlue(slices[..l], stream, c, a, Start(last.block, c) + last.from);
      PieceOf(stream, c, last);
      GlueStep(slices, stream, c, l);
      FitsMeaning(last, stream, c);
      assert slices[..l + 1] == slices;
    }
  }

  lemma NothingTiled(c: nat, a: nat, b: nat)
    requires Tiles([], c, a, b)
    ensures a == b
  {
  }

  lemma TilesInit(slices: seq<Slice>, c: nat, a: nat, b: nat)
    requires Tiles(slices, c, a, b) && slices != []
    ensures var last := slices[|slices| - 1];
            && last.from < last.to <= c && Start(last.block, c) + last.to == b
            && Tiles(slices[..|slices| - 1], c, a, Start(last.block, c) + last.from)
  {
  }

  /** One slice inside the stream. */
  lemma PieceOf(stream: Chunk, c: nat, s: Slice)
    requires c > 0 && s.from < s.to <= c && Start(s.block, c) + s.to <= |stream|
    ensures s.block < ChunkCount(|stream|, c) && Start(s.block, c) <= |stream| && s.to <= |ChunkOf(stream, c, s.block)|
    ensures ChunkOf(stream, c, s.block)[s.from..s.to] == stream[Start(s.block, c) + s.from..Start(s.block, c) + s.to]
  {
    ChunkInRange(|stream|, c, s.block);
    hide Start, ChunkCount;
    var base := Start(s.block, c);
    var top := if |stream| - base < c then |stream| else base + c;
    assert ChunkOf(stream, c, s.block) == stream[base..top];
    SliceOfSlice(stream, base, top, s.from, s.to);
  }

  lemma SliceOfSlice(v: Chunk, a: nat, b: nat, x: nat, y: nat)
    requires a <= b <= |v| && x <= y <= b - a
    ensures v[a..b][x..y] == v[a + x..a + y]
  {
    var part := v[a..b];
    assert forall z :: 0 <= z < b - a ==> part[z] == v[a + z];
    assert part[x..y] == v[a + x..a + y];
  }

  /** All parity blocks of a strand, one after the other. */
  function Merged(blocks: seq<Chunk>): Chunk {
    if blocks == [] then [] else Merged(blocks[..|blocks| - 1]) + blocks[|blocks| - 1]
  }

  /** Block i sits behind the blocks before it. */
  lemma {:induction false} MergedAt(blocks: seq<Chunk>, i: nat)
    requires i < |blocks|
    ensures |Merged(blocks[..i])| + |blocks[i]| <= |Merged(blocks)|
    ensures Merged(blocks)[|Merged(blocks[..i])|..|Merged(blocks[..i])| + |blocks[i]|] == blocks[i]
  {
    var l := |blocks| - 1;
    if i < l {
      MergedAt(blocks[..l], i);
      assert blocks[..l][..i] == blocks[..i];
    }
  }

  lemma {:induction false} MergedLength(blocks: seq<Chunk>, size: nat)
    requires SizesEqual(blocks, size)
    ensures |Merged(blocks)| == Start(|blocks|, size)
  {
    if blocks == [] {
      assert Start(0, size) == 0;
    } else {
      MergedLength(blocks[..|blocks| - 1], size);
      StartStep(|blocks| - 1, size);
    }
  }

  /** Blocks of one size start at multiples of it. */
  lemma MergedEven(blocks: seq<Chunk>, size: nat, i: nat)
    requires i < |blocks| && SizesEqual(blocks, size)
    ensures Start(i, size) + size <= |Merged(blocks)|
    ensures Merged(blocks)[Start(i, size)..Start(i, size) + size] == blocks[i]
  {
    MergedAt(blocks, i);
    MergedLength(blocks[..i], size);
  }

  /** Readable slices yield as many bytes as they tile. */
  lemma {:induction false} GluedLength(slices: seq<Slice>, stream: Chunk, c: nat, a: nat, b: nat)
    requires c > 0 && Tiles(slices, c, a, b) && Readable(slices, stream, c)
    ensures a <= b && |Glued(slices, stream, c)| == b - a && (slices != [] ==> b <= |stream|)
  {
    hide Start, ChunkCount;
    if slices != [] {
      var l := |slices| - 1;
      assert forall j :: 0 <= j < l ==> slices[j] == slices[..l][j];
      GluedLength(slices[..l], stream, c, a, Start(slices[l].block, c) + slices[l].from);
    }
  }

  /** Slices that tile a..b can be read exactly from a stream of at least b bytes, and yield its bytes a..b. */
  lemma ReadableIff(slices: seq<Slice>, stream: Chunk, c: nat, a: nat, b: nat)
    requires c > 0 && Tiles(slices, c, a, b) && a < b
    ensures Readable(slices, stream, c) <==> b <= |stream|
    ensures Readable(slices, stream, c) ==> a <= b <= |stream| && Glued(slices, stream, c) == stream[a..b]
    ensures forall x :: 0 <= x < |slices| ==> slices[x].from <= slices[x].to
  {
    TilesBounds(slices, c, a, b);
    TilesOrdered(slices, c, a, b);
    hide Start, Tiles, Readable, Glued;
    if b <= |stream| {
      TilesGlue(slices, stream, c, a, b);
    } else if Readable(slices, stream, c) {
      GluedLength(slices, stream, c, a, b);
    }
  }

  lemma {:induction false} TilesOrdered(slices: seq<Slice>, c: nat, a: nat, b: nat)
    requires Tiles(slices, c, a, b)
    ensures forall x :: 0 <= x < |slices| ==> slices[x].from <= slices[x].to
  {
    if slices != [] {
      var l := |slices| - 1;
      TilesOrdered(slices[..l], c, a, Start(slices[l].block, c) + slices[l].from);
      assert forall x :: 0 <= x < l ==> slices[..l][x] == slices[x];
    }
  }

  predicate SizesEqual(blocks: seq<Chunk>, size: nat) {
    forall i :: 0 <= i < |blocks| ==> |blocks[i]| == size
  }

  /** Every block is read back from the slices computed for its index. */
  ghost predicate AllServed(blocks: seq<Chunk>, c: nat, slices: seq<seq<Slice>>)
    requires c > 0 && |slices| == |blocks|
  {
    forall i :: 0 <= i < |blocks| ==>
      Readable(slices[i], Merged(blocks), c) && Glued(slices[i], Merged(blocks), c) == blocks[i]
  }

  /**
    Round trip: cut the merged parity blocks into chunks of size c, and for every index glue the slices
    computed for blocks of the given size.  This gives back every block if and only if all blocks have
    that size.
   */
  lemma ReslicingRoundTrip(blocks: seq<Chunk>, size: nat, c: nat, slices: seq<seq<Slice>>)
    requires size > 0 && c > 0 && |slices| == |blocks|
    requires forall i :: 0 <= i < |blocks| ==> Tiles(slices[i], c, Start(i, size), Start(i, size) + size)
    ensures AllServed(blocks, c, slices) <==> SizesEqual(blocks, size)
  {
    hide Start, Tiles, Readable, Glued, Merged;
    if AllServed(blocks, c, slices) {
      forall i | 0 <= i < |blocks|
        ensures |blocks[i]| == size
      {
        GluedLength(slices[i], Merged(blocks), c, Start(i, size), Start(i, size) + size);
      }
    }
    if SizesEqual(blocks, size) {
      forall i | 0 <= i < |blocks|
        ensures Readable(slices[i], Merged(blocks), c) && Glued(slices[i], Merged(blocks), c) == blocks[i]
      {
        MergedEven(blocks, size, i);
        TilesGlue(slices[i], Merged(blocks), c, Start(i, size), Start(i, size) + size);
      }
    }
  }

  /**
    The first block that is too short: the bytes read for it are its own followed by those of its successors,
    so the answer is the block up to padding if and only if those are all zero.
   */
  lemma FirstShortBlock(blocks: seq<Chunk>, size: nat, c: nat, i: nat, slices: seq<Slice>)
    requires size > 0 && c > 0 && i < |blocks| && |blocks[i]| < size
    requires SizesEqual(blocks[..i], size)
    requires Tiles(slices, c, Start(i, size), Start(i, size) + size) && Start(i, size) + size <= |Merged(blocks)|
    ensures Readable(slices, Merged(blocks), c)
    ensures var gap := Merged(blocks)[Start(i, size) + |blocks[i]|..Start(i, size) + size];
            && Glued(slices, Merged(blocks), c) == blocks[i] + gap
            && (Same(Glued(slices, Merged(blocks), c), blocks[i]) <==> Same(gap, []))
  {
    hide *;
    var stream, a, m := Merged(blocks), Start(i, size), |blocks[i]|;
    MergedAt(blocks, i);
    MergedLength(blocks[..i], size);
    TilesGlue(slices, stream, c, a, a + size);
    SliceSplits(stream, a, a + m, a + size);
    SameExtension(blocks[i], stream[a + m..a + size]);
  }

  lemma SliceSplits(v: Chunk, a: nat, b: nat, d: nat)
    requires a <= b <= d <= |v|
    ensures v[a..d] == v[a..b] + v[b..d]
  {
  }

  lemma SameExtension(v: Chunk, gap: Chunk)
    ensures Same(v + gap, v) <==> Same(gap, [])
  {
    if Same(v + gap, v) {
      forall x: nat
        ensures At(gap, x) == At([], x)
      {
        assert At(v + gap, |v| + x) == At(v, |v| + x);
      }
    }
    if Same(gap, []) {
      forall x: nat
        ensures At(v + gap, x) == At(v, x)
      {
        assert x >= |v| ==> At(v + gap, x) == At(gap, x - |v|) == At([], x - |v|);
      }
    }
  }

  /** The tiling is unique, so the slices are determined by the block and chunk sizes alone. */
  lemma {:induction false} TilesUnique(ss: seq<Slice>, ts: seq<Slice>, c: nat, a: nat, b: nat)
    requires c > 0 && Tiles(ss, c, a, b) && Tiles(ts, c, a, b)
    ensures ss == ts
    decreases |ss|
  {
    TilesBounds(ss, c, a, b);
    TilesBounds(ts, c, a, b);
    if a < b {
      var s, t := ss[|ss| - 1], ts[|ts| - 1];
      EndDetermines(s.block, s.to, t.block, t.to, c);
      TilesStart(ss, c, a, b);
      TilesStart(ts, c, a, b);
      TilesUnique(ss[..|ss| - 1], ts[..|ts| - 1], c, a, Start(s.block, c) + s.from);
      assert ss == ss[..|ss| - 1] + [s];
      assert ts == ts[..|ts| - 1] + [t];
    }
  }

  lemma {:induction false} TilesBounds(ss: seq<Slice>, c: nat, a: nat, b: nat)
    requires Tiles(ss, c, a, b)
    ensures a <= b && (a == b <==> ss == [])
  {
    if ss != [] {
      TilesBounds(ss[..|ss| - 1], c, a, Start(ss[|ss| - 1].block, c) + ss[|ss| - 1].from);
    }
  }

  /** The last slice starts at its chunk's beginning, or else where the whole tiling starts. */
  lemma {:induction false} TilesStart(ss: seq<Slice>, c: nat, a: nat, b: nat)
    requires c > 0 && Tiles(ss, c, a, b) && ss != []
    ensures var s := ss[|ss| - 1];
            s.from == if a >= Start(s.block, c) then a - Start(s.block, c) else 0
  {
    var l := |ss| - 1;
    var s := ss[l];
    if l > 0 {
      var r := ss[l - 1];
      assert ss[..l][l - 1] == r;
      StartMonotone(r.block + 1, s.block, c);
      StartStep(r.block, c);
      TilesBounds(ss[..l], c, a, Start(s.block, c) + s.from);
    }
  }

  lemma EndDetermines(x: nat, p: nat, y: nat, q: nat, c: nat)
    requires 0 < p <= c && 0 < q <= c && Start(x, c) + p == Start(y, c) + q
    ensures x == y && p == q
  {
    if x < y {
      StartMonotone(x + 1, y, c);
      StartStep(x, c);
    } else if y < x {
      StartMonotone(y + 1, x, c);
      StartStep(y, c);
    }
  }

  /** Chunk j holds some of the bytes a..b. */
  predicate Touches(j: nat, c: nat, a: nat, b: nat) {
    Start(j, c) < b && a < Start(j + 1, c)
  }

  /** The slices use exactly the chunks that hold some of the bytes. */
  lemma {:induction false} TilesTouch(ss: seq<Slice>, c: nat, a: nat, b: nat, j: nat)
    requires c > 0 && Tiles(ss, c, a, b) && a < b
    ensures Touches(j, c, a, b) <==> exists x :: 0 <= x < |ss| && ss[x].block == j
  {
    TilesBounds(ss, c, a, b);
    var l := |ss| - 1;
    var last := ss[l];
    var m := Start(last.block, c) + last.from;
    TilesBounds(ss[..l], c, a, m);
    TilesStart(ss, c, a, b);
    StartStep(last.block, c);
    StartMonotone(last.block + 1, j, c);
    StartMonotone(j + 1, last.block, c);
    StartStep(j, c);
    hide Start, Tiles;
    assert forall x :: 0 <= x < l ==> ss[..l][x] == ss[x];
    assert ss[l].block == last.block;
    if a < m {
      TilesTouch(ss[..l], c, a, m, j);
    }
  }
}
