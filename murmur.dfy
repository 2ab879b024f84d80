/**
 * `HeartMurmurHash3` (heart/heart-core/include/heart/hash/murmur.h):
 * MurmurHash3_x86_32 over an array of 1-, 2-, 4- or 8-byte elements, or of
 * elements of any other width read as raw bytes. Elements are given as
 * their bit patterns (signed types have the same bits), and the machine is
 * little-endian, as the source's byte-view helper assumes.
 */
module Murmur {
  import opened MurmurMix

  const DefaultSeed: bv32 := 0x7C44A16D

  /** The element array handed to `HeartMurmurHash3`, by element width. */
  datatype Elements =
    | Bytes(bytes: seq<bv8>)
    | Halves(halves: seq<bv16>)
    | Words(words: seq<bv32>)
    | Longs(longs: seq<bv64>)
      /** Elements of any other `sizeof`, each given as its bytes. */
    | Wide(width: nat, items: seq<seq<bv8>>)

  predicate WellFormed(e: Elements)
  {
    e.Wide? ==> e.width !in {0, 1, 2, 4, 8} && forall j :: 0 <= j < |e.items| ==> |e.items[j]| == e.width
  }

  function ElementSize(e: Elements): nat
  {
    match e
    case Bytes(_) => 1
    case Halves(_) => 2
    case Words(_) => 4
    case Longs(_) => 8
    case Wide(w, _) => w
  }

  function Count(e: Elements): nat
  {
    match e
    case Bytes(b) => |b|
    case Halves(h) => |h|
    case Words(w) => |w|
    case Longs(l) => |l|
    case Wide(_, items) => |items|
  }

  /** `count * sizeof(T)`. */
  function ByteLength(e: Elements): nat
  {
    Count(e) * ElementSize(e)
  }

  // ---------------------------------------------------------------------
  // Little-endian byte views

  lemma DivBelow(j: nat, w: nat, n: nat)
    requires w > 0 && j < w * n
    ensures j / w < n
  {
    if j / w >= n {
      assert w * (j / w) >= w * n by {
        var q := j / w;
        assert q >= n;
      }
    }
  }

  function WideByte(w: nat, items: seq<seq<bv8>>, j: nat): bv8
    requires w > 0 && j < w * |items| && forall i :: 0 <= i < |items| ==> |items[i]| == w
  {
    DivBelow(j, w, |items|);
    items[j / w][j % w]
  }

  function HalvesBytes(h: seq<bv16>): (r: seq<bv8>)
    ensures |r| == 2 * |h|
  {
    seq(2 * |h|, j requires 0 <= j < 2 * |h| => ByteOf16(h[j / 2], j % 2))
  }

  function WordsBytes(w: seq<bv32>): (r: seq<bv8>)
    ensures |r| == 4 * |w|
  {
    seq(4 * |w|, j requires 0 <= j < 4 * |w| => ByteOf32(w[j / 4], j % 4))
  }

  function LongsBytes(l: seq<bv64>): (r: seq<bv8>)
    ensures |r| == 8 * |l|
  {
    seq(8 * |l|, j requires 0 <= j < 8 * |l| => ByteOf64(l[j / 8], j % 8))
  }

  function WideBytes(w: nat, items: seq<seq<bv8>>): (r: seq<bv8>)
    requires w > 0 && forall i :: 0 <= i < |items| ==> |items[i]| == w
    ensures |r| == |items| * w
  {
    seq(w * |items|, j requires 0 <= j < w * |items| => WideByte(w, items, j))
  }

  /** The array's object representation, byte by byte (what the raw-byte helper reads). */
  function ByteView(e: Elements): (r: seq<bv8>)
    requires WellFormed(e)
    ensures |r| == ByteLength(e)
  {
    match e
    case Bytes(b) => b
    case Halves(h) => HalvesBytes(h)
    case Words(w) => WordsBytes(w)
    case Longs(l) => LongsBytes(l)
    case Wide(w, items) => WideBytes(w, items)
  }

  // ---------------------------------------------------------------------
  // The lengths, as the source computes them

  /** `int(count * sizeof(T))`: the length narrowed to a 32-bit signed `int`. */
  function LenInt(n: nat): int
  {
    var low := n % 0x1_0000_0000;
    if low < 0x8000_0000 then low else low - 0x1_0000_0000
  }

  /** The number of body iterations: `nblocks = len / 4`, and none when `len` is negative. */
  function BlockCount(n: nat): (r: nat)
    ensures 4 * r <= n
    ensures n < 0x8000_0000 ==> r == n / 4
  {
    if LenInt(n) >= 0 then LenInt(n) / 4 else 0
  }

  // ---------------------------------------------------------------------
  // `HeartMurmurHashHelper`

  /** Block `i` of a byte buffer: four bytes, little-endian. */
  function BytesBlock32(b: seq<bv8>, i: nat): bv32
    requires 4 * i + 4 <= |b|
  {
    LE4(b[4 * i], b[4 * i + 1], b[4 * i + 2], b[4 * i + 3])
  }

  /** Block `i` of 2-byte elements: element `2 * i` low, element `2 * i + 1` high. */
  function HalvesBlock32(h: seq<bv16>, i: nat): bv32
    requires 2 * i + 1 < |h|
  {
    (h[2 * i] as bv32) | ((h[2 * i + 1] as bv32) << 16)
  }

  /** Block `i` of 8-byte elements: the low half of element `i / 2` when `i` is even (shift 0), the high half otherwise (shift 32). */
  function LongsBlock32(l: seq<bv64>, i: nat): bv32
    requires i / 2 < |l|
  {
    if i % 2 == 0 then (l[i / 2] & 0xFFFF_FFFF) as bv32 else ((l[i / 2] >> 32) & 0xFFFF_FFFF) as bv32
  }

  /** `GetBlock32(index)` of the helper for the element width. */
  function GetBlock32(e: Elements, i: nat): bv32
    requires WellFormed(e) && 4 * i + 4 <= ByteLength(e)
  {
    match e
    case Bytes(b) => BytesBlock32(b, i)
    case Halves(h) => HalvesBlock32(h, i)
    case Words(w) => w[i]
    case Longs(l) => LongsBlock32(l, i)
    case Wide(w, items) => BytesBlock32(WideBytes(w, items), i)
  }

  /** The byte `GetTail(tail)` reads; the 4- and 8-byte helpers have none. */
  function TailByte(e: Elements, t: nat): bv8
    requires WellFormed(e) && !e.Words? && !e.Longs? && t < ByteLength(e) % 4
  {
    var n := ByteLength(e);
    if e.Halves? then
      var last := e.halves[|e.halves| - 1];
      if t == 0 then (last & 0xFF) as bv8 else ((last >> 8) & 0xFF) as bv8
    else if e.Bytes? then
      e.bytes[n - n % 4 + t]
    else
      WideBytes(e.width, e.items)[n - n % 4 + t]
  }

  /** `GetTail(tail)`: the tail byte widened to a `uint32_t`. */
  function GetTail(e: Elements, t: nat): bv32
    requires WellFormed(e) && !e.Words? && !e.Longs? && t < ByteLength(e) % 4
  {
    TailByte(e, t) as bv32
  }

  /** The `len & 3` tail bytes as the helper reads them. */
  function HelperTail(e: Elements): (r: seq<bv8>)
    requires WellFormed(e) && !e.Words? && !e.Longs?
    ensures |r| == ByteLength(e) % 4
  {
    seq(ByteLength(e) % 4, t requires 0 <= t < ByteLength(e) % 4 => TailByte(e, t))
  }

  /** The tail word, from the fall-through `switch (len & 3)`. */
  function TailWord(e: Elements): bv32
    requires WellFormed(e) && !e.Words? && !e.Longs? && ByteLength(e) % 4 != 0
  {
    TailBytesFallThrough(HelperTail(e))
  }

  /** The helper's blocks, `GetBlock32(0)`, `GetBlock32(1)`, ... */
  function Blocks(e: Elements): (r: seq<bv32>)
    requires WellFormed(e)
    ensures |r| == ByteLength(e) / 4
  {
    seq(ByteLength(e) / 4, i requires 0 <= i < ByteLength(e) / 4 => GetBlock32(e, i))
  }

  /** `h1` after the first `k` of the blocks `bs`, mixed in order. */
  function BlocksBody(seed: bv32, bs: seq<bv32>, k: nat): bv32
    requires k <= |bs|
  {
    if k == 0 then seed else Round(BlocksBody(seed, bs, k - 1), bs[k - 1])
  }

  /** `h1` after the first `i` blocks of the helper. */
  function BodyUpTo(e: Elements, seed: bv32, i: nat): bv32
    requires WellFormed(e) && 4 * i <= ByteLength(e)
  {
    BlocksBody(seed, Blocks(e), i)
  }

  /** `h1` after the body and, when `foldTail` holds and `len & 3` is not 0, the tail. */
  function Unfinished(e: Elements, seed: bv32, foldTail: bool): bv32
    requires WellFormed(e) && (foldTail ==> ElementSize(e) % 4 != 0)
  {
    var n := ByteLength(e);
    var h := BodyUpTo(e, seed, BlockCount(n));
    if foldTail && n % 4 != 0 then MixTail(h, TailWord(e)) else h
  }

  /** The hash, with the tail folded in when `foldTail` holds and `len & 3` is not 0. */
  function HashWith(e: Elements, seed: bv32, foldTail: bool): bv32
    requires WellFormed(e) && (foldTail ==> ElementSize(e) % 4 != 0)
  {
    Finish(Unfinished(e, seed, foldTail), ByteLength(e))
  }

  /** `HeartMurmurHash3` as written: the tail is folded in only when `sizeof(T) < 4`. */
  function HeartHash(e: Elements, seed: bv32): bv32
    requires WellFormed(e)
  {
    HashWith(e, seed, ElementSize(e) < 4)
  }

  /** The evident intent: the tail is folded in whenever `sizeof(T)` leaves one. */
  function IntendedHash(e: Elements, seed: bv32): bv32
    requires WellFormed(e)
  {
    HashWith(e, seed, ElementSize(e) % 4 != 0)
  }

  /** For every element width the source's tests use (1, 2, 4 and 8) and 3, the two agree. */
  lemma HeartHashIsIntendedForNarrowOrAligned(e: Elements, seed: bv32)
    requires WellFormed(e) && (ElementSize(e) < 4 || ElementSize(e) % 4 == 0)
    ensures HeartHash(e, seed) == IntendedHash(e, seed)
  {
    if ElementSize(e) % 4 == 0 {
      AlignedWidthHasNoTail(e);
    }
  }

  /** The `switch (len & 3)` with fall-through, accumulating the tail word. */
  method FallThroughTail(e: Elements) returns (k1: bv32)
    requires WellFormed(e) && !e.Words? && !e.Longs? && ByteLength(e) % 4 != 0
    ensures k1 == TailWord(e)
  {
    var r := ByteLength(e) % 4;
    ghost var b: bv32 := if r >= 2 then GetTail(e, 1) else 0;
    ghost var c: bv32 := if r == 3 then GetTail(e, 2) else 0;
    k1 := 0;
    if r == 3 {
      k1 := k1 ^ (GetTail(e, 2) << 16);
    }
    assert k1 == (if r == 3 then c << 16 else 0);
    if r >= 2 {
      k1 := k1 ^ (GetTail(e, 1) << 8);
    }
    assert k1 == (if r == 3 then c << 16 else 0) ^ (if r >= 2 then b << 8 else 0);
    var a := GetTail(e, 0);
    FallThroughLastCase(r, a, b, c, k1);
    k1 := k1 ^ a;
    TailWordIsSwitch(e);
  }

  /** The tail word is what the `switch` accumulates from the helper's `GetTail` values. */
  lemma TailWordIsSwitch(e: Elements)
    requires WellFormed(e) && !e.Words? && !e.Longs? && ByteLength(e) % 4 != 0
    ensures var r := ByteLength(e) % 4;
            TailWord(e) == FallThrough(r, GetTail(e, 0), if r >= 2 then GetTail(e, 1) else 0, if r == 3 then GetTail(e, 2) else 0)
  {
    var r := ByteLength(e) % 4;
    var t := HelperTail(e);
    FallThroughOfSeq(t, r, GetTail(e, 0), if r >= 2 then GetTail(e, 1) else 0, if r == 3 then GetTail(e, 2) else 0);
  }

  lemma FallThroughOfSeq(t: seq<bv8>, r: nat, a: bv32, b: bv32, c: bv32)
    requires 1 <= r <= 3 && |t| == r
    requires a == t[0] as bv32
    requires b == if r >= 2 then t[1] as bv32 else 0
    requires c == if r == 3 then t[2] as bv32 else 0
    ensures FallThrough(r, a, b, c) == TailBytesFallThrough(t)
  {
  }

  /** Case 1 of the `switch` completes the tail word. */
  lemma FallThroughLastCase(r: nat, a: bv32, b: bv32, c: bv32, k: bv32)
    requires k == (if r == 3 then c << 16 else 0) ^ (if r >= 2 then b << 8 else 0)
    ensures k ^ a == FallThrough(r, a, b, c)
  {
  }

  /** The body loop: each of the `nblocks` blocks is mixed into `h1` in order. */
  method MixBlocks(e: Elements, seed: bv32) returns (h1: bv32)
    requires WellFormed(e)
    ensures h1 == BodyUpTo(e, seed, BlockCount(ByteLength(e)))
  {
    h1 := seed;
    var nblocks := BlockCount(ByteLength(e));
    for i := 0 to nblocks
      invariant h1 == BodyUpTo(e, seed, i)
    {
      h1 := Round(h1, GetBlock32(e, i));
    }
  }

  /**
   * The body of `HeartMurmurHash3` with the corrected tail condition: a
   * `for` loop over the blocks, then the fall-through tail and the
   * finalisation.
   */
  method ComputeHash(e: Elements, seed: bv32) returns (h1: bv32)
    requires WellFormed(e)
    ensures h1 == IntendedHash(e, seed)
  {
    var len := ByteLength(e);
    h1 := MixBlocks(e, seed);
    if ElementSize(e) % 4 != 0 && len % 4 != 0 {
      var k1 := FallThroughTail(e);
      h1 := MixTail(h1, k1);
    }
    h1 := Finish(h1, len);
  }

  // ---------------------------------------------------------------------
  // The reference: MurmurHash3_x86_32 over a byte buffer with an `int` length

  /** The blocks, consumed from the front four bytes at a time. */
  function RefBody(h: bv32, data: seq<bv8>): bv32
    decreases |data|
  {
    if |data| < 4 then h else RefBody(Round(h, LE4(data[0], data[1], data[2], data[3])), data[4..])
  }

  /** The tail bytes, padded with zero bytes, as a little-endian word. */
  function RefTailWord(t: seq<bv8>): bv32
    requires |t| < 4
  {
    var padded := t + seq(4 - |t|, _ => 0 as bv8);
    LE4(padded[0], padded[1], padded[2], padded[3])
  }

  /** The body and the tail of the reference, before the finalisation. */
  function RefUnfinished(data: seq<bv8>, seed: bv32): bv32
  {
    var n := |data|;
    var tail := data[n - n % 4..];
    var h := RefBody(seed, data);
    if |tail| == 0 then h else MixTail(h, RefTailWord(tail))
  }

  /** The reference hash of `data` (its length is an `int`, so below 2^31). */
  function ReferenceHash(data: seq<bv8>, seed: bv32): bv32
    requires |data| < 0x8000_0000
  {
    Finish(RefUnfinished(data, seed), |data|)
  }

  lemma WordsIndices(w: seq<bv32>, i: nat)
    requires i < |w|
    ensures var v := WordsBytes(w);
            v[4 * i] == ByteOf32(w[i], 0) && v[4 * i + 1] == ByteOf32(w[i], 1) &&
            v[4 * i + 2] == ByteOf32(w[i], 2) && v[4 * i + 3] == ByteOf32(w[i], 3)
  {
  }

  lemma LE4OfWord(a: bv8, b: bv8, c: bv8, d: bv8, x: bv32)
    requires a == ByteOf32(x, 0) && b == ByteOf32(x, 1) && c == ByteOf32(x, 2) && d == ByteOf32(x, 3)
    ensures x == LE4(a, b, c, d)
  {
    WordBytes(x);
  }

  lemma WordsBlock(w: seq<bv32>, i: nat)
    requires i < |w|
    ensures w[i] == BytesBlock32(WordsBytes(w), i)
  {
    var v := WordsBytes(w);
    WordsIndices(w, i);
    LE4OfWord(v[4 * i], v[4 * i + 1], v[4 * i + 2], v[4 * i + 3], w[i]);
  }

  lemma HalvesIndices(h: seq<bv16>, i: nat)
    requires 2 * i + 1 < |h|
    ensures var v := HalvesBytes(h);
            v[4 * i] == ByteOf16(h[2 * i], 0) && v[4 * i + 1] == ByteOf16(h[2 * i], 1) &&
            v[4 * i + 2] == ByteOf16(h[2 * i + 1], 0) && v[4 * i + 3] == ByteOf16(h[2 * i + 1], 1)
  {
  }

  lemma LE4OfHalves(a: bv8, b: bv8, c: bv8, d: bv8, x: bv16, y: bv16)
    requires a == ByteOf16(x, 0) && b == ByteOf16(x, 1) && c == ByteOf16(y, 0) && d == ByteOf16(y, 1)
    ensures (x as bv32) | ((y as bv32) << 16) == LE4(a, b, c, d)
  {
    HalfBytes(x, y);
  }

  lemma HalvesBlock(h: seq<bv16>, i: nat)
    requires 2 * i + 1 < |h|
    ensures HalvesBlock32(h, i) == BytesBlock32(HalvesBytes(h), i)
  {
    var v := HalvesBytes(h);
    HalvesIndices(h, i);
    LE4OfHalves(v[4 * i], v[4 * i + 1], v[4 * i + 2], v[4 * i + 3], h[2 * i], h[2 * i + 1]);
  }

  lemma LongsOffsets(m: nat, o: nat)
    requires o < 8
    ensures (8 * m + o) / 8 == m && (8 * m + o) % 8 == o
  {
  }

  lemma LongsLowIndices(l: seq<bv64>, m: nat)
    requires m < |l|
    ensures var v := LongsBytes(l);
            v[8 * m] == ByteOf64(l[m], 0) && v[8 * m + 1] == ByteOf64(l[m], 1) &&
            v[8 * m + 2] == ByteOf64(l[m], 2) && v[8 * m + 3] == ByteOf64(l[m], 3)
  {
    LongsOffsets(m, 0);
    LongsOffsets(m, 1);
    LongsOffsets(m, 2);
    LongsOffsets(m, 3);
  }

  lemma LongsHighIndices(l: seq<bv64>, m: nat)
    requires m < |l|
    ensures var v := LongsBytes(l);
            v[8 * m + 4] == ByteOf64(l[m], 4) && v[8 * m + 5] == ByteOf64(l[m], 5) &&
            v[8 * m + 6] == ByteOf64(l[m], 6) && v[8 * m + 7] == ByteOf64(l[m], 7)
  {
    LongsOffsets(m, 4);
    LongsOffsets(m, 5);
    LongsOffsets(m, 6);
    LongsOffsets(m, 7);
  }

  lemma LE4OfLowHalf(a: bv8, b: bv8, c: bv8, d: bv8, x: bv64)
    requires a == ByteOf64(x, 0) && b == ByteOf64(x, 1) && c == ByteOf64(x, 2) && d == ByteOf64(x, 3)
    ensures (x & 0xFFFF_FFFF) as bv32 == LE4(a, b, c, d)
  {
    LongBytes(x);
  }

  lemma LE4OfHighHalf(a: bv8, b: bv8, c: bv8, d: bv8, x: bv64)
    requires a == ByteOf64(x, 4) && b == ByteOf64(x, 5) && c == ByteOf64(x, 6) && d == ByteOf64(x, 7)
    ensures ((x >> 32) & 0xFFFF_FFFF) as bv32 == LE4(a, b, c, d)
  {
    LongBytes(x);
  }

  lemma LongsLowBlock(l: seq<bv64>, m: nat)
    requires m < |l|
    ensures (l[m] & 0xFFFF_FFFF) as bv32 == BytesBlock32(LongsBytes(l), 2 * m)
  {
    var v := LongsBytes(l);
    LongsLowIndices(l, m);
    LE4OfLowHalf(v[8 * m], v[8 * m + 1], v[8 * m + 2], v[8 * m + 3], l[m]);
  }

  lemma LongsHighBlock(l: seq<bv64>, m: nat)
    requires m < |l|
    ensures ((l[m] >> 32) & 0xFFFF_FFFF) as bv32 == BytesBlock32(LongsBytes(l), 2 * m + 1)
  {
    var v := LongsBytes(l);
    LongsHighIndices(l, m);
    LE4OfHighHalf(v[8 * m + 4], v[8 * m + 5], v[8 * m + 6], v[8 * m + 7], l[m]);
  }

  lemma LongsBlock(l: seq<bv64>, i: nat)
    requires i / 2 < |l|
    ensures LongsBlock32(l, i) == BytesBlock32(LongsBytes(l), i)
  {
    var m := i / 2;
    if i % 2 == 0 {
      assert i == 2 * m;
      LongsLowBlock(l, m);
    } else {
      assert i == 2 * m + 1;
      LongsHighBlock(l, m);
    }
  }

  /** Every helper's `GetBlock32(i)` is block `i` of the byte view. */
  lemma BlockIsViewBlock(e: Elements, i: nat)
    requires WellFormed(e) && 4 * i + 4 <= ByteLength(e)
    ensures GetBlock32(e, i) == BytesBlock32(ByteView(e), i)
  {
    match e
    case Bytes(_) =>
    case Wide(_, _) =>
    case Words(w) => WordsBlock(w, i);
    case Halves(h) => HalvesBlock(h, i);
    case Longs(l) => LongsBlock(l, i);
  }

  /** The blocks of a byte buffer. */
  function BytesBlocks(v: seq<bv8>): (r: seq<bv32>)
    ensures |r| == |v| / 4
  {
    seq(|v| / 4, i requires 0 <= i < |v| / 4 => BytesBlock32(v, i))
  }

  /** The helper's blocks are the blocks of the byte view. */
  lemma BlocksAreViewBlocks(e: Elements)
    requires WellFormed(e)
    ensures Blocks(e) == BytesBlocks(ByteView(e))
  {
    var b, c := Blocks(e), BytesBlocks(ByteView(e));
    forall i | 0 <= i < |b|
      ensures b[i] == c[i]
    {
      BlockIsViewBlock(e, i);
    }
  }

  /** The reference consumes block `k` and moves on to the bytes after it. */
  lemma RefBodyStep(h: bv32, v: seq<bv8>, k: nat)
    requires 4 * k + 4 <= |v|
    ensures RefBody(h, v[4 * k..]) == RefBody(Round(h, BytesBlock32(v, k)), v[4 * k + 4..])
  {
    var rest := v[4 * k..];
    assert rest[4..] == v[4 * k + 4..];
    assert LE4(rest[0], rest[1], rest[2], rest[3]) == BytesBlock32(v, k);
  }

  /** The body over the first `k` blocks leaves the reference the rest of the bytes. */
  lemma {:induction false} BytesBodyIsRefBody(v: seq<bv8>, seed: bv32, k: nat)
    requires 4 * k <= |v|
    ensures RefBody(BlocksBody(seed, BytesBlocks(v), k), v[4 * k..]) == RefBody(seed, v)
  {
    if k == 0 {
      assert v[0..] == v;
    } else {
      var bs := BytesBlocks(v);
      BytesBodyIsRefBody(v, seed, k - 1);
      RefBodyStep(BlocksBody(seed, bs, k - 1), v, k - 1);
      assert bs[k - 1] == BytesBlock32(v, k - 1);
    }
  }

  /** Fewer than four bytes leave the reference's body where it is. */
  lemma RefBodyOfShort(h: bv32, d: seq<bv8>)
    requires |d| < 4
    ensures RefBody(h, d) == h
  {
  }

  /** All `len / 4` blocks of the helper give the reference's body. */
  lemma BodyIsRefBody(e: Elements, seed: bv32)
    requires WellFormed(e)
    ensures var v := ByteView(e); RefBody(seed, v) == BodyUpTo(e, seed, |v| / 4)
  {
    var v := ByteView(e);
    var k := |v| / 4;
    BlocksAreViewBlocks(e);
    BytesBodyIsRefBody(v, seed, k);
    RefBodyOfShort(BlocksBody(seed, BytesBlocks(v), k), v[4 * k..]);
  }

  /** An element width that is a multiple of 4 leaves no tail. */
  lemma AlignedWidthHasNoTail(e: Elements)
    requires ElementSize(e) % 4 == 0
    ensures ByteLength(e) % 4 == 0
  {
    MultipleOfFour(Count(e), ElementSize(e));
  }

  lemma MultipleOfFour(c: nat, s: nat)
    requires s % 4 == 0
    ensures (c * s) % 4 == 0
  {
    assert c * s == 4 * (c * (s / 4));
  }

  /** Each tail byte the helper reads is the same tail byte of the byte view. */
  lemma TailByteIsViewByte(e: Elements, t: nat)
    requires WellFormed(e) && !e.Words? && !e.Longs? && t < ByteLength(e) % 4
    ensures TailByte(e, t) == TailBytes(e)[t]
  {
    var n := ByteLength(e);
    var v := ByteView(e);
    assert v[n - n % 4..][t] == v[n - n % 4 + t];
    if e.Halves? {
      var h := e.halves;
      assert n % 4 == 2 && n - n % 4 + t == 2 * (|h| - 1) + t;
    }
  }

  /** The helper's tail bytes are the tail of the byte view. */
  lemma HelperTailIsTailBytes(e: Elements)
    requires WellFormed(e) && !e.Words? && !e.Longs?
    ensures HelperTail(e) == TailBytes(e)
  {
    var a, b := HelperTail(e), TailBytes(e);
    forall t | 0 <= t < |a|
      ensures a[t] == b[t]
    {
      TailByteIsViewByte(e, t);
    }
  }

  /** The fall-through `switch` over the tail bytes `t`. */
  function TailBytesFallThrough(t: seq<bv8>): bv32
    requires 1 <= |t| < 4
  {
    if |t| == 1 then FallThrough(1, t[0] as bv32, 0, 0)
    else if |t| == 2 then FallThrough(2, t[0] as bv32, t[1] as bv32, 0)
    else FallThrough(3, t[0] as bv32, t[1] as bv32, t[2] as bv32)
  }

  /** The reference's tail word, written as the fall-through `switch` accumulates it. */
  lemma RefTailWordFallsThrough(t: seq<bv8>)
    requires 1 <= |t| < 4
    ensures RefTailWord(t) == TailBytesFallThrough(t)
  {
    var padded := t + seq(4 - |t|, _ => 0 as bv8);
    assert padded[3] == 0;
    if |t| == 1 {
      assert padded[1] == 0 && padded[2] == 0;
      OneTailByte(t[0]);
    } else if |t| == 2 {
      assert padded[1] == t[1] && padded[2] == 0;
      TwoTailBytes(t[0], t[1]);
    } else {
      assert padded[1] == t[1] && padded[2] == t[2];
      ThreeTailBytes(t[0], t[1], t[2]);
    }
  }

  /** The last `len & 3` bytes of the byte view. */
  function TailBytes(e: Elements): (r: seq<bv8>)
    requires WellFormed(e)
    ensures |r| == ByteLength(e) % 4
  {
    var n := ByteLength(e);
    ByteView(e)[n - n % 4..]
  }

  /** The fall-through tail word is the little-endian word of the tail bytes. */
  lemma TailWordIsRefTailWord(e: Elements)
    requires WellFormed(e) && ElementSize(e) % 4 != 0 && ByteLength(e) % 4 != 0
    ensures TailWord(e) == RefTailWord(TailBytes(e))
  {
    HelperTailIsTailBytes(e);
    RefTailWordFallsThrough(TailBytes(e));
  }

  /**
   * With the tail folded in whenever the width leaves one, the hash of any
   * element array is the reference hash of its bytes.
   */
  lemma IntendedHashIsReference(e: Elements, seed: bv32)
    requires WellFormed(e) && ByteLength(e) < 0x8000_0000
    ensures IntendedHash(e, seed) == ReferenceHash(ByteView(e), seed)
  {
    UnfinishedIsRefUnfinished(e, seed);
  }

  lemma UnfinishedIsRefUnfinished(e: Elements, seed: bv32)
    requires WellFormed(e) && ByteLength(e) < 0x8000_0000
    ensures Unfinished(e, seed, ElementSize(e) % 4 != 0) == RefUnfinished(ByteView(e), seed)
  {
    if ElementSize(e) % 4 == 0 || ByteLength(e) % 4 == 0 {
      UnfinishedWithoutTail(e, seed);
    } else {
      UnfinishedWithTail(e, seed);
      RefUnfinishedWithHelperTail(e, seed);
    }
  }

  /** Without tail bytes to fold in, both sides are the body. */
  lemma UnfinishedWithoutTail(e: Elements, seed: bv32)
    requires WellFormed(e) && ByteLength(e) < 0x8000_0000
    requires ElementSize(e) % 4 == 0 || ByteLength(e) % 4 == 0
    ensures Unfinished(e, seed, ElementSize(e) % 4 != 0) == RefUnfinished(ByteView(e), seed)
  {
    if ElementSize(e) % 4 == 0 {
      AlignedWidthHasNoTail(e);
    }
    assert BlockCount(ByteLength(e)) == ByteLength(e) / 4;
    BodyIsRefBody(e, seed);
    RefUnfinishedWithoutTail(ByteView(e), seed);
  }

  /** With tail bytes, the helper folds its tail word into the reference's body. */
  lemma UnfinishedWithTail(e: Elements, seed: bv32)
    requires WellFormed(e) && ByteLength(e) < 0x8000_0000
    requires ElementSize(e) % 4 != 0 && ByteLength(e) % 4 != 0
    ensures Unfinished(e, seed, true) == MixTail(RefBody(seed, ByteView(e)), TailWord(e))
  {
    assert BlockCount(ByteLength(e)) == ByteLength(e) / 4;
    BodyIsRefBody(e, seed);
  }

  /** With tail bytes, the reference folds the same tail word into its body. */
  lemma RefUnfinishedWithHelperTail(e: Elements, seed: bv32)
    requires WellFormed(e) && ElementSize(e) % 4 != 0 && ByteLength(e) % 4 != 0
    ensures RefUnfinished(ByteView(e), seed) == MixTail(RefBody(seed, ByteView(e)), TailWord(e))
  {
    TailWordIsRefTailWord(e);
    RefUnfinishedWithTail(ByteView(e), seed);
  }

  lemma RefUnfinishedWithoutTail(data: seq<bv8>, seed: bv32)
    requires |data| % 4 == 0
    ensures RefUnfinished(data, seed) == RefBody(seed, data)
  {
    assert |data[|data|..]| == 0;
  }

  lemma RefUnfinishedWithTail(data: seq<bv8>, seed: bv32)
    requires |data| % 4 != 0
    ensures var n := |data|; RefUnfinished(data, seed) == MixTail(RefBody(seed, data), RefTailWord(data[n - n % 4..]))
  {
  }

  /**
   * `HeartMurmurHash3` as written matches the reference for every element
   * width up to 4 and every multiple of 4: all the widths the source's
   * tests hash, and the `string_view` overload.
   */
  lemma HeartHashMatchesReference(e: Elements, seed: bv32)
    requires WellFormed(e) && ByteLength(e) < 0x8000_0000
    requires ElementSize(e) < 4 || ElementSize(e) % 4 == 0
    ensures HeartHash(e, seed) == ReferenceHash(ByteView(e), seed)
  {
    HeartHashIsIntendedForNarrowOrAligned(e, seed);
    IntendedHashIsReference(e, seed);
  }

  /** One element of a 6-byte type, all zero. */
  const SixZero: Elements := Wide(6, [[0, 0, 0, 0, 0, 0]])
  /** One element of a 6-byte type whose last byte is 1. */
  const SixOne: Elements := Wide(6, [[0, 0, 0, 0, 0, 1]])

  lemma SixByteViews()
    ensures WideBytes(6, SixZero.items) == [0, 0, 0, 0, 0, 0]
    ensures WideBytes(6, SixOne.items) == [0, 0, 0, 0, 0, 1]
  {
    var z, o := WideBytes(6, SixZero.items), WideBytes(6, SixOne.items);
    forall j | 0 <= j < 6
      ensures z[j] == SixZero.items[0][j] && o[j] == SixOne.items[0][j]
    {
      assert j / 6 == 0 && j % 6 == j;
    }
  }

  lemma SixBodies(seed: bv32)
    ensures BodyUpTo(SixZero, seed, 1) == Round(seed, 0)
    ensures BodyUpTo(SixOne, seed, 1) == Round(seed, 0)
  {
    SixByteViews();
    assert LE4(0, 0, 0, 0) == 0;
    var z, o := Blocks(SixZero), Blocks(SixOne);
    assert z[0] == GetBlock32(SixZero, 0) == 0;
    assert o[0] == GetBlock32(SixOne, 0) == 0;
    assert BlocksBody(seed, z, 1) == Round(BlocksBody(seed, z, 0), z[0]);
    assert BlocksBody(seed, o, 1) == Round(BlocksBody(seed, o, 0), o[0]);
  }

  lemma SixTails()
    ensures TailWord(SixZero) == 0
    ensures TailWord(SixOne) == 0x100
  {
    SixByteViews();
    assert TailBytes(SixZero) == [0, 0];
    assert TailBytes(SixOne) == [0, 1];
    HelperTailIsTailBytes(SixZero);
    HelperTailIsTailBytes(SixOne);
    assert TailBytesFallThrough([0, 0]) == 0;
    assert TailBytesFallThrough([0, 1]) == 0x100;
  }

  /**
   * As written, an element type of 6 bytes hashes one element by its
   * first four bytes only: two elements that differ in their last byte
   * collide, whatever the seed.
   */
  lemma WideTailIgnored(seed: bv32)
    ensures HeartHash(SixZero, seed) == HeartHash(SixOne, seed)
  {
    assert BlockCount(6) == 1;
    SixBodies(seed);
  }

  lemma SixZeroUnfinished(seed: bv32)
    ensures Unfinished(SixZero, seed, true) == MixTail(Round(seed, 0), 0)
  {
    assert BlockCount(6) == 1;
    SixBodies(seed);
    SixTails();
  }

  lemma SixOneUnfinished(seed: bv32)
    ensures Unfinished(SixOne, seed, true) == MixTail(Round(seed, 0), 0x100)
  {
    assert BlockCount(6) == 1;
    SixBodies(seed);
    SixTails();
  }

  /** Folding the tail words 0 and 0x100 into the same state gives different states. */
  lemma TailWordsMixApart(h: bv32)
    ensures MixTail(h, 0) != MixTail(h, 0x100)
  {
    assert Mix(0) == 0;
    assert Mix(0x100) == 0x58a6f7a2;
  }

  /**
   * With the tail folded in, as intended, the same two elements reach
   * different states before the final avalanche, whatever the seed.
   */
  lemma IntendedStateSeesWideTail(seed: bv32)
    ensures Unfinished(SixZero, seed, true) != Unfinished(SixOne, seed, true)
  {
    SixZeroUnfinished(seed);
    SixOneUnfinished(seed);
    TailWordsMixApart(Round(seed, 0));
  }

  /** The `string_view` overload: the byte-array hash of the characters. */
  function HashString(s: seq<bv8>, seed: bv32): (r: bv32)
    ensures r == IntendedHash(Bytes(s), seed) && r == HeartHash(Bytes(s), seed)
  {
    HeartHashIsIntendedForNarrowOrAligned(Bytes(s), seed);
    IntendedHash(Bytes(s), seed)
  }
}
