/**
 * The mixing primitives of MurmurHash3_x86_32 as `HeartMurmurHash3`
 * (heart/heart-core/include/heart/hash/murmur.h) spells them, the
 * little-endian byte views, and the bit-level facts that relate the
 * views.
 */
module MurmurMix {
  /** `k1 *= c1; k1 = rotl(k1, 15); k1 *= c2`, with `c1 = 0xcc9e2d51` and `c2 = 0x1b873593`. */
  function Mix(k: bv32): bv32
  {
    (k * 0xcc9e2d51).RotateLeft(15) * 0x1b873593
  }

  /** One block folded into `h1`: `h1 ^= k1; h1 = rotl(h1, 13); h1 = h1 * 5 + 0xe6546b64`. */
  function Round(h: bv32, k: bv32): bv32
  {
    (h ^ Mix(k)).RotateLeft(13) * 5 + 0xe6546b64
  }

  /** The finalisation mix `fmix32`: shifts 16, 13, 16 and multipliers `0x85ebca6b`, `0xc2b2ae35`. */
  function FMix(h: bv32): bv32
  {
    var a := h ^ (h >> 16);
    var b := a * 0x85ebca6b;
    var c := b ^ (b >> 13);
    var d := c * 0xc2b2ae35;
    d ^ (d >> 16)
  }

  /** The tail word folded into `h1`: `k1` mixed as a block is, then `h1 ^= k1`. */
  function MixTail(h: bv32, k: bv32): bv32
  {
    h ^ Mix(k)
  }

  /** Four bytes as a little-endian word. */
  function LE4(a: bv8, b: bv8, c: bv8, d: bv8): bv32
  {
    (a as bv32) | ((b as bv32) << 8) | ((c as bv32) << 16) | ((d as bv32) << 24)
  }

  function ByteOf16(x: bv16, k: nat): bv8
    requires k < 2
  {
    if k == 0 then (x & 0xFF) as bv8
    else ((x >> 8) & 0xFF) as bv8
  }

  function ByteOf32(x: bv32, k: nat): bv8
    requires k < 4
  {
    if k == 0 then (x & 0xFF) as bv8
    else if k == 1 then ((x >> 8) & 0xFF) as bv8
    else if k == 2 then ((x >> 16) & 0xFF) as bv8
    else ((x >> 24) & 0xFF) as bv8
  }

  function ByteOf64(x: bv64, k: nat): bv8
    requires k < 8
  {
    if k == 0 then (x & 0xFF) as bv8
    else if k == 1 then ((x >> 8) & 0xFF) as bv8
    else if k == 2 then ((x >> 16) & 0xFF) as bv8
    else if k == 3 then ((x >> 24) & 0xFF) as bv8
    else if k == 4 then ((x >> 32) & 0xFF) as bv8
    else if k == 5 then ((x >> 40) & 0xFF) as bv8
    else if k == 6 then ((x >> 48) & 0xFF) as bv8
    else ((x >> 56) & 0xFF) as bv8
  }

  /** `h1 ^= len`: the length as a `uint32_t`. */
  function Len32(n: nat): bv32
  {
    (n % 0x1_0000_0000) as bv32
  }

  /** The finalisation: `h1 ^= len`, then `fmix32`. */
  function Finish(h: bv32, n: nat): bv32
  {
    FMix(h ^ Len32(n))
  }

  /** `k1` after the cases `r`, ..., 1 of the `switch`, given tail bytes `a`, `b`, `c`. */
  function FallThrough(r: nat, a: bv32, b: bv32, c: bv32): bv32
  {
    (if r == 3 then c << 16 else 0) ^ (if r >= 2 then b << 8 else 0) ^ a
  }

  // Bit-level facts about the little-endian views

  lemma WordBytes(x: bv32)
    ensures LE4(ByteOf32(x, 0), ByteOf32(x, 1), ByteOf32(x, 2), ByteOf32(x, 3)) == x
  {
  }

  lemma HalfWord(x: bv16)
    ensures (ByteOf16(x, 0) as bv32) | ((ByteOf16(x, 1) as bv32) << 8) == x as bv32
  {
  }

  lemma LE4OfHalfWords(a: bv8, b: bv8, c: bv8, d: bv8)
    ensures LE4(a, b, c, d) == ((a as bv32) | ((b as bv32) << 8)) | (((c as bv32) | ((d as bv32) << 8)) << 16)
  {
  }

  lemma HalfBytes(x: bv16, y: bv16)
    ensures LE4(ByteOf16(x, 0), ByteOf16(x, 1), ByteOf16(y, 0), ByteOf16(y, 1)) == (x as bv32) | ((y as bv32) << 16)
  {
    HalfWord(x);
    HalfWord(y);
    LE4OfHalfWords(ByteOf16(x, 0), ByteOf16(x, 1), ByteOf16(y, 0), ByteOf16(y, 1));
  }

  lemma LongBytes(x: bv64)
    ensures LE4(ByteOf64(x, 0), ByteOf64(x, 1), ByteOf64(x, 2), ByteOf64(x, 3)) == (x & 0xFFFF_FFFF) as bv32
    ensures LE4(ByteOf64(x, 4), ByteOf64(x, 5), ByteOf64(x, 6), ByteOf64(x, 7)) == ((x >> 32) & 0xFFFF_FFFF) as bv32
  {
  }


  // The tail words: one, two or three bytes padded with zero bytes, read
  // little-endian, are the word the fall-through `switch` accumulates.

  lemma OneTailByte(a: bv8)
    ensures LE4(a, 0, 0, 0) == FallThrough(1, a as bv32, 0, 0)
  {
  }

  lemma TwoTailBytes(a: bv8, b: bv8)
    ensures LE4(a, b, 0, 0) == FallThrough(2, a as bv32, b as bv32, 0)
  {
  }

  lemma ThreeTailBytes(a: bv8, b: bv8, c: bv8)
    ensures LE4(a, b, c, 0) == FallThrough(3, a as bv32, b as bv32, c as bv32)
  {
  }
}
