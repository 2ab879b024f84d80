/**
 * The byte streams of heart/heart-core/include/heart/stream.h.
 *
 * `HeartStreamWriter` copies the bytes of trivially copyable values into a
 * caller's buffer at a head that the caller owns (`BufferSizeT& head`), and
 * `HeartStreamReader` hands them back from a head of its own or one the
 * caller passes. A value is its object representation: on the engine's
 * little-endian targets an `n`-byte integer is `LE(x, n)` below, and a
 * pointer is an 8-byte address.
 */
module Stream {
  import opened Wrappers
  import opened Bytes

  /** `sizeof(T*)` on the engine's 64-bit targets. */
  const PointerSize: nat := 8

  /** A `BufferSizeT` variable that a writer or reader advances in place. */
  class Cursor {
    var value: nat

    constructor (v: nat)
      ensures value == v
    {
      value := v;
    }
  }

  /** `buf` with the bytes `v` copied over it at `h` (`memcpy(buf + h, v, |v|)`). */
  function Overwrite(buf: seq<bv8>, h: nat, v: seq<bv8>): (r: seq<bv8>)
    requires h + |v| <= |buf|
    ensures |r| == |buf| && r[h..h + |v|] == v
    ensures r[..h] == buf[..h] && r[h + |v|..] == buf[h + |v|..]
  {
    buf[..h] + v + buf[h + |v|..]
  }

  /** `Check(w)`: at least `w` bytes are left between the head and the end of the buffer. */
  predicate Fits(size: nat, head: nat, w: nat)
    requires head <= size
  {
    size - head >= w
  }

  class Writer {
    /** `m_buffer`. */
    const buffer: array<bv8>
    /** `m_head`: the caller's head variable. */
    const head: Cursor
    /** `m_size`. */
    const size: nat

    ghost predicate Valid()
      reads this, head
    {
      size == buffer.Length && head.value <= size
    }

    /** `HeartStreamWriter(buffer, size, head)`: `size` must be the buffer's length and the head within it. */
    constructor (b: array<bv8>, n: nat, h: Cursor)
      requires h.value <= n == b.Length
      ensures buffer == b && size == n && head == h && Valid()
    {
      buffer := b;
      size := n;
      head := h;
    }

    /** The array constructor: the capacity is the array length `N`. */
    constructor FromArray(b: array<bv8>, h: Cursor)
      requires h.value <= b.Length
      ensures buffer == b && size == b.Length && head == h && Valid()
    {
      buffer := b;
      size := b.Length;
      head := h;
    }

    /**
     * `Write(v)`, given the `sizeof(T)` bytes of `v`: copies them at the
     * head and advances it when they fit, and touches nothing otherwise.
     */
    method Write(v: seq<bv8>) returns (ok: bool)
      requires Valid()
      modifies buffer, head
      ensures Valid()
      ensures ok <==> Fits(size, old(head.value), |v|)
      ensures ok ==> buffer[..] == Overwrite(old(buffer[..]), old(head.value), v)
      ensures ok ==> head.value == old(head.value) + |v|
      ensures !ok ==> buffer[..] == old(buffer[..]) && head.value == old(head.value)
    {
      if !Fits(size, head.value, |v|) {
        return false;
      }
      var h := head.value;
      forall i | 0 <= i < |v| {
        buffer[h + i] := v[i];
      }
      assert buffer[..] == Overwrite(old(buffer[..]), h, v);
      head.value := h + |v|;
      ok := true;
    }

    /**
     * `Write(v, count)` for a `T* v`: both the check and the copy use
     * `sizeof(v) * count`, the size of a pointer times `count`, whatever
     * `T` is. `memory` is what lies at `v` onwards.
     */
    method WriteScaled(memory: seq<bv8>, count: nat) returns (ok: bool)
      requires Valid()
      requires Fits(size, head.value, PointerSize * count) ==> PointerSize * count <= |memory|
      modifies buffer, head
      ensures Valid()
      ensures ok <==> Fits(size, old(head.value), PointerSize * count)
      ensures ok ==> buffer[..] == Overwrite(old(buffer[..]), old(head.value), memory[..PointerSize * count])
      ensures ok ==> head.value == old(head.value) + PointerSize * count
      ensures !ok ==> buffer[..] == old(buffer[..]) && head.value == old(head.value)
    {
      var w := PointerSize * count;
      if !Fits(size, head.value, w) {
        return false;
      }
      ok := Write(memory[..w]);
    }
  }

  class Reader {
    /** `m_buffer`. */
    const buffer: array<bv8>
    /** `m_head`: the caller's head, or the reader's own `m_headInternal`. */
    const head: Cursor

    /** `HeartStreamReader(buffer)`: an internal head starting at 0. */
    constructor (b: array<bv8>)
      ensures buffer == b && fresh(head) && head.value == 0
    {
      buffer := b;
      head := new Cursor(0);
    }

    /** `HeartStreamReader(buffer, readHead)`: the caller's head, or an internal one at 0 when it is null. */
    constructor WithHead(b: array<bv8>, readHead: Option<Cursor>)
      ensures buffer == b
      ensures readHead.Some? ==> head == readHead.value
      ensures readHead.None? ==> fresh(head) && head.value == 0
    {
      buffer := b;
      if readHead.Some? {
        head := readHead.value;
      } else {
        head := new Cursor(0);
      }
    }

    /** `Read<T>(Copy)`: the `sizeof(T)` bytes at the head, which moves past them. */
    method ReadCopy(n: nat) returns (r: seq<bv8>)
      requires head.value + n <= buffer.Length
      modifies head
      ensures r == buffer[old(head.value)..old(head.value) + n]
      ensures head.value == old(head.value) + n
    {
      r := buffer[head.value..head.value + n];
      head.value := head.value + n;
    }

    /** `Read<T>(GetPtr)`: the offset of the head, which moves past `sizeof(T)` bytes. */
    method ReadPtr(n: nat) returns (p: nat)
      modifies head
      ensures p == old(head.value) && head.value == old(head.value) + n
    {
      p := head.value;
      head.value := head.value + n;
    }
  }

  /**
   * A value written at head `h` and read back with `Read<T>(Copy)` from a
   * reader whose head is also `h` comes back unchanged; a value that does
   * not fit is not written.
   */
  method WriteThenRead(b: array<bv8>, h: nat, v: seq<bv8>) returns (ok: bool, r: seq<bv8>)
    requires h <= b.Length
    modifies b
    ensures ok <==> h + |v| <= b.Length
    ensures ok ==> r == v
  {
    var writeHead := new Cursor(h);
    var w := new Writer(b, b.Length, writeHead);
    ok := w.Write(v);
    r := [];
    if ok {
      var readHead := new Cursor(h);
      var reader := new Reader.WithHead(b, Some(readHead));
      r := reader.ReadCopy(|v|);
    }
  }

  // ---------------------------------------------------------------------
  // Object representations of integers

  function Pow256(n: nat): (r: nat)
    ensures r >= 1
  {
    if n == 0 then 1 else 256 * Pow256(n - 1)
  }

  /** The quotient by 256 of a number below `256^n` is below `256^(n-1)`. */
  lemma QuotientBound(x: nat, n: nat)
    requires n > 0 && x < Pow256(n)
    ensures x / 256 < Pow256(n - 1)
  {
    var p := Pow256(n - 1);
    assert x < 256 * p;
  }

  /** The `n` bytes of an unsigned integer, least significant first. */
  function LE(x: nat, n: nat): (r: seq<bv8>)
    requires x < Pow256(n)
    ensures |r| == n
  {
    if n == 0 then []
    else
      QuotientBound(x, n);
      [(x % 256) as bv8] + LE(x / 256, n - 1)
  }

  /** The unsigned integer whose bytes, least significant first, are `b`. */
  function FromLE(b: seq<bv8>): (r: nat)
    ensures r < Pow256(|b|)
  {
    if b == [] then 0
    else
      var rest := FromLE(b[1..]);
      assert rest <= Pow256(|b| - 1) - 1;
      assert 256 * rest <= 256 * Pow256(|b| - 1) - 256;
      b[0] as nat + 256 * rest
  }

  /** Reading an integer back from its bytes gives it back. */
  lemma {:induction false} FromLEOfLE(x: nat, n: nat)
    requires x < Pow256(n)
    ensures FromLE(LE(x, n)) == x
  {
    if n > 0 {
      QuotientBound(x, n);
      var q, d := x / 256, x % 256;
      FromLEOfLE(q, n - 1);
      var b := LE(x, n);
      assert b[1..] == LE(q, n - 1);
      ByteCast(d);
      assert x == d + 256 * q;
      assert FromLE(b) == b[0] as nat + 256 * FromLE(b[1..]);
    }
  }

  /** A low digit and the rest of a base-256 number are its remainder and quotient. */
  lemma Digit(d: nat, rest: nat)
    requires d < 256
    ensures (d + 256 * rest) % 256 == d && (d + 256 * rest) / 256 == rest
  {
  }

  /** Every byte string is the representation of the integer it denotes. */
  lemma {:induction false} LEOfFromLE(b: seq<bv8>)
    ensures LE(FromLE(b), |b|) == b
  {
    if b != [] {
      var rest := FromLE(b[1..]);
      LEOfFromLE(b[1..]);
      Digit(b[0] as nat, rest);
      var x := FromLE(b);
      assert x == b[0] as nat + 256 * rest;
      assert LE(x, |b|) == [(x % 256) as bv8] + LE(rest, |b| - 1);
    }
  }

  /** An `int64_t`'s bytes: two's complement. */
  function SignedLE(x: int, n: nat): (r: seq<bv8>)
    requires n > 0 && -(Pow256(n) as int) / 2 <= x < Pow256(n) / 2
    ensures |r| == n
  {
    LE(if x < 0 then x + Pow256(n) else x, n)
  }

  /** The signed integer whose two's-complement bytes are `b`. */
  function FromSignedLE(b: seq<bv8>): (r: int)
    requires b != []
    ensures -(Pow256(|b|) as int) / 2 <= r < Pow256(|b|) / 2
  {
    var u := FromLE(b);
    if u >= Pow256(|b|) / 2 then u - Pow256(|b|) else u
  }

  lemma FromSignedLEOfSignedLE(x: int, n: nat)
    requires n > 0 && -(Pow256(n) as int) / 2 <= x < Pow256(n) / 2
    ensures FromSignedLE(SignedLE(x, n)) == x
  {
    FromLEOfLE(if x < 0 then x + Pow256(n) else x, n);
  }
}
