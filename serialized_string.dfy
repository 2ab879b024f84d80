/**
 * `SerializedString<N>` (heart/heart-core/include/heart/codegen/codegen.h):
 * a fixed `char buffer[N]`, zero-initialised, holding a NUL-terminated
 * string that `Set`, `operator=` and the `const char*` constructor overwrite
 * with `strcpy_s`.
 */
module SerializedString {
  import CodegenScan

  const Nul: char := 0 as char

  /** A C string's characters: no NUL inside. */
  predicate NoNul(s: string)
  {
    forall i :: 0 <= i < |s| ==> s[i] != Nul
  }

  /** What a reader of the buffer as a C string sees: everything before the first NUL (all of it if none). */
  function CString(buf: seq<char>): (r: string)
    ensures |r| <= |buf| && r == buf[..|r|] && NoNul(r)
    ensures |r| < |buf| ==> buf[|r|] == Nul
  {
    if buf == [] || buf[0] == Nul then [] else [buf[0]] + CString(buf[1..])
  }

  /** A buffer holding `s`, its terminator and anything after reads back as exactly `s`. */
  lemma {:induction false} CStringOfTerminated(s: string, rest: seq<char>)
    requires NoNul(s)
    ensures CString(s + [Nul] + rest) == s
  {
    if s != [] {
      assert (s + [Nul] + rest)[1..] == s[1..] + [Nul] + rest;
      CStringOfTerminated(s[1..], rest);
    }
  }

  /** An all-zero buffer is the empty string. */
  lemma ZeroBufferIsEmpty(buf: seq<char>)
    requires forall i :: 0 <= i < |buf| ==> buf[i] == Nul
    ensures CString(buf) == ""
  {
  }

  /** `SerializedDataPathSize`; the generator's own constant must agree with it. */
  const SerializedDataPathSize: nat := 64

  lemma DataPathSizeAgrees()
    ensures SerializedDataPathSize == CodegenScan.SerializedDataPathSize
  {
  }

  class SerializedString {
    const capacity: nat
    const buffer: array<char>

    ghost predicate Valid()
      reads this
    {
      buffer.Length == capacity
    }

    /** `Get()` / `c_str()`: the buffer read as a C string. */
    function Get(): (r: string)
      reads this, buffer
      ensures |r| <= buffer.Length && NoNul(r)
    {
      CString(buffer[..])
    }

    /** The default constructor: `char buffer[N] = {}`. */
    constructor (n: nat)
      ensures Valid() && capacity == n && fresh(buffer)
      ensures forall i :: 0 <= i < n ==> buffer[i] == Nul
      ensures Get() == ""
    {
      capacity := n;
      buffer := new char[n](_ => Nul);
      new;
      ZeroBufferIsEmpty(buffer[..]);
    }

    /**
     * `Set(c)` and `operator=`: `strcpy_s` copies the characters and the
     * terminator; it demands that they fit (`strlen(c) < N`). The bytes
     * past the terminator take unspecified values (section K.3.7.1.3 of C11;
     * a debug CRT fills them): `fill` supplies them.
     */
    method Set(c: string, fill: seq<char>)
      requires Valid() && NoNul(c) && |c| < capacity && |fill| == capacity - |c| - 1
      modifies buffer
      ensures Valid() && Get() == c
      ensures buffer[..] == c + [Nul] + fill
    {
      ghost var written := c + [Nul] + fill;
      for i := 0 to buffer.Length
        invariant forall k | 0 <= k < i :: buffer[k] == written[k]
      {
        buffer[i] := if i < |c| then c[i] else if i == |c| then Nul else fill[i - |c| - 1];
      }
      assert buffer[..] == written;
      CStringOfTerminated(c, fill);
    }

    /** The `const char*` constructor: a zeroed buffer, then `strcpy_s`, which leaves `fill` after the terminator. */
    constructor FromCString(n: nat, str: string, fill: seq<char>)
      requires NoNul(str) && |str| < n && |fill| == n - |str| - 1
      ensures Valid() && capacity == n && fresh(buffer) && Get() == str
      ensures buffer[..] == str + [Nul] + fill
    {
      capacity := n;
      buffer := new char[n](_ => Nul);
      new;
      Set(str, fill);
    }

    /** `CreateFromCString`: a default value assigned from `str`. */
    static method CreateFromCString(n: nat, str: string, fill: seq<char>) returns (r: SerializedString)
      requires NoNul(str) && |str| < n && |fill| == n - |str| - 1
      ensures fresh(r) && fresh(r.buffer) && r.Valid() && r.capacity == n && r.Get() == str
      ensures r.buffer[..] == str + [Nul] + fill
    {
      r := new SerializedString(n);
      r.Set(str, fill);
    }
  }
}
