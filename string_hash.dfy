/**
 * The string-hash wrappers of heart/heart-core/include/heart/hash/string_hash.h,
 * in the configuration with debug strings (`HEART_INCLUDE_DEBUG_STRINGS`):
 * `HeartConstStringHash` keeps a view of its source string,
 * `HeartStringHash<N>` copies at most `N` of its characters into a
 * zero-initialised `std::array<char, N>`. Characters are bytes.
 */
module StringHashes {
  import opened Wrappers
  import opened Murmur

  /** `HeartInvalidStringHash`: `-1` as a `uint32_t`. */
  const InvalidStringHash: bv32 := 0xFFFF_FFFF

  /** The default `N` of `HeartStringHash`. */
  const DefaultDebugCapacity: nat := 96

  function Min(a: nat, b: nat): nat
  {
    if a <= b then a else b
  }

  /** `HeartMurmurHash3(str)` with the default seed: the value of a hash built from `str`. */
  function HashOf(s: seq<bv8>): bv32
  {
    HashString(s, DefaultSeed)
  }

  /** For every string the engine can hash, the value is the reference MurmurHash3_x86_32 of its bytes. */
  lemma HashOfIsReference(s: seq<bv8>)
    requires |s| < 0x8000_0000
    ensures HashOf(s) == ReferenceHash(s, DefaultSeed)
  {
    HeartHashMatchesReference(Bytes(s), DefaultSeed);
  }

  /** The debug copy of `HeartStringHash<N>`: the first `min(len, N)` characters of `s`. */
  function Truncated(s: seq<bv8>, n: nat): (r: seq<bv8>)
    ensures |r| == Min(|s|, n) && r <= s
    ensures r == s <==> |s| <= n
  {
    if |s| <= n then s else s[..n]
  }

  /** Copying through a capacity `n` and then a capacity `m` keeps what a capacity `min(n, m)` keeps. */
  lemma TruncatedTwice(s: seq<bv8>, n: nat, m: nat)
    ensures Truncated(Truncated(s, n), m) == Truncated(s, Min(n, m))
  {
    var t := Truncated(s, n);
    var lhs, rhs := Truncated(t, m), Truncated(s, Min(n, m));
    assert |lhs| == |rhs|;
    forall i | 0 <= i < |lhs|
      ensures lhs[i] == rhs[i]
    {
      assert lhs[i] == t[i] == s[i];
    }
  }

  /**
   * What `DebugCStringUnsafe()` hands a C reader of the buffer: the bytes
   * before the first NUL, or `None` when the buffer holds no NUL and the
   * reader runs past its end.
   */
  function CStringOf(buf: seq<bv8>): (r: Option<seq<bv8>>)
    ensures r.Some? ==> |r.value| < |buf| && r.value == buf[..|r.value|] && buf[|r.value|] == 0
    ensures r.Some? ==> forall i :: 0 <= i < |r.value| ==> r.value[i] != 0
    ensures r.None? ==> forall i :: 0 <= i < |buf| ==> buf[i] != 0
  {
    if buf == [] then None
    else if buf[0] == 0 then Some([])
    else
      match CStringOf(buf[1..])
      case None => None
      case Some(t) => Some([buf[0]] + t)
  }

  /** No NUL inside. */
  predicate NoNul(s: seq<bv8>)
  {
    forall i :: 0 <= i < |s| ==> s[i] != 0
  }

  /**
   * A NUL-free string copied into a zeroed buffer with room to spare reads
   * back as itself; one that fills the buffer leaves no terminator at all.
   */
  lemma {:induction false} CStringOfCopy(s: seq<bv8>, rest: seq<bv8>)
    requires NoNul(s) && forall i :: 0 <= i < |rest| ==> rest[i] == 0
    ensures rest != [] ==> CStringOf(s + rest) == Some(s)
    ensures rest == [] ==> CStringOf(s + rest) == None
  {
    if s != [] {
      assert (s + rest)[1..] == s[1..] + rest;
      CStringOfCopy(s[1..], rest);
    } else {
      assert s + rest == rest;
    }
  }

  /** `HeartConstStringHash`: the hash value and the viewed string. */
  datatype ConstStringHash = ConstStringHash(value: bv32, debug: seq<bv8>)
  {
    /** `Value()`. */
    function Value(): bv32
    {
      value
    }

    /** `Valid()`: the value is not `HeartInvalidStringHash`. */
    predicate Valid()
    {
      value != InvalidStringHash
    }

    /** `DebugString()`. */
    function DebugString(): seq<bv8>
    {
      debug
    }
  }

  /** The default constructor: the invalid value and an empty view. */
  function ConstDefault(): (r: ConstStringHash)
    ensures !r.Valid() && r.DebugString() == []
  {
    ConstStringHash(InvalidStringHash, [])
  }

  /** The `string_view` constructor: the MurmurHash of the string, which it also views. */
  function ConstFromString(s: seq<bv8>): (r: ConstStringHash)
    ensures r.Value() == HashOf(s) && r.DebugString() == s
    ensures r.Valid() <==> HashOf(s) != InvalidStringHash
  {
    ConstStringHash(HashOf(s), s)
  }

  /** `HeartStringHash<N>`: the hash value and a bounded copy of the string. */
  class StringHash {
    /** `N`. */
    const capacity: nat
    /** `m_value`. */
    var value: bv32
    /** `m_string`. */
    const str: array<bv8>
    /** `m_stringSize`. */
    var size: nat

    ghost predicate WellFormed()
      reads this
    {
      str.Length == capacity && size <= capacity
    }

    /** `Value()`. */
    function Value(): bv32
      reads this
    {
      value
    }

    /** `Valid()`: the value is not `HeartInvalidStringHash`. */
    predicate Valid()
      reads this
    {
      value != InvalidStringHash
    }

    /** `DebugString()`: the first `m_stringSize` characters of the buffer. */
    function DebugString(): (r: seq<bv8>)
      reads this, str
      requires WellFormed()
      ensures |r| == size
    {
      str[..size]
    }

    /** `DebugCStringUnsafe()`: the buffer read as a C string. */
    function DebugCStringUnsafe(): Option<seq<bv8>>
      reads this, str
    {
      CStringOf(str[..])
    }

    /** The default constructor: the invalid value, a zeroed buffer, size 0. */
    constructor Default(n: nat)
      ensures WellFormed() && capacity == n && fresh(str)
      ensures !Valid() && DebugString() == []
      ensures forall i :: 0 <= i < n ==> str[i] == 0
    {
      capacity := n;
      value := InvalidStringHash;
      str := new bv8[n](_ => 0);
      size := 0;
    }

    /**
     * The copy loop shared by the `string_view` constructor and the
     * conversion from `HeartConstStringHash`: `m_stringSize = min(len, N)`
     * and `m_string[i] = v[i]` below it.
     */
    method CopyDebug(s: seq<bv8>)
      requires str.Length == capacity
      modifies this, str
      ensures WellFormed() && size == Min(|s|, capacity)
      ensures DebugString() == Truncated(s, capacity)
      ensures str[size..] == old(str[..])[size..]
      ensures value == old(value)
    {
      size := Min(|s|, str.Length);
      for i := 0 to size
        invariant size == Min(|s|, capacity) && value == old(value)
        invariant str[..i] == s[..i] && str[i..] == old(str[i..])
      {
        str[i] := s[i];
        assert str[..i + 1] == str[..i] + [s[i]];
        assert s[..i + 1] == s[..i] + [s[i]];
      }
    }

    /** The `string_view` constructor: the MurmurHash of `v` and a copy of its first `min(len, N)` characters. */
    constructor FromString(n: nat, v: seq<bv8>)
      ensures WellFormed() && capacity == n && fresh(str)
      ensures Value() == HashOf(v) && DebugString() == Truncated(v, n)
      ensures forall i :: size <= i < n ==> str[i] == 0
    {
      capacity := n;
      value := HashOf(v);
      str := new bv8[n](_ => 0);
      size := 0;
      new;
      CopyDebug(v);
    }

    /** The conversion from `HeartConstStringHash`: its value and a bounded copy of its debug string. */
    constructor FromConst(n: nat, o: ConstStringHash)
      ensures WellFormed() && capacity == n && fresh(str)
      ensures Value() == o.Value() && DebugString() == Truncated(o.DebugString(), n)
      ensures forall i :: size <= i < n ==> str[i] == 0
    {
      capacity := n;
      value := o.Value();
      str := new bv8[n](_ => 0);
      size := 0;
      new;
      CopyDebug(o.DebugString());
    }

    /** The defaulted copy constructor: a member-wise copy, the buffer included. */
    constructor Copy(o: StringHash)
      requires o.WellFormed()
      ensures WellFormed() && capacity == o.capacity && fresh(str)
      ensures value == o.value && size == o.size && str[..] == o.str[..]
    {
      capacity := o.capacity;
      value := o.value;
      str := new bv8[o.capacity](i requires 0 <= i < o.capacity reads o, o.str => o.str[i]);
      size := o.size;
    }
  }

  /** The conversion from `HeartStringHash<N>`: the same value, viewing the other's debug copy. */
  function ConstFromStringHash(o: StringHash): (r: ConstStringHash)
    reads o, o.str
    requires o.WellFormed()
    ensures r.Value() == o.Value() && r.Valid() == o.Valid()
    ensures r.DebugString() == o.DebugString()
  {
    ConstStringHash(o.value, o.DebugString())
  }

  /**
   * A `HeartStringHash<N>` built from a NUL-free string hands C readers
   * that string when it is shorter than `N`, and a buffer with no
   * terminator when it is not.
   */
  lemma UnsafeCStringOfFromString(h: StringHash, v: seq<bv8>)
    requires h.WellFormed() && NoNul(v)
    requires h.DebugString() == Truncated(v, h.capacity)
    requires forall i :: h.size <= i < h.capacity ==> h.str[i] == 0
    ensures |v| < h.capacity ==> h.DebugCStringUnsafe() == Some(v)
    ensures |v| >= h.capacity ==> h.DebugCStringUnsafe() == None
  {
    var copied, rest := h.str[..h.size], h.str[h.size..];
    assert h.str[..] == copied + rest;
    assert NoNul(copied);
    CStringOfCopy(copied, rest);
  }
}
