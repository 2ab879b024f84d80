/**
 * The older `SerializedString<N>` (game/heart-core/include/heart/deserialization_fwd.h):
 * the same zero-initialised `char buffer[N]` overwritten by `strcpy_s`,
 * with `Get()` but no `c_str()`. The C-string reading of a buffer is shared
 * with the newer copy.
 */
module LegacySerializedString {
  import opened SerializedString

  class LegacySerializedString {
    const capacity: nat
    const buffer: array<char>

    ghost predicate Valid()
      reads this
    {
      buffer.Length == capacity
    }

    /** `Get()`: the buffer read as a C string. */
    function Get(): (r: string)
      reads this, buffer
      ensures |r| <= buffer.Length && NoNul(r)
    {
      CString(buffer[..])
    }

    constructor (n: nat)
      ensures Valid() && capacity == n && fresh(buffer)
      ensures forall i :: 0 <= i < n ==> buffer[i] == Nul
      ensures Get() == ""
    {
      capacity := n;
      buffer := new char[n](_ => Nul);
      new;
      ZeroBufferIsEmpty(buffer[..]);
    }

    /**
     * `Set(c)` and `operator=`: `strcpy_s`, which demands `strlen(c) < N`
     * and leaves unspecified bytes, `fill`, after the terminator.
     */
    method Set(c: string, fill: seq<char>)
      requires Valid() && NoNul(c) && |c| < capacity && |fill| == capacity - |c| - 1
      modifies buffer
      ensures Valid() && Get() == c
      ensures buffer[..] == c + [Nul] + fill
    {
      ghost var written := c + [Nul] + fill;
      for i := 0 to buffer.Length
        invariant forall k | 0 <= k < i :: buffer[k] == written[k]
      {
        buffer[i] := if i < |c| then c[i] else if i == |c| then Nul else fill[i - |c| - 1];
      }
      assert buffer[..] == written;
      CStringOfTerminated(c, fill);
    }

    constructor FromCString(n: nat, str: string, fill: seq<char>)
      requires NoNul(str) && |str| < n && |fill| == n - |str| - 1
      ensures Valid() && capacity == n && fresh(buffer) && Get() == str
      ensures buffer[..] == str + [Nul] + fill
    {
      capacity := n;
      buffer := new char[n](_ => Nul);
      new;
      Set(str, fill);
    }

    static method CreateFromCString(n: nat, str: string, fill: seq<char>) returns (r: LegacySerializedString)
      requires NoNul(str) && |str| < n && |fill| == n - |str| - 1
      ensures fresh(r) && fresh(r.buffer) && r.Valid() && r.capacity == n && r.Get() == str
      ensures r.buffer[..] == str + [Nul] + fill
    {
      r := new LegacySerializedString(n);
      r.Set(str, fill);
    }
  }
}
