/**
 * `heart_priv::HeartVector` (heart/heart-core/include/heart/memory/vector.h):
 * the engine's minimal growable array over a `HeartBaseAllocator`. The
 * fields `m_buffer`, `m_size` and `m_capacity` change in place; the buffer
 * is an `array?`, null until the first allocation and after a `Clear` of a
 * non-empty vector. The growth policy is the one of `hrt::vector`.
 */
module HeartVector {
  import opened StlVector

  class HeartVector<T(0)> {
    var buffer: array?<T>
    var size: nat
    var capacity: nat

    ghost predicate Valid()
      reads this
    {
      size <= capacity &&
      (buffer == null ==> capacity == 0) &&
      (buffer != null ==> buffer.Length == capacity)
    }

    /** `begin()..end()`. */
    function Elements(): (r: seq<T>)
      requires Valid()
      reads this, buffer
      ensures |r| == size
    {
      if buffer == null then [] else buffer[..size]
    }

    /** `HeartVector(alloc)`: no buffer, size and capacity 0. */
    constructor ()
      ensures Valid() && buffer == null && size == 0 && capacity == 0
    {
      buffer, size, capacity := null, 0, 0;
    }

    /**
     * `Reallocate`: a fresh buffer of `newCapacity` slots receives the
     * elements; the size is untouched. Returns the position just past the
     * old capacity.
     */
    method Reallocate(newCapacity: nat) returns (location: nat)
      requires Valid() && size <= newCapacity
      modifies this
      ensures Valid() && fresh(buffer) && capacity == newCapacity && size == old(size)
      ensures Elements() == old(Elements())
      ensures location == old(capacity)
    {
      var originalCap := capacity;
      var originalData := buffer;
      var target := new T[newCapacity];
      var i := 0;
      while i < size && i < newCapacity
        invariant i <= size && i <= newCapacity && unchanged(this)
        invariant originalData != null ==> target[..i] == originalData[..i]
      {
        target[i] := originalData[i];
        i := i + 1;
      }
      capacity := newCapacity;
      buffer := target;
      location := originalCap;
    }

    /** `PushBackGetLocation`: room for one more element, at the old size. */
    method PushBackGetLocation() returns (location: nat)
      requires Valid()
      modifies this
      ensures Valid() && buffer != null && location == old(size) < capacity
      ensures size == old(size) + 1 && capacity == GrownCapacity(old(size), old(capacity))
      ensures buffer[..old(size)] == old(Elements())
      ensures buffer != old(buffer) ==> fresh(buffer)
    {
      if capacity == 0 {
        location := Reallocate(1);
      } else if size < capacity {
        location := size;
      } else {
        location := Reallocate(capacity * 2);
      }
      size := size + 1;
    }

    /** `EmplaceBack`: the new element goes last, the others keep their places. */
    method EmplaceBack(v: T) returns (location: nat)
      requires Valid()
      modifies this, buffer
      ensures Valid() && Elements() == old(Elements()) + [v] && location == old(size)
      ensures capacity == GrownCapacity(old(size), old(capacity))
      ensures buffer != old(buffer) ==> fresh(buffer)
    {
      location := PushBackGetLocation();
      buffer[location] := v;
      assert buffer[..size] == buffer[..location] + [v];
    }

    /**
     * `Clear` and the destructor: an empty vector is left exactly as it is
     * (buffer and capacity included); otherwise the elements are destroyed,
     * the buffer given back, and everything reset.
     */
    method Clear()
      requires Valid()
      modifies this
      ensures Valid() && Elements() == []
      ensures old(size) == 0 ==> buffer == old(buffer) && capacity == old(capacity)
      ensures old(size) > 0 ==> buffer == null && capacity == 0
    {
      if IsEmpty() {
        return;
      }
      buffer, size, capacity := null, 0, 0;
    }

    /** `Reserve(count)` for `count > m_size`: reallocates to exactly `count` slots, keeping every element. */
    method Reserve(count: nat)
      requires Valid() && count > size
      modifies this
      ensures Valid() && fresh(buffer) && capacity == count && Elements() == old(Elements())
    {
      var _ := Reallocate(count);
    }

    /** `IsEmpty()`. */
    function IsEmpty(): (r: bool)
      requires Valid()
      reads this, buffer
      ensures r <==> Elements() == []
    {
      size == 0
    }

    /** `Size()`. */
    function Size(): (r: nat)
      requires Valid()
      reads this, buffer
      ensures r == |Elements()|
    {
      size
    }

    /** `begin()`: the buffer's first slot. */
    function Begin(): nat
    {
      0
    }

    /** `end()`: `begin()` advanced by the size, so the range spans exactly the elements. */
    function End(): (r: nat)
      requires Valid()
      reads this, buffer
      ensures r - Begin() == |Elements()|
    {
      size
    }
  }
}
