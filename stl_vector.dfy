/**
 * `hrt::vector` (game/heart-stl/include/heart/stl/vector.h): a growable
 * array whose `capacity_`, `size_` and `data_begin_` change in place. The
 * buffer is an `array?` (null before the first allocation and after
 * `clear`); slots at and past `size_` hold whatever was last written there.
 * Positions (iterators and returned pointers) are indices into the buffer.
 */
module StlVector {

  /** The capacity after `push_back_get_location`: 1 from empty, doubled when full, otherwise unchanged. */
  function GrownCapacity(size: nat, capacity: nat): (r: nat)
    requires size <= capacity
    ensures size < r
    ensures r == capacity || size == capacity
  {
    if capacity == 0 then 1 else if size == capacity then 2 * capacity else capacity
  }

  /** `count` copies of `v`. */
  function Repeat<T>(v: T, count: nat): (r: seq<T>)
    ensures |r| == count && forall i :: 0 <= i < count ==> r[i] == v
  {
    seq(count, _ => v)
  }

  /**
   * What the reallocating branch of `insert_get_location` leaves in the
   * first `size + 1` slots: the elements before the position, the new
   * value, then the rest, shifted up by one.
   */
  function Inserted<T>(s: seq<T>, position: nat, v: T): (r: seq<T>)
    requires position <= |s|
    ensures |r| == |s| + 1 && r[position] == v
    ensures r[..position] == s[..position] && r[position + 1..] == s[position..]
  {
    s[..position] + [v] + s[position..]
  }

  class Vector<T(0)> {
    var capacity: nat
    var size: nat
    var data: array?<T>

    ghost predicate Valid()
      reads this
    {
      size <= capacity &&
      (data == null ==> capacity == 0) &&
      (data != null ==> data.Length == capacity)
    }

    /** The live elements, `begin()..end()`. */
    function Elements(): (r: seq<T>)
      requires Valid()
      reads this, data
      ensures |r| == size
    {
      if data == null then [] else data[..size]
    }

    /** `vector()`: no buffer, nothing held. */
    constructor ()
      ensures Valid() && size == 0 && capacity == 0 && data == null
    {
      capacity, size, data := 0, 0, null;
    }

    /**
     * `reallocate`: a fresh buffer of `newCapacity` slots receives the
     * elements; `size_` is not touched. Returns the position of the first
     * slot past the old capacity.
     */
    method Reallocate(newCapacity: nat) returns (location: nat)
      requires Valid() && size <= newCapacity
      modifies this
      ensures Valid() && fresh(data) && capacity == newCapacity && size == old(size)
      ensures Elements() == old(Elements())
      ensures location == old(capacity)
    {
      var original := data;
      var originalCapacity := capacity;
      var target := new T[newCapacity];
      var i := 0;
      while i < size && i < newCapacity
        invariant i <= size && i <= newCapacity && unchanged(this)
        invariant original != null ==> target[..i] == original[..i]
      {
        target[i] := original[i];
        i := i + 1;
      }
      capacity := newCapacity;
      data := target;
      location := originalCapacity;
      if original != null {
        assert data[..size] == original[..size];
      }
    }

    /**
     * `push_back_get_location`: makes room for one more element and returns
     * its position, which is always the old size. The slot's content is
     * left to the caller.
     */
    method PushBackGetLocation() returns (location: nat)
      requires Valid()
      modifies this
      ensures Valid() && data != null && location == old(size) < capacity
      ensures size == old(size) + 1 && capacity == GrownCapacity(old(size), old(capacity))
      ensures data[..old(size)] == old(Elements())
      ensures old(size) < old(capacity) ==> data == old(data)
      ensures data != old(data) ==> fresh(data)
    {
      if capacity == 0 {
        location := Reallocate(1);
      } else if size == capacity {
        location := Reallocate(2 * capacity);
      } else {
        location := size;
      }
      size := size + 1;
    }

    /** `emplace_back` and `push_back`: the value goes last and the others keep their places. */
    method PushBack(v: T)
      requires Valid()
      modifies this, data
      ensures Valid() && Elements() == old(Elements()) + [v]
      ensures capacity == GrownCapacity(old(size), old(capacity))
      ensures old(size) < old(capacity) ==> data == old(data)
      ensures data != old(data) ==> fresh(data)
    {
      var location := PushBackGetLocation();
      data[location] := v;
      assert data[..size] == data[..location] + [v];
    }

    /**
     * `insert_get_location` as written. At the end or into an empty vector
     * it is `push_back_get_location`. With more than one spare slot, the
     * shifting loop starts its target at the old last element, so every
     * element is moved onto itself: the slot at `position` is handed back
     * for overwriting and the new last slot keeps its old content.
     * Otherwise a buffer of twice the capacity receives the elements with a
     * gap at `position`, but `size_` is not incremented.
     */
    method InsertGetLocation(position: nat) returns (location: nat)
      requires Valid() && position <= size
      modifies this, data
      ensures Valid() && data != null && location < capacity
      ensures position == old(size) || old(size) == 0 ==>
        location == old(size) && size == old(size) + 1 &&
        capacity == GrownCapacity(old(size), old(capacity)) &&
        data[..old(size)] == old(Elements()) && (data != old(data) ==> fresh(data))
      ensures position < old(size) && old(capacity) - old(size) > 1 ==>
        location == position && size == old(size) + 1 && capacity == old(capacity) &&
        data == old(data) && data[..] == old(data[..])
      ensures position < old(size) && old(capacity) - old(size) <= 1 ==>
        location == position && size == old(size) && capacity == 2 * old(capacity) && fresh(data) &&
        data[..position] == old(Elements())[..position] &&
        data[position + 1..old(size) + 1] == old(Elements())[position..]
    {
      if position == size || size == 0 {
        location := PushBackGetLocation();
      } else if capacity - size > 1 {
        location := InsertWithRoom(position);
      } else {
        location := InsertReallocating(position);
      }
    }

    /**
     * The spare-room branch of `insert_get_location`: one more slot is
     * taken, then the shifting loop runs with its source and target on the
     * same slot, so nothing moves.
     */
    method InsertWithRoom(position: nat) returns (location: nat)
      requires Valid() && position < size && capacity - size > 1
      modifies this, data
      ensures Valid() && data != null && location < capacity
      ensures location == position && size == old(size) + 1 && capacity == old(capacity)
      ensures data == old(data) && data[..] == old(data[..])
    {
      var oldBack := size;
      var newBack := PushBackGetLocation();
      var src: int, tgt: int := oldBack - 1, newBack - 1;
      while src >= position
        invariant tgt == src && position - 1 <= src < oldBack
        invariant size == oldBack + 1 && capacity == old(capacity)
        invariant data == old(data) && data[..] == old(data[..])
      {
        data[tgt] := data[src];
        src, tgt := src - 1, tgt - 1;
      }
      location := position;
    }

    /**
     * The reallocating branch of `insert_get_location`: a buffer of twice
     * the capacity receives the elements before `position` in place and
     * the rest one slot up; `size_` stays as it was.
     */
    method InsertReallocating(position: nat) returns (location: nat)
      requires Valid() && position < size
      modifies this
      ensures Valid() && data != null && location < capacity
      ensures location == position && size == old(size) && capacity == 2 * old(capacity) && fresh(data)
      ensures data[..position] == old(Elements())[..position]
      ensures data[position + 1..old(size) + 1] == old(Elements())[position..]
    {
      var original := data;
      var newCapacity := capacity * 2;
      var target := new T[newCapacity];
      var src, tgt := 0, 0;
      while src < position
        invariant src == tgt <= position && unchanged(this)
        invariant forall k :: 0 <= k < tgt ==> target[k] == original[k]
      {
        target[tgt] := original[src];
        src, tgt := src + 1, tgt + 1;
      }
      tgt := tgt + 1;
      while src < size && tgt < newCapacity
        invariant position <= src <= size && tgt == src + 1 && unchanged(this)
        invariant forall k :: 0 <= k < position ==> target[k] == original[k]
        invariant forall k :: position < k < tgt ==> target[k] == original[k - 1]
      {
        target[tgt] := original[src];
        src, tgt := src + 1, tgt + 1;
      }
      assert Elements()[..position] == original[..position] == target[..position];
      assert Elements()[position..] == original[position..size] == target[position + 1..size + 1];
      capacity := newCapacity;
      data := target;
      location := position;
    }

    /** `insert`/`emplace`: the value is written at the position `insert_get_location` hands back. */
    method Insert(position: nat, v: T)
      requires Valid() && position <= size
      modifies this, data
      ensures Valid()
      ensures position == old(size) || old(size) == 0 ==>
        Elements() == old(Elements()) + [v] && capacity == GrownCapacity(old(size), old(capacity))
      ensures position < old(size) && old(capacity) - old(size) > 1 ==>
        size == old(size) + 1 && capacity == old(capacity) &&
        Elements()[..old(size)] == old(Elements())[position := v] &&
        Elements()[old(size)] == old(data[size])
      ensures position < old(size) && old(capacity) - old(size) <= 1 ==>
        capacity == 2 * old(capacity) &&
        Elements() == Inserted(old(Elements()), position, v)[..old(size)]
    {
      ghost var before := Elements();
      ghost var oldData := if data == null then [] else data[..];
      var location := InsertGetLocation(position);
      data[location] := v;
      if position == old(size) || old(size) == 0 {
        assert data[..size] == data[..location] + [v];
      } else if old(capacity) - old(size) > 1 {
        assert Elements()[..old(size)] == oldData[..old(size)][position := v];
      } else {
        assert data[..position] == before[..position];
        assert data[position + 1..old(size) + 1] == before[position..];
        assert data[..old(size) + 1] == Inserted(before, position, v);
      }
    }

    /**
     * `erase(first, last)`: the elements of `[first, last)` are dropped and
     * the ones after them move down, in order.
     */
    method Erase(first: nat, last: nat)
      requires Valid() && first <= last <= size
      modifies this, data
      ensures Valid() && data == old(data) && capacity == old(capacity)
      ensures Elements() == old(Elements())[..first] + old(Elements())[last..]
    {
      ghost var before := Elements();
      var p := first;
      var destroyed := 0;
      while p < last
        invariant first <= p <= last && destroyed == p - first
      {
        p, destroyed := p + 1, destroyed + 1;
      }
      while p < size
        invariant last <= p <= size && unchanged(this) && destroyed == last - first
        invariant data != null ==> forall i | 0 <= i < first :: data[i] == before[i]
        invariant data != null ==> forall i | first <= i < p - destroyed :: data[i] == before[i + destroyed]
        invariant data != null ==> forall i | p <= i < size :: data[i] == before[i]
      {
        data[p - destroyed] := data[p];
        p := p + 1;
      }
      size := size - destroyed;
      assert Elements() == before[..first] + before[last..] by {
        if data != null {
          forall i | 0 <= i < size ensures data[i] == (before[..first] + before[last..])[i] { }
        }
      }
    }

    /** `erase(position)`: `erase(position, position + 1)`. */
    method EraseAt(position: nat)
      requires Valid() && position < size
      modifies this, data
      ensures Valid() && data == old(data) && capacity == old(capacity)
      ensures Elements() == old(Elements())[..position] + old(Elements())[position + 1..]
    {
      Erase(position, position + 1);
    }

    /**
     * `pop_back`: the last element goes; an empty vector is not allowed
     * (`--size_` would wrap). Unless `HEART_STRICT_PERF` (`strictPerf`,
     * off in debug builds) the freed slot is `memset` to zero bytes;
     * `zeroBytes` is the `T` whose object representation is all zeros.
     */
    method PopBack(strictPerf: bool, zeroBytes: T)
      requires Valid() && size > 0
      modifies this, data
      ensures Valid() && data == old(data) && capacity == old(capacity)
      ensures Elements() == old(Elements())[..old(size) - 1]
      ensures !strictPerf ==> data[size] == zeroBytes
      ensures strictPerf ==> data[size] == old(data[size - 1])
      ensures forall i | size < i < capacity :: data[i] == old(data[i])
    {
      size := size - 1;
      if !strictPerf {
        data[size] := zeroBytes;
      }
    }

    /**
     * `reserve(count)` for `count >= size_`: a larger request reallocates to
     * exactly `count` slots; an equal one does nothing.
     */
    method Reserve(count: nat)
      requires Valid() && count >= size
      modifies this
      ensures Valid() && Elements() == old(Elements())
      ensures capacity == if count > old(size) then count else old(capacity)
      ensures count > old(size) ==> fresh(data)
      ensures count == old(size) ==> data == old(data)
    {
      if count > size {
        var _ := Reallocate(count);
      }
    }

    /**
     * `resize(count, val)` for `count >= size_`. Growing reallocates to
     * `count` slots; a trivially copyable type then has every element,
     * old ones included, set to `val`; any other type has `val` pushed
     * until the vector is full.
     */
    method Resize(count: nat, val: T, triviallyCopyable: bool)
      requires Valid() && count >= size
      modifies this
      ensures Valid()
      ensures count == old(size) ==> Elements() == old(Elements()) && capacity == old(capacity) && data == old(data)
      ensures count > old(size) ==> capacity == count && fresh(data)
      ensures count > old(size) && triviallyCopyable ==> Elements() == Repeat(val, count)
      ensures count > old(size) && !triviallyCopyable ==>
        Elements() == old(Elements()) + Repeat(val, count - old(size))
    {
      if count > size {
        ghost var before := Elements();
        var _ := Reallocate(count);
        if triviallyCopyable {
          size := count;
          var buffer := data;
          for i := 0 to size
            invariant size == count && capacity == count && data == buffer
            invariant buffer[..i] == Repeat(val, i)
          {
            buffer[i] := val;
            assert buffer[..i + 1] == buffer[..i] + [val];
          }
        } else {
          while size < capacity
            invariant Valid() && fresh(data) && capacity == count && old(size) <= size
            invariant Elements() == before + Repeat(val, size - old(size))
            decreases capacity - size
          {
            PushBack(val);
            assert Repeat(val, size - old(size)) == Repeat(val, size - 1 - old(size)) + [val];
          }
        }
      }
    }

    /** `swap`: the two vectors exchange size, capacity and buffer. */
    method Swap(other: Vector<T>)
      requires Valid() && other.Valid()
      modifies this, other
      ensures Valid() && other.Valid()
      ensures size == old(other.size) && capacity == old(other.capacity) && data == old(other.data)
      ensures other.size == old(size) && other.capacity == old(capacity) && other.data == old(data)
    {
      size, other.size := other.size, size;
      capacity, other.capacity := other.capacity, capacity;
      data, other.data := other.data, data;
    }

    /** `clear` and the destructor: everything is destroyed and the buffer given back. */
    method Clear()
      requires Valid()
      modifies this
      ensures Valid() && size == 0 && capacity == 0 && data == null
    {
      size, capacity, data := 0, 0, null;
    }

    /** `explicit vector(initial_capacity)`: `reserve(initial_capacity)` on an empty vector. */
    constructor WithCapacity(initialCapacity: nat)
      ensures Valid() && Elements() == [] && capacity == initialCapacity
    {
      capacity, size, data := 0, 0, null;
      new;
      Reserve(initialCapacity);
    }

    /** `vector(initial_size, initial_value)`: `resize` on an empty vector. */
    constructor Filled(initialSize: nat, initialValue: T, triviallyCopyable: bool)
      ensures Valid() && Elements() == Repeat(initialValue, initialSize)
      ensures capacity == initialSize
    {
      capacity, size, data := 0, 0, null;
      new;
      Resize(initialSize, initialValue, triviallyCopyable);
    }

    /**
     * The initializer-list and copy constructors: `reserve` the length,
     * then push every value in order.
     */
    constructor FromValues(values: seq<T>)
      ensures Valid() && Elements() == values && capacity == |values|
      ensures data != null ==> fresh(data)
    {
      capacity, size, data := 0, 0, null;
      new;
      Reserve(|values|);
      for i := 0 to |values|
        invariant Valid() && size == i && capacity == |values| && Elements() == values[..i]
        invariant data != null ==> fresh(data)
      {
        PushBack(values[i]);
        assert values[..i + 1] == values[..i] + [values[i]];
      }
    }

    /** The move constructor: an empty vector swapped with `other`. */
    constructor Move(other: Vector<T>)
      requires other.Valid()
      modifies other
      ensures Valid() && other.Valid()
      ensures size == old(other.size) && capacity == old(other.capacity) && data == old(other.data)
      ensures other.size == 0 && other.capacity == 0 && other.data == null
    {
      capacity, size, data := 0, 0, null;
      new;
      Swap(other);
    }

    /**
     * Copy assignment: a copy of `other` is swapped in; the temporary then
     * takes the old contents and clears them.
     */
    method CopyAssign(other: Vector<T>)
      requires Valid() && other.Valid()
      modifies this
      ensures Valid() && Elements() == old(other.Elements()) && capacity == old(other.size)
    {
      var copy := new Vector.FromValues(other.Elements());
      Swap(copy);
      copy.Clear();
    }

    /** Move assignment: `swap(other)`. */
    method MoveAssign(other: Vector<T>)
      requires Valid() && other.Valid()
      modifies this, other
      ensures Valid() && other.Valid()
      ensures size == old(other.size) && capacity == old(other.capacity) && data == old(other.data)
      ensures other.size == old(size) && other.capacity == old(capacity) && other.data == old(data)
    {
      Swap(other);
    }

    /** `at`/`operator[]`: `HEART_CHECK(index < size_)`. */
    function At(index: nat): (r: T)
      requires Valid() && index < size
      reads this, data
      ensures r == Elements()[index]
    {
      data[index]
    }

    /** `front()`: `at(0)`. */
    function Front(): (r: T)
      requires Valid() && size > 0
      reads this, data
      ensures r == Elements()[0]
    {
      At(0)
    }

    /** `back()`: `at(size_ - 1)`. */
    function Back(): (r: T)
      requires Valid() && size > 0
      reads this, data
      ensures r == Elements()[size - 1]
    {
      At(size - 1)
    }

    /** `empty()`. */
    function Empty(): (r: bool)
      requires Valid()
      reads this, data
      ensures r <==> Elements() == []
    {
      size == 0
    }
  }
}
