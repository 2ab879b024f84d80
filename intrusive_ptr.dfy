/**
 * `HeartIntrusivePtr<T>` (heart/heart-core/include/heart/memory/intrusive_ptr.h):
 * a smart pointer whose pointee carries its own reference count, bumped
 * through `HeartIncrementRef`/`HeartDecrementRef`. The pointee is modelled
 * by `RefCounted`, whose count those two calls change by one.
 */
module IntrusivePtr {

  /** A pointee: `IncrementRef`, `DecrementRef` and `GetRefCount` on one counter. */
  class RefCounted {
    var refCount: int

    constructor ()
      ensures refCount == 0
    {
      refCount := 0;
    }

    method IncrementRef()
      modifies this
      ensures refCount == old(refCount) + 1
    {
      refCount := refCount + 1;
    }

    method DecrementRef()
      modifies this
      ensures refCount == old(refCount) - 1
    {
      refCount := refCount - 1;
    }
  }

  class IntrusivePtr {
    var p: RefCounted?

    /** The default and `nullptr` constructors. */
    constructor ()
      ensures p == null
    {
      p := null;
    }

    /** From a raw pointer: a non-null pointee gains exactly one reference; null touches nothing. */
    constructor FromRaw(ptr: RefCounted?)
      modifies ptr
      ensures p == ptr
      ensures ptr != null ==> ptr.refCount == old(ptr.refCount) + 1
    {
      p := null;
      new;
      if ptr != null {
        p := ptr;
        p.IncrementRef();
      }
    }

    /** The move constructor: an empty pointer swapped with `other`; no count changes. */
    constructor MoveFrom(other: IntrusivePtr)
      modifies other
      ensures p == old(other.p) && other.p == null
    {
      p := null;
      new;
      other.Swap(this);
    }

    /** The copy constructor: a temporary built from `other.Get()`, swapped in; one more reference. */
    constructor CopyFrom(other: IntrusivePtr)
      modifies other.p
      ensures p == other.p
      ensures other.p != null ==> other.p.refCount == old(other.p.refCount) + 1
    {
      p := null;
      new;
      var t := new IntrusivePtr.FromRaw(other.p);
      t.Swap(this);
    }

    /** `Reset` and the destructor: a held pointee loses one reference and the pointer becomes null. */
    method Reset()
      modifies this, p
      ensures p == null
      ensures old(p) != null ==> old(p).refCount == old(p.refCount) - 1
    {
      if p != null {
        p.DecrementRef();
        p := null;
      }
    }

    /** `Swap`: the two pointers are exchanged and no count changes. */
    method Swap(other: IntrusivePtr)
      modifies this, other
      ensures p == old(other.p) && other.p == old(p)
    {
      var t := other.Get();
      other.p := Get();
      p := t;
    }

    /**
     * Move assignment: the moved-from pointer is transferred without a
     * count change and the previously held pointee loses one reference
     * (when the temporary holding it is destroyed). Self-assignment
     * changes nothing.
     */
    method MoveAssign(other: IntrusivePtr)
      modifies this, other, p
      ensures this != other ==> p == old(other.p) && other.p == null
      ensures this != other && old(p) != null ==> old(p).refCount == old(p.refCount) - 1
      ensures this == other ==> p == old(p) && (p != null ==> p.refCount == old(p.refCount))
    {
      var moved := new IntrusivePtr.MoveFrom(other);
      moved.Swap(this);
      moved.Reset();
    }

    /**
     * Copy assignment: the new pointee gains a reference and the old one
     * loses one; when both are the same object its count is unchanged.
     */
    method CopyAssign(other: IntrusivePtr)
      modifies this, p, other.p
      ensures p == old(other.p)
      ensures old(other.p) != null && old(other.p) != old(p) ==> p.refCount == old(other.p.refCount) + 1
      ensures old(p) != null && old(p) != old(other.p) ==> old(p).refCount == old(p.refCount) - 1
      ensures old(p) != null && old(p) == old(other.p) ==> p.refCount == old(p.refCount)
    {
      var copy := new IntrusivePtr.CopyFrom(other);
      copy.Swap(this);
      copy.Reset();
    }

    /** `Get()`. */
    function Get(): RefCounted?
      reads this
    {
      p
    }

    /** `UseCount()`: 0 for null, otherwise the pointee's count. */
    function UseCount(): (r: int)
      reads this, p
      ensures p == null ==> r == 0
      ensures p != null ==> r == p.refCount
    {
      if p == null then 0 else p.refCount
    }

    /** `operator bool` (and `!= nullptr`): whether a pointee is held. */
    function IsSet(): (r: bool)
      reads this
      ensures r <==> p != null
    {
      p != null
    }

    /** `operator==` between two pointers: the same pointee (or both null). */
    function Equals(other: IntrusivePtr): (r: bool)
      reads this, other
      ensures r <==> p == other.p
    {
      Get() == other.Get()
    }
  }
}
