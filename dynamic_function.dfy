/**
 * `HeartDynamicFunction<R(Args...)>`
 * (heart/heart-core/include/heart/function/dynamic_function.h): a callable
 * held on the heap, in storage taken from the holder's allocator. The
 * allocator is the test tracking allocator, so the bytes each allocator
 * has outstanding are visible; an address handed out by `operator new` is
 * a parameter. A null pointer is 0. Byte counters are stated with
 * `WrapsTo`: the new counter is the exact result modulo 2^64.
 */
module DynamicFunction {
  import opened TrackingAllocator

  const Null: nat := 0

  class DynamicFunction {
    var pointer: nat
    var callable: nat
    /** The `HeartBaseAllocator&` the holder was built with. */
    const allocator: TrackingAllocator

    /** A held callable lives in storage its allocator handed out. */
    ghost predicate Valid()
      reads this, allocator
    {
      allocator.Valid() && Null !in allocator.allocationMap &&
      (pointer != Null ==> pointer in allocator.allocationMap)
    }

    /** The bytes of the held callable's storage (0 when unset). */
    ghost function HeldSize(): nat
      reads this, allocator
    {
      if pointer != Null && pointer in allocator.allocationMap then allocator.allocationMap[pointer] else 0
    }

    /** The default constructor: unset, bound to `a`. */
    constructor (a: TrackingAllocator)
      ensures allocator == a && pointer == Null
    {
      allocator := a;
      pointer, callable := Null, 0;
    }

    /**
     * `Set(f)`: `AllocateAndConstruct` takes `size` bytes from the holder's
     * allocator and the callable is built there. A callable already held
     * is neither destroyed nor freed: its storage stays allocated.
     */
    method Set(f: nat, size: nat, address: nat)
      requires Valid() && address != Null && address !in allocator.allocationMap
      modifies this, allocator
      ensures Valid() && pointer == address && callable == f && HeldSize() == size
      ensures allocator.allocationMap == old(allocator.allocationMap)[address := size]
      ensures WrapsTo(old(allocator.allocatedSize) + size,
                      allocator.allocatedSize, allocator.sizeWraps - old(allocator.sizeWraps))
      ensures allocator.unmatchedFrees == old(allocator.unmatchedFrees)
    {
      pointer := allocator.RawAllocate(size, address);
      callable := f;
    }

    /** The callable constructor: a holder bound to `a`, then `Set(f)`. */
    constructor FromCallable(f: nat, size: nat, a: TrackingAllocator, address: nat)
      requires a.Valid() && Null !in a.allocationMap && address != Null && address !in a.allocationMap
      modifies a
      ensures Valid() && allocator == a && pointer == address && callable == f
      ensures WrapsTo(old(a.allocatedSize) + size, a.allocatedSize, a.sizeWraps - old(a.sizeWraps))
    {
      allocator := a;
      pointer, callable := Null, 0;
      new;
      Set(f, size, address);
    }

    /** `Clear`: a held callable is destroyed and its storage given back to the allocator. */
    method Clear()
      requires Valid()
      modifies this, allocator
      ensures Valid() && pointer == Null
      ensures WrapsTo(old(allocator.allocatedSize) - old(HeldSize()),
                      allocator.allocatedSize, allocator.sizeWraps - old(allocator.sizeWraps))
      ensures allocator.allocationMap == old(allocator.allocationMap) - {old(pointer)}
    {
      if pointer != Null {
        var flagged := allocator.RawDeallocate(pointer);
        pointer := Null;
      }
    }

    /**
     * `movePointer` in `Swap`: the callable at `source` is moved into
     * storage of the same size from `target`'s allocator and the source
     * storage is destroyed and freed.
     */
    static method MovePointer(source: nat, sourceCallable: nat, target: DynamicFunction,
                              sourceAllocator: TrackingAllocator, address: nat)
      requires target.Valid() && sourceAllocator.Valid() && sourceAllocator != target.allocator
      requires source in sourceAllocator.allocationMap
      requires address != Null && address !in target.allocator.allocationMap
      modifies target, target.allocator, sourceAllocator
      ensures target.Valid() && sourceAllocator.Valid()
      ensures target.pointer == address && target.callable == sourceCallable
      ensures target.HeldSize() == old(sourceAllocator.allocationMap[source])
      ensures target.allocator.allocationMap == old(target.allocator.allocationMap)[address := old(sourceAllocator.allocationMap[source])]
      ensures WrapsTo(old(target.allocator.allocatedSize) + old(sourceAllocator.allocationMap[source]),
                      target.allocator.allocatedSize, target.allocator.sizeWraps - old(target.allocator.sizeWraps))
      ensures sourceAllocator.allocationMap == old(sourceAllocator.allocationMap) - {source}
      ensures WrapsTo(old(sourceAllocator.allocatedSize) - old(sourceAllocator.allocationMap[source]),
                      sourceAllocator.allocatedSize, sourceAllocator.sizeWraps - old(sourceAllocator.sizeWraps))
    {
      var size := sourceAllocator.allocationMap[source];
      var storage := target.allocator.RawAllocate(size, address);
      target.pointer, target.callable := storage, sourceCallable;
      var flagged := sourceAllocator.RawDeallocate(source);
    }

    /**
     * One half of `Swap` across allocators: a held callable (`ptr` not
     * null) is moved by `MovePointer`; with nothing held nothing happens.
     * Either way the bytes `held` leave `from` and reach `target`'s
     * allocator, wrapping like the `uint64_t` counters.
     */
    static method MoveHeld(ptr: nat, c: nat, target: DynamicFunction, from: TrackingAllocator,
                           address: nat, ghost held: nat)
      requires target.Valid() && target.pointer == Null && from.Valid() && from != target.allocator
      requires held == if ptr != Null && ptr in from.allocationMap then from.allocationMap[ptr] else 0
      requires ptr != Null ==> ptr in from.allocationMap && address != Null && address !in target.allocator.allocationMap
      modifies target, target.allocator, from
      ensures target.Valid() && from.Valid() && target.HeldSize() == held
      ensures ptr != Null ==> target.pointer == address && target.callable == c
      ensures ptr == Null ==> target.pointer == Null && unchanged(target, target.allocator, from)
      ensures ptr != Null ==> target.allocator.allocationMap == old(target.allocator.allocationMap)[address := held] &&
                              from.allocationMap == old(from.allocationMap) - {ptr}
      ensures WrapsTo(old(target.allocator.allocatedSize) + held,
                      target.allocator.allocatedSize, target.allocator.sizeWraps - old(target.allocator.sizeWraps))
      ensures WrapsTo(old(from.allocatedSize) - held,
                      from.allocatedSize, from.sizeWraps - old(from.sizeWraps))
    {
      if ptr != Null {
        MovePointer(ptr, c, target, from, address);
      }
    }

    /**
     * `Swap`: holders sharing an allocator exchange pointers. Otherwise
     * each held callable is moved into storage from the other holder's
     * allocator and freed from its own, so the callables and the bytes
     * they occupy change allocators. `thisAddress` and `otherAddress` are the
     * addresses the two allocators hand out for that.
     */
    method Swap(o: DynamicFunction, thisAddress: nat, otherAddress: nat)
      requires Valid() && o.Valid() && o != this
      requires allocator != o.allocator ==>
                 thisAddress != Null && thisAddress !in allocator.allocationMap &&
                 otherAddress != Null && otherAddress !in o.allocator.allocationMap
      modifies this, o, allocator, o.allocator
      ensures Valid() && o.Valid()
      ensures (pointer != Null) == (old(o.pointer) != Null) && (o.pointer != Null) == (old(pointer) != Null)
      ensures old(o.pointer) != Null ==> callable == old(o.callable)
      ensures old(pointer) != Null ==> o.callable == old(callable)
      ensures HeldSize() == old(o.HeldSize()) && o.HeldSize() == old(HeldSize())
      ensures allocator == o.allocator ==>
                pointer == old(o.pointer) && o.pointer == old(pointer) && unchanged(allocator)
      ensures allocator != o.allocator ==>
                WrapsTo(old(allocator.allocatedSize) - old(HeldSize()) + old(o.HeldSize()),
                        allocator.allocatedSize, allocator.sizeWraps - old(allocator.sizeWraps)) &&
                WrapsTo(old(o.allocator.allocatedSize) + old(HeldSize()) - old(o.HeldSize()),
                        o.allocator.allocatedSize, o.allocator.sizeWraps - old(o.allocator.sizeWraps))
    {
      if allocator == o.allocator {
        pointer, o.pointer := o.pointer, pointer;
        callable, o.callable := o.callable, callable;
      } else {
        ghost var h, g := HeldSize(), o.HeldSize();
        var tPtr, oPtr := pointer, o.pointer;
        var tCallable, oCallable := callable, o.callable;
        pointer, o.pointer := Null, Null;
        MoveHeld(tPtr, tCallable, o, allocator, otherAddress, h);
        assert oPtr != Null ==> oPtr in o.allocator.allocationMap && o.allocator.allocationMap[oPtr] == g;
        MoveHeld(oPtr, oCallable, this, o.allocator, thisAddress, g);
      }
    }

    /** The move constructor: a holder bound to `o`'s allocator, swapped with `o` (a pointer exchange). */
    constructor Move(o: DynamicFunction)
      requires o.Valid()
      modifies o, o.allocator
      ensures Valid() && allocator == o.allocator && o.pointer == Null
      ensures pointer == old(o.pointer) && (pointer != Null ==> callable == old(o.callable))
      ensures unchanged(o.allocator)
    {
      allocator := o.allocator;
      pointer, callable := Null, 0;
      new;
      Swap(o, 0, 0);
    }

    /** Move assignment: a `Swap` with `o`. */
    method MoveAssign(o: DynamicFunction, thisAddress: nat, otherAddress: nat)
      requires Valid() && o.Valid() && o != this
      requires allocator != o.allocator ==>
                 thisAddress != Null && thisAddress !in allocator.allocationMap &&
                 otherAddress != Null && otherAddress !in o.allocator.allocationMap
      modifies this, o, allocator, o.allocator
      ensures Valid() && o.Valid()
      ensures (pointer != Null) == (old(o.pointer) != Null)
      ensures old(o.pointer) != Null ==> callable == old(o.callable)
    {
      Swap(o, thisAddress, otherAddress);
    }

    /** `IsSet` and `operator bool`: the pointer is not null. */
    function IsSet(): (r: bool)
      reads this
      ensures r <==> pointer != Null
    {
      pointer != Null
    }

    /** `operator()`: `HEART_ASSERT(IsSet())`, then the held callable is invoked. */
    function Call(): (r: nat)
      requires IsSet()
      reads this
      ensures r == callable
    {
      callable
    }
  }
}
