/**
 * `hrt::unique_ptr<T, D>` (heart/heart-stl/include/heart/stl/unique_ptr.h):
 * sole ownership of a pointer, handed to the deleter `D` when given up.
 * Pointers are addresses with 0 as null; the deleter is a value (its
 * state); each call of the deleter is logged as (deleter, pointer).
 */
module UniquePtr {

  const Null: nat := 0

  datatype DeleterCall = DeleterCall(deleter: nat, pointer: nat)

  class UniquePtr {
    var deleter: nat
    var pointer: nat
    /** The deleter calls this owner has made, oldest first. */
    var deleted: seq<DeleterCall>

    /** The default and `nullptr` constructors: a default deleter and no pointer. */
    constructor ()
      ensures pointer == Null && deleter == 0 && deleted == []
    {
      deleter, pointer, deleted := 0, Null, [];
    }

    /** `explicit unique_ptr(p)` and `make_unique` (with `p` the fresh object). */
    constructor FromPointer(p: nat)
      ensures pointer == p && deleter == 0 && deleted == []
    {
      deleter, pointer, deleted := 0, p, [];
    }

    /** `unique_ptr(p, d)`. */
    constructor WithDeleter(p: nat, d: nat)
      ensures pointer == p && deleter == d && deleted == []
    {
      deleter, pointer, deleted := d, p, [];
    }

    /**
     * The move constructor: the deleter is taken over, then
     * `reset(u.release())` on a null pointer, so ownership moves and no
     * deleter runs.
     */
    constructor Move(u: UniquePtr)
      modifies u
      ensures pointer == old(u.pointer) && deleter == old(u.deleter) && deleted == []
      ensures u.pointer == Null && u.deleter == old(u.deleter) && u.deleted == old(u.deleted)
    {
      deleter, pointer, deleted := u.deleter, Null, [];
      new;
      var released := u.Release();
      Reset(released);
    }

    /** The converting move constructor: deleter and pointer copied, the source's pointer nulled. */
    constructor ConvertFrom(u: UniquePtr)
      modifies u
      ensures pointer == old(u.pointer) && deleter == old(u.deleter) && deleted == []
      ensures u.pointer == Null && u.deleter == old(u.deleter) && u.deleted == old(u.deleted)
    {
      deleter, pointer, deleted := u.deleter, u.pointer, [];
      new;
      u.pointer := Null;
    }

    /** `release`: the pointer is handed out and the owner becomes null; the deleter is not called. */
    method Release() returns (v: nat)
      modifies this
      ensures v == old(pointer) && pointer == Null
      ensures deleter == old(deleter) && deleted == old(deleted)
    {
      v := pointer;
      pointer := Null;
    }

    /**
     * `reset(p)` (and, with null, the destructor): `p` is installed first,
     * then the old pointer goes to the deleter when it was non-null.
     */
    method Reset(p: nat)
      modifies this
      ensures pointer == p && deleter == old(deleter)
      ensures deleted == old(deleted) + (if old(pointer) != Null then [DeleterCall(deleter, old(pointer))] else [])
    {
      var oldPointer := pointer;
      pointer := p;
      if oldPointer != Null {
        deleted := deleted + [DeleterCall(deleter, oldPointer)];
      }
    }

    /**
     * Move assignment: to itself nothing happens. Otherwise the old
     * pointer goes to the old deleter, then the pointer and the deleter
     * are taken over from `u`, whose pointer becomes null.
     */
    method MoveAssign(u: UniquePtr)
      modifies this, u
      ensures this == u ==> pointer == old(pointer) && deleter == old(deleter) && deleted == old(deleted)
      ensures this != u ==>
        pointer == old(u.pointer) && deleter == old(u.deleter) && u.pointer == Null &&
        deleted == old(deleted) + (if old(pointer) != Null then [DeleterCall(old(deleter), old(pointer))] else []) &&
        u.deleted == old(u.deleted)
    {
      if this != u {
        var released := u.Release();
        Reset(released);
        deleter := u.deleter;
      }
    }

    /** `swap`: pointers and deleters are exchanged; no deleter runs. */
    method Swap(u: UniquePtr)
      modifies this, u
      ensures pointer == old(u.pointer) && u.pointer == old(pointer)
      ensures deleter == old(u.deleter) && u.deleter == old(deleter)
      ensures deleted == old(deleted) && u.deleted == old(u.deleted)
    {
      pointer, u.pointer := u.pointer, pointer;
      deleter, u.deleter := u.deleter, deleter;
    }

    /** `get()`. */
    function Get(): nat
      reads this
    {
      pointer
    }

    /** `operator bool`: whether a pointer is owned. */
    function IsSet(): (r: bool)
      reads this
      ensures r <==> pointer != Null
    {
      pointer != Null
    }
  }
}
