/**
 * `HeartFunction<R(Args...), Storage>` (heart/heart-core/include/heart/function.h):
 * the older in-place callable holder. Unlike `HeartEmbeddedFunction` its
 * storage is never zeroed, and `Clear` runs the stored object's
 * destructor whether or not a callable is held. The storage bytes are
 * therefore not modelled; each destructor run is counted.
 */
module HeartFunction {
  class HeartFunction {
    var isSet: bool
    var callable: nat
    /** Destructor runs on the storage, including runs on an unset holder. */
    var destructions: nat

    /** The default constructor: unset. */
    constructor ()
      ensures !isSet && destructions == 0
    {
      isSet, callable, destructions := false, 0, 0;
    }

    /** The callable constructor: `Set(f)` on a fresh holder. */
    constructor FromCallable(f: nat)
      ensures isSet && callable == f && destructions == 0
    {
      isSet, callable, destructions := true, f, 0;
    }

    /** `Set(f)`: the callable is constructed in place; one already held is not destroyed. */
    method Set(f: nat)
      modifies this
      ensures isSet && callable == f && destructions == old(destructions)
    {
      isSet, callable := true, f;
    }

    /**
     * `Clear` and the destructor: the destructor of the storage's object is
     * run and the flag cleared, unconditionally; on an unset holder the
     * destructor runs on storage that holds no object.
     */
    method Clear()
      modifies this
      ensures !isSet && callable == old(callable)
      ensures destructions == old(destructions) + 1
    {
      destructions := destructions + 1;
      isSet := false;
    }

    /**
     * `Swap` with the evident intent: callables and flags are exchanged,
     * the moved-from callable of each set holder is destroyed once, and two
     * unset holders are left as they are (as written that branch recurses
     * without end, see `EmbeddedFunction.SwapAsWritten`). The temporary
     * used for two set holders is itself cleared when it goes out of
     * scope, which destroys nothing held.
     */
    method Swap(other: HeartFunction)
      requires other != this
      modifies this, other
      ensures isSet == old(other.isSet) && other.isSet == old(isSet)
      ensures old(other.isSet) ==> callable == old(other.callable)
      ensures old(isSet) ==> other.callable == old(callable)
      ensures destructions == old(destructions) + (if old(isSet) then 1 else 0)
      ensures other.destructions == old(other.destructions) + (if old(other.isSet) then 1 else 0)
      decreases if isSet && other.isSet then 1 else 0
    {
      if isSet != other.isSet {
        if isSet {
          other.callable := callable;
          Clear();
          other.isSet := true;
        } else {
          callable := other.callable;
          other.Clear();
          isSet := true;
        }
      } else if isSet {
        var tmp := new HeartFunction();
        tmp.Swap(other);
        other.Swap(this);
        tmp.Swap(this);
        tmp.Clear();
      }
    }

    /**
     * The move constructor: a default holder swapped with `o`, by the
     * corrected `Swap`; as written, an unset `o` makes it never return.
     */
    constructor Move(o: HeartFunction)
      modifies o
      ensures !o.isSet && isSet == old(o.isSet)
      ensures old(o.isSet) ==> callable == old(o.callable)
    {
      isSet, callable, destructions := false, 0, 0;
      new;
      Swap(o);
    }

    /**
     * Move assignment: a `Swap` with `o`, by the corrected `Swap`; as
     * written, two unset holders make it never return.
     */
    method MoveAssign(o: HeartFunction)
      requires o != this
      modifies this, o
      ensures isSet == old(o.isSet) && o.isSet == old(isSet)
      ensures old(o.isSet) ==> callable == old(o.callable)
    {
      Swap(o);
    }

    /** `operator bool`. */
    function IsSet(): (r: bool)
      reads this
      ensures r <==> isSet
    {
      isSet
    }

    /** `operator()`: `HEART_ASSERT(m_set)`, then the stored callable is invoked. */
    function Call(): (r: nat)
      requires isSet
      reads this
      ensures r == callable
    {
      callable
    }
  }
}
