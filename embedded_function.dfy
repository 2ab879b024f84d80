/**
 * `HeartEmbeddedFunction<R(Args...), Storage>`
 * (heart/heart-core/include/heart/function/embedded_function.h): a callable
 * held in place in a fixed `Storage`-byte buffer, with an `m_set` flag.
 * The callable is identified by a number; its object representation is
 * the byte image written into the buffer. Each destruction of a stored
 * callable is counted.
 */
module EmbeddedFunction {
  import opened Wrappers

  /**
   * The set flags after `Swap` as written, with a bound on the nesting of
   * calls: differing flags move the callable across; equal flags go
   * through an unset temporary with three nested swaps. `None` means the
   * bound ran out.
   */
  function SwapAsWritten(thisSet: bool, otherSet: bool, fuel: nat): Option<(bool, bool)>
    decreases fuel
  {
    if fuel == 0 then None
    else if thisSet != otherSet then Some((otherSet, thisSet))
    else
      // tmp.Swap(other)
      match SwapAsWritten(false, otherSet, fuel - 1)
      case None => None
      case Some((tmpSet, otherSet1)) =>
        // other.Swap(*this)
        match SwapAsWritten(otherSet1, thisSet, fuel - 1)
        case None => None
        case Some((otherSet2, thisSet1)) =>
          // tmp.Swap(*this)
          match SwapAsWritten(tmpSet, thisSet1, fuel - 1)
          case None => None
          case Some((_, thisSet2)) => Some((thisSet2, otherSet2))
  }

  /** Swapping two unset holders as written never returns: the first nested call is the same swap again. */
  lemma {:induction false} UnsetSwapNeverReturns(fuel: nat)
    ensures SwapAsWritten(false, false, fuel) == None
  {
    if fuel > 0 {
      UnsetSwapNeverReturns(fuel - 1);
    }
  }

  /**
   * `x.Swap(x)` as written, with the same bound: the flags are always
   * equal, so it goes through the temporary, and the middle call
   * `other.Swap(*this)` is again a swap of the holder with itself.
   */
  function SelfSwapAsWritten(isSet: bool, fuel: nat): Option<bool>
    decreases fuel
  {
    if fuel == 0 then None
    else
      // tmp.Swap(other)
      match SwapAsWritten(false, isSet, fuel - 1)
      case None => None
      case Some((tmpSet, set1)) =>
        // other.Swap(*this)
        match SelfSwapAsWritten(set1, fuel - 1)
        case None => None
        case Some(set2) =>
          // tmp.Swap(*this)
          match SwapAsWritten(tmpSet, set2, fuel - 1)
          case None => None
          case Some((_, set3)) => Some(set3)
  }

  /**
   * Swapping a holder with itself as written never returns, set or not: the
   * temporary takes a set callable, which leaves the holder unset, and the
   * nested self-swap of an unset holder recurses without end.
   */
  lemma SelfSwapNeverReturns(isSet: bool, fuel: nat)
    ensures SelfSwapAsWritten(isSet, fuel) == None
  {
    if fuel >= 2 {
      UnsetSwapNeverReturns(fuel - 2);
      if !isSet {
        UnsetSwapNeverReturns(fuel - 1);
      }
    } else if fuel == 1 {
      UnsetSwapNeverReturns(0);
    }
  }

  /** Every other combination finishes, with the flags exchanged. */
  lemma SwapAsWrittenOtherwiseExchanges(thisSet: bool, otherSet: bool)
    requires thisSet || otherSet
    ensures SwapAsWritten(thisSet, otherSet, 2) == Some((otherSet, thisSet))
  {
  }

  predicate AllZero(s: seq<bv8>)
  {
    forall i :: 0 <= i < |s| ==> s[i] == 0
  }

  class EmbeddedFunction {
    const storage: array<bv8>
    var isSet: bool
    var callable: nat
    /** The byte length of the stored `ImplType<F>`. */
    var imageSize: nat
    var destructions: nat

    /** An unset holder's storage is all zero (from `= {}` or from `Clear`). */
    ghost predicate Valid()
      reads this, storage
    {
      imageSize <= storage.Length && (!isSet ==> AllZero(storage[..]))
    }

    /** The default constructor: unset, zeroed storage. */
    constructor (size: nat)
      ensures Valid() && !isSet && storage.Length == size && fresh(storage) && destructions == 0
    {
      storage := new bv8[size](_ => 0);
      isSet, callable, imageSize, destructions := false, 0, 0, 0;
    }

    /** The callable constructor: a default holder, then `Set`. */
    constructor FromCallable(size: nat, f: nat, image: seq<bv8>)
      requires |image| <= size
      ensures Valid() && isSet && callable == f && storage.Length == size && fresh(storage)
      ensures storage[..|image|] == image && destructions == 0
    {
      storage := new bv8[size](_ => 0);
      isSet, callable, imageSize, destructions := false, 0, 0, 0;
      new;
      Set(f, image);
    }

    /**
     * `Set(f)`: the callable is constructed in the storage (its image
     * written at the start) and the holder is marked set. `SizeCheck`
     * demands that the image fit. A callable already held is not
     * destroyed.
     */
    method Set(f: nat, image: seq<bv8>)
      requires Valid() && |image| <= storage.Length
      modifies this, storage
      ensures Valid() && isSet && callable == f && imageSize == |image|
      ensures storage[..|image|] == image && storage[|image|..] == old(storage[|image|..])
      ensures destructions == old(destructions)
    {
      ghost var before := storage[..];
      for i := 0 to |image|
        invariant forall k | 0 <= k < i :: storage[k] == image[k]
        invariant forall k | i <= k < storage.Length :: storage[k] == before[k]
        invariant unchanged(this)
      {
        storage[i] := image[i];
      }
      assert storage[..|image|] == image;
      assert storage[|image|..] == before[|image|..];
      isSet, callable, imageSize := true, f, |image|;
    }

    /**
     * `Clear` and the destructor: a set holder's callable is destroyed,
     * the flag cleared and the storage zeroed byte by byte; an unset holder
     * is left alone.
     */
    method Clear()
      requires Valid()
      modifies this, storage
      ensures Valid() && !isSet && AllZero(storage[..])
      ensures destructions == old(destructions) + (if old(isSet) then 1 else 0)
      ensures callable == old(callable) && imageSize == old(imageSize)
    {
      if isSet {
        for p := 0 to storage.Length
          invariant AllZero(storage[..p])
          invariant unchanged(this)
        {
          storage[p] := 0;
        }
        assert storage[..] == storage[..storage.Length];
        destructions := destructions + 1;
        isSet := false;
      }
    }

    /** `GetPtr()->Move(target)`: the callable is move-constructed into `target`'s storage. */
    method MoveInto(target: EmbeddedFunction)
      requires Valid() && target.Valid() && target != this && imageSize <= target.storage.Length
      requires target.storage != storage
      modifies target, target.storage
      ensures target.callable == callable && target.imageSize == imageSize
      ensures target.storage[..imageSize] == storage[..imageSize]
      ensures target.isSet == old(target.isSet) && target.destructions == old(target.destructions)
      ensures target.storage[imageSize..] == old(target.storage[imageSize..])
    {
      for i := 0 to imageSize
        invariant target.storage[..i] == storage[..i]
        invariant target.storage[i..] == old(target.storage[i..])
        invariant target.isSet == old(target.isSet) && target.destructions == old(target.destructions)
      {
        target.storage[i] := storage[i];
        assert target.storage[..i + 1] == target.storage[..i] + [storage[i]];
      }
      target.callable, target.imageSize := callable, imageSize;
    }

    /**
     * `Swap` with the evident intent: the callables and set flags are
     * exchanged. Differing flags move the callable from the set holder to
     * the unset one, destroy the moved-from callable and zero its storage;
     * two set holders go through an unset temporary with three such moves;
     * two unset holders are left as they are (as written that branch
     * recurses without end, see `SwapAsWritten`).
     */
    method Swap(other: EmbeddedFunction)
      requires Valid() && other.Valid() && other != this && other.storage != storage
      requires storage.Length == other.storage.Length
      modifies this, storage, other, other.storage
      ensures Valid() && other.Valid()
      ensures isSet == old(other.isSet) && other.isSet == old(isSet)
      ensures old(other.isSet) ==> callable == old(other.callable)
      ensures old(isSet) ==> other.callable == old(callable)
      ensures destructions == old(destructions) + (if old(isSet) then 1 else 0)
      ensures other.destructions == old(other.destructions) + (if old(other.isSet) then 1 else 0)
      decreases if isSet && other.isSet then 1 else 0
    {
      if isSet != other.isSet {
        if isSet {
          MoveInto(other);
          Clear();
          other.isSet := true;
        } else {
          other.MoveInto(this);
          other.Clear();
          isSet := true;
        }
      } else if isSet {
        var tmp := new EmbeddedFunction(storage.Length);
        tmp.Swap(other);
        other.Swap(this);
        tmp.Swap(this);
        tmp.Clear();
      }
    }

    /**
     * The move constructor: a default holder swapped with `o`, by the
     * corrected `Swap`; as written, an unset `o` makes it never return.
     */
    constructor Move(o: EmbeddedFunction)
      requires o.Valid()
      modifies o, o.storage
      ensures Valid() && !o.isSet && isSet == old(o.isSet)
      ensures old(o.isSet) ==> callable == old(o.callable)
    {
      storage := new bv8[o.storage.Length](_ => 0);
      isSet, callable, imageSize, destructions := false, 0, 0, 0;
      new;
      Swap(o);
    }

    /**
     * Move assignment: a `Swap` with `o`, by the corrected `Swap`; as
     * written, two unset holders make it never return.
     */
    method MoveAssign(o: EmbeddedFunction)
      requires Valid() && o.Valid() && o != this && o.storage != storage
      requires storage.Length == o.storage.Length
      modifies this, storage, o, o.storage
      ensures Valid() && o.Valid()
      ensures isSet == old(o.isSet) && o.isSet == old(isSet)
      ensures old(o.isSet) ==> callable == old(o.callable)
    {
      Swap(o);
    }

    /** `operator bool`. */
    function IsSet(): (r: bool)
      reads this
      ensures r <==> isSet
    {
      isSet
    }

    /** `operator()`: `HEART_ASSERT(m_set)`, then the stored callable is invoked. */
    function Call(): (r: nat)
      requires isSet
      reads this
      ensures r == callable
    {
      callable
    }
  }
}
