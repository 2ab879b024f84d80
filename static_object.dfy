/**
 * `HeartStaticObject` (heart/memory/static_object.h): static storage for one
 * value whose lifetime the owner controls, much like an optional. The value
 * is constructed into the storage by `Construct` and destroyed by
 * `Destruct`; the flag `m_initialized` records which of the two came last.
 *
 * `constructions` and `destructions` count the constructor and destructor
 * runs of the stored value, so the invariant says every constructed value is
 * destroyed exactly once.
 */
module StaticObject {
  import opened Wrappers

  class StaticObject<T> {
    const staticConstruct: bool
    var initialized: bool
    var storage: Option<T>
    var constructions: nat
    var destructions: nat

    /** The storage holds a value exactly when initialized, and constructions outnumber destructions by exactly that one value. */
    predicate Valid()
      reads this
    {
      (initialized <==> storage.Some?) &&
      constructions == destructions + (if initialized then 1 else 0)
    }

    /**
     * The constructor: with `EnableStaticConstruct` it constructs the value
     * from the arguments (`init`), otherwise the object starts empty.
     */
    constructor (staticConstruct: bool, init: T)
      ensures Valid() && this.staticConstruct == staticConstruct
      ensures initialized == staticConstruct
      ensures staticConstruct ==> storage == Some(init) && constructions == 1
      ensures !staticConstruct ==> storage == None && constructions == 0
      ensures destructions == 0
    {
      this.staticConstruct := staticConstruct;
      initialized := false;
      storage := None;
      constructions := 0;
      destructions := 0;
      new;
      if staticConstruct {
        Construct(init);
      }
    }

    /** `Construct`: a no-op when already initialized, else constructs the value in place. */
    method Construct(v: T)
      requires Valid()
      modifies this
      ensures Valid() && initialized && destructions == old(destructions)
      ensures old(initialized) ==> storage == old(storage) && constructions == old(constructions)
      ensures !old(initialized) ==> storage == Some(v) && constructions == old(constructions) + 1
    {
      if initialized {
        return;
      }
      storage := Some(v);
      constructions := constructions + 1;
      initialized := true;
    }

    /** `Destruct` (also the destructor): a no-op when empty, else destroys the value once. */
    method Destruct()
      requires Valid()
      modifies this
      ensures Valid() && !initialized && storage == None && constructions == old(constructions)
      ensures destructions == old(destructions) + (if old(initialized) then 1 else 0)
    {
      if !initialized {
        return;
      }
      storage := None;
      destructions := destructions + 1;
      initialized := false;
    }

    method IsInitialized() returns (b: bool)
      requires Valid()
      ensures b <==> storage.Some?
    {
      b := initialized;
    }

    /** `Get`: the stored value, which exists only while initialized. */
    method Get() returns (v: T)
      requires Valid() && initialized
      ensures storage == Some(v)
    {
      v := storage.value;
    }
  }
}
