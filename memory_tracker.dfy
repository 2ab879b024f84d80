/**
 * The allocation tracking of `Memory::Alloc`/`Memory::Free`
 * (game/src/memory/memory.cpp, non-strict-perf builds): every allocation is
 * recorded with its size, pool and period, and a usage table holds the live
 * bytes per pool and period. Addresses come from `malloc`, given here as
 * a parameter.
 */
module MemoryTracker {
  import opened Accounting

  /** `Memory::Pool`, in declaration order. */
  datatype Pool = Events | UI | Debug | Generic | Unknown
  /** `Memory::Period`, in declaration order. */
  datatype Period = Short | Long | Frame

  /** One cell of the usage table `s_usageTracker[pool][period]`. */
  datatype Slot = Slot(pool: Pool, period: Period)
  datatype Record = Record(size: nat, slot: Slot)

  /** Every cell of the usage table. */
  const AllSlots: set<Slot> :=
    set p: Pool, l: Period | p in {Events, UI, Debug, Generic, Unknown} && l in {Short, Long, Frame} :: Slot(p, l)

  lemma EverySlotListed(s: Slot)
    ensures s in AllSlots
  {
    match s.pool {
      case Events =>
      case UI =>
      case Debug =>
      case Generic =>
      case Unknown =>
    }
    match s.period {
      case Short =>
      case Long =>
      case Frame =>
    }
    assert s == Slot(s.pool, s.period);
  }

  /** The sizes of the live allocations recorded under `s`. */
  function SizesIn(records: map<nat, Record>, s: Slot): map<nat, nat>
  {
    map a | a in records && records[a].slot == s :: records[a].size
  }

  class MemoryTracker {
    var records: map<nat, Record>
    var usage: map<Slot, int>

    /** Each usage cell is the total size of the live allocations recorded under it. */
    ghost predicate Valid()
      reads this
    {
      forall s: Slot :: s in usage && usage[s] == Total(SizesIn(records, s))
    }

    constructor ()
      ensures Valid() && records == map[]
    {
      records := map[];
      usage := map s | s in AllSlots :: 0;
      new;
      forall s: Slot
        ensures s in usage && SizesIn(records, s) == map[]
      {
        EverySlotListed(s);
      }
    }

    /** `Memory::Alloc`: records the allocation and adds its size to its pool and period. */
    method Alloc(size: nat, p: Pool, l: Period, ptr: nat) returns (r: nat)
      requires Valid() && ptr !in records
      modifies this
      ensures Valid() && r == ptr
      ensures records == old(records)[ptr := Record(size, Slot(p, l))]
      ensures usage == old(usage)[Slot(p, l) := old(usage)[Slot(p, l)] + size]
    {
      var slot := Slot(p, l);
      forall s: Slot
        ensures Total(SizesIn(records[ptr := Record(size, slot)], s)) ==
                Total(SizesIn(records, s)) + (if s == slot then size else 0)
      {
        if s == slot {
          assert SizesIn(records[ptr := Record(size, slot)], s) == SizesIn(records, s)[ptr := size];
          TotalAdd(SizesIn(records, s), ptr, size);
        } else {
          assert SizesIn(records[ptr := Record(size, slot)], s) == SizesIn(records, s);
        }
      }
      records := records[ptr := Record(size, slot)];
      usage := usage[slot := usage[slot] + size];
      r := ptr;
    }

    /**
     * `Memory::Free`: a recorded pointer gives its size back to the pool and
     * period it was recorded under and is forgotten; an unrecorded pointer
     * changes nothing. The pool and period given must be the recorded ones
     * (the two `HEART_ASSERT`s).
     */
    method Free(ptr: nat, p: Pool, l: Period)
      requires Valid()
      requires ptr in records ==> records[ptr].slot == Slot(p, l)
      modifies this
      ensures Valid()
      ensures ptr !in old(records) ==> records == old(records) && usage == old(usage)
      ensures ptr in old(records) ==>
        records == old(records) - {ptr} &&
        usage == old(usage)[Slot(p, l) := old(usage)[Slot(p, l)] - old(records)[ptr].size]
    {
      if ptr !in records {
        return;
      }
      var rec := records[ptr];
      forall s: Slot
        ensures Total(SizesIn(records - {ptr}, s)) ==
                Total(SizesIn(records, s)) - (if s == rec.slot then rec.size else 0)
      {
        if s == rec.slot {
          assert SizesIn(records - {ptr}, s) == SizesIn(records, s) - {ptr};
          TotalRemove(SizesIn(records, s), ptr);
        } else {
          assert SizesIn(records - {ptr}, s) == SizesIn(records, s);
        }
      }
      usage := usage[rec.slot := usage[rec.slot] - rec.size];
      records := records - {ptr};
    }

    /** The global `operator new`: pool `Unknown`, period `Long`. */
    method GlobalNew(n: nat, ptr: nat) returns (r: nat)
      requires Valid() && ptr !in records
      modifies this
      ensures Valid() && r == ptr
      ensures records == old(records)[ptr := Record(n, Slot(Unknown, Long))]
      ensures usage == old(usage)[Slot(Unknown, Long) := old(usage)[Slot(Unknown, Long)] + n]
    {
      r := Alloc(n, Unknown, Long, ptr);
    }

    /** The global `operator delete`: pool `Unknown`, period `Long`. */
    method GlobalDelete(ptr: nat)
      requires Valid()
      requires ptr in records ==> records[ptr].slot == Slot(Unknown, Long)
      modifies this
      ensures Valid()
      ensures ptr !in old(records) ==> records == old(records) && usage == old(usage)
      ensures ptr in old(records) ==>
        records == old(records) - {ptr} &&
        usage == old(usage)[Slot(Unknown, Long) := old(usage)[Slot(Unknown, Long)] - old(records)[ptr].size]
    {
      Free(ptr, Unknown, Long);
    }
  }
}
