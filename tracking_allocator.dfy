/**
 * `TestTrackingAllocator` (heart-test/src/utils/tracking_allocator.h): an
 * allocator for tests that counts live allocations and bytes and remembers
 * the size of every pointer it handed out. Addresses come from
 * `operator new`, given here as a parameter. Both counters are
 * `std::atomic_uint64_t`, so they wrap modulo 2^64.
 */
module TrackingAllocator {
  import opened Accounting

  /** The range of `uint64_t`. */
  const U64: int := 0x1_0000_0000_0000_0000

  /**
   * `x` reduced into `uint64_t`: what a `uint64_t` holds after arithmetic
   * whose exact result is `x`. Written as steps of 2^64 rather than `%`,
   * so that the verifier unfolds it only as far as a proof needs.
   */
  function Wrap(x: int): (r: nat)
    ensures r < U64
    decreases if x < 0 then 1 else 0, if x < 0 then -x else x
  {
    if x < 0 then Wrap(x + U64) else if x < U64 then x else Wrap(x - U64)
  }

  /** How many multiples of 2^64 `Wrap` takes off (negative when it adds). */
  ghost function Laps(x: int): int
    decreases if x < 0 then 1 else 0, if x < 0 then -x else x
  {
    if x < 0 then Laps(x + U64) - 1 else if x < U64 then 0 else Laps(x - U64) + 1
  }

  lemma {:induction false} WrapLaps(x: int)
    ensures x == Wrap(x) + Laps(x) * U64
    decreases if x < 0 then 1 else 0, if x < 0 then -x else x
  {
    if x < 0 {
      WrapLaps(x + U64);
    } else if x >= U64 {
      WrapLaps(x - U64);
    }
  }

  /** `Wrap` is reduction modulo 2^64. */
  lemma WrapIsMod(x: int)
    ensures Wrap(x) == x % U64
  {
    WrapLaps(x);
    assert x == Wrap(x) + Laps(x) * U64;
  }

  /**
   * `r` is what a `uint64_t` holds after arithmetic whose exact result is
   * `x`, having taken `laps` multiples of 2^64 off it (negative when it
   * added them). Stated without `Wrap`, so that a caller only meets linear
   * arithmetic; `WrapsToIsWrap` shows it pins `r` to `Wrap(x)`.
   */
  ghost predicate WrapsTo(x: int, r: int, laps: int)
  {
    0 <= r < U64 && r == x - laps * U64
  }

  /** The laps are forced: a value in range that differs from `x` by multiples of 2^64 is `Wrap(x)`. */
  lemma WrapsToIsWrap(x: int, r: int, laps: int)
    requires WrapsTo(x, r, laps)
    ensures r == Wrap(x) && laps == Laps(x)
  {
    WrapLaps(x);
  }

  /** One more step of `uint64_t` arithmetic: adding `d` to the held value keeps it the wrapped exact result. */
  lemma WrapStep(x: int, r: int, laps: int, d: int)
    requires WrapsTo(x, r, laps)
    ensures WrapsTo(x + d, Wrap(r + d), laps + Laps(r + d))
  {
    WrapLaps(r + d);
  }

  class TrackingAllocator {
    var allocatedSize: nat
    var allocatedCount: nat
    var allocationMap: map<nat, nat>
    /** Deallocations of pointers the map did not hold (each one a failed `EXPECT_TRUE`). */
    ghost var unmatchedFrees: nat
    /** How many times each counter has wrapped past 2^64, up or down. */
    ghost var sizeWraps: int
    ghost var countWraps: int

    /**
     * The byte counter is the total of the recorded sizes, and the count is
     * the number of recorded pointers less the unmatched deallocations, both
     * modulo 2^64.
     */
    ghost predicate Valid()
      reads this
    {
      WrapsTo(Total(allocationMap), allocatedSize, sizeWraps) &&
      WrapsTo(|allocationMap| - unmatchedFrees, allocatedCount, countWraps)
    }

    constructor ()
      ensures Valid() && allocatedSize == 0 && allocatedCount == 0 && allocationMap == map[] && unmatchedFrees == 0
    {
      allocatedSize := 0;
      allocatedCount := 0;
      allocationMap := map[];
      unmatchedFrees := 0;
      sizeWraps, countWraps := 0, 0;
    }

    /** `RawAllocate(n)`: `ptr` is what `operator new` returned, an address not currently handed out. */
    method RawAllocate(n: nat, ptr: nat) returns (r: nat)
      requires Valid() && ptr !in allocationMap
      modifies this
      ensures Valid() && r == ptr && unmatchedFrees == old(unmatchedFrees)
      ensures WrapsTo(old(allocatedCount) + 1, allocatedCount, countWraps - old(countWraps))
      ensures WrapsTo(old(allocatedSize) + n, allocatedSize, sizeWraps - old(sizeWraps))
      ensures allocationMap == old(allocationMap)[ptr := n]
    {
      WrapStep(|allocationMap| - unmatchedFrees, allocatedCount, countWraps, 1);
      WrapStep(Total(allocationMap), allocatedSize, sizeWraps, n);
      countWraps := countWraps + Laps(allocatedCount + 1);
      sizeWraps := sizeWraps + Laps(allocatedSize + n);
      allocatedCount := Wrap(allocatedCount + 1);
      allocatedSize := Wrap(allocatedSize + n);
      TotalAdd(allocationMap, ptr, n);
      allocationMap := allocationMap[ptr := n];
      r := ptr;
    }

    /**
     * `RawDeallocate(p)`: always one fewer allocation; a recorded pointer
     * also gives back its recorded size and leaves the map. `flagged` is the
     * test's expectation failing: the pointer was not recorded.
     */
    method RawDeallocate(p: nat) returns (flagged: bool)
      requires Valid()
      modifies this
      ensures Valid() && WrapsTo(old(allocatedCount) - 1, allocatedCount, countWraps - old(countWraps))
      ensures flagged <==> p !in old(allocationMap)
      ensures !flagged ==> WrapsTo(old(allocatedSize) - old(allocationMap)[p], allocatedSize, sizeWraps - old(sizeWraps)) &&
                           allocationMap == old(allocationMap) - {p} && unmatchedFrees == old(unmatchedFrees)
      ensures flagged ==> allocatedSize == old(allocatedSize) && sizeWraps == old(sizeWraps) && allocationMap == old(allocationMap) &&
                          unmatchedFrees == old(unmatchedFrees) + 1
    {
      WrapStep(|allocationMap| - unmatchedFrees, allocatedCount, countWraps, -1);
      countWraps := countWraps + Laps(allocatedCount - 1);
      allocatedCount := Wrap(allocatedCount - 1);
      if p in allocationMap {
        TotalRemove(allocationMap, p);
        WrapStep(Total(allocationMap), allocatedSize, sizeWraps, -(allocationMap[p] as int));
        sizeWraps := sizeWraps + Laps(allocatedSize - allocationMap[p]);
        allocatedSize := Wrap(allocatedSize - allocationMap[p]);
        allocationMap := allocationMap - {p};
        flagged := false;
      } else {
        unmatchedFrees := unmatchedFrees + 1;
        flagged := true;
      }
    }

    /** The counters are the recorded total and count reduced into `uint64_t`. */
    lemma CountersWrap()
      requires Valid()
      ensures allocatedSize == Wrap(Total(allocationMap)) && allocatedSize == Total(allocationMap) % U64
      ensures allocatedCount == Wrap(|allocationMap| - unmatchedFrees)
    {
      WrapsToIsWrap(Total(allocationMap), allocatedSize, sizeWraps);
      WrapIsMod(Total(allocationMap));
      WrapsToIsWrap(|allocationMap| - unmatchedFrees, allocatedCount, countWraps);
    }

    /** Once every allocation has been given back, and none twice, both counters are back to 0. */
    lemma Balanced()
      requires Valid() && allocationMap == map[] && unmatchedFrees == 0
      ensures allocatedCount == 0 && allocatedSize == 0
    {
    }

    /**
     * Giving back one pointer that was never handed out, when nothing is
     * recorded, takes the count below zero: it wraps to 2^64 - 1.
     */
    lemma UnmatchedFreeWraps()
      requires Valid() && allocationMap == map[] && unmatchedFrees == 1
      ensures allocatedCount == U64 - 1 && allocatedSize == 0
    {
      assert allocatedCount == -1 - countWraps * U64;
    }
  }
}
