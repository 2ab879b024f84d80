/**
 * The older `hrt::iterator`, `hrt::const_iterator` and `hrt::reverse_iterator`
 * (game/heart-stl/include/heart/stl/iterator.h). As in `Iterators`, an
 * iterator is its position in elements and null is position 0; this copy
 * has no comparisons on reverse iterators, only `base()`.
 */
module LegacyIterators {
  import opened CanonicalOperators
  import Iterators

  const NullPosition := 0

  class Iterator {
    var pos: int

    constructor ()
      ensures pos == NullPosition
    {
      pos := NullPosition;
    }

    constructor At(p: int)
      ensures pos == p
    {
      pos := p;
    }

    method AddAssign(offset: int)
      modifies this
      ensures pos == old(pos) + offset
    {
      pos := pos + offset;
    }

    method SubAssign(offset: int)
      modifies this
      ensures pos == old(pos) - offset
    {
      pos := pos - offset;
    }

    method Plus(offset: int) returns (r: Iterator)
      ensures fresh(r) && r.pos == pos + offset
    {
      r := new Iterator.At(pos);
      r.AddAssign(offset);
    }

    method PostIncrement() returns (r: Iterator)
      modifies this
      ensures fresh(r) && r.pos == old(pos) && pos == old(pos) + 1
    {
      r := new Iterator.At(pos);
      AddAssign(1);
    }

    function Difference(other: Iterator): int
      reads this, other
    {
      pos - other.pos
    }

    predicate Equal(other: Iterator)
      reads this, other
    {
      pos == other.pos
    }

    predicate Less(other: Iterator)
      reads this, other
    {
      pos < other.pos
    }

    predicate Greater(other: Iterator)
      reads this, other
    {
      CanonicalOperators.Greater(Less(other), Equal(other))
    }
  }

  class ConstIterator {
    var pos: int

    constructor At(p: int)
      ensures pos == p
    {
      pos := p;
    }

    constructor FromIterator(it: Iterator)
      ensures pos == it.pos
    {
      pos := it.pos;
    }

    method AddAssign(offset: int)
      modifies this
      ensures pos == old(pos) + offset
    {
      pos := pos + offset;
    }

    method SubAssign(offset: int)
      modifies this
      ensures pos == old(pos) - offset
    {
      pos := pos - offset;
    }

    function Difference(other: ConstIterator): int
      reads this, other
    {
      pos - other.pos
    }

    predicate Equal(other: ConstIterator)
      reads this, other
    {
      pos == other.pos
    }

    predicate Less(other: ConstIterator)
      reads this, other
    {
      pos < other.pos
    }

    predicate EqualIterator(other: Iterator)
      reads this, other
    {
      pos == other.pos
    }

    predicate LessIterator(other: Iterator)
      reads this, other
    {
      pos < other.pos
    }
  }

  class ReverseIterator {
    var base: int

    constructor At(p: int)
      ensures base == p
    {
      base := p;
    }

    method AddAssign(offset: int)
      modifies this
      ensures base == old(base) - offset
    {
      base := base - offset;
    }

    method SubAssign(offset: int)
      modifies this
      ensures base == old(base) + offset
    {
      base := base + offset;
    }

    /** `base()`: a fresh copy of the underlying iterator. */
    method Base() returns (it: Iterator)
      ensures fresh(it) && it.pos == base
    {
      it := new Iterator.At(base);
    }

    /** `operator-` as written: the bases' difference, not reversed. */
    function Difference(other: ReverseIterator): int
      reads this, other
    {
      Iterators.ReverseDifferenceAsWritten(base, other.base)
    }

    /** The difference evidently intended: counted in the reverse direction. */
    function Distance(other: ReverseIterator): int
      reads this, other
    {
      Iterators.ReverseDistance(base, other.base)
    }
  }

  /**
   * A reverse iterator advanced `n` steps with `+=`, minus an iterator left
   * where it started, through `operator-` as written: the result is `-n`,
   * as in the newer `Iterators`.
   */
  method AdvancedDifference(p: int, n: int) returns (d: int)
    ensures d == -n
  {
    var start := new ReverseIterator.At(p);
    var it := new ReverseIterator.At(p);
    it.AddAssign(n);
    d := it.Difference(start);
    Iterators.ReverseDifferenceIsNegated(p, n);
  }

  /** The same two iterators measured with the intended `Distance` are `n` apart. */
  method AdvancedDistance(p: int, n: int) returns (d: int)
    ensures d == n
  {
    var start := new ReverseIterator.At(p);
    var it := new ReverseIterator.At(p);
    it.AddAssign(n);
    d := it.Distance(start);
    Iterators.ReverseDistanceMatchesAdvance(p, n);
  }
}
