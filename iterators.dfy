/**
 * `hrt::iterator`, `hrt::const_iterator` and `hrt::reverse_iterator`
 * (heart/heart-stl/include/heart/stl/iterator.h). An iterator is a pointer
 * into an array; here the pointer is its position, counted in elements, and
 * the null pointer is position 0. Dereferencing is not modelled.
 *
 * `+=`/`-=` change the iterator in place; the copies returned by `+`, `-`
 * and the postfix operators are fresh objects (`DECLARE_CANONICAL_*`).
 */
module Iterators {
  import opened CanonicalOperators

  const NullPosition := 0

  class Iterator {
    var pos: int

    /** The default constructor: a null iterator. */
    constructor ()
      ensures pos == NullPosition
    {
      pos := NullPosition;
    }

    constructor At(p: int)
      ensures pos == p
    {
      pos := p;
    }

    method AddAssign(offset: int)
      modifies this
      ensures pos == old(pos) + offset
    {
      pos := pos + offset;
    }

    method SubAssign(offset: int)
      modifies this
      ensures pos == old(pos) - offset
    {
      pos := pos - offset;
    }

    /** `x + n`: a copy advanced with `+=`; `x` itself does not move. */
    method Plus(offset: int) returns (r: Iterator)
      ensures fresh(r) && r.pos == pos + offset
    {
      r := new Iterator.At(pos);
      r.AddAssign(offset);
    }

    method Minus(offset: int) returns (r: Iterator)
      ensures fresh(r) && r.pos == pos - offset
    {
      r := new Iterator.At(pos);
      r.SubAssign(offset);
    }

    /** Prefix `++` is `+= 1`. */
    method PreIncrement()
      modifies this
      ensures pos == old(pos) + 1
    {
      AddAssign(1);
    }

    /** Postfix `++`: returns a copy of the old value and advances the iterator. */
    method PostIncrement() returns (r: Iterator)
      modifies this
      ensures fresh(r) && r.pos == old(pos) && pos == old(pos) + 1
    {
      r := new Iterator.At(pos);
      PreIncrement();
    }

    method PreDecrement()
      modifies this
      ensures pos == old(pos) - 1
    {
      SubAssign(1);
    }

    method PostDecrement() returns (r: Iterator)
      modifies this
      ensures fresh(r) && r.pos == old(pos) && pos == old(pos) - 1
    {
      r := new Iterator.At(pos);
      PreDecrement();
    }

    /** `it1 - it2`: the distance between the positions. */
    function Difference(other: Iterator): int
      reads this, other
    {
      pos - other.pos
    }

    predicate Equal(other: Iterator)
      reads this, other
    {
      pos == other.pos
    }

    predicate Less(other: Iterator)
      reads this, other
    {
      pos < other.pos
    }

    predicate LessEq(other: Iterator)
      reads this, other
    {
      LessOrEqual(Less(other), Equal(other))
    }
  }

  class ConstIterator {
    var pos: int

    constructor ()
      ensures pos == NullPosition
    {
      pos := NullPosition;
    }

    constructor At(p: int)
      ensures pos == p
    {
      pos := p;
    }

    /** The conversion from `iterator`: the same position. */
    constructor FromIterator(it: Iterator)
      ensures pos == it.pos
    {
      pos := it.pos;
    }

    method AddAssign(offset: int)
      modifies this
      ensures pos == old(pos) + offset
    {
      pos := pos + offset;
    }

    method SubAssign(offset: int)
      modifies this
      ensures pos == old(pos) - offset
    {
      pos := pos - offset;
    }

    method Plus(offset: int) returns (r: ConstIterator)
      ensures fresh(r) && r.pos == pos + offset
    {
      r := new ConstIterator.At(pos);
      r.AddAssign(offset);
    }

    function Difference(other: ConstIterator): int
      reads this, other
    {
      pos - other.pos
    }

    predicate Equal(other: ConstIterator)
      reads this, other
    {
      pos == other.pos
    }

    predicate Less(other: ConstIterator)
      reads this, other
    {
      pos < other.pos
    }

    /** The mixed comparisons against an `iterator` compare positions too. */
    predicate EqualIterator(other: Iterator)
      reads this, other
    {
      pos == other.pos
    }

    predicate LessIterator(other: Iterator)
      reads this, other
    {
      pos < other.pos
    }
  }

  /** `reverse_iterator` over an `iterator` whose position is `base`. */
  class ReverseIterator {
    var base: int

    constructor ()
      ensures base == NullPosition
    {
      base := NullPosition;
    }

    constructor At(p: int)
      ensures base == p
    {
      base := p;
    }

    /** `+=` moves the underlying iterator backward. */
    method AddAssign(offset: int)
      modifies this
      ensures base == old(base) - offset
    {
      base := base - offset;
    }

    /** `-=` moves the underlying iterator forward. */
    method SubAssign(offset: int)
      modifies this
      ensures base == old(base) + offset
    {
      base := base + offset;
    }

    method Plus(offset: int) returns (r: ReverseIterator)
      ensures fresh(r) && r.base == base - offset
    {
      r := new ReverseIterator.At(base);
      r.AddAssign(offset);
    }

    /** `==` compares the bases. */
    predicate Equal(other: ReverseIterator)
      reads this, other
    {
      base == other.base
    }

    /** `a < b` iff `b`'s base is below `a`'s. */
    predicate Less(other: ReverseIterator)
      reads this, other
    {
      other.base < base
    }

    predicate LessEq(other: ReverseIterator)
      reads this, other
    {
      LessOrEqual(Less(other), Equal(other))
    }

    /** `operator-` as written: the bases' difference, not reversed. */
    function Difference(other: ReverseIterator): int
      reads this, other
    {
      ReverseDifferenceAsWritten(base, other.base)
    }

    /** The difference evidently intended: counted in the reverse direction. */
    function Distance(other: ReverseIterator): int
      reads this, other
    {
      ReverseDistance(base, other.base)
    }
  }

  /** `reverse_iterator::operator-` on the two bases, as written. */
  function ReverseDifferenceAsWritten(a: int, b: int): int
  {
    a - b
  }

  /** The distance a reverse iterator at base `a` lies past one at base `b`, counting in its own direction. */
  function ReverseDistance(a: int, b: int): int
  {
    b - a
  }

  /**
   * A reverse iterator advanced `n` steps (its base moved down by `n`)
   * minus the one it started from: the code gives `-n`.
   */
  lemma ReverseDifferenceIsNegated(p: int, n: int)
    ensures ReverseDifferenceAsWritten(p - n, p) == -n
  {
  }

  /** With the distance counted in the reverse direction, advancing by `n` is `n` apart, as for forward iterators. */
  lemma ReverseDistanceMatchesAdvance(p: int, n: int)
    ensures ReverseDistance(p - n, p) == n
    ensures ReverseDistance(p - n, p) == (p + n) - p
  {
  }

  /**
   * A reverse iterator advanced `n` steps with `+=`, minus an iterator left
   * where it started, through `operator-` as written: the result is `-n`.
   */
  method AdvancedDifference(p: int, n: int) returns (d: int)
    ensures d == -n
  {
    var start := new ReverseIterator.At(p);
    var it := new ReverseIterator.At(p);
    it.AddAssign(n);
    d := it.Difference(start);
    ReverseDifferenceIsNegated(p, n);
  }

  /** The same two iterators measured with the intended `Distance` are `n` apart. */
  method AdvancedDistance(p: int, n: int) returns (d: int)
    ensures d == n
  {
    var start := new ReverseIterator.At(p);
    var it := new ReverseIterator.At(p);
    it.AddAssign(n);
    d := it.Distance(start);
    ReverseDistanceMatchesAdvance(p, n);
  }
}
