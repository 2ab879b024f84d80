/**
 * The canonical-operator macros (heart/canonical_operators.h): `!=`, `<=`,
 * `>` and `>=` derived from a type's own `==` and `<`, and `+`, `-`, `++`,
 * `--` derived from its `+=` and `-=` (those live on the iterator classes).
 */
module CanonicalOperators {
  /** `DECLARE_CANONICAL_COMPARISON_OPERATORS`: each derived result from the two primitive results. */
  function NotEqual(eq: bool): bool { !eq }
  function LessOrEqual(lt: bool, eq: bool): bool { lt || eq }
  function Greater(lt: bool, eq: bool): bool { !lt && !eq }
  function GreaterOrEqual(lt: bool): bool { !lt }

  /**
   * Over a strict total order (here: positions compared as integers) the
   * derived operators are exactly the other four relations.
   */
  lemma DerivedComparisons(a: int, b: int)
    ensures NotEqual(a == b) <==> a != b
    ensures LessOrEqual(a < b, a == b) <==> a <= b
    ensures Greater(a < b, a == b) <==> a > b
    ensures GreaterOrEqual(a < b) <==> a >= b
  {
  }

  /** The same over the mirrored order `<` of reverse iterators: `a < b` iff `b`'s base is below `a`'s. */
  lemma DerivedComparisonsMirrored(a: int, b: int)
    ensures LessOrEqual(b < a, a == b) <==> b <= a
    ensures Greater(b < a, a == b) <==> b > a
    ensures GreaterOrEqual(b < a) <==> a <= b
  {
  }
}
