/**
 * Text helpers shared by both generators: decimal digits, prefixes and
 * substrings, and the character splitting that .NET's `String.Split(char)`
 * performs.
 */
module Text {

  predicate IsDigit(c: char)
  {
    '0' <= c <= '9'
  }

  predicate AllDigits(s: string)
  {
    forall i | 0 <= i < |s| :: IsDigit(s[i])
  }

  /** The value of a run of decimal digits, most significant first. */
  function DigitsValue(s: string): nat
    requires AllDigits(s)
  {
    if s == [] then 0 else DigitsValue(s[..|s| - 1]) * 10 + (s[|s| - 1] - '0') as nat
  }

  /** Decimal rendering, as C# string interpolation writes a non-negative int. */
  function NatToString(n: nat): (r: string)
    ensures r != [] && AllDigits(r)
    ensures DigitsValue(r) == n
  {
    var d := [(n % 10) as char + '0'];
    if n < 10 then
      assert DigitsValue(d) == DigitsValue([]) * 10 + n;
      d
    else
      var r := NatToString(n / 10) + d;
      assert r[..|r| - 1] == NatToString(n / 10);
      r
  }

  /** Rendering then parsing gives the number back, and distinct numbers render differently. */
  lemma NatToStringInjective(a: nat, b: nat)
    ensures NatToString(a) == NatToString(b) <==> a == b
  {
  }

  predicate StartsWith(s: string, prefix: string)
  {
    |prefix| <= |s| && s[..|prefix|] == prefix
  }

  predicate EndsWith(s: string, suffix: string)
  {
    |suffix| <= |s| && s[|s| - |suffix|..] == suffix
  }

  /** `s.Contains(t)`: `t` occurs in `s` at some position. */
  predicate Contains(s: string, t: string)
    decreases |s|
  {
    StartsWith(s, t) || (s != [] && Contains(s[1..], t))
  }

  predicate ContainsChar(s: string, c: char)
  {
    exists i | 0 <= i < |s| :: s[i] == c
  }

  /** Index of the first `c` in `s`, or `|s|` when there is none. */
  function FirstIndexOf(s: string, c: char): (k: nat)
    ensures k <= |s|
    ensures k < |s| ==> s[k] == c
    ensures forall i | 0 <= i < k :: s[i] != c
  {
    if s == [] || s[0] == c then 0 else 1 + FirstIndexOf(s[1..], c)
  }

  /**
   * `s.Split(c)`: the pieces between consecutive occurrences of `c`,
   * empty pieces included, so a string with n separators gives n + 1 pieces.
   */
  function Split(s: string, c: char): (r: seq<string>)
    ensures |r| >= 1
    ensures forall i | 0 <= i < |r| :: !ContainsChar(r[i], c)
    decreases |s|
  {
    var k := FirstIndexOf(s, c);
    if k == |s| then [s] else [s[..k]] + Split(s[k + 1..], c)
  }

  /** Joins pieces with `c` between them: the inverse of `Split`. */
  function Join(pieces: seq<string>, c: char): string
  {
    if pieces == [] then ""
    else if |pieces| == 1 then pieces[0]
    else pieces[0] + [c] + Join(pieces[1..], c)
  }

  lemma {:induction false} JoinSplit(s: string, c: char)
    ensures Join(Split(s, c), c) == s
    decreases |s|
  {
    var k := FirstIndexOf(s, c);
    if k < |s| {
      JoinSplit(s[k + 1..], c);
      JoinSplitAt(s, c, k);
    } else {
      assert Split(s, c) == [s];
    }
  }

  /** The inductive step of `JoinSplit`, at the first separator `k`. */
  lemma JoinSplitAt(s: string, c: char, k: nat)
    requires k == FirstIndexOf(s, c) < |s| && Join(Split(s[k + 1..], c), c) == s[k + 1..]
    ensures Join(Split(s, c), c) == s
  {
    var first, tail := s[..k], s[k + 1..];
    SplitAtSeparator(s, c, k);
    JoinCons(first, Split(tail, c), c);
    assert s == first + [c] + tail;
  }

  /** A separator at the first `c` cuts off the first piece. */
  lemma SplitAtSeparator(s: string, c: char, k: nat)
    requires k == FirstIndexOf(s, c) < |s|
    ensures Split(s, c) == [s[..k]] + Split(s[k + 1..], c)
  {
  }

  /** Joining a first piece before a non-empty rest puts `c` between them. */
  lemma JoinCons(p: string, rest: seq<string>, c: char)
    requires |rest| >= 1
    ensures Join([p] + rest, c) == p + [c] + Join(rest, c)
  {
    assert ([p] + rest)[1..] == rest;
  }

  lemma {:induction false} SplitJoin(pieces: seq<string>, c: char)
    requires |pieces| >= 1
    requires forall i | 0 <= i < |pieces| :: !ContainsChar(pieces[i], c)
    ensures Split(Join(pieces, c), c) == pieces
  {
    if |pieces| == 1 {
      assert FirstIndexOf(pieces[0], c) == |pieces[0]|;
    } else {
      var rest := Join(pieces[1..], c);
      var s := pieces[0] + [c] + rest;
      assert s[|pieces[0]|] == c;
      forall i | 0 <= i < |pieces[0]|
        ensures s[i] != c
      {
        assert s[i] == pieces[0][i];
        assert !ContainsChar(pieces[0], c);
      }
      assert FirstIndexOf(s, c) == |pieces[0]|;
      assert s[..|pieces[0]|] == pieces[0];
      assert s[|pieces[0]| + 1..] == rest;
      SplitJoin(pieces[1..], c);
    }
  }

  /** A string without the separator is a single piece. */
  lemma SplitNoSeparator(s: string, c: char)
    requires !ContainsChar(s, c)
    ensures Split(s, c) == [s]
  {
    assert FirstIndexOf(s, c) == |s|;
  }

  /** The first piece runs up to the first separator. */
  lemma SplitAtFirst(a: string, c: char, b: string)
    requires !ContainsChar(a, c)
    ensures Split(a + [c] + b, c) == [a] + Split(b, c)
  {
    var s := a + [c] + b;
    assert s[|a|] == c;
    assert forall i | 0 <= i < |a| :: s[i] == a[i];
    assert FirstIndexOf(s, c) == |a|;
    assert s[..|a|] == a;
    assert s[|a| + 1..] == b;
  }

  /** Pieces that are not empty, in order (`string.IsNullOrEmpty` filtering). */
  function NonEmpty(pieces: seq<string>): (r: seq<string>)
    ensures forall i | 0 <= i < |r| :: r[i] != "" && r[i] in pieces
    ensures forall p | p in pieces && p != "" :: p in r
  {
    if pieces == [] then []
    else if pieces[0] == "" then NonEmpty(pieces[1..])
    else [pieces[0]] + NonEmpty(pieces[1..])
  }

  /** Adds `x` unless already present, keeping first-insertion order (.NET `HashSet.Add`). */
  function AddUnique<T(==)>(s: seq<T>, x: T): (r: seq<T>)
    ensures x in r && (forall y | y in s :: y in r) && (forall y | y in r :: y in s || y == x)
    ensures x in s ==> r == s
    ensures x !in s ==> r == s + [x]
  {
    if x in s then s else s + [x]
  }

  predicate Distinct<T(==)>(s: seq<T>)
  {
    forall i, j | 0 <= i < j < |s| :: s[i] != s[j]
  }
}
