/**
 * The two regular expressions heart-codegen applies to the type spelling of
 * every accepted field: `(SerializedString<)(\d+)(>)`, whose second group is
 * parsed as the capacity of a fixed-size string, and `(hrt::vector<)(.+)(>)`,
 * whose greedy second group is the element type of a vector. `Regex.Match`
 * takes the leftmost match; `\d` is read as an ASCII digit and `.` as any
 * character but a line feed.
 */
module TypePatterns {
  import opened Wrappers
  import opened Text

  const StringPrefix := "SerializedString<"
  const VectorPrefix := "hrt::vector<"

  /** End of the run of digits starting at `j`. */
  function DigitRunEnd(s: string, j: nat): (k: nat)
    requires j <= |s|
    ensures j <= k <= |s| && AllDigits(s[j..k])
    ensures k < |s| ==> !IsDigit(s[k])
    decreases |s| - j
  {
    if j < |s| && IsDigit(s[j]) then
      var k := DigitRunEnd(s, j + 1);
      assert s[j..k] == [s[j]] + s[j + 1..k];
      k
    else j
  }

  /** The string pattern matches at `i`, its digits ending just before the `>` at `k`. */
  predicate StringMatchAt(s: string, i: nat, k: nat)
  {
    i + |StringPrefix| < k < |s| && s[i..i + |StringPrefix|] == StringPrefix &&
    AllDigits(s[i + |StringPrefix|..k]) && s[k] == '>'
  }

  /** The parsed digits of the leftmost string-pattern match at or after `i`. */
  function StringCapacityFrom(s: string, i: nat): Option<nat>
    requires i <= |s|
    decreases |s| - i
  {
    if i + |StringPrefix| >= |s| then
      None
    else
      var k := DigitRunEnd(s, i + |StringPrefix|);
      if s[i..i + |StringPrefix|] == StringPrefix && k > i + |StringPrefix| && k < |s| && s[k] == '>' then
        Some(DigitsValue(s[i + |StringPrefix|..k]))
      else
        StringCapacityFrom(s, i + 1)
  }

  /** The capacity a field's type spelling contributes to the size set, if any. */
  function StringCapacity(s: string): Option<nat>
  {
    StringCapacityFrom(s, 0)
  }

  /** The vector pattern matches at `i` with its inner group ending just before the `>` at `q`. */
  predicate VectorMatchAt(s: string, i: nat, q: nat)
  {
    i + |VectorPrefix| < q < |s| && s[i..i + |VectorPrefix|] == VectorPrefix &&
    s[q] == '>' && !ContainsChar(s[i + |VectorPrefix|..q], '\n')
  }

  /** The last `>` in `s[lo..hi]`. */
  function LastCloseBefore(s: string, lo: nat, hi: nat): (q: Option<nat>)
    requires lo <= hi <= |s|
    ensures q.Some? ==> lo <= q.value < hi && s[q.value] == '>'
    ensures q.Some? ==> forall j | q.value < j < hi :: s[j] != '>'
    ensures q.None? ==> forall j | lo <= j < hi :: s[j] != '>'
    decreases hi - lo
  {
    if hi == lo then None
    else if s[hi - 1] == '>' then Some(hi - 1)
    else LastCloseBefore(s, lo, hi - 1)
  }

  /** End of the line that starts at `start`. */
  function LineEnd(s: string, start: nat): (e: nat)
    requires start <= |s|
    ensures start <= e <= |s|
  {
    start + FirstIndexOf(s[start..], '\n')
  }

  /** The inner text of the leftmost vector-pattern match at or after `i`. */
  function VectorElementFrom(s: string, i: nat): Option<string>
    requires i <= |s|
    decreases |s| - i
  {
    if i + |VectorPrefix| >= |s| then
      None
    else
      var start := i + |VectorPrefix|;
      var lineEnd := LineEnd(s, start);
      var q := if lineEnd > start then LastCloseBefore(s, start + 1, lineEnd) else None;
      if s[i..start] == VectorPrefix && q.Some? then Some(s[start..q.value])
      else VectorElementFrom(s, i + 1)
  }

  /** The element type a field's type spelling contributes to the vector set, if any. */
  function VectorElement(s: string): Option<string>
  {
    VectorElementFrom(s, 0)
  }

  // ---------------------------------------------------------------------------

  lemma DigitRunUnique(s: string, j: nat, k: nat)
    requires j < k < |s| && AllDigits(s[j..k]) && !IsDigit(s[k])
    ensures DigitRunEnd(s, j) == k
  {
    var e := DigitRunEnd(s, j);
    forall m | j <= m < k ensures IsDigit(s[m]) {
      assert s[m] == s[j..k][m - j];
    }
    forall m | j <= m < e ensures IsDigit(s[m]) {
      assert s[m] == s[j..e][m - j];
    }
  }

  lemma LineFree(s: string, start: nat, q: nat)
    requires start <= |s| && start <= q <= LineEnd(s, start)
    ensures !ContainsChar(s[start..q], '\n')
  {
    forall m | 0 <= m < q - start ensures s[start..q][m] != '\n' {
      assert s[start..q][m] == s[start..][m];
    }
  }

  lemma PastLineEnd(s: string, start: nat, q: nat)
    requires start <= |s| && LineEnd(s, start) <= q < |s| && s[q] == '>'
    ensures ContainsChar(s[start..q], '\n')
  {
    var e := LineEnd(s, start);
    assert e < |s|;
    assert s[start..][e - start] == '\n';
    assert e < q;
    assert s[start..q][e - start] == '\n';
  }

  /** What the vector classifier decides at one position. */
  lemma VectorAt(s: string, i: nat)
    requires i + |VectorPrefix| < |s|
    ensures var start := i + |VectorPrefix|; var lineEnd := LineEnd(s, start);
      var q := if lineEnd > start then LastCloseBefore(s, start + 1, lineEnd) else None;
      (s[i..start] == VectorPrefix && q.Some? ==>
        VectorMatchAt(s, i, q.value) && forall q': nat | q.value < q' :: !VectorMatchAt(s, i, q')) &&
      (!(s[i..start] == VectorPrefix && q.Some?) ==> forall q': nat :: !VectorMatchAt(s, i, q'))
  {
    var start := i + |VectorPrefix|;
    var lineEnd := LineEnd(s, start);
    var q := if lineEnd > start then LastCloseBefore(s, start + 1, lineEnd) else None;
    forall q': nat | VectorMatchAt(s, i, q') ensures q' < lineEnd {
      if q' >= lineEnd {
        PastLineEnd(s, start, q');
      }
    }
    if s[i..start] == VectorPrefix && q.Some? {
      LineFree(s, start, q.value);
    }
  }

  /**
   * The string classifier returns the digits of the leftmost match, and
   * nothing exactly when there is no match.
   */
  lemma {:induction false} StringCapacityLeftmost(s: string, i: nat)
    requires i <= |s|
    ensures StringCapacityFrom(s, i).Some? ==>
      exists p: nat, k: nat | i <= p && StringMatchAt(s, p, k) ::
        StringCapacityFrom(s, i).value == DigitsValue(s[p + |StringPrefix|..k]) &&
        forall p': nat, k': nat | i <= p' < p :: !StringMatchAt(s, p', k')
    ensures StringCapacityFrom(s, i).None? ==>
      forall p: nat, k: nat | i <= p :: !StringMatchAt(s, p, k)
    decreases |s| - i
  {
    if i + |StringPrefix| < |s| {
      var j := i + |StringPrefix|;
      var k := DigitRunEnd(s, j);
      if s[i..j] == StringPrefix && k > j && k < |s| && s[k] == '>' {
        assert StringMatchAt(s, i, k);
      } else {
        StringCapacityLeftmost(s, i + 1);
        forall k': nat ensures !StringMatchAt(s, i, k') {
          if StringMatchAt(s, i, k') {
            DigitRunUnique(s, j, k');
          }
        }
      }
    }
  }

  /**
   * The vector classifier returns the inner text of the leftmost match,
   * taking the last `>` on the line (greedy), and nothing exactly when there
   * is no match.
   */
  /** No vector-pattern match starts in `[a, b)`. */
  ghost predicate NoVectorMatchIn(s: string, a: nat, b: nat)
  {
    forall p: nat, q: nat | a <= p < b :: !VectorMatchAt(s, p, q)
  }

  /** The match at `p` ends at `q`, the last possible end. */
  ghost predicate GreedyVectorMatch(s: string, p: nat, q: nat)
  {
    VectorMatchAt(s, p, q) && forall q': nat | q < q' :: !VectorMatchAt(s, p, q')
  }

  lemma {:induction false} VectorElementLeftmost(s: string, i: nat)
    requires i <= |s|
    ensures VectorElementFrom(s, i).Some? ==>
      exists p: nat, q: nat | i <= p && GreedyVectorMatch(s, p, q) ::
        VectorElementFrom(s, i).value == s[p + |VectorPrefix|..q] && NoVectorMatchIn(s, i, p)
    ensures VectorElementFrom(s, i).None? ==> NoVectorMatchIn(s, i, |s|)
    decreases |s| - i
  {
    if i + |VectorPrefix| < |s| {
      var start := i + |VectorPrefix|;
      var lineEnd := LineEnd(s, start);
      var q := if lineEnd > start then LastCloseBefore(s, start + 1, lineEnd) else None;
      VectorAt(s, i);
      if s[i..start] == VectorPrefix && q.Some? {
        assert GreedyVectorMatch(s, i, q.value);
        assert NoVectorMatchIn(s, i, i);
      } else {
        assert forall q': nat :: !VectorMatchAt(s, i, q');
        VectorElementLeftmost(s, i + 1);
        var r := VectorElementFrom(s, i + 1);
        if r.Some? {
          var p: nat, q1: nat :| i + 1 <= p && GreedyVectorMatch(s, p, q1) &&
            r.value == s[p + |VectorPrefix|..q1] && NoVectorMatchIn(s, i + 1, p);
          assert NoVectorMatchIn(s, i, p);
        } else {
          assert NoVectorMatchIn(s, i, |s|);
        }
      }
    } else {
      assert NoVectorMatchIn(s, i, |s|);
    }
  }

  /** A spelled `SerializedString<digits>` contributes the value of its digits. */
  lemma StringCapacityOfSpelling(digits: string)
    requires digits != [] && AllDigits(digits)
    ensures StringCapacity(StringPrefix + digits + ">") == Some(DigitsValue(digits))
  {
    var s := StringPrefix + digits + ">";
    var k := |StringPrefix| + |digits|;
    assert s[..|StringPrefix|] == StringPrefix;
    assert s[|StringPrefix|..k] == digits;
    DigitRunUnique(s, |StringPrefix|, k);
  }

  /** `hrt::vector<T>` contributes `T` whole, even when `T` contains `>` itself. */
  lemma VectorElementOfSpelling(t: string)
    requires t != [] && !ContainsChar(t, '\n')
    ensures VectorElement(VectorPrefix + t + ">") == Some(t)
  {
    var s := VectorPrefix + t + ">";
    var q := |VectorPrefix| + |t|;
    assert s[..|VectorPrefix|] == VectorPrefix;
    assert s[|VectorPrefix|..q] == t;
    assert VectorMatchAt(s, 0, q);
    VectorElementLeftmost(s, 0);
    var r := VectorElement(s);
    var p: nat, q1: nat :| 0 <= p && GreedyVectorMatch(s, p, q1) &&
      r.value == s[p + |VectorPrefix|..q1] && NoVectorMatchIn(s, 0, p);
    assert p == 0;
    assert q1 == q;
  }

  /** A type spelling without `<` contributes to neither set. */
  lemma PlainSpellingsContributeNothing(s: string)
    requires forall i | 0 <= i < |s| :: s[i] != '<'
    ensures StringCapacity(s) == None && VectorElement(s) == None
  {
    forall p: nat, k: nat ensures !StringMatchAt(s, p, k) {
      if p + |StringPrefix| <= |s| {
        assert s[p..p + |StringPrefix|][|StringPrefix| - 1] != StringPrefix[|StringPrefix| - 1];
      }
    }
    forall p: nat, q: nat ensures !VectorMatchAt(s, p, q) {
      if p + |VectorPrefix| <= |s| {
        assert s[p..p + |VectorPrefix|][|VectorPrefix| - 1] != VectorPrefix[|VectorPrefix| - 1];
      }
    }
    StringCapacityLeftmost(s, 0);
    VectorElementLeftmost(s, 0);
    assert NoVectorMatchIn(s, 0, |s|);
  }
}
