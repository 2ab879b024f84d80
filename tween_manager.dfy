/**
 * `TweenManager` (game/src/tween/tween_manager.cpp): the list of live tweens,
 * a vector of pointers. Registering appends; unregistering overwrites the
 * first occurrence with the last element and pops the back; a tick steps
 * every live tween once, in list order.
 *
 * Tweens are identified by their address (a `nat`); the calls to `Step`
 * are recorded in `steps` as (tween, delta) pairs.
 */
module TweenManager {
  /** The list after removing index `i` by swapping in the last element. */
  function SwapRemove<T>(s: seq<T>, i: nat): (r: seq<T>)
    requires i < |s|
    ensures |r| == |s| - 1
  {
    s[i := s[|s| - 1]][..|s| - 1]
  }

  /** Swap-removal loses exactly the occurrence at `i` and keeps every other element. */
  lemma SwapRemoveMultiset<T>(s: seq<T>, i: nat)
    requires i < |s|
    ensures multiset(SwapRemove(s, i)) == multiset(s) - multiset{s[i]}
  {
    var last := |s| - 1;
    if i == last {
      assert SwapRemove(s, i) == s[..last];
      assert s == s[..last] + [s[last]];
    } else {
      var a, b := s[..i], s[i + 1..last];
      SwapRemoveShape(s, i);
      ExchangeMultiset(a, s[i], b, s[last]);
    }
  }

  /** Around `i`, the sequence and its swap-removal share their other pieces. */
  lemma SwapRemoveShape<T>(s: seq<T>, i: nat)
    requires i < |s| - 1
    ensures s == s[..i] + [s[i]] + s[i + 1..|s| - 1] + [s[|s| - 1]]
    ensures SwapRemove(s, i) == s[..i] + [s[|s| - 1]] + s[i + 1..|s| - 1]
  {
  }

  lemma ExchangeMultiset<T>(a: seq<T>, x: T, b: seq<T>, y: T)
    ensures multiset(a + [y] + b) == multiset(a + [x] + b + [y]) - multiset{x}
  {
  }

  /** Elements before `i` keep their places; the last element takes place `i`. */
  lemma SwapRemoveOrder<T>(s: seq<T>, i: nat)
    requires i < |s| - 1
    ensures SwapRemove(s, i)[..i] == s[..i]
    ensures SwapRemove(s, i)[i] == s[|s| - 1]
    ensures SwapRemove(s, i)[i + 1..] == s[i + 1..|s| - 1]
  {
  }

  /** The calls a tick makes: `Step(delta)` on each tween, in order. */
  function StepsOf(tweens: seq<nat>, delta: nat): (r: seq<(nat, nat)>)
    ensures |r| == |tweens|
    ensures forall k | 0 <= k < |tweens| :: r[k] == (tweens[k], delta)
  {
    seq(|tweens|, k requires 0 <= k < |tweens| => (tweens[k], delta))
  }

  class Registry {
    var liveTweens: seq<nat>
    var steps: seq<(nat, nat)>

    constructor ()
      ensures liveTweens == [] && steps == []
    {
      liveTweens := [];
      steps := [];
    }

    method RegisterTween(t: nat)
      modifies this
      ensures liveTweens == old(liveTweens) + [t] && steps == old(steps)
    {
      liveTweens := liveTweens + [t];
    }

    /**
     * `UnregisterTween`: finds the first occurrence (`std::find`); if there
     * is one, overwrites it with the back and pops. An absent tween leaves
     * the list as it was.
     */
    method UnregisterTween(t: nat)
      modifies this
      ensures t !in old(liveTweens) ==> liveTweens == old(liveTweens)
      ensures t in old(liveTweens) ==>
        exists i | 0 <= i < |old(liveTweens)| ::
          old(liveTweens)[i] == t && t !in old(liveTweens)[..i] && liveTweens == SwapRemove(old(liveTweens), i)
      ensures multiset(liveTweens) == multiset(old(liveTweens)) - multiset{t}
      ensures steps == old(steps)
    {
      var i := 0;
      while i < |liveTweens| && liveTweens[i] != t
        invariant 0 <= i <= |liveTweens|
        invariant t !in liveTweens[..i]
      {
        i := i + 1;
      }
      if i == |liveTweens| {
        assert liveTweens[..i] == liveTweens;
        assert multiset(liveTweens)[t] == 0;
        return;
      }
      SwapRemoveMultiset(liveTweens, i);
      liveTweens := SwapRemove(liveTweens, i);
    }

    /** `Tick`: steps every live tween once, in list order. */
    method Tick(delta: nat)
      modifies this
      ensures liveTweens == old(liveTweens)
      ensures steps == old(steps) + StepsOf(liveTweens, delta)
    {
      for k := 0 to |liveTweens|
        invariant liveTweens == old(liveTweens)
        invariant steps == old(steps) + StepsOf(liveTweens[..k], delta)
      {
        assert StepsOf(liveTweens[..k + 1], delta) == StepsOf(liveTweens[..k], delta) + [(liveTweens[k], delta)];
        steps := steps + [(liveTweens[k], delta)];
      }
      assert liveTweens[..|liveTweens|] == liveTweens;
    }
  }
}
