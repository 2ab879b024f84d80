/**
 * The sfml-demo copy of `TweenManager`
 * (game/sfml-demo/src/tween/tween_manager.cpp): the same registry, with the
 * same operations and the same swap-with-last removal; it shares the list
 * functions of `TweenManager`.
 */
module DemoTweenManager {
  import opened TweenManager

  class Registry {
    var liveTweens: seq<nat>
    var steps: seq<(nat, nat)>

    constructor ()
      ensures liveTweens == [] && steps == []
    {
      liveTweens := [];
      steps := [];
    }

    method RegisterTween(t: nat)
      modifies this
      ensures liveTweens == old(liveTweens) + [t] && steps == old(steps)
    {
      liveTweens := liveTweens + [t];
    }

    /**
     * `UnregisterTween`: finds the first occurrence (`std::find`); if there
     * is one, overwrites it with the back and pops. An absent tween leaves
     * the list as it was.
     */
    method UnregisterTween(t: nat)
      modifies this
      ensures t !in old(liveTweens) ==> liveTweens == old(liveTweens)
      ensures t in old(liveTweens) ==>
        exists i | 0 <= i < |old(liveTweens)| ::
          old(liveTweens)[i] == t && t !in old(liveTweens)[..i] && liveTweens == SwapRemove(old(liveTweens), i)
      ensures multiset(liveTweens) == multiset(old(liveTweens)) - multiset{t}
      ensures steps == old(steps)
    {
      var i := 0;
      while i < |liveTweens| && liveTweens[i] != t
        invariant 0 <= i <= |liveTweens|
        invariant t !in liveTweens[..i]
      {
        i := i + 1;
      }
      if i == |liveTweens| {
        assert liveTweens[..i] == liveTweens;
        assert multiset(liveTweens)[t] == 0;
        return;
      }
      SwapRemoveMultiset(liveTweens, i);
      liveTweens := SwapRemove(liveTweens, i);
    }

    /** `Tick`: steps every live tween once, in list order. */
    method Tick(delta: nat)
      modifies this
      ensures liveTweens == old(liveTweens)
      ensures steps == old(steps) + StepsOf(liveTweens, delta)
    {
      for k := 0 to |liveTweens|
        invariant liveTweens == old(liveTweens)
        invariant steps == old(steps) + StepsOf(liveTweens[..k], delta)
      {
        assert StepsOf(liveTweens[..k + 1], delta) == StepsOf(liveTweens[..k], delta) + [(liveTweens[k], delta)];
        steps := steps + [(liveTweens[k], delta)];
      }
      assert liveTweens[..|liveTweens|] == liveTweens;
    }
  }
}
