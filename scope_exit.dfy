/**
 * `HeartScopeGuard` (heart/scope_exit.h): holds a callable and calls it once
 * when the guard goes out of scope, unless the guard was dismissed first.
 * The callable is abstract; `runs` counts how often it has been called.
 */
module ScopeExit {
  import opened Text

  class ScopeGuard {
    var dismissed: bool
    /** Whether the guard's destructor has run. */
    var destroyed: bool
    var runs: nat

    /** Before destruction the callable has never run; after it, it ran once unless dismissed. */
    predicate Valid()
      reads this
    {
      runs == (if destroyed && !dismissed then 1 else 0)
    }

    constructor ()
      ensures Valid() && !dismissed && !destroyed && runs == 0
    {
      dismissed := false;
      destroyed := false;
      runs := 0;
    }

    /** `Dismiss`: the callable will not run; calling it again changes nothing more. */
    method Dismiss()
      requires Valid() && !destroyed
      modifies this
      ensures Valid() && dismissed && !destroyed && runs == old(runs)
    {
      dismissed := true;
    }

    /** The destructor: runs the callable exactly when the guard was not dismissed. */
    method Destroy()
      requires Valid() && !destroyed
      modifies this
      ensures Valid() && destroyed && dismissed == old(dismissed)
      ensures runs == old(runs) + (if old(dismissed) then 0 else 1)
    {
      if !dismissed {
        runs := runs + 1;
      }
      destroyed := true;
    }
  }

  /** The variable name `HEART_SCOPE_EXIT` declares for the `__COUNTER__` value `counter`. */
  function GuardName(counter: nat): string
  {
    "HeartGuard_" + NatToString(counter)
  }

  /** Two uses of the macro (different counter values) never declare the same name. */
  lemma GuardNamesDiffer(a: nat, b: nat)
    requires a != b
    ensures GuardName(a) != GuardName(b)
  {
    var prefix := "HeartGuard_";
    assert GuardName(a)[|prefix|..] == NatToString(a);
    assert GuardName(b)[|prefix|..] == NatToString(b);
    NatToStringInjective(a, b);
  }
}
