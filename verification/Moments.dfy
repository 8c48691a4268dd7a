/** What was set at some moment of a run and has not been unset since. */
module Moments {
  ghost predicate Since(sets: nat -> bool, unsets: nat -> bool, n: nat) {
    exists j :: 0 <= j < n && sets(j) && LeftAlone(unsets, j, n)
  }

  ghost predicate LeftAlone(unsets: nat -> bool, j: nat, n: nat) { forall k :: j < k < n ==> !unsets(k) }

  lemma SinceGrows(sets: nat -> bool, unsets: nat -> bool, n: nat)
    ensures Since(sets, unsets, n + 1) <==> sets(n) || (Since(sets, unsets, n) && !unsets(n))
  {
    if sets(n) {
      assert LeftAlone(unsets, n, n + 1);
    } else if Since(sets, unsets, n + 1) {
      var j :| 0 <= j < n + 1 && sets(j) && LeftAlone(unsets, j, n + 1);
      assert LeftAlone(unsets, j, n);
    }
    if Since(sets, unsets, n) && !unsets(n) {
      var j :| 0 <= j < n && sets(j) && LeftAlone(unsets, j, n);
      assert LeftAlone(unsets, j, n + 1);
    }
  }

  /** A fact that holds after a step exactly when the step sets it, or it held and the step does not unset it, holds exactly
      when it was set at some moment and not unset since; at the beginning it does not hold. */
  lemma {:induction false} HoldsSince(holds: nat -> bool, sets: nat -> bool, unsets: nat -> bool, n: nat)
    requires !holds(0) && forall k: nat {:trigger sets(k)} :: k < n ==> (holds(k + 1) <==> sets(k) || (holds(k) && !unsets(k)))
    ensures holds(n) <==> Since(sets, unsets, n)
  {
    if n > 0 {
      HoldsSince(holds, sets, unsets, n - 1);
      SinceGrows(sets, unsets, n - 1);
      assert holds(n) <==> sets(n - 1) || (holds(n - 1) && !unsets(n - 1));
    }
  }
}
