/** Sets of small numbers. */
module FiniteSets {

  lemma {:induction false} FewerThan(n: nat, s: set<nat>)
    requires forall p :: p in s ==> p < n
    ensures |s| <= n
  {
    if n == 0 {
      assert s == {};
    } else {
      FewerThan(n - 1, s - {n - 1});
    }
  }

  /** n numbers below n are all of them. */
  lemma FullSet(n: nat, s: set<nat>, p: nat)
    requires |s| >= n && (forall p :: p in s ==> p < n) && p < n
    ensures p in s
  {
    if p !in s {
      FewerThan(n, s + {p});
    }
  }
}
