/** Weak fairness over the steps of an infinite run. */
module Fairness {
  /** Event `e` happens at some point from `n` on. */
  ghost predicate Taken<E(!new)>(events: nat -> E, n: nat, e: E) {
    exists m: nat :: m >= n && events(m) == e
  }

  /** An event that is possible from some point on, as `enabled` tells, is taken at some later point. */
  ghost predicate Fair<E(!new)>(events: nat -> E, enabled: nat -> bool, e: E) {
    forall n: nat :: (forall m: nat :: m >= n ==> enabled(m)) ==> Taken(events, n, e)
  }

  lemma TakenIfForever<E(!new)>(events: nat -> E, enabled: nat -> bool, n: nat, e: E)
    requires Fair(events, enabled, e)
    requires forall m: nat :: m >= n ==> enabled(m)
    ensures Taken(events, n, e)
  {
  }

  /** The first time it happens. */
  lemma FirstTaken<E(!new)>(events: nat -> E, n: nat, e: E) returns (m: nat)
    requires Taken(events, n, e)
    ensures m >= n && events(m) == e && forall k: nat :: n <= k < m ==> events(k) != e
  {
    var last: nat :| last >= n && events(last) == e;
    m := n;
    while events(m) != e
      invariant n <= m <= last && forall k: nat :: n <= k < m ==> events(k) != e
      decreases last - m
    {
      m := m + 1;
    }
  }
}
