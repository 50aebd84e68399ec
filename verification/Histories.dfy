/** What the latest event of a history says. */
module Histories {
  /** Some event before number n switches on, and none after it switches off. */
  ghost predicate Latest(on: nat -> bool, off: nat -> bool, n: nat) {
    exists i: nat :: i < n && on(i) && forall j | i < j < n :: !off(j)
  }

  lemma LatestNext(on: nat -> bool, off: nat -> bool, n: nat)
    ensures Latest(on, off, n + 1) <==> on(n) || (Latest(on, off, n) && !off(n))
  {}
}
