/** Which operations of a run fail, as a schedule fixed in advance: no operation chooses its own outcome. */
module Faults {
  /** The `n`-th operation fails when `fails(n)`. */
  type Schedule = nat -> bool

  /** How many of the first `n` operations fail. */
  function Failures(fails: Schedule, n: nat): nat {
    if n == 0 then 0 else Failures(fails, n - 1) + if fails(n - 1) then 1 else 0
  }

  /** A run in which nothing is to fail counts no failures, however long it is. */
  lemma {:induction false} NoneFail(fails: Schedule, n: nat)
    requires forall i: nat :: !fails(i)
    ensures Failures(fails, n) == 0
  {
    if n > 0 {
      NoneFail(fails, n - 1);
    }
  }
}
