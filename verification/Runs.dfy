/** Induction along a finite run of states. */
module Runs {
  lemma {:induction false} Stable<T>(run: seq<T>, i: nat, j: nat, p: T -> bool)
    requires i <= j < |run|
    requires p(run[i])
    requires forall k :: i <= k < j && p(run[k]) ==> p(run[k + 1])
    ensures p(run[j])
  {
    if i == j {
    } else {
      Stable(run, i, j - 1, p);
    }
  }
}
