/**
 Runs of a service whose calls are atomic: the calls, and the state before each of them
 and after the last. `next` gives the state after a call, or nothing if it cannot happen.
 */
module Runs {
  import opened Wrappers

  datatype Run<S, C> = Run(calls: seq<C>, states: seq<S>)

  ghost predicate Follows<S(!new), C(!new)>(next: (S, C) -> Option<S>, r: Run<S, C>, i: nat)
    requires i < |r.calls| && |r.states| == |r.calls| + 1
  {
    next(r.states[i], r.calls[i]) == Some(r.states[i + 1])
  }

  ghost predicate IsRun<S(!new), C(!new)>(next: (S, C) -> Option<S>, r: Run<S, C>) {
    && |r.states| == |r.calls| + 1
    && forall i | 0 <= i < |r.calls| :: Follows(next, r, i)
  }

  ghost predicate Keeps<S(!new), C(!new)>(next: (S, C) -> Option<S>, inv: S -> bool) {
    forall s: S, c: C :: inv(s) && next(s, c).Some? ==> inv(next(s, c).value)
  }

  /** What every call keeps holds in every state of a run that begins with it. */
  lemma {:induction false} Always<S(!new), C(!new)>(next: (S, C) -> Option<S>, inv: S -> bool, r: Run<S, C>, n: nat)
    requires IsRun(next, r) && Keeps(next, inv) && inv(r.states[0]) && n < |r.states|
    ensures inv(r.states[n])
  {
    if n > 0 {
      Always(next, inv, r, n - 1);
      assert Follows(next, r, n - 1);
    }
  }

  ghost predicate Advances<S(!new), C(!new)>(next: (S, C) -> Option<S>, inv: S -> bool, later: (S, S) -> bool) {
    forall s: S, c: C :: inv(s) && next(s, c).Some? ==> later(s, next(s, c).value)
  }

  ghost predicate Preorder<S(!new)>(later: (S, S) -> bool) {
    && (forall s: S :: later(s, s))
    && forall s: S, t: S, u: S :: later(s, t) && later(t, u) ==> later(s, u)
  }

  /** What every call does no more than advance is only ever further on. */
  lemma {:induction false} Along<S(!new), C(!new)>(
    next: (S, C) -> Option<S>, inv: S -> bool, later: (S, S) -> bool, r: Run<S, C>, i: nat, j: nat)
    requires IsRun(next, r) && Keeps(next, inv) && inv(r.states[0])
    requires Advances(next, inv, later) && Preorder(later) && i <= j < |r.states|
    ensures later(r.states[i], r.states[j])
    decreases j
  {
    if i < j {
      Along(next, inv, later, r, i, j - 1);
      Always(next, inv, r, j - 1);
      assert Follows(next, r, j - 1);
    }
  }
}
