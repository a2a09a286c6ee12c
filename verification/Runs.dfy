/** Runs of a labelled transition system, and the one induction every state machine here needs. */
module Runs {

  datatype Option<+T> = None | Some(value: T)

  /** states[0] is initial and labels[i] takes states[i] to states[i + 1]. */
  ghost predicate IsRun<S(!new), L(!new)>(init: S -> bool, step: (S, L, S) -> bool, states: seq<S>, labels: seq<L>)
  {
    && |states| == |labels| + 1
    && init(states[0])
    && forall i :: 0 <= i < |labels| ==> step(states[i], labels[i], states[i + 1])
  }

  /** The initial states satisfy `inv` and every step keeps it. */
  ghost predicate Inductive<S(!new), L(!new)>(init: S -> bool, step: (S, L, S) -> bool, inv: S -> bool)
  {
    && (forall s :: init(s) ==> inv(s))
    && (forall s, l, s' :: inv(s) && step(s, l, s') ==> inv(s'))
  }

  /** An inductive predicate holds in every state of every run. */
  lemma {:induction false} InductiveHolds<S(!new), L(!new)>(
    init: S -> bool, step: (S, L, S) -> bool, inv: S -> bool, states: seq<S>, labels: seq<L>, n: nat)
    requires IsRun(init, step, states, labels)
    requires Inductive(init, step, inv)
    requires n < |states|
    ensures inv(states[n])
  {
    if n != 0 {
      InductiveHolds(init, step, inv, states, labels, n - 1);
      assert step(states[n - 1], labels[n - 1], states[n - 1 + 1]);
    }
  }

  /** Two disjoint parts of a finite set are no larger than the whole. */
  lemma DisjointParts<T>(a: set<T>, b: set<T>, whole: set<T>)
    requires a !! b && a + b <= whole
    ensures |a| + |b| <= |whole|
  {
    assert |a + b| == |a| + |b|;
    SubsetSize(a + b, whole);
  }

  lemma SubsetSize<T>(a: set<T>, b: set<T>)
    requires a <= b
    ensures |a| <= |b|
  {
    assert b == a + (b - a);
    assert |a + (b - a)| == |a| + |b - a|;
  }
}
