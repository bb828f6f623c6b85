/** Order-keeping, duplicate-free selection. */
module Sequences {

  predicate Increasing(s: seq<nat>) {
    forall i, j | 0 <= i < j < |s| :: s[i] < s[j]
  }

  predicate Below(s: seq<nat>, n: nat) {
    forall i | 0 <= i < |s| :: s[i] < n
  }

  lemma AppendAbove(s: seq<nat>, n: nat)
    requires Increasing(s) && Below(s, n)
    ensures Increasing(s + [n]) && Below(s + [n], n + 1)
  {
  }

  /** `xs` read at the positions `at`. */
  function Select<T>(xs: seq<T>, at: seq<nat>): (s: seq<T>)
    requires Below(at, |xs|)
    ensures |s| == |at|
  {
    seq(|at|, i requires 0 <= i < |at| => xs[at[i]])
  }

  /** What has been selected does not change when `xs` grows. */
  lemma SelectGrows<T>(xs: seq<T>, x: T, at: seq<nat>)
    requires Below(at, |xs|)
    ensures Select(xs + [x], at) == Select(xs, at)
    ensures Select(xs + [x], at + [|xs|]) == Select(xs, at) + [x]
  {
  }

  lemma SelectConcat<T>(xs: seq<T>, a: seq<nat>, b: seq<nat>)
    requires Below(a + b, |xs|)
    ensures Below(a, |xs|) && Below(b, |xs|) && Select(xs, a + b) == Select(xs, a) + Select(xs, b)
  {
    assert forall i | 0 <= i < |a| :: (a + b)[i] == a[i];
    assert forall i | 0 <= i < |b| :: (a + b)[|a| + i] == b[i];
  }

  /** `xs` is `ys` read at the increasing positions `at`. */
  ghost predicate Picks<T>(xs: seq<T>, ys: seq<T>, at: seq<nat>) {
    && |at| == |xs|
    && Increasing(at)
    && forall k | 0 <= k < |at| :: at[k] < |ys| && xs[k] == ys[at[k]]
  }

  /** `xs` is `ys` with some elements left out. */
  ghost predicate Subsequence<T>(xs: seq<T>, ys: seq<T>) {
    exists at: seq<nat> :: Picks(xs, ys, at)
  }
}
