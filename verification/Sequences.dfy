/** Lists: distinctness, and the two slices that the program takes. */
module Sequences {
  ghost predicate Distinct<T>(xs: seq<T>) {
    forall i, j :: 0 <= i < j < |xs| ==> xs[i] != xs[j]
  }

  ghost predicate Increasing(q: seq<nat>) {
    forall i, j :: 0 <= i < j < |q| ==> q[i] < q[j]
  }

  lemma {:induction false} DistinctCount<T>(xs: seq<T>, x: T)
    requires Distinct(xs)
    ensures multiset(xs)[x] == if x in xs then 1 else 0
  {
    if xs != [] {
      DistinctCount(xs[1..], x);
      assert xs == [xs[0]] + xs[1..];
    }
  }

  /** `xs[:k]`. A negative `k` counts from the end. */
  function FirstOf<T>(xs: seq<T>, k: int): (r: seq<T>)
    ensures r <= xs
    ensures k >= 0 ==> |r| == if k < |xs| then k else |xs|
  {
    var stop := if k < 0 then |xs| + k else k;
    if stop < 0 then [] else if stop < |xs| then xs[..stop] else xs
  }

  /** `xs[-k:]`, for a positive `k`. */
  function LastOf<T>(xs: seq<T>, k: nat): seq<T> {
    if |xs| > k then xs[|xs| - k..] else xs
  }
}
