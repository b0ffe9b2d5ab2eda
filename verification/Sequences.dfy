/** Sequences without repetition, and the latest of two kinds of positions. */
module Sequences {

  ghost predicate Distinct<T(!new)>(xs: seq<T>)
  {
    forall i, j :: 0 <= i < j < |xs| ==> xs[i] != xs[j]
  }

  lemma TwoOf<T(!new)>(xs: seq<T>)
    requires Distinct(xs)
    ensures |xs| >= 2 <==> exists a, b :: a != b && a in xs && b in xs
  {
    if |xs| >= 2 {
      assert xs[0] in xs && xs[1] in xs && xs[0] != xs[1];
    }
  }

  /** Of the positions before k, `on` holds at one and `off` at none after it. */
  ghost predicate LatestBefore(k: nat, on: nat -> bool, off: nat -> bool)
  {
    exists i: nat :: i < k && on(i) && forall j: nat :: i < j < k ==> !off(j)
  }

  lemma LatestBeforeStep(k: nat, on: nat -> bool, off: nat -> bool)
    ensures LatestBefore(k + 1, on, off) <==> on(k) || (!off(k) && LatestBefore(k, on, off))
  {
  }
}
