/** The smaller, the larger and the multiple, as the source's min, max and repeated addition. */
module Reals {

  function Min(a: real, b: real): real
  {
    if b < a then b else a
  }

  function Max(a: real, b: real): real
  {
    if b > a then b else a
  }

  function Times(k: nat, x: real): real
  {
    k as real * x
  }

  lemma OnceMore(k: nat, x: real)
    ensures Times(k + 1, x) == Times(k, x) + x
  {
  }
}
