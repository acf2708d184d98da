/**
 What several parts of the model need of real numbers and sequences.
 */
module Reals {

  function Abs(x: real): real
  {
    if x < 0.0 then -x else x
  }
}

module Sequences {

  lemma Assoc<T>(a: seq<T>, b: seq<T>, c: seq<T>)
    ensures (a + b) + c == a + (b + c)
  {
  }
}
