/** The smaller of two numbers, and sequences in which no value occurs twice. */
module Sequences {
  function Min(a: nat, b: nat): nat {
    if a <= b then a else b
  }

  /** No value occurs twice. */
  predicate Distinct<T(==)>(values: seq<T>) {
    forall i, j :: 0 <= i < j < |values| ==> values[i] != values[j]
  }
}
