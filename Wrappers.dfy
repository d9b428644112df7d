/** Small helpers shared by the other modules. */
module Wrappers {

  /** An optional value: Ruby's `nil` or a present one. */
  datatype Option<+T> = None | Some(value: T)

  /** A sequence in which no element occurs twice. */
  predicate NoDuplicates<X(==)>(xs: seq<X>) {
    forall i, j :: 0 <= i < j < |xs| ==> xs[i] != xs[j]
  }
}
