/** The small types and the one predicate on lists that the other modules share. */
module Wrappers {
  /** A value that may be missing: Go's `v, ok` pairs and nil pointers. */
  datatype Option<+T> = None | Some(value: T)

  /** A reply that may be refused with a reason. */
  datatype Result<+T, +E> = Success(value: T) | Failure(error: E)

  /** No element is listed twice. */
  predicate NoRepeats<T(==)>(s: seq<T>) { forall i, j :: 0 <= i < j < |s| ==> s[i] != s[j] }
}
