/** Failure and absence, as the rest of the project writes them. */
module Wrappers {

  datatype Option<+T> = None | Some(value: T)

  datatype Result<+T, +E> = Ok(value: T) | Err(error: E)

  /** The answer of one read from the API server: the object, the not-found error, or any other error. */
  datatype Lookup<+T> = Found(item: T) | NotFound | Failed

  /** No element occurs twice. */
  predicate Distinct<T(==)>(xs: seq<T>) {
    forall i, j :: 0 <= i < j < |xs| ==> xs[i] != xs[j]
  }
}
