/** Result types shared by the models of the repository's components. */
module Wrappers {
  datatype Option<+T> = None | Some(value: T)

  datatype Result<+T, +E> = Success(value: T) | Failure(error: E)

  /** A list as its front and its last element. */
  lemma Unsnoc<T>(xs: seq<T>) returns (before: seq<T>, last: T)
    requires xs != []
    ensures xs == before + [last] && |before| < |xs|
  {
    before, last := xs[..|xs|-1], xs[|xs|-1];
  }
}
