/** The one property of a hash that the theorems about digests ask for. */
module Hashes {
  import opened JsonText

  /** No two inputs have the same hexadecimal digest. */
  ghost predicate CollisionFree<T(!new)>(hash: T -> Units) {
    forall a, b | hash(a) == hash(b) :: a == b
  }
}
