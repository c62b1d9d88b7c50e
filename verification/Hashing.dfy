/** Digests, and hash functions taken as collision-free. */
module Hashing {

  type Digest = nat

  /** No two inputs share an output. */
  ghost predicate Injective<A(!new), B>(f: A -> B) {
    forall a, b :: f(a) == f(b) ==> a == b
  }
}
