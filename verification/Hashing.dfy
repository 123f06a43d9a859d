/** What soundness results ask of a hash: that the calls actually made do not collide. */
module Hashing {

  /** The two calls do not collide. */
  ghost predicate Separated<Q, D>(h: Q -> D, a: Q, b: Q) {
    h(a) == h(b) ==> a == b
  }

  /** No two of the listed calls collide. */
  ghost predicate NoCollision<Q(!new), D>(h: Q -> D, queries: set<Q>) {
    forall a, b {:trigger Separated(h, a, b)} | a in queries && b in queries :: Separated(h, a, b)
  }

  lemma NoCollisionShrinks<Q(!new), D>(h: Q -> D, some: set<Q>, all: set<Q>)
    requires some <= all && NoCollision(h, all)
    ensures NoCollision(h, some)
  {
  }
}
