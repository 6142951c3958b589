/**
  A seal for predicates with many parts. Stated as "for every key that opens, P", a predicate is
  equivalent to P, but only proofs that mention Opens make the verifier look inside.
 */
module Seal {
  predicate Opens(key: int) {
    true
  }
}
