/** A mark for the prover. */
module Marks {
  /** Some predicates of the other modules hide their meaning behind this one: they are mere names to
      the prover except in the proofs that mention it. */
  ghost predicate Open(x: nat) {
    true
  }
}
