/** A way to keep facts about recursive functions folded. */
module Folding {
  /** A fact stated for all x with Open(x) stays closed until a proof asserts Open of some number. */
  predicate Open(x: int) { x == x }
}
