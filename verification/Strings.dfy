/** C strings. */
module Strings {
  const NUL: char := 0 as char

  ghost predicate NulFree(s: string) { forall k | 0 <= k < |s| :: s[k] != NUL }
}
