/** Free-running 32-bit counters that index a ring, against the true counts they stand for. */
module Counters {
  const U32: nat := 0x1_0000_0000

  /** A size that divides 2^32, as the rings here have. */
  predicate RingSize(size: nat) { size == 128 || size == 512 }

  /** Wrapping does not move an index. */
  lemma Wrap(x: nat, size: nat)
    requires RingSize(size)
    ensures x % U32 % size == x % size
  {
    var q := x / U32;
    if size == 512 {
      assert x == 512 * (8388608 * q) + x % U32;
    } else {
      assert x == 128 * (33554432 * q) + x % U32;
    }
  }

  /** The counters' tests for empty and full are those of the true counts. */
  lemma Tests(w: nat, r: nat, size: nat)
    requires RingSize(size) && r <= w <= r + size
    ensures r % U32 == w % U32 <==> r == w
    ensures w % U32 == (r % U32 + size) % U32 <==> w == r + size
    ensures (w % U32 + U32 - r % U32) % U32 == w - r
  {
  }

  lemma Bump(x: nat)
    ensures (x % U32 + 1) % U32 == (x + 1) % U32
    ensures ((x + 1) % U32 + U32 - 1) % U32 == x % U32
  {
  }

  /** Fewer than size apart, two counts index different places. */
  lemma Apart(j: nat, w: nat, size: nat)
    requires RingSize(size) && j < w < j + size
    ensures j % size != w % size
  {
    if size == 512 {
      var a, b := w / 512, j / 512;
      assert w - j == 512 * (a - b) + (w % 512 - j % 512);
    } else {
      var a, b := w / 128, j / 128;
      assert w - j == 128 * (a - b) + (w % 128 - j % 128);
    }
  }

  lemma Div8(x: nat, q: nat, r: nat)
    requires x == 8 * q + r && r < 8
    ensures x % 8 == r
  {
  }
}
