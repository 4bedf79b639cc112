/** Positions in a ring of slots. */
module RingIndex {
  /** The slot `i` places after `b` in a ring of `n`. */
  function Off(b: nat, i: nat, n: nat): nat { if b + i < n then b + i else b + i - n }
}
