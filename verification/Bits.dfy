/** Single bits of a 32-bit word. */
module Bits {
  type word = bv32

  function Flag(b: bool): word { if b then 1 else 0 }

  function BitAt(x: word, j: word): word
    requires j < 32
  {
    (x >> j) & 1
  }

  predicate High(x: word, j: word)
    requires j < 32
  {
    BitAt(x, j) == 1
  }
}
