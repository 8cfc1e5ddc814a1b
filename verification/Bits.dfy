/** Bits of a 32-bit word. */
module Bits {

  function Common(x: bv32, y: bv32): bv32
  {
    x & y
  }

  function Either(x: bv32, y: bv32): bv32
  {
    x | y
  }

  /** The bit at place `n`, counted from the top, from 1. */
  function BitAt(n: bv8): bv32
    requires 0 < n <= 32
  {
    1 << (32 - n)
  }

  lemma Nothing(x: bv32)
    ensures Common(x, 0) == 0
  {
  }

  lemma Distributes(x: bv32, mask: bv32, bit: bv32)
    ensures Common(x, Either(mask, bit)) == Either(Common(x, mask), Common(x, bit))
  {
    assert x & (mask | bit) == (x & mask) | (x & bit);
  }

  lemma Absorbs(x: bv32, mask: bv32, bit: bv32)
    ensures Common(Common(x, Either(mask, bit)), mask) == Common(x, mask)
  {
    assert (x & (mask | bit)) & mask == x & mask;
  }

  lemma Commutes(mask: bv32, bit: bv32)
    ensures Either(mask, bit) == Either(bit, mask)
  {
  }

  lemma Parts(x: bv32, mask: bv32, bit: bv32)
    ensures Common(x, Either(mask, bit)) == Either(Common(x, mask), Common(x, bit))
    ensures Common(Common(x, Either(mask, bit)), mask) == Common(x, mask)
    ensures Common(Common(x, Either(mask, bit)), bit) == Common(x, bit)
  {
    hide Common, Either;
    Distributes(x, mask, bit);
    Absorbs(x, mask, bit);
    Absorbs(x, bit, mask);
    Commutes(mask, bit);
  }

  /** Words agree on a mask and one more bit exactly when they agree on each. */
  lemma OneMoreBit(a: bv32, b: bv32, mask: bv32, bit: bv32)
    ensures Common(a, Either(mask, bit)) == Common(b, Either(mask, bit))
       <==> Common(a, mask) == Common(b, mask) && Common(a, bit) == Common(b, bit)
  {
    hide Common, Either;
    Parts(a, mask, bit);
    Parts(b, mask, bit);
  }
}
