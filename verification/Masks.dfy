/** A 32-bit word as its bits, with the four operations term masks use: `1 << i`, `|`, `&` and the
    test for zero. */
module Masks {
  const WIDTH: nat := 32

  /** How many terms a query may have; each has a bit. */
  const MAX_QUERY_TERMS: nat := 24

  type Mask = w: seq<bool> | |w| == WIDTH witness seq(32, i => false)

  function Zero(): Mask {
    seq(WIDTH, i => false)
  }

  function Bit(i: nat): Mask
    requires i < WIDTH
  {
    seq(WIDTH, j => j == i)
  }

  function Or(a: Mask, b: Mask): Mask {
    seq(WIDTH, i requires 0 <= i < WIDTH => a[i] || b[i])
  }

  function And(a: Mask, b: Mask): Mask {
    seq(WIDTH, i requires 0 <= i < WIDTH => a[i] && b[i])
  }

  /** `mask & (1 << i) != 0` */
  predicate Has(mask: Mask, i: nat)
    requires i < WIDTH
  {
    And(mask, Bit(i)) != Zero()
  }

  lemma HasIsBit(mask: Mask, i: nat)
    requires i < WIDTH
    ensures Has(mask, i) <==> mask[i]
  {
    var x := And(mask, Bit(i));
    assert x[i] == mask[i];
    if !mask[i] { assert x == Zero(); }
  }

  lemma ZeroIffNoBits(mask: Mask)
    ensures mask == Zero() <==> forall i :: 0 <= i < WIDTH ==> !mask[i]
  {
  }
}
