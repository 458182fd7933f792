/** The NAND gate on integers: 0 only when both inputs are 1, and 1 otherwise. */
module Nand {

  function Nand(a: int, b: int): (r: int)
    ensures r == 0 || r == 1
    ensures r == 0 <==> a == 1 && b == 1
  {
    if a == 1 && b == 1 then 0 else 1
  }

  /** The four rows of the truth table on bits. */
  lemma TruthTable()
    ensures Nand(0, 0) == 1 && Nand(0, 1) == 1 && Nand(1, 0) == 1 && Nand(1, 1) == 0
  {
  }

  lemma Symmetric(a: int, b: int)
    ensures Nand(a, b) == Nand(b, a)
  {
  }

  /** Any input other than 1 counts as false, including values outside {0, 1}. */
  lemma NonBitIsFalse(a: int, b: int)
    requires a != 1
    ensures Nand(a, b) == 1 && Nand(b, a) == 1
  {
  }

}
