/** Sixteen-bit arithmetic of the hop sequence. No step of it loses information. */
module Words {

  function Permute(w: bv16): bv16 {
    var v := ((w & 0xAAAA) >> 1) | ((w & 0x5555) << 1);
    var v := ((v & 0xCCCC) >> 2) | ((v & 0x3333) << 2);
    var v := ((v & 0xF0F0) >> 4) | ((v & 0x0F0F) << 4);
    (v >> 8) | (v << 8)
  }

  function Times17(a: bv16): bv16 { 17 * a }
  function Plus(a: bv16, b: bv16): bv16 { a + b }
  function Xor(a: bv16, b: bv16): bv16 { a ^ b }

  // The five steps of the avalanche.
  function Fold8(x: bv16): bv16 { x ^ (x >> 8) }
  function Times1(x: bv16): bv16 { x * 0x2B9D }
  function Fold7(x: bv16): bv16 { x ^ (x >> 7) }
  function Times2(x: bv16): bv16 { x * 0x1B2D }
  function Fold9(x: bv16): bv16 { x ^ (x >> 9) }

  lemma PermuteInjective(x: bv16, y: bv16)
    requires Permute(x) == Permute(y)
    ensures x == y
  {
  }

  lemma Times17Injective(x: bv16, y: bv16)
    requires Times17(x) == Times17(y)
    ensures x == y
  {
  }

  lemma PlusInjective(x: bv16, y: bv16, b: bv16)
    requires Plus(x, b) == Plus(y, b)
    ensures x == y
  {
  }

  lemma XorInjective(x: bv16, y: bv16, b: bv16)
    requires Xor(x, b) == Xor(y, b)
    ensures x == y
  {
  }

  lemma Fold8Injective(x: bv16, y: bv16)
    requires Fold8(x) == Fold8(y)
    ensures x == y
  {
  }

  lemma Times1Injective(x: bv16, y: bv16)
    requires Times1(x) == Times1(y)
    ensures x == y
  {
  }

  lemma Fold7Injective(x: bv16, y: bv16)
    requires Fold7(x) == Fold7(y)
    ensures x == y
  {
  }

  lemma Times2Injective(x: bv16, y: bv16)
    requires Times2(x) == Times2(y)
    ensures x == y
  {
  }

  lemma Fold9Injective(x: bv16, y: bv16)
    requires Fold9(x) == Fold9(y)
    ensures x == y
  {
  }

  // ----- bits -----

  predicate Odd(w: bv16) { w & 1 == 1 }
  function Half(w: bv16): bv16 { w >> 1 }
  function Join(half: bv16, odd: bool): bv16 { (half << 1) | (if odd then 1 else 0) }
  // The bits of `w` outside the mask.
  function Outside(w: bv16, mask: bv16): bv16 { w & !mask }

  lemma JoinParts(half: bv16, odd: bool, mask: bv16)
    requires Outside(half, mask) == 0
    ensures Outside(Join(half, odd), Join(mask, true)) == 0 && Odd(Join(half, odd)) == odd
    ensures Outside(mask, 0x7FFF) == 0 ==> Half(Join(half, odd)) == half
  {
  }

  lemma SplitParts(w: bv16)
    ensures Join(Half(w), Odd(w)) == w
  {
  }

  lemma HalfOutside(w: bv16, mask: bv16)
    requires Outside(w, Join(mask, true)) == 0
    ensures Outside(Half(w), mask) == 0
  {
  }

  lemma OutsideNothing(w: bv16)
    ensures Outside(w, 0) == w
  {
  }
}
