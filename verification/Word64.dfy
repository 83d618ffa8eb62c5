/** Unsigned 64-bit words as naturals below 2^64, with the bitwise operations the
    free-pair bitset uses.  Or and AndNot are computed bit by bit, so nothing here
    relies on the bit-vector theory of the solver. */
module Word64 {

  function Pow2(n: nat): (p: nat)
    ensures p >= 1
  {
    if n == 0 then 1 else 2 * Pow2(n - 1)
  }

  /** Bit i of w, bit 0 being the least significant. */
  predicate Bit(w: nat, i: nat) {
    if i == 0 then w % 2 == 1 else Bit(w / 2, i - 1)
  }

  function Or(a: nat, b: nat): nat {
    if a == 0 && b == 0 then 0
    else (if a % 2 == 1 || b % 2 == 1 then 1 else 0) + 2 * Or(a / 2, b / 2)
  }

  /** a & !b */
  function AndNot(a: nat, b: nat): nat {
    if a == 0 then 0
    else (if a % 2 == 1 && b % 2 == 0 then 1 else 0) + 2 * AndNot(a / 2, b / 2)
  }

  function TrailingZeros(w: nat): nat
    requires w != 0
  {
    if w % 2 == 1 then 0 else 1 + TrailingZeros(w / 2)
  }

  lemma {:induction false} ZeroHasNoBit(i: nat)
    ensures !Bit(0, i)
  {
    if i != 0 { ZeroHasNoBit(i - 1); }
  }

  lemma {:induction false} OrBit(a: nat, b: nat, i: nat)
    ensures Bit(Or(a, b), i) == (Bit(a, i) || Bit(b, i))
  {
    if a == 0 && b == 0 {
      ZeroHasNoBit(i);
    } else {
      assert Or(a, b) / 2 == Or(a / 2, b / 2);
      if i != 0 { OrBit(a / 2, b / 2, i - 1); }
    }
  }

  lemma {:induction false} AndNotBit(a: nat, b: nat, i: nat)
    ensures Bit(AndNot(a, b), i) == (Bit(a, i) && !Bit(b, i))
  {
    if a == 0 {
      ZeroHasNoBit(i);
    } else {
      assert AndNot(a, b) / 2 == AndNot(a / 2, b / 2);
      if i != 0 { AndNotBit(a / 2, b / 2, i - 1); }
    }
  }

  /** 1 << k has exactly bit k set. */
  lemma {:induction false} MaskBit(k: nat, i: nat)
    ensures Bit(Pow2(k), i) == (i == k)
  {
    if k == 0 {
      if i != 0 { ZeroHasNoBit(i - 1); }
    } else if i != 0 {
      MaskBit(k - 1, i - 1);
    }
  }

  /** The bitwise operations stay inside an n-bit word. */
  lemma {:induction false} OperationsFit(a: nat, b: nat, n: nat)
    requires a < Pow2(n) && b < Pow2(n)
    ensures Or(a, b) < Pow2(n) && AndNot(a, b) < Pow2(n)
  {
    if n != 0 { OperationsFit(a / 2, b / 2, n - 1); }
  }

  lemma {:induction false} Pow2Monotone(k: nat, n: nat)
    requires k < n
    ensures Pow2(k) < Pow2(n)
  {
    if k + 1 < n { Pow2Monotone(k, n - 1); }
  }

  /** trailing_zeros finds the least set bit. */
  lemma {:induction false} TrailingZerosIsLeastBit(w: nat, n: nat)
    requires 0 < w < Pow2(n)
    ensures TrailingZeros(w) < n && Bit(w, TrailingZeros(w))
    ensures forall i: nat :: i < TrailingZeros(w) ==> !Bit(w, i)
  {
    if w % 2 == 0 {
      TrailingZerosIsLeastBit(w / 2, n - 1);
      forall i: nat | i < TrailingZeros(w) ensures !Bit(w, i) {
        if i != 0 { assert !Bit(w / 2, i - 1); }
      }
    }
  }

  const WORD_BITS: nat := 64
  const WORD_SIZE: nat := 0x1_0000_0000_0000_0000

  lemma WordSize()
    ensures Pow2(WORD_BITS) == WORD_SIZE
  {
    assert Pow2(8) == 256;
    calc {
      Pow2(64);
      { Pow2Sum(32, 32); }
      Pow2(32) * Pow2(32);
      { Pow2Sum(16, 16); Pow2Sum(8, 8); }
      WORD_SIZE;
    }
  }

  lemma {:induction false} Pow2Sum(a: nat, b: nat)
    ensures Pow2(a + b) == Pow2(a) * Pow2(b)
  {
    if a != 0 { Pow2Sum(a - 1, b); }
  }

  /** w |= 1 << bit sets that bit and no other. */
  lemma SetBit(w: nat, bit: nat)
    requires w < WORD_SIZE && bit < WORD_BITS
    ensures Or(w, Pow2(bit)) < WORD_SIZE
    ensures forall j: nat :: Bit(Or(w, Pow2(bit)), j) == (j == bit || Bit(w, j))
  {
    WordSize();
    Pow2Monotone(bit, WORD_BITS);
    OperationsFit(w, Pow2(bit), WORD_BITS);
    forall j: nat ensures Bit(Or(w, Pow2(bit)), j) == (j == bit || Bit(w, j)) {
      OrBit(w, Pow2(bit), j);
      MaskBit(bit, j);
    }
  }

  /** w &= !(1 << bit) clears that bit and no other. */
  lemma ClearBit(w: nat, bit: nat)
    requires w < WORD_SIZE && bit < WORD_BITS
    ensures AndNot(w, Pow2(bit)) < WORD_SIZE
    ensures forall j: nat :: Bit(AndNot(w, Pow2(bit)), j) == (j != bit && Bit(w, j))
  {
    WordSize();
    Pow2Monotone(bit, WORD_BITS);
    OperationsFit(w, Pow2(bit), WORD_BITS);
    forall j: nat ensures Bit(AndNot(w, Pow2(bit)), j) == (j != bit && Bit(w, j)) {
      AndNotBit(w, Pow2(bit), j);
      MaskBit(bit, j);
    }
  }

  /** A non-zero word's trailing_zeros is its least set bit. */
  lemma LeastBit(w: nat)
    requires 0 < w < WORD_SIZE
    ensures TrailingZeros(w) < WORD_BITS && Bit(w, TrailingZeros(w))
    ensures forall i: nat :: i < TrailingZeros(w) ==> !Bit(w, i)
  {
    WordSize();
    TrailingZerosIsLeastBit(w, WORD_BITS);
  }
}
