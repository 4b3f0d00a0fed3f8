/** A machine word as a number, and its bits. The bitwise operations are
    defined bit by bit, from the lowest up. */
module Bits {

  const WORD_BITS: nat := 64

  function Pow2(n: nat): nat
    ensures Pow2(n) > 0
  {
    if n == 0 then 1 else 2 * Pow2(n - 1)
  }

  predicate Bit(w: nat, i: nat) {
    if i == 0 then w % 2 == 1 else Bit(w / 2, i - 1)
  }

  /** `w | (1 << b)` */
  function With(w: nat, b: nat): nat {
    if b == 0 then (if w % 2 == 1 then w else w + 1) else 2 * With(w / 2, b - 1) + w % 2
  }

  /** `w & !(1 << b)` */
  function Without(w: nat, b: nat): nat {
    if b == 0 then (if w % 2 == 1 then w - 1 else w) else 2 * Without(w / 2, b - 1) + w % 2
  }

  /** `!w & mask` */
  function MaskedNot(w: nat, mask: nat): nat {
    if mask == 0 then 0
    else 2 * MaskedNot(w / 2, mask / 2) + if mask % 2 == 1 && w % 2 == 0 then 1 else 0
  }

  lemma {:induction false} WithBit(w: nat, b: nat, i: nat)
    ensures Bit(With(w, b), i) <==> i == b || Bit(w, i)
  {
    if b > 0 && i > 0 {
      WithBit(w / 2, b - 1, i - 1);
    }
  }

  lemma {:induction false} WithFits(w: nat, b: nat, n: nat)
    requires w < Pow2(n) && b < n
    ensures With(w, b) < Pow2(n)
  {
    var half := Pow2(n - 1);
    assert w / 2 < half;
    if b > 0 {
      WithFits(w / 2, b - 1, n - 1);
    }
  }

  lemma {:induction false} WithoutBit(w: nat, b: nat, i: nat)
    ensures Bit(Without(w, b), i) <==> i != b && Bit(w, i)
  {
    if b > 0 && i > 0 {
      WithoutBit(w / 2, b - 1, i - 1);
    }
  }

  lemma {:induction false} WithoutFits(w: nat, b: nat)
    ensures Without(w, b) <= w
  {
    if b > 0 {
      WithoutFits(w / 2, b - 1);
    }
  }

  lemma {:induction false} MaskedNotBit(w: nat, mask: nat, i: nat)
    ensures Bit(MaskedNot(w, mask), i) <==> Bit(mask, i) && !Bit(w, i)
  {
    if mask == 0 {
      ZeroBit(i);
    } else if i > 0 {
      MaskedNotBit(w / 2, mask / 2, i - 1);
    }
  }

  lemma {:induction false} MaskedNotFits(w: nat, mask: nat)
    ensures MaskedNot(w, mask) <= mask
  {
    if mask > 0 {
      MaskedNotFits(w / 2, mask / 2);
    }
  }

  lemma {:induction false} ZeroBit(i: nat)
    ensures !Bit(0, i)
  {
    if i > 0 {
      ZeroBit(i - 1);
    }
  }

  /** `(1 << k) - 1` has exactly the bits below `k`. */
  lemma {:induction false} LowBits(k: nat, i: nat)
    ensures Bit(Pow2(k) - 1, i) <==> i < k
  {
    if k == 0 {
      ZeroBit(i);
    } else if i > 0 {
      assert (Pow2(k) - 1) / 2 == Pow2(k - 1) - 1;
      LowBits(k - 1, i - 1);
    }
  }

  /** The number of zeros below the lowest set bit. */
  function TrailingZeros(w: nat): nat
    requires w > 0
  {
    if w % 2 == 1 then 0 else 1 + TrailingZeros(w / 2)
  }

  lemma {:induction false} TrailingZerosIsTheLowestBit(w: nat, n: nat)
    requires 0 < w < Pow2(n)
    ensures TrailingZeros(w) < n && Bit(w, TrailingZeros(w))
    ensures forall i: nat | i < TrailingZeros(w) :: !Bit(w, i)
  {
    if w % 2 == 0 {
      TrailingZerosIsTheLowestBit(w / 2, n - 1);
    }
  }
}
