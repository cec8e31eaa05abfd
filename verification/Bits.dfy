/** Bits of unsigned machine words, as the shifts, masks, `count_ones` and
    `trailing_zeros` of the source see them. */
module Bits {

  function Pow2(n: nat): (p: nat)
    ensures p >= 1
  {
    if n == 0 then 1 else 2 * Pow2(n - 1)
  }

  /** `w & (1 << j) != 0`. */
  predicate Bit(w: nat, j: nat) {
    if j == 0 then w % 2 == 1 else Bit(w / 2, j - 1)
  }

  /** `w | (1 << j)`. */
  function SetBit(w: nat, j: nat): nat {
    if j == 0 then w / 2 * 2 + 1 else SetBit(w / 2, j - 1) * 2 + w % 2
  }

  /** `w & !(1 << j)`. */
  function ClearBit(w: nat, j: nat): nat {
    if j == 0 then w / 2 * 2 else ClearBit(w / 2, j - 1) * 2 + w % 2
  }

  function CountOnes(w: nat): nat {
    if w == 0 then 0 else w % 2 + CountOnes(w / 2)
  }

  /** `(!w).trailing_zeros()`: the position of the lowest clear bit. */
  function LowestClear(w: nat): nat {
    if w % 2 == 0 then 0 else 1 + LowestClear(w / 2)
  }

  /** `w.trailing_zeros()` for a non-zero word: the position of the lowest set bit. */
  function LowestSet(w: nat): nat
    requires w > 0
  {
    if w % 2 == 1 then 0 else 1 + LowestSet(w / 2)
  }

  lemma {:induction false} SetBitBits(w: nat, j: nat, i: nat)
    ensures Bit(SetBit(w, j), i) <==> i == j || Bit(w, i)
    decreases j
  {
    if j > 0 && i > 0 {
      SetBitBits(w / 2, j - 1, i - 1);
      assert SetBit(w, j) / 2 == SetBit(w / 2, j - 1);
    }
  }

  lemma {:induction false} ClearBitBits(w: nat, j: nat, i: nat)
    ensures Bit(ClearBit(w, j), i) <==> i != j && Bit(w, i)
    decreases j
  {
    if j > 0 && i > 0 {
      ClearBitBits(w / 2, j - 1, i - 1);
      assert ClearBit(w, j) / 2 == ClearBit(w / 2, j - 1);
    }
  }

  lemma HalfFits(w: nat, n: nat)
    requires n > 0
    ensures Pow2(n) == 2 * Pow2(n - 1) && (w < Pow2(n) <==> w / 2 < Pow2(n - 1))
  {
    var p := Pow2(n - 1);
    assert Pow2(n) == 2 * p;
    hide Pow2;
    assert w < 2 * p <==> w / 2 < p;
  }

  lemma BitsByHalves(w: nat, j: nat)
    ensures SetBit(w, j) == 2 * (if j == 0 then w / 2 else SetBit(w / 2, j - 1)) + (if j == 0 then 1 else w % 2)
    ensures ClearBit(w, j) == 2 * (if j == 0 then w / 2 else ClearBit(w / 2, j - 1)) + (if j == 0 then 0 else w % 2)
  {
  }

  /** Changing bit `j` of an n-bit word leaves an n-bit word. */
  lemma {:induction false} BitsFit(w: nat, j: nat, n: nat)
    requires w < Pow2(n) && j < n
    ensures SetBit(w, j) < Pow2(n) && ClearBit(w, j) < Pow2(n)
    decreases j
  {
    hide SetBit, ClearBit, Pow2;
    HalfFits(w, n);
    BitsByHalves(w, j);
    if j > 0 { BitsFit(w / 2, j - 1, n - 1); }
  }

  lemma {:induction false} LowestClearIsLowest(w: nat, n: nat)
    requires w < Pow2(n)
    ensures !Bit(w, LowestClear(w)) && LowestClear(w) <= n
    ensures forall i :: 0 <= i < LowestClear(w) ==> Bit(w, i)
    ensures LowestClear(w) == n <==> w == Pow2(n) - 1
    decreases n
  {
    if w % 2 == 1 {
      LowestClearIsLowest(w / 2, n - 1);
      forall i | 0 <= i < LowestClear(w) ensures Bit(w, i) {
        if i > 0 { assert Bit(w / 2, i - 1); }
      }
    }
  }

  lemma {:induction false} LowestSetIsLowest(w: nat, n: nat)
    requires 0 < w < Pow2(n)
    ensures LowestSet(w) < n && Bit(w, LowestSet(w))
    ensures forall i :: 0 <= i < LowestSet(w) ==> !Bit(w, i)
    decreases n
  {
    if w % 2 == 0 {
      LowestSetIsLowest(w / 2, n - 1);
      forall i | 0 <= i < LowestSet(w) ensures !Bit(w, i) {
        if i > 0 { assert !Bit(w / 2, i - 1); }
      }
    }
  }

  /** The number of set bits among the lowest `n`. */
  function CountBits(w: nat, n: nat): nat {
    if n == 0 then 0 else CountBits(w, n - 1) + (if Bit(w, n - 1) then 1 else 0)
  }

  lemma {:induction false} CountBitsHalves(w: nat, n: nat)
    ensures CountBits(w, n + 1) == w % 2 + CountBits(w / 2, n)
    decreases n
  {
    if n == 0 {
      assert CountBits(w, 1) == CountBits(w, 0) + (if Bit(w, 0) then 1 else 0);
    } else {
      CountBitsHalves(w, n - 1);
      assert Bit(w, n) == Bit(w / 2, n - 1);
    }
  }

  /** `count_ones` of an n-bit word counts its bits. */
  lemma {:induction false} CountOnesCounts(w: nat, n: nat)
    requires w < Pow2(n)
    ensures CountOnes(w) == CountBits(w, n)
    decreases n
  {
    if n > 0 {
      CountOnesCounts(w / 2, n - 1);
      CountBitsHalves(w, n - 1);
    }
  }

  lemma {:induction false} ZeroHasNoBits(j: nat)
    ensures !Bit(0, j)
  {
    if j > 0 { ZeroHasNoBits(j - 1); }
  }

  /** `a | b`. */
  function Or(a: nat, b: nat): nat {
    if a == 0 && b == 0 then 0 else 2 * Or(a / 2, b / 2) + (if a % 2 == 1 || b % 2 == 1 then 1 else 0)
  }

  lemma {:induction false} OrFits(a: nat, b: nat, n: nat)
    requires a < Pow2(n) && b < Pow2(n)
    ensures Or(a, b) < Pow2(n)
    decreases n
  {
    if n > 0 { OrFits(a / 2, b / 2, n - 1); }
  }

  lemma {:induction false} OrZero(a: nat)
    ensures Or(a, 0) == a
  {
    if a > 0 { OrZero(a / 2); }
  }

  /** Bits from `n` up pass through an Or with a number that has none there. */
  lemma {:induction false} OrBelow(x: nat, low: nat, b: nat, n: nat)
    requires low < Pow2(n) && b < Pow2(n)
    ensures Or(x * Pow2(n) + low, b) == x * Pow2(n) + Or(low, b)
    decreases n
  {
    if n == 0 {
      OrZero(x);
    } else {
      var y := x * Pow2(n - 1);
      assert x * Pow2(n) == 2 * y;
      assert (2 * y + low) / 2 == y + low / 2 && (2 * y + low) % 2 == low % 2;
      OrBelow(x, low / 2, b / 2, n - 1);
      if 2 * y + low == 0 && b == 0 { assert y == 0; }
    }
  }
}
