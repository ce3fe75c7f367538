/** Unbounded bitwise arithmetic on naturals, as the big-integer operators of the source. */
module Bits {
  function Pow2(n: nat): (p: nat)
    ensures p >= 1
  {
    if n == 0 then 1 else 2 * Pow2(n - 1)
  }

  lemma Pow2OfBytes()
    ensures Pow2(8) == 256 && Pow2(16) == 65536
  {
    assert Pow2(4) == 16;
    assert Pow2(8) == 256;
    assert Pow2(12) == 4096;
  }

  function And(a: nat, b: nat): nat {
    if a == 0 || b == 0 then 0 else 2 * And(a / 2, b / 2) + (if a % 2 == 1 && b % 2 == 1 then 1 else 0)
  }

  function Or(a: nat, b: nat): nat
    decreases a + b
  {
    if a == 0 then b else if b == 0 then a
    else 2 * Or(a / 2, b / 2) + (if a % 2 == 1 || b % 2 == 1 then 1 else 0)
  }

  function Xor(a: nat, b: nat): nat
    decreases a + b
  {
    if a == 0 then b else if b == 0 then a
    else 2 * Xor(a / 2, b / 2) + (if a % 2 != b % 2 then 1 else 0)
  }

  function ShiftLeft(a: nat, k: nat): nat {
    if k == 0 then a else 2 * ShiftLeft(a, k - 1)
  }

  function ShiftRight(a: nat, k: nat): nat {
    if k == 0 then a else ShiftRight(a / 2, k - 1)
  }

  function Bit(a: nat, i: nat): nat { ShiftRight(a, i) % 2 }

  // On two odd numbers the operation doubles its value on their halves.
  ghost predicate DoublesOdd(op: (nat, nat) -> nat, p: nat, q: nat) {
    op(2 * p + 1, 2 * q + 1) == 2 * op(p, q)
  }

  lemma {:induction false} OpOfMasks(op: (nat, nat) -> nat, b: nat, k: nat)
    requires k <= b && (forall p: nat, q: nat :: DoublesOdd(op, p, q)) && forall p: nat :: op(p, 0) == p
    ensures op(Pow2(b) - 1, Pow2(k) - 1) == Pow2(b) - Pow2(k)
  {
    if k > 0 {
      OpOfMasks(op, b - 1, k - 1);
      assert DoublesOdd(op, Pow2(b - 1) - 1, Pow2(k - 1) - 1);
    }
  }

  lemma XorOfMasks(b: nat, k: nat)
    requires k <= b
    ensures Xor(Pow2(b) - 1, Pow2(k) - 1) == Pow2(b) - Pow2(k)
  {
    forall p: nat, q: nat ensures DoublesOdd(Xor, p, q) { XorOfOdd(p, q); }
    OpOfMasks(Xor, b, k);
  }

  lemma XorOfOdd(p: nat, q: nat)
    ensures Xor(2 * p + 1, 2 * q + 1) == 2 * Xor(p, q)
  {
    OddHalf(p);
    OddHalf(q);
  }

  lemma OddHalf(p: nat)
    ensures (2 * p + 1) / 2 == p && (2 * p + 1) % 2 == 1
  {
  }

  lemma {:induction false} AndWithOnes(x: nat, b: nat)
    requires x < Pow2(b)
    ensures And(x, Pow2(b) - 1) == x
  {
    if b > 0 && x > 0 {
      AndWithOnes(x / 2, b - 1);
      AndOfOdd(x, Pow2(b - 1) - 1);
    }
  }

  lemma AndOfOdd(x: nat, p: nat)
    ensures And(x, 2 * p + 1) == 2 * And(x / 2, p) + x % 2
  {
    assert (2 * p + 1) / 2 == p && (2 * p + 1) % 2 == 1;
  }

  // `x` with its low `k` bits cleared.
  function HighPart(x: nat, k: nat): nat {
    if k == 0 then x else 2 * HighPart(x / 2, k - 1)
  }

  lemma {:induction false} AndWithMask(x: nat, b: nat, k: nat)
    requires x < Pow2(b) && k <= b
    ensures Pow2(b) >= Pow2(k) && And(x, Pow2(b) - Pow2(k)) == HighPart(x, k)
  {
    Pow2Monotone(k, b);
    if k == 0 {
      AndWithOnes(x, b);
    } else {
      AndWithMask(x / 2, b - 1, k - 1);
      assert Pow2(b) - Pow2(k) == 2 * (Pow2(b - 1) - Pow2(k - 1));
      HighPartOfZero(k);
    }
  }

  lemma {:induction false} HighPartOfZero(k: nat)
    ensures HighPart(0, k) == 0
  {
    if k > 0 { HighPartOfZero(k - 1); }
  }

  // Clearing the low bits compares like shifting them out.
  lemma {:induction false} HighPartIsShift(x: nat, y: nat, k: nat)
    ensures HighPart(x, k) == HighPart(y, k) <==> ShiftRight(x, k) == ShiftRight(y, k)
  {
    if k > 0 { HighPartIsShift(x / 2, y / 2, k - 1); }
  }

  lemma {:induction false} Pow2Monotone(a: nat, b: nat)
    requires a <= b
    ensures Pow2(a) <= Pow2(b)
  {
    if a < b { Pow2Monotone(a, b - 1); }
  }

  lemma {:induction false} ShiftRightBound(x: nat, b: nat, k: nat)
    requires x < Pow2(b) && k <= b
    ensures ShiftRight(x, k) < Pow2(b - k)
  {
    if k > 0 { ShiftRightBound(x / 2, b - 1, k - 1); }
  }

  // Equal after dropping `k` low bits means equal in every bit from `k` up to the width.
  lemma {:induction false} ShiftRightIsBits(x: nat, y: nat, b: nat, k: nat)
    requires x < Pow2(b) && y < Pow2(b) && k <= b
    ensures ShiftRight(x, k) == ShiftRight(y, k) <==> forall i | k <= i < b :: Bit(x, i) == Bit(y, i)
    decreases b - k
  {
    if k == b {
      ShiftRightBound(x, b, k);
      ShiftRightBound(y, b, k);
    } else {
      ShiftRightIsBits(x, y, b, k + 1);
      ShiftRightStep(x, k);
      ShiftRightStep(y, k);
      if forall i | k <= i < b :: Bit(x, i) == Bit(y, i) { assert Bit(x, k) == Bit(y, k); }
    }
  }

  lemma {:induction false} ShiftRightStep(x: nat, k: nat)
    ensures ShiftRight(x, k) == 2 * ShiftRight(x, k + 1) + Bit(x, k)
  {
    if k > 0 { ShiftRightStep(x / 2, k - 1); }
  }

  // Filling the low bits cleared by a shift is addition.
  lemma {:induction false} OrIsSum(a: nat, b: nat, k: nat)
    requires b < Pow2(k)
    ensures Or(ShiftLeft(a, k), b) == ShiftLeft(a, k) + b
  {
    if k > 0 { OrIsSum(a, b / 2, k - 1); }
  }

  lemma {:induction false} ShiftedOne(k: nat)
    ensures ShiftLeft(1, k) == Pow2(k)
  {
    if k > 0 { ShiftedOne(k - 1); }
  }

  // Appending a `k`-bit digit to a number below 2^n.
  lemma {:induction false} ShiftedBound(v: nat, d: nat, n: nat, k: nat)
    requires v < Pow2(n) && d < Pow2(k)
    ensures ShiftLeft(v, k) + d < Pow2(n + k)
  {
    if k > 0 { ShiftedBound(v, d / 2, n, k - 1); }
  }
}
