/** Bitwise conjunction on numbers, and what comparing two addresses under a subnet mask
    means. */
module Subnets {
  /** The bits set in both numbers. */
  function BitAnd(x: nat, y: nat): nat {
    if x == 0 || y == 0 then 0 else 2 * BitAnd(x / 2, y / 2) + x % 2 * (y % 2)
  }

  function Bit(x: nat, k: nat): nat
    decreases k
  {
    if k == 0 then x % 2 else Bit(x / 2, k - 1)
  }

  /** x without its k lowest bits. */
  function Shifted(x: nat, k: nat): nat
    decreases k
  {
    if k == 0 then x else Shifted(x / 2, k - 1)
  }

  function Pow2(k: nat): (p: nat)
    ensures p > 0
  {
    if k == 0 then 1 else 2 * Pow2(k - 1)
  }

  lemma {:induction false} BitOfZero(k: nat)
    ensures Bit(0, k) == 0
  {
    if k > 0 {
      BitOfZero(k - 1);
    }
  }

  /** A bit is set in the conjunction exactly if it is set in both numbers. */
  lemma {:induction false} BitAndBits(x: nat, y: nat, k: nat)
    ensures Bit(BitAnd(x, y), k) == 1 <==> Bit(x, k) == 1 && Bit(y, k) == 1
    decreases k
  {
    if x == 0 || y == 0 {
      BitOfZero(k);
    } else {
      LastBit(x, y);
      if k > 0 {
        BitAndBits(x / 2, y / 2, k - 1);
      }
    }
  }

  lemma LastBit(x: nat, y: nat)
    requires x > 0 && y > 0
    ensures BitAnd(x, y) / 2 == BitAnd(x / 2, y / 2)
    ensures BitAnd(x, y) % 2 == 1 <==> x % 2 == 1 && y % 2 == 1
  {
    var b := x % 2 * (y % 2);
    assert b == 1 <==> x % 2 == 1 && y % 2 == 1;
    assert b == 0 || b == 1;
  }

  // A mask of n ones leaves n bits as they are.
  lemma {:induction false} AndOnes(n: nat, x: nat)
    requires x < Pow2(n)
    ensures BitAnd(Pow2(n) - 1, x) == x
    decreases n
  {
    if n > 0 {
      AndOnes(n - 1, x / 2);
      assert (Pow2(n) - 1) / 2 == Pow2(n - 1) - 1 && (Pow2(n) - 1) % 2 == 1;
    }
  }

  lemma {:induction false} Pow2Monotone(k: nat, n: nat)
    requires k <= n
    ensures Pow2(k) <= Pow2(n)
    decreases n
  {
    if k < n {
      Pow2Monotone(k, n - 1);
    }
  }

  /** Under a mask of n bits whose k lowest ones are zero, two addresses look the same exactly
      if they agree in all bits above the k lowest. */
  lemma {:induction false} SubnetIsPrefix(n: nat, k: nat, x: nat, y: nat)
    requires k <= n && x < Pow2(n) && y < Pow2(n)
    ensures Pow2(k) <= Pow2(n)
    ensures var mask := Pow2(n) - Pow2(k);
            BitAnd(mask, x) == BitAnd(mask, y) <==> Shifted(x, k) == Shifted(y, k)
    decreases n
  {
    Pow2Monotone(k, n);
    if k == 0 {
      AndOnes(n, x);
      AndOnes(n, y);
    } else {
      SubnetIsPrefix(n - 1, k - 1, x / 2, y / 2);
      EvenMask(Pow2(n - 1) - Pow2(k - 1), x);
      EvenMask(Pow2(n - 1) - Pow2(k - 1), y);
    }
  }

  lemma EvenMask(half: nat, x: nat)
    ensures BitAnd(2 * half, x) == 2 * BitAnd(half, x / 2)
  {
  }
}
