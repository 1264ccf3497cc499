/** Bitwise operators, defined bit by bit, and what they do on masks, shifts and powers of two. */
module Bits {
  import opened Arithmetic

  function And(a: nat, b: nat): nat {
    if a == 0 && b == 0 then 0
    else (if a % 2 == 1 && b % 2 == 1 then 1 else 0) + 2 * And(a / 2, b / 2)
  }

  function Or(a: nat, b: nat): nat {
    if a == 0 && b == 0 then 0
    else (if a % 2 == 1 || b % 2 == 1 then 1 else 0) + 2 * Or(a / 2, b / 2)
  }

  function Xor(a: nat, b: nat): nat {
    if a == 0 && b == 0 then 0
    else (if a % 2 == b % 2 then 0 else 1) + 2 * Xor(a / 2, b / 2)
  }

  lemma {:induction false} XorZero(a: nat)
    ensures Xor(a, 0) == a
  {
    if a > 0 {
      XorZero(a / 2);
    }
  }

  lemma XorDouble(a: nat, p: nat)
    requires p > 0
    ensures Xor(a, 2 * p) == 2 * Xor(a / 2, p) + a % 2
  {
    var b := 2 * p;
    assert b > 0 && b / 2 == p && b % 2 == 0;
    XorUnfold(a, b);
  }

  lemma XorUnfold(a: nat, b: nat)
    requires b > 0
    ensures Xor(a, b) == (if a % 2 == b % 2 then 0 else 1) + 2 * Xor(a / 2, b / 2)
  {
  }

  /** XOR with `1 << k` flips bit `k`: it adds the power when the bit is clear and subtracts it when it is set. */
  lemma {:induction false} XorPow2(a: nat, k: nat)
    ensures (a / Pow2(k)) % 2 == 0 ==> Xor(a, Pow2(k)) == a + Pow2(k)
    ensures (a / Pow2(k)) % 2 == 1 ==> a >= Pow2(k) && Xor(a, Pow2(k)) == a - Pow2(k)
  {
    if k == 0 {
      XorZero(a / 2);
      assert Pow2(0) == 1;
    } else {
      var p := Pow2(k - 1);
      XorPow2(a / 2, k - 1);
      DivHalf(a, p);
      XorDouble(a, p);
    }
  }

  lemma {:induction false} AndZero(a: nat)
    ensures And(a, 0) == 0 && And(0, a) == 0
  {
    if a > 0 {
      AndZero(a / 2);
    }
  }

  /** Masking with `(1 << k) - 1` keeps the low `k` bits. */
  lemma {:induction false} AndMask(x: nat, k: nat)
    ensures And(Pow2(k) - 1, x) == x % Pow2(k) && And(x, Pow2(k) - 1) == x % Pow2(k)
  {
    if k == 0 {
      AndZero(x);
    } else {
      AndMask(x / 2, k - 1);
      ModHalf(x, Pow2(k - 1));
      assert (Pow2(k) - 1) / 2 == Pow2(k - 1) - 1;
    }
  }

  lemma {:induction false} OrZero(a: nat)
    ensures Or(a, 0) == a && Or(0, a) == a
  {
    if a > 0 {
      OrZero(a / 2);
    }
  }

  /** OR of a value below `1 << k` into a multiple of `1 << k` is addition. */
  lemma {:induction false} OrDisjoint(x: nat, y: nat, k: nat)
    requires x % Pow2(k) == 0 && y < Pow2(k)
    ensures Or(x, y) == x + y
  {
    if k == 0 {
      OrZero(x);
    } else {
      ModHalf(x, Pow2(k - 1));
      OrDisjoint(x / 2, y / 2, k - 1);
    }
  }

  lemma OrDouble(x: nat, a: nat, y: nat, b: nat)
    requires a < 2 && b < 2
    ensures Or(2 * x + a, 2 * y + b) == 2 * Or(x, y) + (if a == 1 || b == 1 then 1 else 0)
  {
  }

  lemma {:induction false} OrBound(x: nat, y: nat, k: nat)
    requires x < Pow2(k) && y < Pow2(k)
    ensures Or(x, y) < Pow2(k)
  {
    if k > 0 {
      OrBound(x / 2, y / 2, k - 1);
    }
  }

  /** `x << k`, one position at a time. */
  function ShiftLeft(x: nat, k: nat): nat {
    if k == 0 then x else 2 * ShiftLeft(x, k - 1)
  }

  lemma {:induction false} ShiftLeftIs(x: nat, k: nat)
    ensures ShiftLeft(x, k) == x * Pow2(k)
  {
    if k > 0 {
      ShiftLeftIs(x, k - 1);
      assert x * (2 * Pow2(k - 1)) == 2 * (x * Pow2(k - 1));
    }
  }

  /** OR works on the bits above position `k` and on the bits below it independently. */
  lemma {:induction false} OrSplit(xh: nat, xl: nat, yh: nat, yl: nat, k: nat)
    requires xl < Pow2(k) && yl < Pow2(k)
    ensures Or(ShiftLeft(xh, k) + xl, ShiftLeft(yh, k) + yl) == ShiftLeft(Or(xh, yh), k) + Or(xl, yl)
  {
    if k > 0 {
      OrSplit(xh, xl / 2, yh, yl / 2, k - 1);
      OrDouble(ShiftLeft(xh, k - 1) + xl / 2, xl % 2, ShiftLeft(yh, k - 1) + yl / 2, yl % 2);
      OrDouble(xl / 2, xl % 2, yl / 2, yl % 2);
    }
  }
}
