/** Division, remainder and powers of two over the natural numbers. */
module Arithmetic {

  const TWO64: nat := 0x1_0000_0000_0000_0000

  /** `1 << k` on an unbounded integer. */
  function Pow2(k: nat): (r: nat)
    ensures r > 0
  {
    if k == 0 then 1 else 2 * Pow2(k - 1)
  }

  function Min(a: nat, b: nat): nat {
    if a < b then a else b
  }

  lemma MultipleGap(p: nat, q: nat, d: nat)
    ensures p < q ==> q * d >= p * d + d
  {
    if p < q {
      var gap := q - p - 1;
      assert q * d == p * d + gap * d + d by {
        assert q == p + gap + 1;
      }
    }
  }

  /** Quotient and remainder are the only pair that rebuilds the dividend. */
  lemma DivModUnique(x: nat, d: nat, q: nat, r: nat)
    requires d > 0 && r < d && x == q * d + r
    ensures x / d == q && x % d == r
  {
    var q', r' := x / d, x % d;
    assert x == q' * d + r';
    MultipleGap(q, q', d);
    MultipleGap(q', q, d);
  }

  /** Dividing by 2 and then by `d` is dividing by `2 * d`. */
  lemma DivHalf(x: nat, d: nat)
    requires d > 0
    ensures x / (2 * d) == x / 2 / d
  {
    var q, r := x / 2 / d, x / 2 % d;
    assert x / 2 == q * d + r;
    assert x == q * (2 * d) + (2 * r + x % 2);
    DivModUnique(x, 2 * d, q, 2 * r + x % 2);
  }

  /** The remainder by `2 * d` from the remainder by `d` of the half. */
  lemma ModHalf(x: nat, d: nat)
    requires d > 0
    ensures x % (2 * d) == 2 * (x / 2 % d) + x % 2
  {
    var q, r := x / 2 / d, x / 2 % d;
    assert x / 2 == q * d + r;
    assert x == q * (2 * d) + (2 * r + x % 2);
    DivModUnique(x, 2 * d, q, 2 * r + x % 2);
  }

  /** Dividing by `a` and then by `b` is dividing by `a * b`. */
  lemma DivDiv(x: nat, a: nat, b: nat)
    requires a > 0 && b > 0
    ensures a * b > 0 && x / (a * b) == x / a / b
    ensures x % (a * b) == (x / a % b) * a + x % a
  {
    var q, r := x / a, x % a;
    var q2, r2 := q / b, q % b;
    DivMod(x, a);
    DivMod(q, b);
    TwoDigits(q2, r2, r, a, b);
    DivModUnique(x, a * b, q2, r2 * a + r);
  }

  lemma DivMod(x: nat, d: nat)
    requires d > 0
    ensures x == x / d * d + x % d && x % d < d
  {
  }

  lemma TwoDigits(q2: nat, r2: nat, r: nat, a: nat, b: nat)
    requires r2 < b && r < a
    ensures a * b > 0 && (q2 * b + r2) * a + r == q2 * (a * b) + (r2 * a + r) && r2 * a + r < a * b
  {
    assert (q2 * b + r2) * a == q2 * b * a + r2 * a;
    MultipleGap(r2, b, a);
  }

  /** The remainder by `a * b` has the quotient and the remainder by `a` that the number has. */
  lemma ModParts(x: nat, a: nat, b: nat)
    requires a > 0 && b > 0
    ensures a * b > 0 && x % (a * b) % a == x % a && x % (a * b) / a == x / a % b
  {
    DivDiv(x, a, b);
    DivModUnique(x % (a * b), a, x / a % b, x % a);
  }

  /** The remainder of a multiple. */
  lemma ModScale(x: nat, d: nat, k: nat)
    requires d > 0 && k > 0
    ensures k * d > 0 && x * k % (k * d) == x % d * k
  {
    DivModUnique(x * k, k, x, 0);
    DivDiv(x * k, k, d);
  }

  /** Adding a multiple of `d` leaves the remainder alone. */
  lemma ModAdd(x: nat, d: nat, y: nat)
    requires d > 0 && y % d == 0
    ensures (x + y) % d == x % d && (x + y) / d == x / d + y / d
  {
    assert x + y == (x / d + y / d) * d + x % d by {
      assert x == x / d * d + x % d;
      assert y == y / d * d;
      assert (x / d + y / d) * d == x / d * d + y / d * d;
    }
    DivModUnique(x + y, d, x / d + y / d, x % d);
  }

  lemma ModSub(x: nat, d: nat, y: nat)
    requires d > 0 && y % d == 0 && y <= x
    ensures (x - y) % d == x % d
  {
    ModAdd(x - y, d, y);
  }

  /** Two multiples of `d` that are closer than `d` are equal. */
  lemma MultiplesApart(x: nat, y: nat, d: nat)
    requires d > 0 && x % d == 0 && y % d == 0
    ensures x < y ==> x + d <= y
  {
    if x < y < x + d {
      var q := x / d;
      assert x == q * d;
      DivModUnique(y, d, q, y - x);
    }
  }

  lemma Pow2Add(a: nat, b: nat)
    ensures Pow2(a + b) == Pow2(a) * Pow2(b)
  {
    if a > 0 {
      Pow2Add(a - 1, b);
    }
  }

  lemma Pow2Monotone(a: nat, b: nat)
    requires a <= b
    ensures Pow2(a) <= Pow2(b)
  {
    if a < b {
      Pow2Monotone(a, b - 1);
    }
  }

  lemma Pow2Values()
    ensures Pow2(9) == 512 && Pow2(10) == 1024 && Pow2(12) == 4096
    ensures Pow2(34) == 0x4_0000_0000 && Pow2(44) == 0x1000_0000_0000
  {
    assert Pow2(9) == 512;
    assert Pow2(11) == 2048;
    assert Pow2(17) == 131072;
    Pow2Add(17, 17);
    Pow2Add(11, 11);
    Pow2Add(22, 22);
  }
}
