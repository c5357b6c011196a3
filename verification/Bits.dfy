/** Bitwise AND on natural numbers, and the two masks the allowlist uses. */
module Bits {
  function Pow2(k: nat): (p: nat)
    ensures p > 0
  {
    if k == 0 then 1 else 2 * Pow2(k - 1)
  }

  /** Bit by bit, the lowest first. */
  function And(a: nat, b: nat): nat {
    if a == 0 || b == 0 then 0 else (if a % 2 == 1 && b % 2 == 1 then 1 else 0) + 2 * And(a / 2, b / 2)
  }

  lemma MulMonotone(a: nat, b: nat, d: nat)
    ensures a <= b ==> a * d <= b * d
  {
  }

  lemma DivModUnique(x: nat, d: nat, q: nat, r: nat)
    requires d > 0 && x == q * d + r && r < d
    ensures x / d == q && x % d == r
  {
    var (p, s) := (x / d, x % d);
    assert x == p * d + s;
    MulMonotone(p + 1, q, d);
    MulMonotone(q + 1, p, d);
  }

  lemma HalfFirst(x: nat, d: nat)
    requires d > 0
    ensures x / (2 * d) == x / 2 / d && x % (2 * d) == x % 2 + 2 * (x / 2 % d)
  {
    var (h, q, r) := (x / 2, x / 2 / d, x / 2 % d);
    assert h == q * d + r;
    assert q * (2 * d) == 2 * (q * d);
    DivModUnique(x, 2 * d, q, x % 2 + 2 * r);
  }

  lemma {:induction false} AndOdd(x: nat, b: nat)
    ensures And(x, 2 * b + 1) == x % 2 + 2 * And(x / 2, b)
  {
    if x == 0 || b == 0 {
      assert And(x / 2, b) == 0;
    }
  }

  lemma {:induction false} AndLow(x: nat, k: nat)
    ensures And(x, Pow2(k) - 1) == x % Pow2(k)
    decreases k
  {
    if k > 0 {
      hide And;
      var m := Pow2(k - 1);
      AndLow(x / 2, k - 1);
      AndOdd(x, m - 1);
      HalfFirst(x, m);
    }
  }

  lemma {:induction false} AndEven(x: nat, b: nat)
    ensures And(x, 2 * b) == 2 * And(x / 2, b)
  {
    hide Pow2;
    if x == 0 || b == 0 {
      assert And(x / 2, b) == 0;
    }
  }

  lemma MulTwice(q: nat, d: nat)
    ensures q * (2 * d) == 2 * (q * d)
  {
  }

  lemma {:induction false} AndHighStep(x: nat, m: nat, d: nat)
    requires 0 < d <= m && And(x / 2, m - d) == x / 2 / d * d
    ensures And(x, 2 * m - 2 * d) == x / (2 * d) * (2 * d)
  {
    hide And;
    HalfFirst(x, d);
    AndEven(x, m - d);
    assert 2 * m - 2 * d == 2 * (m - d);
    var q := x / (2 * d);
    MulTwice(q, d);
  }

  /** The top bits of an n-bit number: what a network mask keeps. */
  lemma {:induction false} AndHigh(x: nat, n: nat, k: nat)
    requires k <= n && x < Pow2(n)
    ensures Pow2(k) <= Pow2(n)
    ensures And(x, Pow2(n) - Pow2(k)) == x / Pow2(k) * Pow2(k)
    decreases k
  {
    if k == 0 {
      AndLow(x, n);
      DivModUnique(x, Pow2(n), 0, x);
    } else {
      hide And;
      var (m, d) := (Pow2(n - 1), Pow2(k - 1));
      AndHigh(x / 2, n - 1, k - 1);
      AndHighStep(x, m, d);
    }
  }
}
