/** Bitwise operations on natural numbers, and powers of two. */
module Bits {

  function Pow2(k: nat): (p: nat)
    ensures p > 0
  {
    if k == 0 then 1 else 2 * Pow2(k - 1)
  }

  function Or(a: nat, b: nat): nat {
    if a == 0 && b == 0 then 0 else (if a % 2 == 1 || b % 2 == 1 then 1 else 0) + 2 * Or(a / 2, b / 2)
  }

  function And(a: nat, b: nat): nat {
    if a == 0 || b == 0 then 0 else (if a % 2 == 1 && b % 2 == 1 then 1 else 0) + 2 * And(a / 2, b / 2)
  }

  lemma {:induction false} OrZero(a: nat)
    ensures Or(a, 0) == a && Or(0, a) == a
  {
    if a > 0 { OrZero(a / 2); }
  }

  lemma Half(m: nat, p: nat)
    ensures (m * (2 * p)) / 2 == m * p && (m * (2 * p)) % 2 == 0
  {
    assert m * (2 * p) == 2 * (m * p);
  }

  /** Bits below 2^k and bits from 2^k on do not meet: the bitwise or is the sum. */
  lemma {:induction false} OrDisjoint(low: nat, m: nat, k: nat)
    requires low < Pow2(k)
    ensures Or(low, m * Pow2(k)) == low + m * Pow2(k) && Or(m * Pow2(k), low) == low + m * Pow2(k)
  {
    if k == 0 {
      OrZero(m * Pow2(k));
    } else {
      Half(m, Pow2(k - 1));
      OrDisjoint(low / 2, m, k - 1);
      OrZero(m * Pow2(k));
    }
  }

  lemma {:induction false} AndSelf(a: nat)
    ensures And(a, a) == a
  {
    if a > 0 { AndSelf(a / 2); }
  }

  /** n & (n - 1) is zero only for powers of two. */
  lemma {:induction false} PowerOfTwoTest(n: nat) returns (k: nat)
    requires n > 0 && And(n - 1, n) == 0
    ensures n == Pow2(k)
  {
    k := 0;
    if n % 2 == 1 {
      AndSelf(n / 2);
      assert (n - 1) / 2 == n / 2;
    } else {
      assert (n - 1) / 2 == n / 2 - 1;
      var h := PowerOfTwoTest(n / 2);
      k := h + 1;
    }
  }

  lemma {:induction false} Pow2Sum(a: nat, b: nat)
    ensures Pow2(a + b) == Pow2(a) * Pow2(b)
  {
    if a > 0 { Pow2Sum(a - 1, b); }
  }

  lemma {:induction false} Pow2Order(a: nat, b: nat)
    ensures Pow2(a) >= Pow2(b) <==> a >= b
  {
    if a > 0 && b > 0 { Pow2Order(a - 1, b - 1); }
  }

  // ----- multiplication and division -----

  lemma MulLe(a: int, b: int, c: int)
    requires a <= b && c >= 0
    ensures a * c <= b * c
  {}

  lemma MulComm(a: int, b: int)
    ensures a * b == b * a
  {}

  lemma MulAssoc(a: int, b: int, c: int)
    ensures a * (b * c) == (a * b) * c
  {}

  lemma MulSum(d: int, a: int, b: int)
    ensures d * (a + b) == d * a + d * b && d * (a - b) == d * a - d * b
  {}

  lemma DivMod(n: int, d: int)
    requires d > 0
    ensures n == d * (n / d) + n % d && 0 <= n % d < d
  {}

  lemma DivModUnique(d: int, q: int, r: int, q': int, r': int)
    requires d * q + r == d * q' + r' && 0 <= r < d && 0 <= r' < d
    ensures q == q' && r == r'
  {
    MulSum(d, q, q');
    MulSum(d, q', q);
    if q > q' {
      MulLe(1, q - q', d);
      MulComm(d, q - q');
    } else if q < q' {
      MulLe(1, q' - q, d);
      MulComm(d, q' - q);
    }
  }

  /** Quotient and remainder are unique. */
  lemma DivisionIs(n: int, d: int, q: int, r: int)
    requires n == d * q + r && 0 <= r < d
    ensures n / d == q && n % d == r
  {
    DivMod(n, d);
    DivModUnique(d, q, r, n / d, n % d);
  }

  lemma Pow2Quotient(j: nat, n: nat)
    requires n <= j
    ensures Pow2(j) / Pow2(n) == Pow2(j - n)
  {
    Pow2Sum(n, j - n);
    DivisionIs(Pow2(j), Pow2(n), Pow2(j - n), 0);
  }

  lemma Pow2Values()
    ensures Pow2(0) == 1 && Pow2(1) == 2 && Pow2(2) == 4 && Pow2(3) == 8
    ensures Pow2(4) == 0x10 && Pow2(8) == 0x100 && Pow2(16) == 0x1_0000
    ensures Pow2(31) == 0x8000_0000 && Pow2(32) == 0x1_0000_0000
  {
    assert Pow2(2) == 4;
    assert Pow2(4) == 0x10;
    assert Pow2(8) == 0x100 by { Pow2Sum(4, 4); }
    assert Pow2(16) == 0x1_0000 by { Pow2Sum(8, 8); }
    assert Pow2(32) == 0x1_0000_0000 by { Pow2Sum(16, 16); }
    assert Pow2(32) == 2 * Pow2(31);
  }
}
