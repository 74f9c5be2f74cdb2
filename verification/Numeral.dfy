/** Positional numerals: digit values, most significant first. */
module Numeral {
  import opened Bits

  function Value(ds: seq<nat>, base: nat): nat {
    if ds == [] then 0 else Value(ds[..|ds| - 1], base) * base + ds[|ds| - 1]
  }

  function DigitsOf(n: nat, base: nat): (ds: seq<nat>)
    requires base >= 2
    ensures |ds| > 0 && forall i | 0 <= i < |ds| :: ds[i] < base
    decreases n
  {
    if n < base then [n] else Shrinks(n, base); DigitsOf(n / base, base) + [n % base]
  }

  lemma Shrinks(n: nat, base: nat)
    requires 2 <= base
    ensures n / base <= n / 2 && (n > 0 ==> n / base < n) && (n >= base ==> n / base > 0)
  {
    DivMod(n, base);
    MulLe(2, base, n / base);
    MulComm(base, n / base);
  }

  /** The digits of a number denote it. */
  lemma {:induction false} ValueOfDigits(n: nat, base: nat)
    requires base >= 2
    ensures Value(DigitsOf(n, base), base) == n
    decreases n
  {
    if n < base {
      assert Value([n], base) == n;
    } else {
      Shrinks(n, base);
      ValueOfDigits(n / base, base);
      DivMod(n, base);
      MulComm(base, n / base);
      assert DigitsOf(n, base)[..|DigitsOf(n, base)| - 1] == DigitsOf(n / base, base);
    }
  }

  /** They are the shortest that do: only 0 begins with the digit 0. */
  lemma {:induction false} NoLeadingZero(n: nat, base: nat)
    requires base >= 2
    ensures DigitsOf(n, base)[0] == 0 <==> n == 0
    decreases n
  {
    if n >= base {
      Shrinks(n, base);
      NoLeadingZero(n / base, base);
    }
  }

  /** Below 2^k there are at most k digits in any base. */
  lemma {:induction false} DigitCount(n: nat, base: nat, k: nat)
    requires base >= 2 && k > 0 && n < Pow2(k)
    ensures |DigitsOf(n, base)| <= k
  {
    if n >= base {
      Shrinks(n, base);
      if k > 1 { DigitCount(n / base, base, k - 1); }
    }
  }

  lemma {:induction false} ValueOfConcat(a: seq<nat>, b: seq<nat>, base: nat)
    requires Value(a, base) == 0
    ensures Value(a + b, base) == Value(b, base)
  {
    if b == [] {
      assert a + b == a;
    } else {
      assert (a + b)[..|a + b| - 1] == a + b[..|b| - 1];
      ValueOfConcat(a, b[..|b| - 1], base);
    }
  }

  function Zeros(n: nat): (z: seq<nat>)
    ensures |z| == n && forall i | 0 <= i < n :: z[i] == 0
  {
    seq(n, i => 0)
  }

  /** Leading zeros do not count. */
  lemma {:induction false} LeadingZeros(n: nat, ds: seq<nat>, base: nat)
    ensures Value(Zeros(n) + ds, base) == Value(ds, base)
  {
    ZerosAreZero(n, base);
    ValueOfConcat(Zeros(n), ds, base);
  }

  lemma {:induction false} ZerosAreZero(n: nat, base: nat)
    ensures Value(Zeros(n), base) == 0
  {
    if n > 0 {
      assert Zeros(n)[..n - 1] == Zeros(n - 1);
      ZerosAreZero(n - 1, base);
    }
  }

  /** Read in a smaller base, decimal digits denote less, as soon as there are two. */
  lemma {:induction false} SmallerBase(ds: seq<nat>, k: nat)
    requires k <= |ds| && (k < |ds| ==> ds[k] > 0)
    ensures Value(ds[..k], 8) <= Value(ds, 10)
    ensures k < |ds| ==> Value(ds[..k], 8) < Value(ds, 10)
    ensures 1 < |ds| && ds[0] > 0 ==> Value(ds[..k], 8) < Value(ds, 10)
  {
    var n := |ds| - 1;
    if k <= n {
      if k < n { SmallerBase(ds[..n], k); } else { SmallerBase(ds[..n], n); }
      assert ds[..n][..k] == ds[..k];
    } else if n >= 0 {
      SmallerBase(ds[..n], n);
      assert ds[..k] == ds && ds[..n][..n] == ds[..n];
      if n == 1 { assert ds[..1][..0] == []; assert Value(ds[..1], 10) == ds[0]; }
    }
  }
}
