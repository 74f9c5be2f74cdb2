/** __do_div64 of div64.S, register by register, on the path for architecture 1. */
module Div64 {
  import opened Bits

  /** A register holds a number below WORD. */
  const WORD := 0x1_0000_0000

  predicate IsWord(x: int) { 0 <= x < WORD }

  /** Quotient and remainder of a 64-bit dividend held in two registers. */
  predicate Divides(xh0: int, xl0: int, r4: int, yh: int, yl: int, xh: int) {
    && IsWord(yh) && IsWord(yl) && 0 <= xh < r4
    && (yh * WORD + yl) * r4 + xh == xh0 * WORD + xl0
  }

  // ----- label 8: the divisor is a power of two -----

  /** The order of the divisor by four comparisons. */
  method Order(r4: int, ghost k: nat) returns (ip: nat)
    requires r4 == Pow2(k) && 1 <= k < 32
    ensures ip == k
  {
    hide Pow2;
    Pow2Values();
    var yl := r4;
    ghost var j := k;
    ip := 0;
    Pow2Order(j, 16);
    if yl >= 0x1_0000 {
      Pow2Quotient(j, 16);
      yl, ip, j := yl / 0x1_0000, 16, j - 16;
    }
    Pow2Order(j, 8);
    if yl >= 0x100 {
      Pow2Quotient(j, 8);
      yl, ip, j := yl / 0x100, ip + 8, j - 8;
    }
    Pow2Order(j, 4);
    if yl >= 0x10 {
      Pow2Quotient(j, 4);
      yl, ip, j := yl / 0x10, ip + 4, j - 4;
    }
    assert j == 0 || j == 1 || j == 2 || j == 3;
    if yl > 4 {
      ip := ip + 3;
    } else {
      ip := ip + yl / 2;
    }
  }

  /** The shifts that divide by 2^k. */
  method ShiftDivide(xh0: int, xl0: int, r4: int, ghost k: nat) returns (yh: int, yl: int, xh: int)
    requires IsWord(xh0) && IsWord(xl0) && r4 == Pow2(k) && 1 <= k < 32
    ensures Divides(xh0, xl0, r4, yh, yl, xh)
  {
    hide Pow2, Or;
    var ip := Order(r4, k);
    yh := xh0 / Pow2(ip);
    yl := xl0 / Pow2(ip);
    ip := 32 - ip;
    var shifted := xh0 * Pow2(ip) % WORD;
    ShiftFacts(xh0, xl0, k);
    OrDisjoint(yl, xh0 % Pow2(k), ip);
    yl := Or(yl, shifted);
    xh := xl0 * Pow2(ip) % WORD;
    xh := xh / Pow2(ip);
  }

  /** Shifting left by 32 - k keeps the low k bits; what the two words of the quotient are made of. */
  lemma ShiftFacts(xh: int, xl: int, k: nat)
    requires IsWord(xh) && IsWord(xl) && 1 <= k < 32
    ensures var p, q := Pow2(k), Pow2(32 - k);
            && xh * q % WORD == xh % p * q
            && xl * q % WORD / q == xl % p
            && 0 <= xl / p < q && 0 <= xh / p < WORD && 0 <= xh % p && 0 <= xl % p < p
            && (xh / p * WORD + (xl / p + xh % p * q)) * p + xl % p == xh * WORD + xl
            && xl / p + xh % p * q < WORD
  {
    hide Pow2;
    var p, q := Pow2(k), Pow2(32 - k);
    Pow2Sum(k, 32 - k);
    Pow2Values();
    SplitFacts(xh, p, q);
    SplitFacts(xl, p, q);
    MulComm(xl % p, q);
    DivisionIs(xl % p * q, q, xl % p, 0);
    MulSum(q, p, 1);
    MulLe(xh % p, p - 1, q);
    MulComm(p - 1, q);
    MulSum(q, p, 1);
    MulComm(p, q);
    Recombine(xh / p, xh % p, xl / p, xl % p, p, q);
    DivMod(xh, p);
    DivMod(xl, p);
  }

  lemma SplitFacts(x: int, p: int, q: int)
    requires IsWord(x) && 0 < p && 0 < q && p * q == WORD
    ensures x * q % WORD == x % p * q && 0 <= x / p < q && x / p < WORD && 0 <= x % p < p
  {
    var h, l := x / p, x % p;
    DivMod(x, p);
    MulComm(x, q);
    MulSum(q, p * h, l);
    MulAssoc(q, p, h);
    MulComm(q, p);
    MulComm(q, l);
    MulLe(l, p - 1, q);
    MulComm(p - 1, q);
    MulSum(q, p, 1);
    DivisionIs(x * q, WORD, h, l * q);
    if h >= q {
      MulLe(q, h, p);
      MulComm(q, p);
      MulComm(h, p);
    }
    if h < 0 {
      MulLe(h, -1, p);
      MulComm(h, p);
    }
    MulLe(1, p, q);
  }

  lemma Recombine(a: int, b: int, c: int, d: int, p: int, q: int)
    requires p * q == WORD
    ensures (a * WORD + (c + b * q)) * p + d == (p * a + b) * WORD + (p * c + d)
  {
    MulComm(a * WORD + (c + b * q), p);
    MulSum(p, a * WORD, c + b * q);
    MulSum(p, c, b * q);
    MulAssoc(p, a, WORD);
    MulComm(b, q);
    MulAssoc(p, q, b);
  }

  // ----- labels 1 and 2: the upper word of the quotient -----

  /** A product the solver is to leave alone. */
  function Times(a: int, b: int): int { a * b }

  /** Doubling a power of two, and the divisor shifted by it. */
  lemma Doubled(r4: int, k: nat)
    ensures Pow2(k + 1) == 2 * Pow2(k) && Times(r4, Pow2(k + 1)) == 2 * Times(r4, Pow2(k))
  {
    MulAssoc(r4, 2, Pow2(k));
    MulComm(r4, 2);
    MulAssoc(2, r4, Pow2(k));
  }

  /** Halving them. */
  lemma Halved(r4: int, k: nat)
    requires r4 > 0
    ensures k == 0 ==> Pow2(k) == 1 && Times(r4, Pow2(k)) == r4
    ensures k > 0 ==> Pow2(k) == 2 * Pow2(k - 1) && Times(r4, Pow2(k)) == 2 * Times(r4, Pow2(k - 1))
  {
    if k > 0 { Doubled(r4, k - 1); }
  }

  /** A quotient made of bits above k gets bit k, which adds the shifted divisor to its multiple of the divisor. */
  lemma SetBit(y: int, k: nat, m: int, r4: int)
    requires m >= 0 && y == Times(m, Pow2(k + 1))
    ensures y >= 0 && Or(y, Pow2(k)) == y + Pow2(k)
    ensures y == Times(2 * m, Pow2(k)) && y + Pow2(k) == Times(2 * m + 1, Pow2(k))
    ensures Times(y + Pow2(k), r4) == Times(y, r4) + Times(r4, Pow2(k))
  {
    MulLe(0, m, Pow2(k + 1));
    Pow2Order(k, k + 1);
    OrDisjoint(Pow2(k), m, k + 1);
    MulAssoc(m, 2, Pow2(k));
    MulComm(m, 2);
    MulComm(2 * m + 1, Pow2(k));
    MulSum(Pow2(k), 2 * m, 1);
    MulComm(2 * m, Pow2(k));
    MulComm(y + Pow2(k), r4);
    MulSum(r4, y, Pow2(k));
    MulComm(r4, y);
  }

  lemma TimesFacts(a: int)
    ensures Times(0, a) == 0 && Times(a, 1) == a && Times(1, a) == a
  {}

  /** Shift the divisor left until it reaches the dividend or fills the register. */
  method Align(r4: int, xh: int) returns (yl: int, ip: int, ghost k: nat)
    requires 1 < r4 <= xh < WORD
    ensures ip == Pow2(k) && yl == Times(r4, ip) && IsWord(yl) && xh < 2 * yl
  {
    hide Pow2, Times;
    yl := r4;
    ip := 1;
    k := 0;
    Pow2Values();
    TimesFacts(r4);
    var carry := false;
    // label 1
    while !carry
      invariant ip == Pow2(k) && yl == Times(r4, ip) && 1 <= ip <= yl < WORD
      invariant carry ==> xh < 2 * yl
      decreases !carry, WORD - yl
    {
      carry := yl >= 0x8000_0000;
      if !carry { carry := yl >= xh; }
      if !carry {
        Doubled(r4, k);
        yl := yl * 2 % WORD;
        ip := ip * 2 % WORD;
        k := k + 1;
      }
    }
  }

  method UpperLoop(xh0: int, r4: int) returns (yh: int, xh: int)
    requires 1 < r4 <= xh0 < WORD
    ensures IsWord(yh) && 0 <= xh < r4 && Times(yh, r4) + xh == xh0
  {
    hide Pow2, Or, Times;
    var yl, ip;
    ghost var k;
    yl, ip, k := Align(r4, xh0);
    xh := xh0;
    yh := 0;
    var zero := false;
    ghost var m := 0;
    TimesFacts(r4);
    TimesFacts(Pow2(k + 1));
    // label 2
    while !zero
      invariant 0 <= yh && 0 <= xh && Times(yh, r4) + xh == xh0
      invariant !zero ==> ip == Pow2(k) && yl == Times(r4, ip) && xh < 2 * yl && m >= 0 && yh == Times(m, Pow2(k + 1))
      invariant zero ==> xh < r4
      decreases !zero, ip
    {
      var carry := xh >= yl;
      zero := xh == yl;
      SetBit(yh, k, m, r4);
      m := 2 * m;
      if carry {
        yh := Or(yh, ip);
        xh := xh - yl;
        zero := xh == 0;
        m := m + 1;
      }
      Halved(r4, k);
      if !zero {
        ip := ip / 2;
        zero := ip == 0;
      }
      yl := yl / 2;
      if k > 0 { k := k - 1; }
    }
    QuotientIsWord(yh, r4, xh0);
  }

  lemma QuotientIsWord(y: int, r4: int, n: int)
    requires 0 <= y && r4 > 0 && Times(y, r4) <= n < WORD
    ensures IsWord(y)
  {
    MulLe(1, r4, y);
    MulComm(r4, y);
  }

  // ----- labels 3 to 7: the lower word of the quotient -----

  /** The state of the loop at label 4: `rem` is what is left to divide, shifted left by 31 - k bits it fills xh and xl. */
  ghost predicate LowerInv(n1: int, r4: int, xh: int, xl: int, yl: int, k: nat, rem: int, m: int) {
    && k < 32 && m >= 0 && rem >= 0
    && 0 <= xh < r4 && IsWord(xl)
    && xh * WORD + xl == Times(rem, Pow2(31 - k))
    && yl == Times(m, Pow2(k + 1)) && 0 <= yl
    && Times(yl, r4) + rem == n1
  }

  /** One more shift. */
  lemma ShiftOnce(rem: int, k: nat)
    requires k < 32
    ensures Times(rem, Pow2(32 - k)) == 2 * Times(rem, Pow2(31 - k))
  {
    Doubled(rem, 31 - k);
  }

  /** Taking the divisor from the shifted remainder takes 2^k times the divisor from the remainder itself. */
  lemma TakeDivisor(rem: int, r4: int, k: nat)
    requires k < 32
    ensures Times(rem - Times(r4, Pow2(k)), Pow2(32 - k)) == Times(rem, Pow2(32 - k)) - r4 * WORD
  {
    var s := Pow2(32 - k);
    Pow2Sum(k, 32 - k);
    Pow2Values();
    MulComm(rem - r4 * Pow2(k), s);
    MulSum(s, rem, r4 * Pow2(k));
    MulComm(rem, s);
    MulComm(s, r4 * Pow2(k));
    MulAssoc(r4, Pow2(k), s);
  }

  /** When all 32 bits are shifted out, nothing is left in the low word. */
  lemma AllShifted(rem: int, xh: int, xl: int)
    requires IsWord(xl) && xh * WORD + xl == Times(rem, Pow2(32))
    ensures xl == 0 && rem == xh
  {
    Pow2Values();
    DivModUnique(WORD, xh, xl, rem, 0);
  }

  /** The loop at label 7: bring the next one bit of the low word up, a bit position at a time. */
  method SkipZeros(xl0: int, ip0: int, ghost k0: nat, ghost rem: int) returns (xl: int, ip: int, ghost k: nat)
    requires 0 < xl0 < WORD && k0 < 32 && ip0 == Pow2(k0) && rem > 0 && xl0 == Times(rem, Pow2(32 - k0))
    ensures k < k0 && ip == Pow2(k) && IsWord(xl) && WORD + xl == Times(rem, Pow2(32 - k))
  {
    hide Pow2, Times;
    xl, ip, k := xl0, ip0, k0;
    var carry := false;
    // label 7
    while !carry
      invariant k <= k0 && ip == Pow2(k) && IsWord(xl)
      invariant !carry ==> 0 < xl && xl == Times(rem, Pow2(32 - k))
      invariant carry ==> k < k0 && WORD + xl == Times(rem, Pow2(32 - k))
      decreases !carry, k
    {
      if k == 0 { AllShifted(rem, 0, xl); }
      Halved(1, k);
      ShiftOnce(rem, k - 1);
      carry := xl >= 0x8000_0000;
      xl := xl * 2 % WORD;
      ip := ip / 2;
      k := k - 1;
    }
  }

  /** One trip through labels 4 and 5 without the jump to 6: shift, compare, set the quotient bit. `t` is the 33-bit
      value the shift produced. */
  lemma Trip(n1: int, r4: int, xh: int, xl: int, yl: int, k: nat, rem: int, m: int)
    requires LowerInv(n1, r4, xh, xl, yl, k, rem, m) && 0 < r4 < WORD
    ensures var t := 2 * xh + if xl >= 0x8000_0000 then 1 else 0;
            var xl' := xl * 2 % WORD;
            && 0 <= t < 2 * r4 && t * WORD + xl' == Times(rem, Pow2(32 - k))
            && Or(yl, Pow2(k)) == yl + Pow2(k)
            && yl == Times(2 * m, Pow2(k)) && yl + Pow2(k) == Times(2 * m + 1, Pow2(k))
            && Times(yl + Pow2(k), r4) == Times(yl, r4) + Times(r4, Pow2(k))
            && (t >= r4 ==> rem >= Times(r4, Pow2(k)))
            && (t >= r4 ==> (t - r4) * WORD + xl' == Times(rem - Times(r4, Pow2(k)), Pow2(32 - k)))
  {
    hide Pow2, Times, Or;
    ShiftOnce(rem, k);
    SetBit(yl, k, m, r4);
    TakeDivisor(rem, r4, k);
    var t := 2 * xh + if xl >= 0x8000_0000 then 1 else 0;
    var left := rem - Times(r4, Pow2(k));
    if t >= r4 { NonNegative(left, Pow2(32 - k), (t - r4) * WORD + xl * 2 % WORD); }
  }

  lemma NonNegative(a: int, p: int, v: int)
    requires p > 0 && v >= 0 && Times(a, p) == v
    ensures a >= 0
  {
    if a < 0 { MulLe(a, -1, p); }
  }

  /** Label 6 with something left in the low word: the shifted-up remainder is 1, too small for the divisor. */
  method ResumeAtOne(xl0: int, ip0: int, ghost k0: nat, ghost rem: int, ghost m0: int, ghost y: int)
    returns (xl: int, ip: int, ghost k: nat, ghost m: int)
    requires 0 < xl0 < WORD && k0 < 32 && ip0 == Pow2(k0) && xl0 == Times(rem, Pow2(32 - k0))
    requires m0 >= 0 && y == Times(m0, Pow2(k0 + 1))
    ensures ip == 0 ==> rem == 1
    ensures ip != 0 ==> k < k0 && ip == Pow2(k) && IsWord(xl) && WORD + xl == Times(rem, Pow2(31 - k))
    ensures ip != 0 ==> m >= 0 && y == Times(m, Pow2(k + 1)) && rem > 0
  {
    hide Pow2, Times;
    Positive(rem, Pow2(32 - k0), xl0);
    xl, ip, k := SkipZeros(xl0, ip0, k0, rem);
    Halved(1, k);
    ip := ip / 2;
    m := m0;
    if k == 0 {
      AllShifted(rem, 1, xl);
    } else {
      k := k - 1;
      m := LowerBits(m0, k0, k, y);
    }
  }

  /** movs xl, xl, lsl #1; adcs xh, xh, xh: a 33-bit value in the carry and xh. */
  method ShiftLeft(xh0: int, xl0: int) returns (xh: int, xl: int, carry: bool)
    requires IsWord(xh0) && IsWord(xl0)
    ensures IsWord(xh) && xl == xl0 * 2 % WORD
    ensures xh + (if carry then WORD else 0) == 2 * xh0 + if xl0 >= 0x8000_0000 then 1 else 0
  {
    carry := xl0 >= 0x8000_0000;
    xl := xl0 * 2 % WORD;
    var t := xh0 + xh0 + if carry then 1 else 0;
    carry := t >= WORD;
    xh := t % WORD;
  }

  /** The low 32 bits of x - y; with a borrow when x is below y. */
  function SubWord(x: int, y: int): (r: int)
    requires IsWord(x) && IsWord(y)
    ensures r == if x >= y then x - y else x - y + WORD
  {
    (x - y) % WORD
  }

  method LowerLoop(xh0: int, xl0: int, r4: int) returns (yl: int, xh: int)
    requires 2 < r4 < WORD && 0 <= xh0 < r4 && IsWord(xl0)
    ensures 0 <= yl && 0 <= xh < r4 && Times(yl, r4) + xh == xh0 * WORD + xl0
  {
    hide Pow2, Times, Or, SubWord;
    ghost var n1 := xh0 * WORD + xl0;
    TimesFacts(r4);
    xh := xh0;
    var xl := xl0;
    yl := 0;
    if xh == 0 && xl < r4 {
      return 0, xl;
    }
    var ip := 0x8000_0000;
    ghost var k, m, rem := 31, 0, n1;
    Pow2Values();
    TimesFacts(rem);
    TimesFacts(Pow2(32));
    // label 4
    while true
      invariant ip == Pow2(k) && LowerInv(n1, r4, xh, xl, yl, k, rem, m)
      decreases k
    {
      Trip(n1, r4, xh, xl, yl, k, rem, m);
      Halved(1, k);
      var carry;
      xh, xl, carry := ShiftLeft(xh, xl);
      if xh == 0 && !carry {
        if xl == 0 {
          ZeroRemainder(rem, Pow2(32 - k));
          return;
        }
        xl, ip, k, m := ResumeAtOne(xl, ip, k, rem, m, yl);
        xh := 1;
        if ip == 0 { return; }
      } else {
        if !carry { carry := xh >= r4; }
        m := 2 * m;
        if carry {
          yl := Or(yl, ip);
          xh := SubWord(xh, r4);
          m := m + 1;
          rem := rem - Times(r4, Pow2(k));
        }
        ip := ip / 2;
        if ip == 0 {
          AllShifted(rem, xh, xl);
          return;
        }
        k := k - 1;
      }
    }
  }

  lemma ZeroRemainder(rem: int, p: int)
    requires p > 0 && Times(rem, p) == 0
    ensures rem == 0
  {}

  lemma Positive(rem: int, p: int, v: int)
    requires p > 0 && v > 0 && Times(rem, p) == v
    ensures rem > 0
  {
    if rem <= 0 { MulLe(rem, 0, p); }
  }

  /** A multiple of 2^(k + 1) is one of every smaller power. */
  lemma LowerBits(m: int, k: nat, k': nat, y: int) returns (m': int)
    requires k' <= k && m >= 0 && y == Times(m, Pow2(k + 1))
    ensures m' >= 0 && y == Times(m', Pow2(k' + 1))
  {
    Pow2Sum(k - k', k' + 1);
    m' := m * Pow2(k - k');
    MulAssoc(m, Pow2(k - k'), Pow2(k' + 1));
    MulLe(0, m, Pow2(k - k'));
  }

  // ----- the routine -----

  lemma QuotientBelow(yl: int, r4: int, xh: int, xl: int, rem: int)
    requires 0 <= yl && 0 <= xh < r4 && IsWord(xl) && rem >= 0 && Times(yl, r4) + rem == xh * WORD + xl
    ensures yl < WORD
  {
    if yl >= WORD {
      MulLe(WORD, yl, r4);
      MulLe(xh + 1, r4, WORD);
    }
  }

  lemma Combine(yh: int, yl: int, r4: int, xh: int, rem: int, xh0: int, xl0: int)
    requires Times(yh, r4) + xh == xh0 && Times(yl, r4) + rem == xh * WORD + xl0
    ensures (yh * WORD + yl) * r4 + rem == xh0 * WORD + xl0
  {
    MulComm(yh * WORD + yl, r4);
    MulSum(r4, yh * WORD, yl);
    MulAssoc(r4, yh, WORD);
    MulComm(r4, yh);
    MulComm(r4, yl);
  }

  /** For every dividend and nonzero divisor the routine ends with the quotient and the remainder; for divisor 0 all
      three results are 0. */
  method DoDiv64(xh0: int, xl0: int, r4: int) returns (yh: int, yl: int, xh: int)
    requires IsWord(xh0) && IsWord(xl0) && IsWord(r4)
    ensures r4 != 0 ==> Divides(xh0, xl0, r4, yh, yl, xh)
    ensures r4 == 0 ==> yh == 0 && yl == 0 && xh == 0
  {
    hide Or, And, Times, Pow2;
    var ip := (r4 - 1) % WORD;
    if r4 <= 1 {
      if ip == 0 { return xh0, xl0, 0; }
      return 0, 0, 0;
    }
    if And(ip, r4) == 0 {
      ghost var k := PowerOfTwoTest(r4);
      Pow2Values();
      Pow2Order(k, 0);
      Pow2Order(0, k);
      Pow2Order(k, 32);
      yh, yl, xh := ShiftDivide(xh0, xl0, r4, k);
      return;
    }
    NotTwo(r4);
    xh := xh0;
    yh := 0;
    TimesFacts(r4);
    if xh >= r4 {
      yh, xh := UpperLoop(xh, r4);
    }
    ghost var top := xh;
    yl, xh := LowerLoop(xh, xl0, r4);
    QuotientBelow(yl, r4, top, xl0, xh);
    Combine(yh, yl, r4, top, xh, xh0, xl0);
  }

  lemma NotTwo(r4: int)
    requires r4 > 1 && And(r4 - 1, r4) != 0
    ensures r4 != 2
  {
    assert And(1, 2) == 0;
  }
}
