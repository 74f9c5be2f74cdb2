/** For which numbers the digit loop of number ends. */
module NumberEnds {
  import opened Bits
  import opened NumberFormat
  import opened Div64

  /** num after k divisions; the loop ends when one of these is 0. */
  function LeftAfter(num: int, base: nat, k: nat): (n: int)
    requires IsLong(num) && base > 0
    ensures IsLong(n)
  {
    if k == 0 then num else Left(LeftAfter(num, base, k - 1), base)
  }

  ghost predicate Ends(num: int, base: nat)
    requires IsLong(num) && base > 0
  {
    exists k: nat :: LeftAfter(num, base, k) == 0
  }

  /** In these bases the quotient of a negative number loses its sign in the upper word. */
  predicate LosesSign(base: nat)
    requires base > 0
  {
    2 * ((WORD - 1) % base) + 1 < base
  }

  lemma AtLeast(t: nat, base: nat, bound: nat)
    requires base > 0
    ensures Quotient(t, base) >= bound <==> t >= bound * base
  {
    var q := t / base;
    DivMod(t, base);
    MulComm(base, q);
    if q >= bound { MulLe(bound, q, base); } else { MulLe(q + 1, bound, base); }
  }

  /** A negative number widened has all ones in its upper word; what dividing that leaves comes before the lower word
      of the quotient. */
  lemma LowQuotient(num: int, base: nat)
    requires 2 <= base <= 36 && -0x8000_0000 <= num < 0
    ensures var t := (WORD - 1) % base * WORD + num + WORD;
            Quotient(Widened(num), base) % WORD == Quotient(t, base) < WORD
  {
    var r := (WORD - 1) % base;
    var t := r * WORD + num + WORD;
    DivMod(WORD - 1, base);
    hide Quotient;
    Combined(Widened(num), base, (WORD - 1) / base, r, t);
    AtLeast(t, base, WORD);
  }

  lemma Combined(n: nat, base: nat, q: nat, r: nat, t: nat)
    requires base > 0 && base * q + r == WORD - 1 && t >= r * WORD && n == WORD * (WORD - 1) + t - r * WORD
    ensures Quotient(n, base) == q * WORD + Quotient(t, base)
  {
    DivMod(t, base);
    MulSum(base, q * WORD, t / base);
    MulAssoc(base, q, WORD);
    DivisionIs(n, base, q * WORD + t / base, t % base);
  }

  /** So the remainder of the upper word decides the sign of what is left, whatever the number. */
  lemma NegativeLeft(num: int, base: nat)
    requires 2 <= base <= 36 && -0x8000_0000 <= num < 0
    ensures Left(num, base) >= 0 <==> LosesSign(base)
  {
    hide Quotient;
    LowQuotient(num, base);
    AtLeast((WORD - 1) % base * WORD + num + WORD, base, 0x8000_0000);
  }

  /** A number that is not negative is divided down to 0. */
  lemma {:induction false} PositiveEnds(num: nat, base: nat) returns (k: nat)
    requires 2 <= base <= 36 && num < 0x8000_0000
    ensures LeftAfter(num, base, k) == 0
  {
    if num == 0 {
      k := 0;
    } else {
      PositiveLeft(num, base);
      hide Left;
      var rest := PositiveEnds(Left(num, base), base);
      AfterFirst(num, base, rest);
      k := rest + 1;
    }
  }

  lemma {:induction false} AfterFirst(num: int, base: nat, k: nat)
    requires IsLong(num) && base > 0
    ensures LeftAfter(num, base, k + 1) == LeftAfter(Left(num, base), base, k)
  {
    if k > 0 {
      AfterFirst(num, base, k - 1);
    } else {
      assert LeftAfter(num, base, 0) == num;
    }
  }

  lemma {:induction false} StaysNegative(num: int, base: nat, k: nat)
    requires 2 <= base <= 36 && -0x8000_0000 <= num < 0 && !LosesSign(base)
    ensures LeftAfter(num, base, k) < 0
  {
    if k > 0 {
      StaysNegative(num, base, k - 1);
      NegativeLeft(LeftAfter(num, base, k - 1), base);
    }
  }

  /** The digit loop ends exactly when the number is not negative or the base takes the sign from it. */
  lemma EndsExactly(num: int, base: nat)
    requires 2 <= base <= 36 && IsLong(num)
    ensures Ends(num, base) <==> num >= 0 || LosesSign(base)
  {
    if num >= 0 {
      var k := PositiveEnds(num, base);
    } else if LosesSign(base) {
      NegativeLeft(num, base);
      var k := PositiveEnds(Left(num, base), base);
      AfterFirst(num, base, k);
    } else {
      forall k: nat ensures LeftAfter(num, base, k) != 0 { StaysNegative(num, base, k); }
    }
  }

  /** In the bases of the printf directives, 8, 10 and 16, number ends for exactly the numbers it can convert: not for
      an unsigned one from 2^31 on, which arrives as a negative long without the sign flag, nor for the least long. */
  lemma PrintfEnds(num: int, base: nat, f: Flags)
    requires IsLong(num) && (base == 8 || base == 10 || base == 16)
    ensures Ends(Magnitude(num, f), base) <==> Convertible(num, f)
  {
    EndsExactly(Magnitude(num, f), base);
    hide Ends;
  }
}
