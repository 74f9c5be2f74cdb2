/** number and skip_atoi of the boot printf: an integer as text, in place. */
module NumberFormat {
  import opened Bits
  import opened Numeral
  import opened Div64

  /** The bits of `type`. */
  datatype Flags = Flags(zeroPad: bool, signed: bool, plus: bool, space: bool, left: bool, special: bool, large: bool)

  const SMALL := "0123456789abcdefghijklmnopqrstuvwxyz"
  const LARGE := "0123456789ABCDEFGHIJKLMNOPQRSTUVWXYZ"

  function DigitSet(large: bool): (s: string)
    ensures |s| == 36 && s[0] == '0'
  {
    if large then LARGE else SMALL
  }

  lemma SmallIs(d: nat)
    requires d < 36
    ensures SMALL[d] == if d < 10 then '0' + d as char else 'a' + (d - 10) as char
  {}

  lemma LargeIs(d: nat)
    requires d < 36
    ensures LARGE[d] == if d < 10 then '0' + d as char else 'A' + (d - 10) as char
  {}

  /** The digits by their codes. */
  lemma DigitIs(d: nat, large: bool)
    requires d < 36
    ensures DigitSet(large)[d] == if d < 10 then '0' + d as char
                                  else if large then 'A' + (d - 10) as char else 'a' + (d - 10) as char
  {
    if large { LargeIs(d); } else { SmallIs(d); }
  }

  function Max(a: int, b: int): int { if a < b then b else a }

  function Abs(x: int): nat { if x < 0 then -x else x }

  function Chars(ds: seq<nat>, large: bool): (s: string)
    requires forall i | 0 <= i < |ds| :: ds[i] < 36
    ensures |s| == |ds|
  {
    seq(|ds|, i requires 0 <= i < |ds| => DigitSet(large)[ds[i]])
  }

  function Repeated(c: char, n: int): (s: string)
    ensures |s| == Max(n, 0)
  {
    seq(Max(n, 0), i => c)
  }

  // ----- the layout -----

  function SignOf(num: int, f: Flags): string {
    if !f.signed then "" else if num < 0 then "-" else if f.plus then "+" else if f.space then " " else ""
  }

  function Prefix(base: int, f: Flags): string {
    if f.special && base == 8 then "0"
    else if f.special && base == 16 then (if f.large then "0X" else "0x")
    else ""
  }

  /** The digits, filled up with zeros to the precision. */
  function Digits(num: int, base: int, precision: int, f: Flags): string
    requires 2 <= base <= 36
  {
    var ds := DigitsOf(Abs(num), base);
    Repeated('0', precision - |ds|) + Chars(ds, f.large)
  }

  /** The field: padding of blanks to the left or the right, or of zeros between prefix and digits. */
  function Text(num: int, base: int, size: int, precision: int, f: Flags): string
    requires 2 <= base <= 36
  {
    var sign, prefix, digits := SignOf(num, f), Prefix(base, f), Digits(num, base, precision, f);
    var pad := size - |sign| - |prefix| - |digits|;
    if f.left then sign + prefix + digits + Repeated(' ', pad)
    else if f.zeroPad then sign + prefix + Repeated('0', pad) + digits
    else Repeated(' ', pad) + sign + prefix + digits
  }

  /** What the digit loop can convert: num is a 32-bit long, and a negative one only with its sign (NumberEnds). */
  predicate Convertible(num: int, f: Flags) { Abs(num) < 0x8000_0000 && (num < 0 ==> f.signed) }

  /** The field is as wide as asked, or as wide as the number needs. */
  lemma TextLength(num: int, base: int, size: int, precision: int, f: Flags)
    requires 2 <= base <= 36
    ensures |Text(num, base, size, precision, f)|
         == Max(size, |SignOf(num, f)| + |Prefix(base, f)| + Max(precision, |DigitsOf(Abs(num), base)|))
  {}

  // ----- the code -----

  /** while (n-- > 0) *str++ = c */
  method Fill(buf: array<char>, str: nat, c: char, n: int) returns (end: nat)
    requires str + Max(n, 0) <= buf.Length
    modifies buf
    ensures end == str + Max(n, 0)
    ensures buf[..end] == old(buf[..str]) + Repeated(c, n)
    ensures forall k | end <= k < buf.Length :: buf[k] == old(buf[k])
  {
    end := str;
    while end - str < n
      invariant str <= end <= str + Max(n, 0)
      invariant buf[..end] == old(buf[..str]) + Repeated(c, end - str)
      invariant forall k | end <= k < buf.Length :: buf[k] == old(buf[k])
    {
      buf[end] := c;
      end := end + 1;
    }
  }

  method Append(buf: array<char>, str: nat, s: string) returns (end: nat)
    requires str + |s| <= buf.Length
    modifies buf
    ensures end == str + |s|
    ensures buf[..end] == old(buf[..str]) + s
    ensures forall k | end <= k < buf.Length :: buf[k] == old(buf[k])
  {
    end := str;
    while end - str < |s|
      invariant str <= end <= str + |s|
      invariant buf[..end] == old(buf[..str]) + s[..end - str]
      invariant forall k | end <= k < buf.Length :: buf[k] == old(buf[k])
    {
      buf[end] := s[end - str];
      end := end + 1;
    }
  }

  // ----- do_div -----

  predicate IsLong(n: int) { -0x8000_0000 <= n < 0x8000_0000 }

  /** The low word of a number as a 32-bit long. */
  function ToLong(n: nat): (l: int)
    ensures IsLong(l)
    ensures n < 0x8000_0000 ==> l == n
  {
    var w := n % WORD;
    if w < 0x8000_0000 then w else w - WORD
  }

  function Quotient(n: nat, base: nat): (q: nat)
    requires base > 0
  {
    DivMod(n, base);
    n / base
  }

  function Remainder(n: nat, base: nat): (r: nat)
    requires base > 0
  {
    n % base
  }

  lemma QuotientIs(n: nat, base: nat, q: nat, r: nat)
    requires n == q * base + r && r < base
    ensures Quotient(n, base) == q && Remainder(n, base) == r
  {
    MulComm(q, base);
    DivisionIs(n, base, q, r);
  }

  /** do_div widens num to an unsigned 64-bit dividend, its sign included. */
  function Widened(num: int): nat
    requires IsLong(num)
  {
    if num < 0 then WORD * WORD + num else num
  }

  /** What do_div leaves in num: the low word of the quotient. */
  function Left(num: int, base: nat): (n: int)
    requires IsLong(num) && base > 0
    ensures IsLong(n)
  {
    ToLong(Quotient(Widened(num), base))
  }

  method DoDiv(num: int, base: int) returns (quotient: int, rem: int)
    requires 2 <= base <= 36 && IsLong(num)
    ensures quotient == Left(num, base) && rem == Remainder(Widened(num), base)
  {
    hide Quotient, Remainder, ToLong, Divides;
    var xh, xl := if num < 0 then WORD - 1 else 0, if num < 0 then WORD + num else num;
    var yh, yl;
    yh, yl, rem := DoDiv64(xh, xl, base);
    DividesIs(xh, xl, base, yh, yl, rem);
    quotient := ToLong(yl);
  }

  lemma DividesIs(xh0: nat, xl0: nat, base: nat, yh: int, yl: int, rem: int)
    requires base > 0 && Divides(xh0, xl0, base, yh, yl, rem)
    ensures rem == Remainder(xh0 * WORD + xl0, base) && yl >= 0
    ensures ToLong(Quotient(xh0 * WORD + xl0, base)) == ToLong(yl)
  {
    var q: nat := yh * WORD + yl;
    assert q * base + rem == xh0 * WORD + xl0;
    LowWord(yh, yl);
    hide *;
    QuotientIs(xh0 * WORD + xl0, base, q, rem);
  }

  lemma LowWord(yh: nat, yl: nat)
    ensures ToLong(yh * WORD + yl) == ToLong(yl)
  {}

  lemma PositiveLeft(num: nat, base: nat)
    requires base >= 2 && 0 < num < 0x8000_0000
    ensures 0 <= Left(num, base) < num
    ensures DigitsOf(num, base) == (if Left(num, base) == 0 then [] else DigitsOf(Left(num, base), base))
                                 + [Remainder(num, base)]
  {
    Shrinks(num, base);
    if num < base { DivisionIs(num, base, 0, num); }
  }

  /** On a positive number it takes the last digit off. */
  lemma DigitStep(num: nat, base: nat, ds: seq<nat>, i: nat)
    requires 2 <= base <= 36 && 0 < num < 0x8000_0000
    requires i < |ds| && ds[..|ds| - i] == DigitsOf(num, base)
    ensures 0 <= Left(num, base) < num && Remainder(num, base) == ds[|ds| - 1 - i] < 36
    ensures if Left(num, base) == 0 then i + 1 == |ds|
            else i + 1 < |ds| && ds[..|ds| - i - 1] == DigitsOf(Left(num, base), base)
  {
    PositiveLeft(num, base);
    hide DigitsOf, Left, Remainder;
    var front := ds[..|ds| - i];
    assert front[|front| - 1] == ds[|ds| - 1 - i] && front[..|front| - 1] == ds[..|ds| - i - 1];
  }

  lemma DigitFacts(num: nat, base: nat, large: bool)
    requires 2 <= base <= 36 && num < 0x8000_0000
    ensures |DigitsOf(num, base)| <= 31
    ensures num == 0 ==> Chars(DigitsOf(num, base), large) == ['0']
  {
    Pow2Values();
    DigitCount(num, base, 31);
    if num == 0 { CharAt([0], large, 0); }
  }

  lemma CharAt(ds: seq<nat>, large: bool, k: nat)
    requires k < |ds| && forall i | 0 <= i < |ds| :: ds[i] < 36
    ensures Chars(ds, large)[k] == DigitSet(large)[ds[k]]
  {}

  /** digits[do_div(num, base)] */
  method NextDigit(num: int, base: int, large: bool, ghost ds: seq<nat>, ghost i: nat) returns (quotient: int, c: char)
    requires 2 <= base <= 36 && 0 < num < 0x8000_0000 && forall k | 0 <= k < |ds| :: ds[k] < 36
    requires i < |ds| && ds[..|ds| - i] == DigitsOf(num, base)
    ensures 0 <= quotient < num && c == Chars(ds, large)[|ds| - 1 - i]
    ensures if quotient == 0 then i + 1 == |ds|
            else i + 1 < |ds| && ds[..|ds| - (i + 1)] == DigitsOf(quotient, base)
  {
    hide DigitsOf, DigitSet, Chars, Left, Remainder;
    var rem;
    quotient, rem := DoDiv(num, base);
    DigitStep(num, base, ds, i);
    CharAt(ds, large, |ds| - 1 - i);
    c := DigitSet(large)[rem];
  }

  /** The digits of num, least significant first, one division each. */
  method DigitLoop(num0: int, base: int, large: bool) returns (tmp: array<char>, i: nat)
    requires 2 <= base <= 36 && 0 <= num0 < 0x8000_0000
    ensures fresh(tmp) && tmp.Length == 66 && i <= 31
    ensures var cs := Chars(DigitsOf(num0, base), large);
            i == |cs| && forall j | 0 <= j < i :: tmp[j] == cs[i - 1 - j]
  {
    tmp := new char[66];
    i := 0;
    ghost var ds := DigitsOf(num0, base);
    ghost var cs := Chars(ds, large);
    DigitFacts(num0, base, large);
    hide DigitsOf, DigitSet, Chars;
    if num0 == 0 {
      tmp[0] := '0';
      return tmp, 1;
    }
    var num := num0;
    assert ds[..|ds|] == ds;
    while num != 0
      invariant 0 <= num < 0x8000_0000 && i <= |ds|
      invariant if num == 0 then i == |ds| else i < |ds| && ds[..|ds| - i] == DigitsOf(num, base)
      invariant forall j | 0 <= j < i :: tmp[j] == cs[|ds| - 1 - j]
      decreases num
    {
      var quotient, c := NextDigit(num, base, large, ds, i);
      tmp[i] := c;
      i := i + 1;
      num := quotient;
    }
  }

  /** What the digit loop starts from: the negation of the least long is itself. */
  function Magnitude(num: int, f: Flags): (m: int)
    requires IsLong(num)
    ensures IsLong(m) && (Convertible(num, f) ==> m == Abs(num))
  {
    if f.signed && num < 0 && num != -0x8000_0000 then -num else num
  }

  /** The sign, the absolute value and the width left for padding and digits. */
  method TakeSign(num0: int, base: int, size0: int, f: Flags) returns (sign: string, num: int, size: int)
    requires IsLong(num0)
    ensures sign == SignOf(num0, f) && num == Magnitude(num0, f)
    ensures size == size0 - |sign| - |Prefix(base, f)|
  {
    sign, num, size := "", num0, size0;
    if f.signed {
      if num < 0 {
        sign, num, size := "-", if num == -0x8000_0000 then num else -num, size - 1;
      } else if f.plus {
        sign, size := "+", size - 1;
      } else if f.space {
        sign, size := " ", size - 1;
      }
    }
    if f.special {
      if base == 16 {
        size := size - 2;
      } else if base == 8 {
        size := size - 1;
      }
    }
  }

  method AppendPrefix(buf: array<char>, str: nat, base: int, f: Flags) returns (end: nat)
    requires str + |Prefix(base, f)| <= buf.Length
    modifies buf
    ensures end == str + |Prefix(base, f)|
    ensures buf[..end] == old(buf[..str]) + Prefix(base, f)
    ensures forall k | end <= k < buf.Length :: buf[k] == old(buf[k])
  {
    end := str;
    if f.special {
      if base == 8 {
        end := Append(buf, str, "0");
      } else if base == 16 {
        end := Append(buf, str, ['0', DigitSet(f.large)[33]]);
      }
    }
  }

  /** while (i-- > 0) *str++ = tmp[i] */
  method AppendReversed(buf: array<char>, str: nat, tmp: array<char>, n: nat, ghost cs: string) returns (end: nat)
    requires buf != tmp && n == |cs| && n <= tmp.Length && str + n <= buf.Length
    requires forall j | 0 <= j < n :: tmp[j] == cs[n - 1 - j]
    modifies buf
    ensures end == str + n
    ensures buf[..end] == old(buf[..str]) + cs
    ensures forall k | end <= k < buf.Length :: buf[k] == old(buf[k])
  {
    end := str;
    var i := n;
    while i > 0
      invariant 0 <= i <= n && end == str + n - i
      invariant buf[..end] == old(buf[..str]) + cs[..n - i]
      invariant forall k | end <= k < buf.Length :: buf[k] == old(buf[k])
    {
      i := i - 1;
      buf[end] := tmp[i];
      end := end + 1;
    }
  }

  /** The seven stretches number writes, in order. */
  ghost function Parts(num: int, base: int, size: int, precision: int, f: Flags): (p: seq<string>)
    requires 2 <= base <= 36
    ensures |p| == 7
  {
    var sign, prefix, cs := SignOf(num, f), Prefix(base, f), Chars(DigitsOf(Abs(num), base), f.large);
    var pad := size - |sign| - |prefix| - Max(precision, |cs|);
    [Repeated(' ', if f.left || f.zeroPad then 0 else pad), sign, prefix,
     Repeated('0', if f.left || !f.zeroPad then 0 else pad), Repeated('0', Max(precision, |cs|) - |cs|), cs,
     Repeated(' ', if f.left then pad else 0)]
  }

  lemma TextIsParts(num: int, base: int, size: int, precision: int, f: Flags)
    requires 2 <= base <= 36
    ensures var p := Parts(num, base, size, precision, f);
            Text(num, base, size, precision, f) == p[0] + p[1] + p[2] + p[3] + p[4] + p[5] + p[6]
  {
    hide Prefix, SignOf, Chars, DigitsOf;
    var p := Parts(num, base, size, precision, f);
    assert p[4] + p[5] == Digits(num, base, precision, f);
    assert f.left ==> p[1] + p[2] + (p[4] + p[5]) + p[6] == p[0] + p[1] + p[2] + p[3] + p[4] + p[5] + p[6];
    assert !f.left ==> p[0] + p[1] + p[2] + p[3] + (p[4] + p[5]) == p[0] + p[1] + p[2] + p[3] + p[4] + p[5] + p[6];
  }

  lemma PartsAre(num: int, base: int, size0: int, precision: int, f: Flags)
    requires 2 <= base <= 36
    ensures var p, i := Parts(num, base, size0, precision, f), |DigitsOf(Abs(num), base)|;
            var size := size0 - |SignOf(num, f)| - |Prefix(base, f)| - Max(precision, i);
            && p[0] == Repeated(' ', if f.left || f.zeroPad then 0 else size)
            && p[1] == SignOf(num, f) && p[2] == Prefix(base, f)
            && p[3] == Repeated('0', if f.left || !f.zeroPad then 0 else size)
            && p[4] == Repeated('0', Max(precision, i) - i) && p[5] == Chars(DigitsOf(Abs(num), base), f.large)
            && p[6] == Repeated(' ', if f.left then size else 0)
  {}

  /** Everything is known and written from left to right. At most one of the paddings is not empty. */
  method WriteField(buf: array<char>, str0: nat, sign: string, base: int, size: int, zeros: nat,
                    tmp: array<char>, i: nat, f: Flags, ghost p: seq<string>) returns (str: nat)
    requires |p| == 7 && buf != tmp && i == |p[5]| <= tmp.Length && forall j | 0 <= j < i :: tmp[j] == p[5][i - 1 - j]
    requires p[0] == Repeated(' ', if f.left || f.zeroPad then 0 else size) && p[1] == sign && p[2] == Prefix(base, f)
    requires p[3] == Repeated('0', if f.left || !f.zeroPad then 0 else size) && p[4] == Repeated('0', zeros)
    requires p[6] == Repeated(' ', if f.left then size else 0)
    requires str0 + |p[0]| + |p[1]| + |p[2]| + |p[3]| + |p[4]| + |p[5]| + |p[6]| <= buf.Length
    modifies buf
    ensures str == str0 + |p[0]| + |p[1]| + |p[2]| + |p[3]| + |p[4]| + |p[5]| + |p[6]| <= buf.Length
    ensures forall k | str <= k < buf.Length :: buf[k] == old(buf[k])
    ensures buf[..str] == old(buf[..str0]) + (p[0] + p[1] + p[2] + p[3] + p[4] + p[5] + p[6])
  {
    hide Prefix, Repeated;
    Regroup(buf[..str0], p);
    str := Fill(buf, str0, ' ', if f.left || f.zeroPad then 0 else size);
    str := Append(buf, str, sign);
    str := AppendPrefix(buf, str, base, f);
    str := Fill(buf, str, '0', if f.left || !f.zeroPad then 0 else size);
    str := Fill(buf, str, '0', zeros);
    str := AppendReversed(buf, str, tmp, i, p[5]);
    str := Fill(buf, str, ' ', if f.left then size else 0);
  }

  lemma Regroup(x: string, p: seq<string>)
    requires |p| == 7
    ensures x + p[0] + p[1] + p[2] + p[3] + p[4] + p[5] + p[6]
         == x + (p[0] + p[1] + p[2] + p[3] + p[4] + p[5] + p[6])
  {}

  ghost function Total(p: seq<string>): nat
    requires |p| == 7
  {
    |p[0]| + |p[1]| + |p[2]| + |p[3]| + |p[4]| + |p[5]| + |p[6]|
  }

  lemma TextLengths(num: int, base: int, size: int, precision: int, f: Flags)
    requires 2 <= base <= 36
    ensures Total(Parts(num, base, size, precision, f)) == |Text(num, base, size, precision, f)|
  {
    hide Parts, Text;
    TextIsParts(num, base, size, precision, f);
  }

  /** The second half of number writes the field, given the first half's results. */
  method WriteText(buf: array<char>, str0: nat, sign: string, base: int, size: int, zeros: nat, tmp: array<char>,
                   i: nat, f: Flags, ghost num0: int, ghost size0: int, ghost precision0: int) returns (str: nat)
    requires 2 <= base <= 36 && buf != tmp && i <= tmp.Length && sign == SignOf(num0, f)
    requires var cs := Chars(DigitsOf(Abs(num0), base), f.large);
             i == |cs| && forall j | 0 <= j < i :: tmp[j] == cs[i - 1 - j]
    requires zeros == Max(precision0, i) - i && size == size0 - |sign| - |Prefix(base, f)| - Max(precision0, i)
    requires str0 + |Text(num0, base, size0, precision0, f)| <= buf.Length
    modifies buf
    ensures str == str0 + |Text(num0, base, size0, precision0, f)|
    ensures buf[..str] == old(buf[..str0]) + Text(num0, base, size0, precision0, f)
    ensures forall k | str <= k < buf.Length :: buf[k] == old(buf[k])
  {
    PartsAre(num0, base, size0, precision0, f);
    TextLengths(num0, base, size0, precision0, f);
    TextIsParts(num0, base, size0, precision0, f);
    hide Text, Parts, SignOf, Prefix, Chars, DigitsOf, Repeated, Abs;
    ghost var p := Parts(num0, base, size0, precision0, f);
    str := WriteField(buf, str0, sign, base, size, zeros, tmp, i, f, p);
  }

  /** number writes the field at `str0` and returns its end; a base outside 2..36 writes nothing and returns null. */
  method Number(buf: array<char>, str0: nat, num0: int, base: int, size0: int, precision0: int, f: Flags)
    returns (ok: bool, str: nat)
    requires Convertible(num0, f)
    requires str0 <= buf.Length
    requires 2 <= base <= 36 ==> str0 + |Text(num0, base, size0, precision0, f)| <= buf.Length
    modifies buf
    ensures ok == (2 <= base <= 36)
    ensures !ok ==> buf[..] == old(buf[..])
    ensures ok ==> str == str0 + |Text(num0, base, size0, precision0, f)|
    ensures ok ==> buf[..str] == old(buf[..str0]) + Text(num0, base, size0, precision0, f)
    ensures ok ==> forall k | str <= k < buf.Length :: buf[k] == old(buf[k])
  {
    if base < 2 || base > 36 { return false, str0; }
    var sign, num, size := TakeSign(num0, base, size0, f);
    hide Text, SignOf, Prefix, Chars, DigitsOf, Abs, Magnitude;
    var tmp, i := DigitLoop(num, base, f.large);
    var precision := precision0;
    if i > precision { precision := i; }
    size := size - precision;
    str := WriteText(buf, str0, sign, base, size, precision - i, tmp, i, f, num0, size0, precision0);
    return true, str;
  }

  predicate IsDigit(c: char) { '0' <= c <= '9' }

  function DigitValue(c: char): nat
    requires IsDigit(c)
  {
    c as int - '0' as int
  }

  predicate AllDigits(s: string) { forall i | 0 <= i < |s| :: IsDigit(s[i]) }

  function DigitValues(s: string): (ds: seq<nat>)
    requires AllDigits(s)
    ensures |ds| == |s|
  {
    seq(|s|, i requires 0 <= i < |s| => DigitValue(s[i]))
  }

  /** skip_atoi reads the longest run of decimal digits. */
  method SkipAtoi(s: string, from: nat) returns (i: nat, to: nat)
    requires from <= |s|
    ensures from <= to <= |s| && AllDigits(s[from..to]) && (to < |s| ==> !IsDigit(s[to]))
    ensures i == Value(DigitValues(s[from..to]), 10)
  {
    i, to := 0, from;
    while to < |s| && IsDigit(s[to])
      invariant from <= to <= |s| && AllDigits(s[from..to])
      invariant i == Value(DigitValues(s[from..to]), 10)
    {
      i := i * 10 + s[to] as int - '0' as int;
      assert s[from..to + 1] == s[from..to] + [s[to]];
      to := to + 1;
      assert DigitValues(s[from..to])[..to - 1 - from] == DigitValues(s[from..to - 1]);
    }
  }

  /** skip_atoi reads back what number writes in base 10 without padding. */
  lemma DecimalText(n: nat, f: Flags)
    ensures var s := Chars(DigitsOf(n, 10), f.large);
            AllDigits(s) && DigitValues(s) == DigitsOf(n, 10) && Value(DigitValues(s), 10) == n
  {
    var ds := DigitsOf(n, 10);
    var s := Chars(ds, f.large);
    forall i | 0 <= i < |s| ensures IsDigit(s[i]) && DigitValue(s[i]) == ds[i] {
      assert ds[i] < 10;
      DigitIs(ds[i], f.large);
    }
    assert DigitValues(s) == ds;
    ValueOfDigits(n, 10);
  }
}
