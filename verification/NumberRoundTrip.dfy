/** simple_strtoul reads back what number wrote. */
module NumberRoundTrip {
  import Bits
  import opened Numeral
  import opened NumberFormat
  import opened NumberParse

  /** Some zeros, the digits of n, some blanks. */
  function Field(n: nat, base: nat, zeros: nat, blanks: nat, large: bool): string
    requires 2 <= base <= 16
  {
    Repeated('0', zeros) + Chars(DigitsOf(n, base), large) + Repeated(' ', blanks)
  }

  lemma DigitReads(d: nat, large: bool)
    requires d < 16
    ensures IsHex(DigitSet(large)[d]) && Weight(DigitSet(large)[d]) == d && !IsX(DigitSet(large)[d])
    ensures DigitSet(large)[d] == '0' <==> d == 0
  {
    DigitIs(d, large);
  }

  /** Zeros and digits, as a run of digits. */
  lemma RunReads(n: nat, base: nat, zeros: nat, large: bool, reading: nat)
    requires 2 <= base <= 16 && 0 < reading
    requires forall d | d in DigitsOf(n, base) :: d < reading
    ensures var t := Repeated('0', zeros) + Chars(DigitsOf(n, base), large);
            AllOf(t, reading) && Weights(t, reading) == Zeros(zeros) + DigitsOf(n, base)
  {
    var ds := DigitsOf(n, base);
    var t := Repeated('0', zeros) + Chars(ds, large);
    forall i | 0 <= i < |t| ensures IsDigitOf(t[i], reading) && Weight(t[i]) == (Zeros(zeros) + ds)[i] {
      if i >= zeros {
        assert ds[i - zeros] in ds;
        DigitReads(ds[i - zeros], large);
      }
    }
  }

  /** Where the run is, and what follows it. */
  lemma FieldRun(pre: string, n: nat, base: nat, zeros: nat, blanks: nat, large: bool)
    requires 2 <= base <= 16
    ensures var s := pre + Field(n, base, zeros, blanks, large);
            var to := |pre| + zeros + |DigitsOf(n, base)|;
            && to <= |s| && s[|pre|..to] == Repeated('0', zeros) + Chars(DigitsOf(n, base), large)
            && (to < |s| ==> !IsDigitOf(s[to], base))
  {
    var s := pre + Field(n, base, zeros, blanks, large);
    var to := |pre| + zeros + |DigitsOf(n, base)|;
    assert to < |s| ==> s[to] == ' ';
    hide DigitsOf;
  }

  /** The scan finds the whole number and nothing else, wherever in the string the field begins. */
  lemma FieldReads(pre: string, n: nat, base: nat, zeros: nat, blanks: nat, large: bool)
    requires 2 <= base <= 16
    ensures var s := pre + Field(n, base, zeros, blanks, large);
            var to := |pre| + zeros + |DigitsOf(n, base)|;
            && End(s, base, |pre|) == to
            && Value(Weights(s[|pre|..to], base), base) == n
  {
    hide Field, Chars, DigitsOf, Repeated, Weights, Value, End, IsHex;
    var ds := DigitsOf(n, base);
    var s := pre + Field(n, base, zeros, blanks, large);
    var to := |pre| + zeros + |ds|;
    FieldRun(pre, n, base, zeros, blanks, large);
    RunReads(n, base, zeros, large, base);
    EndIs(s, base, |pre|, to);
    LeadingZeros(zeros, ds, base);
    ValueOfDigits(n, base);
  }

  // ----- what number writes -----

  /** Nothing stands before the digits but the prefix: no sign, and no blanks to the left. */
  predicate Bare(num: int, base: int, size: int, precision: int, f: Flags)
    requires 2 <= base <= 36
  {
    SignOf(num, f) == "" && num >= 0
    && (f.left || f.zeroPad || size <= |Prefix(base, f)| + |Digits(num, base, precision, f)|)
  }

  /** What the width leaves over. */
  function Over(num: int, base: int, size: int, precision: int, f: Flags): nat
    requires 2 <= base <= 36
  {
    Max(size - |SignOf(num, f)| - |Prefix(base, f)| - Max(precision, |DigitsOf(Abs(num), base)|), 0)
  }

  /** How many zeros the width and the precision put before the digits. */
  function ZerosAdded(num: int, base: int, size: int, precision: int, f: Flags): nat
    requires 2 <= base <= 36
  {
    Max(precision - |DigitsOf(Abs(num), base)|, 0) + if f.zeroPad && !f.left then Over(num, base, size, precision, f) else 0
  }

  lemma RepeatedSum(c: char, a: int, b: nat)
    ensures Repeated(c, a) + Repeated(c, b) == Repeated(c, Max(a, 0) + b)
    ensures Repeated(c, a) == Repeated(c, Max(a, 0))
    ensures a <= 0 ==> Repeated(c, a) == ""
  {}

  lemma Rejoin(p: seq<string>)
    requires |p| == 7
    ensures p[0] + p[1] + p[2] + p[3] + p[4] + p[5] + p[6] == p[0] + (p[1] + (p[2] + ((p[3] + p[4]) + p[5] + p[6])))
  {}

  /** The parts, whatever the flags. */
  lemma PartsFill(num: int, base: int, size: int, precision: int, f: Flags)
    requires 2 <= base <= 16
    ensures var p, over := Parts(num, base, size, precision, f), Over(num, base, size, precision, f);
            && p[0] == Repeated(' ', if f.left || f.zeroPad then 0 else over)
            && p[1] == SignOf(num, f) && p[2] == Prefix(base, f)
            && p[3] + p[4] == Repeated('0', ZerosAdded(num, base, size, precision, f))
            && p[5] == Chars(DigitsOf(Abs(num), base), f.large) && p[6] == Repeated(' ', if f.left then over else 0)
  {
    PartsAre(num, base, size, precision, f);
    var i := |DigitsOf(Abs(num), base)|;
    hide Parts, Chars, DigitsOf, Repeated, Prefix, SignOf, Abs;
    var pad := size - |SignOf(num, f)| - |Prefix(base, f)| - Max(precision, i);
    RepeatedSum('0', if f.left || !f.zeroPad then 0 else pad, Max(precision, i) - i);
    RepeatedSum(' ', if f.left || f.zeroPad then 0 else pad, 0);
    RepeatedSum(' ', if f.left then pad else 0, 0);
  }

  function SplitField(num: int, base: int, size: int, precision: int, f: Flags): string
    requires 2 <= base <= 16
  {
    Field(Abs(num), base, ZerosAdded(num, base, size, precision, f),
          if f.left then Over(num, base, size, precision, f) else 0, f.large)
  }

  /** The whole field, from left to right: blanks if it is neither justified left nor padded with zeros, the sign, the
      prefix, the zeros of the precision and of the padding, the digits, and blanks if it is justified left. */
  lemma TextSplits(num: int, base: int, size: int, precision: int, f: Flags)
    requires 2 <= base <= 16
    ensures Text(num, base, size, precision, f)
         == Repeated(' ', if f.left || f.zeroPad then 0 else Over(num, base, size, precision, f))
          + (SignOf(num, f) + (Prefix(base, f) + SplitField(num, base, size, precision, f)))
  {
    PartsFill(num, base, size, precision, f);
    hide Text, Parts, Chars, DigitsOf, Repeated, Prefix, SignOf, Abs, Over, ZerosAdded;
    TextIsParts(num, base, size, precision, f);
    Rejoin(Parts(num, base, size, precision, f));
  }

  lemma BareText(num: nat, base: int, size: int, precision: int, f: Flags) returns (blanks: nat)
    requires 2 <= base <= 16 && Bare(num, base, size, precision, f)
    ensures Text(num, base, size, precision, f)
         == Prefix(base, f) + Field(num, base, ZerosAdded(num, base, size, precision, f), blanks, f.large)
  {
    hide Bare, Text, Field, Prefix, ZerosAdded, SignOf, Over, DigitsOf;
    blanks := if f.left then Over(num, base, size, precision, f) else 0;
    BareOver(num, base, size, precision, f);
    TextSplits(num, base, size, precision, f);
    assert Repeated(' ', 0) == "";
  }

  lemma BareOver(num: nat, base: int, size: int, precision: int, f: Flags)
    requires 2 <= base <= 16 && Bare(num, base, size, precision, f)
    ensures SignOf(num, f) == "" && Abs(num) == num
    ensures !f.left && !f.zeroPad ==> Over(num, base, size, precision, f) == 0
  {
    hide Chars, DigitsOf, Prefix;
  }

  /** How a field begins. */
  lemma FieldStarts(n: nat, base: nat, zeros: nat, blanks: nat, large: bool)
    requires 2 <= base <= 16
    ensures var s := Field(n, base, zeros, blanks, large);
            s != "" && IsHex(s[0]) && !IsX(s[0]) && !IsX(At(s, 1)) && (s[0] == '0' <==> zeros > 0 || n == 0)
  {
    var ds, s := DigitsOf(n, base), Field(n, base, zeros, blanks, large);
    NoLeadingZero(n, base);
    DigitReads(ds[0], large);
    if zeros == 0 && |ds| > 1 { DigitReads(ds[1], large); }
    assert s[0] == if zeros > 0 then '0' else DigitSet(large)[ds[0]];
    assert At(s, 1) == if zeros > 1 then '0' else if zeros == 1 then DigitSet(large)[ds[0]]
                       else if |ds| > 1 then DigitSet(large)[ds[1]] else if blanks > 0 then ' ' else '\0';
  }

  // ----- round trips -----

  /** The prefix of a hexadecimal number shows its base, and the digits begin after it. */
  lemma HexPrefixed(f: Flags, field: string)
    requires f.special && field != "" && IsHex(field[0])
    ensures var s := Prefix(16, f) + field;
            |Prefix(16, f)| == 2 && GuessBase(s) == 16 && Start(s, 16) == 2
  {
    var s := Prefix(16, f) + field;
    assert s[0] == '0' && IsX(s[1]) && s[2] == field[0];
  }

  /** A field is read back in a base whose digits begin where the field does. */
  lemma ReadsField(pre: string, n: nat, base: nat, zeros: nat, blanks: nat, large: bool)
    requires 2 <= base <= 16 && Start(pre + Field(n, base, zeros, blanks, large), base) == |pre|
    ensures var s := pre + Field(n, base, zeros, blanks, large);
            Read(s, base) == n && (GuessBase(s) == base ==> Read(s, 0) == n)
  {
    hide Field, DigitsOf, Value, Weights, End, GuessBase, Start;
    FieldReads(pre, n, base, zeros, blanks, large);
  }

  /** Hexadecimal with its prefix is recognised and read back, whatever the width, precision and padding. */
  lemma HexReadsBack(num: nat, size: int, precision: int, f: Flags)
    requires f.special && Bare(num, 16, size, precision, f)
    ensures var s := Text(num, 16, size, precision, f); GuessBase(s) == 16 && Read(s, 0) == num && Read(s, 16) == num
  {
    hide Field, Text, DigitsOf, ZerosAdded, Prefix, GuessBase, Start, IsHex, Read;
    var blanks := BareText(num, 16, size, precision, f);
    hide Bare;
    var zeros := ZerosAdded(num, 16, size, precision, f);
    FieldStarts(num, 16, zeros, blanks, f.large);
    HexPrefixed(f, Field(num, 16, zeros, blanks, f.large));
    ReadsField(Prefix(16, f), num, 16, zeros, blanks, f.large);
  }

  lemma OneMoreZero(num: nat, base: nat, zeros: nat, blanks: nat, large: bool)
    requires 2 <= base <= 16
    ensures "0" + Field(num, base, zeros, blanks, large) == Field(num, base, zeros + 1, blanks, large)
  {
    var cs := Chars(DigitsOf(num, base), large);
    assert "0" + Repeated('0', zeros) == Repeated('0', zeros + 1);
    hide Chars, DigitsOf, Repeated;
    assert "0" + (Repeated('0', zeros) + cs + Repeated(' ', blanks))
        == "0" + Repeated('0', zeros) + cs + Repeated(' ', blanks);
  }

  /** Octal with its prefix likewise. */
  lemma OctalReadsBack(num: nat, size: int, precision: int, f: Flags)
    requires f.special && Bare(num, 8, size, precision, f)
    ensures var s := Text(num, 8, size, precision, f); GuessBase(s) == 8 && Read(s, 0) == num && Read(s, 8) == num
  {
    var blanks := BareText(num, 8, size, precision, f);
    var zeros := ZerosAdded(num, 8, size, precision, f);
    OneMoreZero(num, 8, zeros, blanks, f.large);
    var s := Field(num, 8, zeros + 1, blanks, f.large);
    assert "" + s == s && s == Text(num, 8, size, precision, f);
    hide Field, Text, Prefix, DigitsOf, ZerosAdded, Read;
    FieldStarts(num, 8, zeros + 1, blanks, f.large);
    ReadsField("", num, 8, zeros + 1, blanks, f.large);
  }

  /** A number written in base 2 to 16 without a prefix is read back when the base is given. */
  lemma GivenBaseReadsBack(num: nat, base: nat, size: int, precision: int, f: Flags)
    requires 2 <= base <= 16 && !f.special && Bare(num, base, size, precision, f)
    ensures Read(Text(num, base, size, precision, f), base) == num
  {
    var blanks := BareText(num, base, size, precision, f);
    var zeros := ZerosAdded(num, base, size, precision, f);
    var s := Field(num, base, zeros, blanks, f.large);
    assert "" + s == s;
    hide Field, Text, DigitsOf, ZerosAdded, Read, Bare;
    FieldStarts(num, base, zeros, blanks, f.large);
    ReadsField("", num, base, zeros, blanks, f.large);
  }

  /** Decimal digits after a zero are read as octal, up to the first 8 or 9: that gives less than the number. */
  lemma DecimalAsOctal(num: nat, zeros: nat, blanks: nat, large: bool)
    requires zeros > 0
    ensures var s := Field(num, 10, zeros, blanks, large);
            Value(Weights(s[..End(s, 8, 0)], 8), 8) == num <==> num < 8
  {
    var ds, s := DigitsOf(num, 10), Field(num, 10, zeros, blanks, large);
    var j := FirstAbove(ds);
    PrefixReads(s, ds, zeros, blanks, large, j);
    LeadingZeros(zeros, ds[..j], 8);
    ValueOfDigits(num, 10);
    NoLeadingZero(num, 10);
    SmallerBase(ds, j);
    if num < 8 {
      assert ds == [num] && ds[..1] == ds && ds[..1][..0] == [];
    }
  }

  /** The scan in base 8 takes the zeros and the digits below 8. */
  lemma PrefixReads(s: string, ds: seq<nat>, zeros: nat, blanks: nat, large: bool, j: nat)
    requires (forall i | 0 <= i < |ds| :: ds[i] < 10) && j <= |ds|
    requires (forall i | 0 <= i < j :: ds[i] < 8) && (j < |ds| ==> ds[j] >= 8)
    requires s == Repeated('0', zeros) + Chars(ds, large) + Repeated(' ', blanks)
    ensures End(s, 8, 0) == zeros + j
    ensures Weights(s[..End(s, 8, 0)], 8) == Zeros(zeros) + ds[..j]
  {
    var to := zeros + j;
    var t := Repeated('0', zeros) + Chars(ds[..j], large);
    assert s[0..to] == t == s[..to] by { assert Chars(ds, large)[..j] == Chars(ds[..j], large); }
    OctalRun(ds[..j], zeros, large);
    AfterRun(s, ds, zeros, blanks, large, j);
    hide Chars, Repeated, Weights, IsDigitOf, DigitSet;
    EndIs(s, 8, 0, to);
  }

  /** The run it takes. */
  lemma OctalRun(ds: seq<nat>, zeros: nat, large: bool)
    requires forall i | 0 <= i < |ds| :: ds[i] < 8
    ensures var t := Repeated('0', zeros) + Chars(ds, large); AllOf(t, 8) && Weights(t, 8) == Zeros(zeros) + ds
  {
    var t := Repeated('0', zeros) + Chars(ds, large);
    forall i | 0 <= i < |t| ensures IsDigitOf(t[i], 8) && Weight(t[i]) == (Zeros(zeros) + ds)[i] {
      if i >= zeros { DigitReads(ds[i - zeros], large); }
    }
  }

  /** What stops it. */
  lemma AfterRun(s: string, ds: seq<nat>, zeros: nat, blanks: nat, large: bool, j: nat)
    requires (forall i | 0 <= i < |ds| :: ds[i] < 10) && j <= |ds| && (j < |ds| ==> ds[j] >= 8)
    requires s == Repeated('0', zeros) + Chars(ds, large) + Repeated(' ', blanks)
    ensures zeros + j <= |s| && (zeros + j < |s| ==> !IsDigitOf(s[zeros + j], 8))
  {
    var to := zeros + j;
    if j < |ds| {
      DigitReads(ds[j], large);
      assert s[to] == DigitSet(large)[ds[j]];
    } else {
      assert to < |s| ==> s[to] == ' ';
    }
  }

  function FirstAbove(ds: seq<nat>): (j: nat)
    ensures j <= |ds| && (forall i | 0 <= i < j :: ds[i] < 8) && (j < |ds| ==> ds[j] >= 8)
  {
    if ds == [] || ds[0] >= 8 then 0 else 1 + FirstAbove(ds[1..])
  }

  /** A decimal number is read back exactly when nothing put a zero before it, or when it is below 8. */
  lemma DecimalReadsBack(num: nat, size: int, precision: int, f: Flags)
    requires Bare(num, 10, size, precision, f)
    ensures Read(Text(num, 10, size, precision, f), 0) == num
       <==> ZerosAdded(num, 10, size, precision, f) == 0 || num < 8
  {
    var blanks := BareText(num, 10, size, precision, f);
    var zeros := ZerosAdded(num, 10, size, precision, f);
    var s := Field(num, 10, zeros, blanks, f.large);
    assert "" + s == s && s == Text(num, 10, size, precision, f);
    FieldStarts(num, 10, zeros, blanks, f.large);
    if zeros > 0 {
      DecimalAsOctal(num, zeros, blanks, f.large);
      hide Field, End, Weights, Value;
      assert s[0..End(s, 8, 0)] == s[..End(s, 8, 0)];
    } else if num == 0 {
      assert s == Field(0, 8, 0, blanks, f.large);
      FieldReads("", 0, 8, 0, blanks, f.large);
    } else {
      FieldReads("", num, 10, 0, blanks, f.large);
    }
  }

  /** An unsigned long is wide enough for all that number can convert. */
  lemma NothingCut(num: int, f: Flags, modulus: nat)
    requires Convertible(num, f) && num >= 0 && modulus >= 0x1_0000_0000
    ensures Cut(num, modulus) == num
  {
    Bits.DivisionIs(num, modulus, 0, num);
  }

  // ----- signed numbers -----

  /** The text after its leading blanks, a blank for the sign included. */
  function Trimmed(s: string): string {
    if s != "" && s[0] == ' ' then Trimmed(s[1..]) else s
  }

  /** An optional sign and then a number in this base. */
  function ReadSigned(s: string, base: nat): int {
    if s != "" && s[0] == '-' then 0 - Read(s[1..], base)
    else if s != "" && s[0] == '+' then Read(s[1..], base)
    else Read(s, base)
  }

  lemma {:induction false} TrimmedBlanks(n: nat, s: string)
    requires s != "" ==> s[0] != ' '
    ensures Trimmed(Repeated(' ', n) + s) == s
  {
    if n == 0 {
      assert Repeated(' ', 0) + s == s;
    } else {
      var t := Repeated(' ', n) + s;
      assert t[1..] == Repeated(' ', n - 1) + s;
      TrimmedBlanks(n - 1, s);
    }
  }

  /** Prefix and field read in their base. */
  lemma PrefixedReads(n: nat, base: nat, zeros: nat, blanks: nat, f: Flags)
    requires 2 <= base <= 16
    ensures var s := Prefix(base, f) + Field(n, base, zeros, blanks, f.large);
            Read(s, base) == n && s != "" && s[0] != ' ' && s[0] != '-' && s[0] != '+'
  {
    var field := Field(n, base, zeros, blanks, f.large);
    FieldStarts(n, base, zeros, blanks, f.large);
    hide Field, Read;
    if f.special && base == 16 {
      HexPrefixed(f, field);
      ReadsField(Prefix(16, f), n, 16, zeros, blanks, f.large);
    } else if f.special && base == 8 {
      OneMoreZero(n, 8, zeros, blanks, f.large);
      assert "" + Field(n, 8, zeros + 1, blanks, f.large) == Field(n, 8, zeros + 1, blanks, f.large);
      ReadsField("", n, 8, zeros + 1, blanks, f.large);
    } else {
      assert "" + field == field;
      ReadsField("", n, base, zeros, blanks, f.large);
    }
  }

  /** A sign before it, and blanks before that. */
  lemma SignTrimmed(lead: nat, sign: string, s: string)
    requires s != "" && s[0] != ' ' && (sign == "" || sign == "-" || sign == "+" || sign == " ")
    ensures Trimmed(Repeated(' ', lead) + (sign + s)) == if sign == " " then s else sign + s
  {
    if sign == " " {
      assert Repeated(' ', lead) + (" " + s) == Repeated(' ', lead + 1) + s;
      TrimmedBlanks(lead + 1, s);
    } else {
      TrimmedBlanks(lead, sign + s);
    }
  }

  lemma SignRead(sign: string, s: string, base: nat)
    requires s != "" && s[0] != '-' && s[0] != '+' && (sign == "" || sign == "-" || sign == "+")
    ensures ReadSigned(sign + s, base) == if sign == "-" then 0 - Read(s, base) else Read(s, base)
    ensures sign + s != "" && ((sign + s)[0] == '-' <==> sign == "-") && ((sign + s)[0] == '+' <==> sign == "+")
  {
    hide Read;
    assert sign == "" ==> sign + s == s;
    assert sign != "" ==> (sign + s)[1..] == s;
  }

  /** Every number is read back with its sign, in bases 2 to 16, with or without prefix, whatever the width, precision
      and padding. After its leading blanks the field begins with a minus exactly if the number is negative, and with a
      plus exactly if it is not and the plus flag asks for one. */
  lemma SignedReadsBack(num: int, base: nat, size: int, precision: int, f: Flags)
    requires 2 <= base <= 16 && (num < 0 ==> f.signed)
    ensures var t := Trimmed(Text(num, base, size, precision, f));
            && t != "" && ReadSigned(t, base) == num
            && (t[0] == '-' <==> num < 0)
            && (t[0] == '+' <==> num >= 0 && f.signed && f.plus)
  {
    hide Text, Prefix, Field, Read, IsHex, Trimmed, ReadSigned, Repeated, Bare, ZerosAdded, SignOf, Over, DigitsOf;
    SignIs(num, f);
    TextSplits(num, base, size, precision, f);
    var over := Over(num, base, size, precision, f);
    var lead, blanks := if f.left || f.zeroPad then 0 else over, if f.left then over else 0;
    PrefixedReads(Abs(num), base, ZerosAdded(num, base, size, precision, f), blanks, f);
    var s := Prefix(base, f) + SplitField(num, base, size, precision, f);
    SignTrimmed(lead, SignOf(num, f), s);
    SignRead(if SignOf(num, f) == " " then "" else SignOf(num, f), s, base);
    assert "" + s == s;
  }

  lemma SignIs(num: int, f: Flags)
    requires num < 0 ==> f.signed
    ensures var sign := SignOf(num, f); sign == "" || sign == "-" || sign == "+" || sign == " "
    ensures (SignOf(num, f) == "-" <==> num < 0) && (SignOf(num, f) == "+" <==> num >= 0 && f.signed && f.plus)
  {}
}
