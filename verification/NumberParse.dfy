/** simple_strtoul, and how it reads what number writes. */
module NumberParse {
  import Bits
  import opened Numeral
  import opened NumberFormat

  /** The character at a place of a C string, whose end reads as NUL. */
  function At(s: string, i: nat): char { if i < |s| then s[i] else '\0' }

  predicate IsHex(c: char) { IsDigit(c) || 'a' <= c <= 'f' || 'A' <= c <= 'F' }

  /** (c | 0x20) == 'x' */
  predicate IsX(c: char) { c == 'x' || c == 'X' }

  /** The weight of a hexadecimal digit; TOLOWER folds its case. */
  function Weight(c: char): nat
    requires IsHex(c)
  {
    if IsDigit(c) then DigitValue(c)
    else if 'a' <= c <= 'f' then c as int - 'a' as int + 10
    else c as int - 'A' as int + 10
  }

  /** A digit of the base; no digit weighs more than 15, so bases above 16 read no more than base 16. */
  predicate IsDigitOf(c: char, base: nat) { IsHex(c) && Weight(c) < base }

  predicate AllOf(s: string, base: nat) { forall i | 0 <= i < |s| :: IsDigitOf(s[i], base) }

  function Weights(s: string, base: nat): (ds: seq<nat>)
    requires AllOf(s, base)
    ensures |ds| == |s|
  {
    seq(|s|, i requires 0 <= i < |s| => Weight(s[i]))
  }

  function GuessBase(s: string): nat {
    if At(s, 0) == '0' then (if IsX(At(s, 1)) && IsHex(At(s, 2)) then 16 else 8) else 10
  }

  function BaseOf(s: string, base: nat): nat { if base == 0 then GuessBase(s) else base }

  /** Where the digits begin. */
  function Start(s: string, base: nat): (from: nat)
    ensures from <= |s|
  {
    if base == 16 && At(s, 0) == '0' && IsX(At(s, 1)) then 2 else 0
  }

  /** Where they end. */
  function End(s: string, base: nat, from: nat): (to: nat)
    requires from <= |s|
    ensures from <= to <= |s| && AllOf(s[from..to], base) && (to < |s| ==> !IsDigitOf(s[to], base))
    decreases |s| - from
  {
    if from < |s| && IsDigitOf(s[from], base) then
      var to := End(s, base, from + 1);
      assert forall i | 0 <= i < to - from :: IsDigitOf(s[from..to][i], base) by {
        forall i | 0 <= i < to - from ensures IsDigitOf(s[from..to][i], base) {
          if i > 0 { assert s[from..to][i] == s[from + 1..to][i - 1]; }
        }
      }
      to
    else from
  }

  /** The number read, before it is cut to the width of an unsigned long. */
  function Read(s: string, base: nat): nat {
    var b := BaseOf(s, base);
    var from := Start(s, b);
    Value(Weights(s[from..End(s, b, from)], b), b)
  }

  lemma EndIs(s: string, base: nat, from: nat, to: nat)
    requires from <= to <= |s| && AllOf(s[from..to], base) && (to < |s| ==> !IsDigitOf(s[to], base))
    ensures End(s, base, from) == to
    decreases |s| - from
  {
    if from < to {
      assert s[from..to][0] == s[from];
      assert s[from + 1..to] == s[from..to][1..];
      EndIs(s, base, from + 1, to);
    }
  }

  lemma {:induction false} ModStep(r: nat, m: nat, base: nat, d: nat)
    requires m > 0
    ensures (r % m * base + d) % m == (r * base + d) % m
  {
    var q := r / m;
    Bits.DivMod(r, m);
    var low := r % m * base + d;
    assert r * base + d == m * (q * base) + low;
    Bits.DivMod(low, m);
    Bits.MulSum(m, q * base, low / m);
    Bits.DivisionIs(r * base + d, m, q * base + low / m, low % m);
  }

  /** Arithmetic of an unsigned long. */
  function Cut(n: nat, modulus: nat): nat
    requires modulus > 0
  {
    n % modulus
  }

  function Push(result: nat, base: nat, value: nat, modulus: nat): nat
    requires modulus > 0
  {
    Cut(result * base + value, modulus)
  }

  /** One more digit. */
  lemma ReadStep(s: string, from: nat, cp: nat, base: nat, modulus: nat)
    requires from <= cp < |s| && AllOf(s[from..cp], base) && IsDigitOf(s[cp], base) && modulus > 0
    ensures AllOf(s[from..cp + 1], base)
    ensures Push(Cut(Value(Weights(s[from..cp], base), base), modulus), base, Weight(s[cp]), modulus)
         == Cut(Value(Weights(s[from..cp + 1], base), base), modulus)
  {
    var before, value := Weights(s[from..cp], base), Weight(s[cp]);
    assert s[from..cp + 1] == s[from..cp] + [s[cp]];
    assert Weights(s[from..cp + 1], base) == before + [value];
    assert (before + [value])[..|before|] == before;
    ModStep(Value(before, base), modulus, base, value);
  }

  /** simple_strtoul. The result wraps at the width of an unsigned long, `modulus`; `endp` is the first character
      that was not read. */
  method SimpleStrtoul(s: string, base0: nat, modulus: nat) returns (result: nat, endp: nat)
    requires modulus > 0
    ensures result == Cut(Read(s, base0), modulus)
    ensures var b := BaseOf(s, base0); endp == End(s, b, Start(s, b))
  {
    hide GuessBase, End;
    var base := base0;
    if base == 0 { base := GuessBase(s); }
    var cp := 0;
    if base == 16 && At(s, 0) == '0' && IsX(At(s, 1)) { cp := 2; }
    ghost var from := cp;
    result := 0;
    assert s[from..cp] == "" && Weights("", base) == [];
    hide Value, Weights, Start, IsHex, Weight, AllOf, Push, Cut;
    while cp < |s| && IsHex(s[cp])
      invariant from <= cp <= |s| && AllOf(s[from..cp], base)
      invariant result == Cut(Value(Weights(s[from..cp], base), base), modulus)
      decreases |s| - cp
    {
      var value := Weight(s[cp]);
      if value >= base { break; }
      ReadStep(s, from, cp, base, modulus);
      result := Push(result, base, value, modulus);
      cp := cp + 1;
    }
    EndIs(s, base, from, cp);
    endp := cp;
  }
}
