/**
  Fixed-width digit strings, the building block of .NET's custom numeric
  format specifiers used by the model: `yyyy`, `MM`, `fff` (decimal, zero
  padded) and the lower-case hexadecimal groups of `Guid.ToString()`.
 */
module Digits {

  /** base to the power width */
  function Pow(base: nat, width: nat): nat
  {
    if width == 0 then 1 else base * Pow(base, width - 1)
  }

  /** The lower-case digit for 0 <= d < 16. */
  function DigitChar(d: nat): (c: char)
    requires d < 16
    ensures DigitValue(c) == d
  {
    if d < 10 then ('0' as int + d) as char else ('a' as int + d - 10) as char
  }

  /** The value of a digit character; 16 for a character that is not a digit. */
  function DigitValue(c: char): nat
  {
    if '0' <= c <= '9' then c as int - '0' as int
    else if 'a' <= c <= 'f' then c as int - 'a' as int + 10
    else 16
  }

  /** The `width` low-order digits of n in the given base, most significant first, zero padded. */
  function FixedWidth(n: nat, base: nat, width: nat): (s: string)
    requires 2 <= base <= 16
    ensures |s| == width
    ensures forall i :: 0 <= i < |s| ==> DigitValue(s[i]) < base
  {
    if width == 0 then "" else FixedWidth(n / base, base, width - 1) + [DigitChar(n % base)]
  }

  /** The number a digit string denotes (the parsing direction). */
  function ValueOf(s: string, base: nat): nat
  {
    if s == [] then 0 else ValueOf(s[..|s| - 1], base) * base + DigitValue(s[|s| - 1])
  }

  lemma QuotientBound(n: nat, base: nat, p: nat)
    requires base > 0 && n < base * p
    ensures n / base < p
  {
  }

  lemma DivMod(n: nat, base: nat)
    requires base > 0
    ensures (n / base) * base + n % base == n && n % base < base
  {
  }

  lemma ValueOfSnoc(s: string, c: char, base: nat)
    ensures ValueOf(s + [c], base) == ValueOf(s, base) * base + DigitValue(c)
  {
    assert (s + [c])[..|s + [c]| - 1] == s;
  }

  /** The last digit of a fixed-width rendering is the remainder, and the rest renders the quotient. */
  lemma FixedWidthLastDigit(n: nat, base: nat, width: nat)
    requires 2 <= base <= 16 && width > 0
    ensures ValueOf(FixedWidth(n, base, width), base) == ValueOf(FixedWidth(n / base, base, width - 1), base) * base + n % base
  {
    var prefix := FixedWidth(n / base, base, width - 1);
    assert FixedWidth(n, base, width) == prefix + [DigitChar(n % base)];
    ValueOfSnoc(prefix, DigitChar(n % base), base);
  }

  /** Parsing a fixed-width rendering gives the number back, when it fits in the width. */
  lemma {:induction false} ValueOfFixedWidth(n: nat, base: nat, width: nat)
    requires 2 <= base <= 16 && n < Pow(base, width)
    ensures ValueOf(FixedWidth(n, base, width), base) == n
    decreases width
  {
    if width > 0 {
      QuotientBound(n, base, Pow(base, width - 1));
      ValueOfFixedWidth(n / base, base, width - 1);
      FixedWidthLastDigit(n, base, width);
      DivMod(n, base);
    }
  }

  /** Two numbers that fit in the width have the same rendering only if they are equal. */
  lemma FixedWidthInjective(m: nat, n: nat, base: nat, width: nat)
    requires 2 <= base <= 16 && m < Pow(base, width) && n < Pow(base, width)
    requires FixedWidth(m, base, width) == FixedWidth(n, base, width)
    ensures m == n
  {
    ValueOfFixedWidth(m, base, width);
    ValueOfFixedWidth(n, base, width);
  }

  lemma PowersOfTen()
    ensures Pow(10, 2) == 100 && Pow(10, 3) == 1000 && Pow(10, 4) == 10000
  {
    assert Pow(10, 1) == 10;
  }
}
