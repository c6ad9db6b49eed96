/** ASCII decimal digits: reading a run of them as a number and writing a
    number as one (the lexer reads, the code generator writes). */
module Decimal {

  predicate IsAsciiDigit(c: char)
    ensures IsAsciiDigit(c) <==> c in "0123456789"
  {
    '0' <= c <= '9'
  }

  predicate AllDigits(s: string) {
    forall i :: 0 <= i < |s| ==> IsAsciiDigit(s[i])
  }

  /** `char::to_digit(10)` on an ASCII digit. */
  function DigitValue(c: char): (d: nat)
    requires IsAsciiDigit(c)
    ensures d < 10
  {
    c as int - '0' as int
  }

  function DigitChar(d: nat): (c: char)
    requires d < 10
    ensures IsAsciiDigit(c) && DigitValue(c) == d
  {
    ('0' as int + d) as char
  }

  function Pow10(n: nat): (p: nat)
    ensures p >= 1
  {
    if n == 0 then 1 else 10 * Pow10(n - 1)
  }

  /** The value of a numeral in positional notation: each digit weighted by
      ten to the power of the number of digits to its right. Unbounded. */
  function DecimalValue(s: string): (v: nat)
    requires AllDigits(s)
  {
    if s == [] then 0 else DigitValue(s[0]) * Pow10(|s| - 1) + DecimalValue(s[1..])
  }

  /** The decimal rendering of a natural number, as Rust's `{}` formatting
      of an unsigned integer writes it. */
  function Render(n: nat): (s: string)
    ensures |s| >= 1 && AllDigits(s)
    ensures |s| > 1 ==> s[0] != '0'
  {
    if n < 10 then [DigitChar(n)] else Render(n / 10) + [DigitChar(n % 10)]
  }

  /** Appending one digit multiplies the value by ten and adds the digit. */
  lemma {:induction false} DecimalValueSnoc(s: string, c: char)
    requires AllDigits(s) && IsAsciiDigit(c)
    ensures AllDigits(s + [c])
    ensures DecimalValue(s + [c]) == 10 * DecimalValue(s) + DigitValue(c)
  {
    if s == [] {
      assert [c][1..] == [];
    } else {
      var t := s[1..];
      assert (s + [c])[1..] == t + [c];
      var rest := DecimalValue(t + [c]);
      assert rest == 10 * DecimalValue(t) + DigitValue(c) by {
        DecimalValueSnoc(t, c);
      }
      ShiftDigit(DigitValue(s[0]), Pow10(|t|), DecimalValue(t), DigitValue(c), rest);
    }
  }

  /** The arithmetic of `DecimalValueSnoc`: a leading digit `d` of weight
      `p` gains a factor of ten when a digit `e` is appended. */
  lemma ShiftDigit(d: nat, p: nat, v: nat, e: nat, rest: nat)
    requires rest == 10 * v + e
    ensures d * (10 * p) + rest == 10 * (d * p + v) + e
  {
  }

  /** Reading back the rendering of a number gives the number. */
  lemma {:induction false} RenderRoundTrip(n: nat)
    ensures DecimalValue(Render(n)) == n
  {
    if n < 10 {
      assert Render(n)[1..] == [];
    } else {
      RenderRoundTrip(n / 10);
      DecimalValueSnoc(Render(n / 10), DigitChar(n % 10));
    }
  }

  /** The rendering is injective: distinct numbers print differently. */
  lemma RenderInjective(m: nat, n: nat)
    requires Render(m) == Render(n)
    ensures m == n
  {
    RenderRoundTrip(m);
    RenderRoundTrip(n);
  }
}
