/** The lexer of src/lexer.rs: a cursor over the remaining input that skips
    whitespace, turns each maximal run of ASCII digits into a `Num` token and
    stops at the first other character with one `StrLit` holding the rest. */
module Lexing {
  import opened Data
  import opened Decimal

  /** Rust's `char::is_whitespace`: the Unicode White_Space property. */
  predicate IsWhitespace(c: char)
    ensures c == ' ' || c == '\t' || c == '\n' || c == '\r' ==> IsWhitespace(c)
    ensures IsWhitespace(c) ==> !IsAsciiDigit(c)
  {
    var n := c as int;
    (0x09 <= n <= 0x0D) || n == 0x20 || n == 0x85 || n == 0xA0 || n == 0x1680
    || (0x2000 <= n <= 0x200A) || n == 0x2028 || n == 0x2029 || n == 0x202F
    || n == 0x205F || n == 0x3000
  }

  predicate AllWhitespace(s: string) {
    forall i :: 0 <= i < |s| ==> IsWhitespace(s[i])
  }

  /** One step of `num = 10 * num + digit` on a `u32`, wrapping on overflow. */
  function StepDigit(num: U32, c: char): (next: U32)
    requires IsAsciiDigit(c)
    ensures (10 * num + DigitValue(c) - next) % U32_MODULUS == 0
    ensures 10 * num + DigitValue(c) < U32_MODULUS ==> next == 10 * num + DigitValue(c)
  {
    (10 * num + DigitValue(c)) % U32_MODULUS
  }

  /** The left fold of `StepDigit` over a run of digits, from `num`. */
  function AccumulateDigits(num: U32, s: string): (acc: U32)
    requires AllDigits(s)
    decreases |s|
  {
    if s == [] then num else AccumulateDigits(StepDigit(num, s[0]), s[1..])
  }

  /** The length of the maximal run of ASCII digits at the start of `s`. */
  function LeadingDigits(s: string): (n: nat)
    ensures n <= |s|
    ensures AllDigits(s[..n])
    ensures n < |s| ==> !IsAsciiDigit(s[n])
  {
    if s != [] && IsAsciiDigit(s[0]) then 1 + LeadingDigits(s[1..]) else 0
  }

  /** The token sequence the lexer produces for `s`. */
  function Lexed(s: string): (tokens: seq<Token>)
    ensures |tokens| <= |s|
    decreases |s|
  {
    if s == [] then []
    else if IsWhitespace(s[0]) then Lexed(s[1..])
    else if IsAsciiDigit(s[0]) then
      var n := LeadingDigits(s);
      [Token.Num(AccumulateDigits(0, s[..n]))] + Lexed(s[n..])
    else [StrLit(s)]
  }

  class Lexer {
    /** The input not yet consumed. */
    var chs: string

    constructor (code: string)
      ensures chs == code
    {
      chs := code;
    }

    /** The first character of the remaining input, if any; the cursor stays. */
    method PeekChar() returns (r: Option<char>)
      ensures chs == [] <==> r == None
      ensures r.Some? ==> r.value == chs[0]
    {
      if chs != [] {
        return Some(chs[0]);
      }
      return None;
    }

    /** Consumes and returns the first character; on empty input nothing
        changes. */
    method NextChar() returns (r: Option<char>)
      modifies this
      ensures old(chs) == [] <==> r == None
      ensures old(chs) == [] ==> chs == []
      ensures old(chs) != [] ==> r == Some(old(chs)[0]) && chs == old(chs)[1..]
    {
      if chs != [] {
        var c := chs[0];
        chs := chs[1..];
        return Some(c);
      }
      return None;
    }

    /** Consumes the maximal run of digits at the cursor, accumulating its
        value in a wrapping `u32`. */
    method ReadNum() returns (t: Token)
      modifies this
      ensures var n := LeadingDigits(old(chs));
        t == Token.Num(AccumulateDigits(0, old(chs)[..n])) && chs == old(chs)[n..]
      ensures chs == [] || !IsAsciiDigit(chs[0])
      ensures old(chs) != [] && IsAsciiDigit(old(chs)[0]) ==> |chs| < |old(chs)|
    {
      var num: U32 := 0;
      var rest := chs;
      ghost var n := LeadingDigits(chs);
      while true
        invariant |rest| <= |old(chs)| && rest == old(chs)[|old(chs)| - |rest|..]
        invariant |old(chs)| - |rest| + LeadingDigits(rest) == n
        invariant AccumulateDigits(num, rest[..LeadingDigits(rest)])
               == AccumulateDigits(0, old(chs)[..n])
        invariant chs == old(chs)
        decreases |rest|
      {
        if rest != [] && IsAsciiDigit(rest[0]) {
          ghost var k := LeadingDigits(rest);
          assert rest[..k][1..] == rest[1..][..k - 1];
          num := StepDigit(num, rest[0]);
          rest := rest[1..];
        } else {
          chs := rest;
          break;
        }
      }
      t := Token.Num(num);
    }

    /** Lexes the whole remaining input. The cursor ends at the end of the
        input, or at the text of the closing `StrLit`. */
    method Tokenize() returns (tokens: seq<Token>)
      modifies this
      ensures tokens == Lexed(old(chs))
      ensures if tokens != [] && tokens[|tokens| - 1].StrLit?
              then chs == tokens[|tokens| - 1].text
              else chs == []
    {
      tokens := [];
      while true
        invariant tokens + Lexed(chs) == Lexed(old(chs))
        invariant forall i :: 0 <= i < |tokens| ==> tokens[i].Num?
        decreases |chs|
      {
        var c := PeekChar();
        if c.None? {
          break;
        }
        if IsWhitespace(c.value) {
          var _ := NextChar();
          continue;
        }
        if IsAsciiDigit(c.value) {
          var t := ReadNum();
          tokens := tokens + [t];
          continue;
        }
        tokens := tokens + [StrLit(chs)];
        break;
      }
    }
  }

  /** The free `tokenize` function: a fresh lexer over `code`. */
  method Tokenize(code: string) returns (tokens: seq<Token>)
    ensures tokens == Lexed(code)
  {
    var lexer := new Lexer(code);
    tokens := lexer.Tokenize();
  }
}
