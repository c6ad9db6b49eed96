/** What the lexer promises, proved about its reference function `Lexed`. */
module LexerLaws {
  import opened Data
  import opened Decimal
  import opened Lexing

  lemma ModMulAdd(a: nat, k: nat, b: nat)
    ensures ((a % U32_MODULUS) * k + b) % U32_MODULUS == (a * k + b) % U32_MODULUS
  {
    var q := a / U32_MODULUS;
    var r := a % U32_MODULUS;
    assert a * k + b == (q * k) * U32_MODULUS + (r * k + b) by {
      assert a == q * U32_MODULUS + r;
    }
  }

  /** The arithmetic of one wrapping step: with `st` the new accumulator,
      `p` the weight of the digit `d` and `v` the value of the digits after
      it, the claim for the rest gives the claim for the whole run. */
  lemma StepMod(num: nat, d: nat, st: nat, p: nat, v: nat, acc: int)
    requires st == (10 * num + d) % U32_MODULUS
    requires acc == (st * p + v) % U32_MODULUS
    ensures acc == (num * (10 * p) + (d * p + v)) % U32_MODULUS
  {
    ModMulAdd(10 * num + d, p, v);
    assert (10 * num + d) * p == num * (10 * p) + d * p;
  }

  /** Folding the wrapping step over a run of digits computes the exact value
      of the digits, appended to the starting value, modulo 2^32. */
  lemma {:induction false} AccumulateIsDecimalMod(num: U32, s: string)
    requires AllDigits(s)
    ensures AccumulateDigits(num, s) == (num * Pow10(|s|) + DecimalValue(s)) % U32_MODULUS
    decreases |s|
  {
    if s != [] {
      var t := s[1..];
      var d := DigitValue(s[0]);
      var p := Pow10(|t|);
      var st := StepDigit(num, s[0]);
      var acc := AccumulateDigits(st, t);
      assert acc == (st * p + DecimalValue(t)) % U32_MODULUS by {
        AccumulateIsDecimalMod(st, t);
      }
      StepMod(num, d, st, p, DecimalValue(t), acc);
      assert Pow10(|s|) == 10 * p;
      assert DecimalValue(s) == d * p + DecimalValue(t);
    }
  }

  /** The value of a `Num` token: the decimal value of its digits modulo
      2^32, which is the exact value whenever that fits in a `u32`. */
  lemma NumValue(s: string)
    requires AllDigits(s)
    ensures AccumulateDigits(0, s) == DecimalValue(s) % U32_MODULUS
    ensures DecimalValue(s) < U32_MODULUS ==> AccumulateDigits(0, s) == DecimalValue(s)
  {
    AccumulateIsDecimalMod(0, s);
    assert 0 * Pow10(|s|) == 0;
  }

  /** The lexer yields no token exactly when the input is all whitespace
      (the empty input included). */
  lemma {:induction false} LexedEmptyIffBlank(s: string)
    ensures Lexed(s) == [] <==> AllWhitespace(s)
    decreases |s|
  {
    if s != [] {
      if IsWhitespace(s[0]) {
        LexedEmptyIffBlank(s[1..]);
        if AllWhitespace(s[1..]) {
          forall i | 0 <= i < |s| ensures IsWhitespace(s[i]) {
            if i > 0 { assert s[i] == s[1..][i - 1]; }
          }
        } else {
          var i :| 0 <= i < |s[1..]| && !IsWhitespace(s[1..][i]);
          assert s[i + 1] == s[1..][i];
        }
      }
    }
  }

  /** The shape of a token list: every token is a `Num` but possibly the
      last, which is a `Num` or a `StrLit`. */
  ghost predicate NumsThenText(r: seq<Token>) {
    (forall i :: 0 <= i < |r| - 1 ==> r[i].Num?)
    && (r != [] ==> r[|r| - 1].Num? || r[|r| - 1].StrLit?)
  }

  /** A closing `StrLit` holds a non-empty suffix of `s` that starts with a
      character that is neither whitespace nor a digit. */
  ghost predicate TextIsRest(s: string, r: seq<Token>) {
    r != [] && r[|r| - 1].StrLit? ==>
      var t := r[|r| - 1].text;
      t != [] && |t| <= |s| && t == s[|s| - |t|..]
      && !IsWhitespace(t[0]) && !IsAsciiDigit(t[0])
  }

  /** Every token is a `Num` but possibly the last, which may be a `StrLit`
      holding all of the input from the first character that is neither
      whitespace nor a digit. */
  lemma {:induction false} LexedShape(s: string)
    ensures NumsThenText(Lexed(s)) && TextIsRest(s, Lexed(s))
    decreases |s|
  {
    if s != [] {
      if IsWhitespace(s[0]) {
        LexedShape(s[1..]);
        TextIsRestOfSuffix(s, 1, Lexed(s[1..]));
      } else if IsAsciiDigit(s[0]) {
        var n := LeadingDigits(s);
        var rest := Lexed(s[n..]);
        LexedShape(s[n..]);
        TextIsRestOfSuffix(s, n, rest);
        var x := Token.Num(AccumulateDigits(0, s[..n]));
        assert Lexed(s) == [x] + rest;
        ConsNum(x, rest);
      }
    }
  }

  lemma ConsNum(x: Token, r: seq<Token>)
    requires x.Num? && NumsThenText(r)
    ensures NumsThenText([x] + r)
  {
    var r' := [x] + r;
    forall i | 0 <= i < |r'| - 1 ensures r'[i].Num? {
      if i > 0 { assert r'[i] == r[i - 1]; }
    }
  }

  lemma TextIsRestOfSuffix(s: string, k: nat, r: seq<Token>)
    requires k <= |s| && TextIsRest(s[k..], r)
    ensures TextIsRest(s, r)
  {
    if r != [] && r[|r| - 1].StrLit? {
      var t := r[|r| - 1].text;
      assert s[k..][|s[k..]| - |t|..] == s[|s| - |t|..];
    }
  }

  /** Leading whitespace is consumed without producing a token. */
  lemma {:induction false} LexedSkipsWhitespace(w: string, s: string)
    requires AllWhitespace(w)
    ensures Lexed(w + s) == Lexed(s)
    decreases |w|
  {
    if w == [] {
      assert w + s == s;
    } else {
      assert (w + s)[0] == w[0] && IsWhitespace(w[0]);
      assert (w + s)[1..] == w[1..] + s;
      LexedSkipsWhitespace(w[1..], s);
    }
  }

  /** A maximal run of digits becomes exactly one `Num` token, followed by
      the tokens of what comes after the run. */
  lemma LexedDigitRun(d: string, s: string)
    requires d != [] && AllDigits(d)
    requires s == [] || !IsAsciiDigit(s[0])
    ensures Lexed(d + s) == [Token.Num(AccumulateDigits(0, d))] + Lexed(s)
  {
    var ds := d + s;
    assert ds[0] == d[0];
    assert !IsWhitespace(d[0]);
    LeadingDigitsOfRun(d, s);
    assert ds[..|d|] == d && ds[|d|..] == s;
  }

  lemma {:induction false} LeadingDigitsOfRun(d: string, s: string)
    requires AllDigits(d)
    requires s == [] || !IsAsciiDigit(s[0])
    ensures LeadingDigits(d + s) == |d|
    decreases |d|
  {
    if d == [] {
      assert d + s == s;
    } else {
      assert (d + s)[1..] == d[1..] + s;
      LeadingDigitsOfRun(d[1..], s);
    }
  }

  /** After any whitespace, the first character that is neither whitespace
      nor a digit ends lexing with one `StrLit` holding all that remains. */
  lemma LexedStopsAtOther(w: string, s: string)
    requires AllWhitespace(w)
    requires s != [] && !IsWhitespace(s[0]) && !IsAsciiDigit(s[0])
    ensures Lexed(w + s) == [StrLit(s)]
  {
    LexedSkipsWhitespace(w, s);
  }

  /** After any mix of whitespace and digits, the first character that is
      neither ends lexing with one `StrLit` holding all that remains, and
      the tokens before it are those of the mix. */
  lemma LexedStopsAfterNumbers(a: string, b: string)
    requires NoOther(a)
    requires b != [] && !IsWhitespace(b[0]) && !IsAsciiDigit(b[0])
    ensures Lexed(a + b) == Lexed(a) + [StrLit(b)]
  {
    LexedAppend(a, b);
    assert [] + b == b;
    LexedStopsAtOther([], b);
  }

  /** Only whitespace and digits: text that lexes without a `StrLit`. */
  predicate NoOther(a: string) {
    forall i :: 0 <= i < |a| ==> IsWhitespace(a[i]) || IsAsciiDigit(a[i])
  }

  /** Lexing splits at any point that no digit run crosses, as long as the
      first part holds only whitespace and digits: the tokens of the whole
      are the tokens of the first part followed by those of the second. */
  lemma {:induction false} LexedAppend(a: string, b: string)
    requires NoOther(a)
    requires a == [] || b == [] || !IsAsciiDigit(a[|a| - 1]) || !IsAsciiDigit(b[0])
    ensures Lexed(a + b) == Lexed(a) + Lexed(b)
    decreases |a|, 1
  {
    if a == [] {
      AppendEmpty(b);
    } else {
      AppendAfterFirst(a, b);
    }
  }

  lemma AppendEmpty(b: string)
    ensures Lexed([] + b) == Lexed([]) + Lexed(b)
  {
    assert [] + b == b;
  }

  /** `LexedAppend` for a non-empty first part: one step of the lexer, then
      the claim for what follows that step. */
  lemma {:induction false} AppendAfterFirst(a: string, b: string)
    requires a != [] && NoOther(a)
    requires b == [] || !IsAsciiDigit(a[|a| - 1]) || !IsAsciiDigit(b[0])
    ensures Lexed(a + b) == Lexed(a) + Lexed(b)
    decreases |a|, 0
  {
    var k := if IsWhitespace(a[0]) then 1 else LeadingDigits(a);
    var t := a[k..];
    assert 0 < k <= |a| by {
      if !IsWhitespace(a[0]) { assert IsAsciiDigit(a[0]); }
    }
    assert Lexed(t + b) == Lexed(t) + Lexed(b) by {
      NoOtherSuffix(a, k);
      if t != [] { assert t[|t| - 1] == a[|a| - 1]; }
      LexedAppend(t, b);
    }
    if IsWhitespace(a[0]) {
      AppendWhitespaceStep(a, b);
    } else {
      AppendDigitStep(a, b);
    }
  }

  /** The whitespace step of `LexedAppend`, given the claim for the rest. */
  lemma AppendWhitespaceStep(a: string, b: string)
    requires a != [] && IsWhitespace(a[0])
    requires Lexed(a[1..] + b) == Lexed(a[1..]) + Lexed(b)
    ensures Lexed(a + b) == Lexed(a) + Lexed(b)
  {
    assert (a + b)[0] == a[0] && (a + b)[1..] == a[1..] + b;
  }

  /** The digit-run step of `LexedAppend`, given the claim for what follows
      the run. */
  lemma AppendDigitStep(a: string, b: string)
    requires a != [] && IsAsciiDigit(a[0])
    requires b == [] || !IsAsciiDigit(a[|a| - 1]) || !IsAsciiDigit(b[0])
    requires var n := LeadingDigits(a); Lexed(a[n..] + b) == Lexed(a[n..]) + Lexed(b)
    ensures Lexed(a + b) == Lexed(a) + Lexed(b)
  {
    var n := LeadingDigits(a);
    var d, rest := a[..n], a[n..];
    var x := Token.Num(AccumulateDigits(0, d));
    assert Lexed(a) == [x] + Lexed(rest) by {
      SplitAt(a, b, n);
      LexedDigitRun(d, rest);
    }
    assert Lexed(a + b) == [x] + Lexed(rest + b) by {
      SplitAt(a, b, n);
      if rest == [] {
        assert IsAsciiDigit(a[|a| - 1]) by { assert d[|a| - 1] == a[|a| - 1]; }
      } else {
        assert (rest + b)[0] == rest[0];
      }
      LexedDigitRun(d, rest + b);
    }
    Associative([x], Lexed(rest), Lexed(b));
  }

  lemma Associative<T>(x: seq<T>, y: seq<T>, z: seq<T>)
    ensures x + (y + z) == (x + y) + z
  {
  }

  lemma SplitAt(a: string, b: string, n: nat)
    requires n <= |a|
    ensures a == a[..n] + a[n..] && a + b == a[..n] + (a[n..] + b)
  {
  }

  lemma NoOtherSuffix(a: string, k: nat)
    requires NoOther(a) && k <= |a|
    ensures NoOther(a[k..])
  {
    forall i | 0 <= i < |a[k..]| ensures IsWhitespace(a[k..][i]) || IsAsciiDigit(a[k..][i]) {
      assert a[k..][i] == a[k + i];
    }
  }

  /** Lexing the decimal rendering of a `u32` gives back that number. */
  lemma LexedRender(v: U32)
    ensures Lexed(Render(v)) == [Token.Num(v)]
  {
    var d := Render(v);
    LexedDigitRun(d, []);
    assert d + [] == d;
    NumValue(d);
    RenderRoundTrip(v);
  }
}
