/** The three stages run one after the other: properties of the code
    generator's output under the stack machine, and of the whole pipeline. */
module Pipeline {
  import opened Data
  import opened Decimal
  import opened Lexing
  import opened LexerLaws
  import opened Parsing
  import opened CodeGen
  import opened Machine

  /** How each fixed line of the program decodes. */
  lemma DecodeFixedLines()
    ensures forall i :: 0 <= i < |Header| ==> Decode(Header[i]) == Directive
    ensures Decode(Footer[0]) == PopRax && Decode(Footer[1]) == Ret
  {
    forall i | 0 <= i < |Header| ensures Decode(Header[i]) == Directive {
      var line := Header[i];
      assert line[..4][0] == line[0] != ' ';
    }
    var pop, ret := Footer[0], Footer[1];
    assert pop[..4] == "    " && pop == "    pop rax";
    assert ret[..4] == "    " && ret != "    pop rax" && ret == "    ret";
  }

  /** Skipping the header leaves the machine as it was. */
  lemma RunHeader(body: seq<string>, stack: seq<int>, rax: int)
    ensures Run(Header + body, stack, rax) == Run(body, stack, rax)
  {
    DecodeFixedLines();
    var l0 := Header + body;
    assert l0[0] == Header[0] && l0[1..] == Header[1..] + body;
    var l1 := l0[1..];
    assert l1[0] == Header[1] && l1[1..] == Header[2..] + body;
    var l2 := l1[1..];
    assert l2[0] == Header[2] && l2[1..] == body;
    assert Decode(l0[0]) == Directive && Decode(l1[0]) == Directive && Decode(l2[0]) == Directive;
    assert Run(l0, stack, rax) == Run(l1, stack, rax) == Run(l2, stack, rax) == Run(body, stack, rax);
  }

  /** For a number that fits a `push` immediate, the program pushes it,
      pops it into `rax` and returns: one push matched by one pop, so the
      stack is empty at `ret` and the return value is the number. For a
      larger number the push line is not an instruction, so there is no
      program to run. */
  lemma RunNumProgram(v: U32)
    ensures Run(ProgramLines(Expr.Num(v)), [], 0)
      == if v < IMM32_LIMIT then Some(Halt(v, [])) else None
  {
    var push := PushPrefix + Render(v);
    PushLineOfNum(v);
    assert push[..9] == PushPrefix && push[9..] == Render(v);
    DecodeFixedLines();
    var body := [push] + Footer;
    assert ProgramLines(Expr.Num(v)) == Header + body;
    RunHeader(body, [], 0);
    if v < IMM32_LIMIT {
      assert Decode(push) == Push(v);
      assert body[1..] == Footer && Footer[1..] == [Footer[1]];
      assert Run(Footer, [v], 0) == Run([Footer[1]], [], v);
    } else {
      assert Decode(push) == Unknown;
    }
  }

  /** Any other expression emits no code, so `pop rax` finds nothing of the
      program's own on the stack. */
  lemma RunOtherProgram(rax: int)
    ensures Run(ProgramLines(Expr.Other), [], rax) == None
  {
    DecodeFixedLines();
    assert ProgramLines(Expr.Other) == Header + Footer;
    RunHeader(Footer, [], rax);
  }

  /** A number written in decimal, with any whitespace around it, lexes to
      that one number, parses to it and compiles to a program that returns
      it, when it fits a `push` immediate. */
  lemma {:induction false} EndToEnd(w1: string, v: U32, w2: string)
    requires AllWhitespace(w1) && AllWhitespace(w2)
    ensures Lexed(w1 + Render(v) + w2) == [Token.Num(v)]
    ensures Parsed(Lexed(w1 + Render(v) + w2)) == Some(Expr.Num(v))
    ensures Run(ProgramLines(Expr.Num(v)), [], 0)
      == if v < IMM32_LIMIT then Some(Halt(v, [])) else None
  {
    var d := Render(v);
    assert w1 + d + w2 == w1 + (d + w2);
    LexedSkipsWhitespace(w1, d + w2);
    assert w2 == [] || !IsAsciiDigit(w2[0]);
    LexedDigitRun(d, w2);
    NumValue(d);
    RenderRoundTrip(v);
    LexedEmptyIffBlank(w2);
    RunNumProgram(v);
  }

  lemma RenderSmall()
    ensures Render(1) == "1" && Render(123) == "123"
  {
    assert Render(12) == Render(1) + "2";
    assert Render(123) == Render(12) + "3";
  }

  /** The inputs of the repository's `test_expr`, `"1  "` and `" 123"`,
      each lex to one number token and parse to that number. */
  lemma TestExprFrontEnd()
    ensures Lexed("1  ") == [Token.Num(1)] && Parsed(Lexed("1  ")) == Some(Expr.Num(1))
    ensures Lexed(" 123") == [Token.Num(123)] && Parsed(Lexed(" 123")) == Some(Expr.Num(123))
  {
    RenderSmall();
    var one := [] + Render(1) + "  ";
    EndToEnd([], 1, "  ");
    assert one == "1  ";
    var big := " " + Render(123) + [];
    EndToEnd(" ", 123, []);
    assert big == " 123";
  }

  /** The exit status of a compiled number is its low byte, when the number
      fits a `push` immediate; otherwise no program is built. */
  lemma ExitCodeOfNum(v: U32)
    ensures var h := Run(ProgramLines(Expr.Num(v)), [], 0);
      (v < IMM32_LIMIT ==> h.Some? && h.value.rax == v && ExitCode(h.value.rax) == v % 256)
      && (v >= IMM32_LIMIT ==> h.None?)
  {
    RunNumProgram(v);
  }

  /** `test_expr`'s inputs, 1 and 123, exit with status 1 and 123. */
  lemma TestExprExitCodes(one: U32, big: U32)
    requires one == 1 && big == 123
    ensures var h := Run(ProgramLines(Expr.Num(one)), [], 0);
      h.Some? && ExitCode(h.value.rax) == 1
    ensures var h := Run(ProgramLines(Expr.Num(big)), [], 0);
      h.Some? && ExitCode(h.value.rax) == 123
  {
    ExitCodeOfNum(one);
    ExitCodeOfNum(big);
  }

  /** `test_expr`'s second input is pushed as `push 123`. */
  lemma TestExprPushLine()
    ensures ExprLines(Expr.Num(123)) == ["    push 123"]
  {
    RenderSmall();
    assert PushPrefix + Render(123) == "    push 123";
  }
}
