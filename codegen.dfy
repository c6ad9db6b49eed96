/** The code generator of src/codegen.rs: a fixed stack-machine program in
    Intel syntax, written one line at a time to standard output. */
module CodeGen {
  import opened Data
  import opened Decimal

  /** Standard output, seen as the sequence of lines printed so far. */
  class Output {
    var lines: seq<string>

    constructor ()
      ensures lines == []
    {
      lines := [];
    }

    /** `println!`: appends one line. */
    method Println(line: string)
      modifies this
      ensures lines == old(lines) + [line]
    {
      lines := lines + [line];
    }
  }

  const Header: seq<string> := [".intel_syntax noprefix", ".global main", "main:"]
  const Footer: seq<string> := ["    pop rax", "    ret"]
  const PushPrefix: string := "    push "

  /** The lines `gen_expr` prints for `expr`. */
  function ExprLines(expr: Expr): (lines: seq<string>)
    ensures |lines| == if expr.Num? then 1 else 0
    ensures forall i :: 0 <= i < |lines| ==> |PushPrefix| < |lines[i]| && lines[i][..|PushPrefix|] == PushPrefix
  {
    match expr
    case Num(val) => [PushPrefix + Render(val)]
    case Other => []
  }

  /** The lines `gen_program` prints for `expr`. */
  function ProgramLines(expr: Expr): (lines: seq<string>)
    ensures |lines| == |Header| + |ExprLines(expr)| + |Footer|
    ensures lines[..|Header|] == Header && lines[|lines| - |Footer|..] == Footer
  {
    Header + ExprLines(expr) + Footer
  }

  method GenProgram(out: Output, expr: Expr)
    modifies out
    ensures out.lines == old(out.lines) + ProgramLines(expr)
  {
    out.Println(".intel_syntax noprefix");
    out.Println(".global main");
    out.Println("main:");
    GenExpr(out, expr);
    out.Println("    pop rax");
    out.Println("    ret");
  }

  method GenExpr(out: Output, expr: Expr)
    modifies out
    ensures out.lines == old(out.lines) + ExprLines(expr)
  {
    match expr {
      case Num(val) => out.Println(PushPrefix + Render(val));
      case _ =>
    }
  }

  /** The program's layout: the three header lines, then the expression's
      code, then `pop rax` and `ret`; six lines for a number, five for any
      other expression. */
  lemma ProgramLayout(expr: Expr)
    ensures var r := ProgramLines(expr);
      |r| >= 5 && r[..3] == Header && r[|r| - 2..] == Footer
      && r[3..|r| - 2] == ExprLines(expr)
      && r[2] == "main:" && r[|r| - 2] == "    pop rax"
      && |r| == (if expr.Num? then 6 else 5)
  {
    var r := ProgramLines(expr);
    assert r[..3] == Header;
    assert r[3..|r| - 2] == ExprLines(expr);
    assert r[|r| - 2..] == Footer;
  }

  /** A number is pushed as `    push ` followed by its decimal digits, and
      reading those digits back gives the number. */
  lemma PushLineOfNum(v: U32)
    ensures var line := ExprLines(Expr.Num(v))[0];
      |line| > |PushPrefix| && line[..|PushPrefix|] == PushPrefix
      && AllDigits(line[|PushPrefix|..]) && DecimalValue(line[|PushPrefix|..]) == v
  {
    var line := PushPrefix + Render(v);
    assert line[..|PushPrefix|] == PushPrefix && line[|PushPrefix|..] == Render(v);
    RenderRoundTrip(v);
  }
}
