/** How the emitted lines behave when assembled and run: the instructions
    the code generator uses (`push <imm>`, `pop rax`, `ret`) on a stack of
    values, with directives and labels doing nothing. The return address
    below the program's own values is not modelled: popping from an empty
    stack is a fault. */
module Machine {
  import opened Data
  import opened Decimal

  datatype Instr = Push(imm: nat) | PopRax | Ret | Directive | Unknown

  /** x86-64 `push imm` takes a 32-bit immediate that is sign-extended to 64
      bits, so the largest number it can push is 2^31 - 1. The assembler
      rejects a larger one. */
  const IMM32_LIMIT := 0x8000_0000

  /** Instructions are indented by four spaces; directives and labels are
      not. A `push` of a number that does not fit a sign-extended 32-bit
      immediate is not an instruction. */
  function Decode(line: string): (r: Instr)
    ensures r.Push? ==> r.imm < IMM32_LIMIT
    ensures r == PopRax <==> line == "    pop rax"
    ensures r == Directive <==> |line| < 4 || line[..4] != "    "
  {
    if |line| < 4 || line[..4] != "    " then Directive
    else if line == "    pop rax" then PopRax
    else if line == "    ret" then Ret
    else if |line| > 9 && line[..9] == "    push " && AllDigits(line[9..])
      && DecimalValue(line[9..]) < IMM32_LIMIT
    then Push(DecimalValue(line[9..]))
    else Unknown
  }

  /** The state at `ret`: the value in `rax` and what is left on the stack. */
  datatype Halt = Halt(rax: int, stack: seq<int>)

  /** Runs `lines` from `stack` and `rax` to the first `ret`. `None` when a
      pop finds the stack empty, an instruction is not understood, or the
      code falls off its end. */
  function Run(lines: seq<string>, stack: seq<int>, rax: int): (r: Option<Halt>)
    ensures r.Some? ==> |r.value.stack| <= |stack| + |lines|
    decreases |lines|
  {
    if lines == [] then None
    else match Decode(lines[0])
      case Directive => Run(lines[1..], stack, rax)
      case Push(n) => Run(lines[1..], stack + [n], rax)
      case PopRax =>
        if stack == [] then None
        else Run(lines[1..], stack[..|stack| - 1], stack[|stack| - 1])
      case Ret => Some(Halt(rax, stack))
      case Unknown => None
  }

  /** A process's exit status is the low byte of `main`'s return value. */
  function ExitCode(rax: int): (code: int)
    ensures 0 <= code < 256
  {
    rax % 256
  }
}
