# alyth, early pipeline: lexer, parser and code generator in Dafny

This project models the first version of the alyth compiler. It has three
stages, and each stage hands its whole result to the next:

- **Lexer** (`src/lexer.rs`). A cursor `chs` moves forward over the rest of the
  input. Whitespace is skipped. A maximal run of ASCII digits becomes one
  `Num(u32)` token, built up as `10 * num + digit`. The first character that is
  neither whitespace nor a digit ends lexing with one `StrLit` that holds all of
  the remaining input.
- **Parser** (`src/parser.rs`). A token vector and a forward index `pos`.
  `next` reads a token and advances, with a bounds check. `parse_expr` accepts
  exactly one `Num` token and turns it into `Expr::Num`. Anything else panics.
- **Code generator** (`src/codegen.rs`). It prints a fixed stack-machine
  program: three header lines, `push <val>` for a number, then `pop rax` and
  `ret`.

Files and modules:

- `data.dfy` (`Data`): the `Token` and `KeywordKind` enums of `src/data.rs`, and
  `Expr`. `Expr` is `Num(u32)` plus an `Other` case that stands for the
  code generator's catch-all arm. `u32` is the subset type `U32`.
- `decimal.dfy` (`Decimal`): ASCII digits, the exact value of a numeral
  (positional notation), and the decimal rendering that `{val}` prints, with
  its round trip.
- `lexer.dfy` (`Lexing`): the `Lexer` class with its `chs` field, its four
  methods and the free `tokenize`. They are proved against the reference
  function `Lexed`.
- `lexer_laws.dfy` (`LexerLaws`): what the lexer promises, proved about `Lexed`.
- `parser.dfy` (`Parsing`): the `Parser` class (`tokens`, `pos`) and the free
  `parse`. A panic is modelled as `None`.
- `codegen.dfy` (`CodeGen`): `gen_program` and `gen_expr` as methods that append
  lines to an `Output` object, which stands for standard output. They are proved
  against `ProgramLines`.
- `machine.dfy` (`Machine`): a reading of the emitted lines as stack-machine
  instructions (`push <imm>`, `pop rax`, `ret`). With it, "one push matched by
  one pop" and "the program exits with the number" can be stated. x86-64
  `push` takes a sign-extended 32-bit immediate, so a `push` of a number of
  2^31 or more is not an instruction: for such a number no program is built.
- `pipeline.dfy` (`Pipeline`): the emitted program's behaviour, the whole
  pipeline on a whitespace-padded number, and the inputs of `test_expr`.

Decisions:

- **Number accumulation wraps.** `num` is a `u32`, and `10 * num + digit` is
  written without a check. The model wraps modulo 2^32, as a release build
  does. `LexerLaws.NumValue` shows the token's value is the numeral's exact
  value modulo 2^32, so it is exact whenever the numeral is below 2^32.
- **`is_whitespace` is spelled out.** It is Unicode's White_Space property,
  the set that Rust's `char::is_whitespace` tests.
- **Characters, not bytes.** `next_char` slices the input at the byte offset of
  the second character. On a `seq<char>` that is "drop one character".
- **The token vector is a `const` field.** `Parser::new` moves it in and no
  method changes it, so only `pos` is mutable.

The model follows the code as it stands: the lexer returns a plain vector, the
parser panics, and `KeywordKind` is only `Let | Func`.

As written, the source does not compile, so the model takes its evident
meaning:

- `src/parser.rs` imports a `PucntKind` that does not exist.
- `next` moves a `Token` out of a `Vec` although `Token` is not `Copy`.
- `src/main.rs` matches `Ok`/`Err` on a `Vec` and passes two arguments to
  the one-argument `gen_program`.

## Model

| member | source | states |
|---|---|---|
| Decimal.IsAsciiDigit | src/lexer.rs:43 | `is_ascii_digit` holds exactly for the characters `0` to `9` |
| Decimal.DecimalValue | src/lexer.rs:38-53 | the exact value of a numeral in positional notation, unbounded; the reference that the wrapping fold is compared against |
| Decimal.DigitValue | src/lexer.rs:44 | `to_digit(10)` of an ASCII digit is a value below ten |
| Decimal.Render | src/codegen.rs:16 | the `{val}` rendering is a non-empty run of ASCII digits with no leading zero |
| Decimal.RenderRoundTrip | src/codegen.rs:16 | reading back the decimal rendering of a number gives that number |
| Decimal.RenderInjective | src/codegen.rs:16 | different numbers are pushed with different text |
| Lexing.IsWhitespace | src/lexer.rs:22 | `char::is_whitespace`: the Unicode White_Space set, which includes space, tab, newline and carriage return and no digit, so the lexer's whitespace and digit branches never overlap |
| Lexing.StepDigit | src/lexer.rs:44 | one `num = 10 * num + digit` step on a `u32`: congruent to the exact value modulo 2^32, and equal to it when it fits |
| Lexing.AccumulateDigits | src/lexer.rs:39-50 | the fold of that step over a digit run from a start value; its meaning is given by `LexerLaws.AccumulateIsDecimalMod` |
| Lexing.Lexed | src/lexer.rs:19-36 | the token list of an input (skip whitespace, one `Num` per maximal digit run, a final `StrLit` of the rest); it never has more tokens than the input has characters |
| Lexing.LeadingDigits | src/lexer.rs:41-50 | the digit run `read_num` consumes: every character before the returned length is a digit, and the character at it (if any) is not |
| Lexing.Lexer.constructor | src/lexer.rs:15-17 | a new lexer's cursor is the whole input |
| Lexing.Lexer.PeekChar | src/lexer.rs:56-61 | returns the first remaining character, or `None` exactly when the input is exhausted; the cursor does not move |
| Lexing.Lexer.NextChar | src/lexer.rs:63-70 | on non-empty input returns the first character and leaves exactly the suffix after it; on empty input returns `None` and changes nothing |
| Lexing.Lexer.ReadNum | src/lexer.rs:38-54 | consumes exactly the maximal digit run and returns `Num` of the wrapping fold over it; afterwards the input is empty or starts with a non-digit; a leading digit guarantees progress |
| Lexing.Lexer.Tokenize | src/lexer.rs:19-36 | produces `Lexed` of the input; the cursor ends empty, or at the text of the closing `StrLit` |
| Lexing.Tokenize | src/lexer.rs:5-8 | the free `tokenize` yields `Lexed(code)` |
| LexerLaws.AccumulateIsDecimalMod | src/lexer.rs:39-46 | folding `num = 10 * num + digit` in a wrapping `u32` gives `(num * 10^len + value of the digits) mod 2^32` |
| LexerLaws.NumValue | src/lexer.rs:38-53 | a `Num` token's value is the exact decimal value of its digit run modulo 2^32, and exactly that value when it fits |
| LexerLaws.LexedEmptyIffBlank | src/lexer.rs:20-35 | the token list is empty if and only if the input is all whitespace (the empty input included) |
| LexerLaws.LexedSkipsWhitespace | src/lexer.rs:21-25 | leading whitespace is consumed and produces no token |
| LexerLaws.LexedDigitRun | src/lexer.rs:27-30 | a maximal digit run yields exactly one `Num` token, followed by the tokens of the rest |
| LexerLaws.LexedStopsAtOther | src/lexer.rs:32-33 | after whitespace, the first character that is neither whitespace nor a digit yields one `StrLit` with all remaining input, and lexing stops |
| LexerLaws.LexedStopsAfterNumbers | src/lexer.rs:32-33 | after any mix of whitespace and digits, the first other character yields one `StrLit` with all remaining input, after the tokens of the mix |
| LexerLaws.LexedShape | src/lexer.rs:19-36 | every token but the last is a `Num`; a closing `StrLit` is a non-empty suffix of the input starting with a non-whitespace, non-digit character |
| LexerLaws.LexedAppend | src/lexer.rs:19-36 | tokens come out in input order: for a first part of whitespace and digits, with no digit run crossing the split, the tokens of the whole are those of the first part followed by those of the second |
| LexerLaws.LexedRender | src/lexer.rs:38-53 | lexing the decimal rendering of any `u32` gives back exactly that number as one token |
| Parsing.Parsed | src/parser.rs:30-35 | the expression parsed from a token list: when there is one, it is `Expr::Num` and the first token is `Num` of the same value |
| Parsing.Parser.constructor | src/parser.rs:19-24 | a new parser holds the given tokens and starts at `pos = 0` |
| Parsing.Parser.Next | src/parser.rs:37-44 | if `pos < tokens.len()`, returns `tokens[pos]` and advances `pos` by one; otherwise returns `None` and leaves `pos`; `pos <= tokens.len()` is kept |
| Parsing.Parser.ParseExpr | src/parser.rs:30-35 | the result is `Expr::Num(v)` when the next token is `Num(v)` and a panic otherwise; one token is consumed when one is left |
| Parsing.Parser.Parse | src/parser.rs:26-28 | as `ParseExpr`, from the current position |
| Parsing.Parse | src/parser.rs:8-11 | the free `parse` succeeds if and only if the first token is a `Num`, and then yields that number; an empty list or another first token panics |
| Parsing.ParsedIgnoresRest | src/parser.rs:30-35 | the result depends only on the first token |
| CodeGen.Output.Println | src/codegen.rs:6-11 | printing a line appends it to the output |
| CodeGen.ExprLines | src/codegen.rs:14-19 | `gen_expr`'s output: one line beginning `    push ` for a number, none otherwise |
| CodeGen.ProgramLines | src/codegen.rs:5-12 | `gen_program`'s output: the three header lines, the expression's lines, then `pop rax` and `ret` |
| CodeGen.GenExpr | src/codegen.rs:14-19 | appends `    push <val>` for a number and nothing for any other expression |
| CodeGen.GenProgram | src/codegen.rs:5-12 | appends the header, the expression's code and the footer, in that order, and nothing else |
| CodeGen.ProgramLayout | src/codegen.rs:5-12 | the output begins with `.intel_syntax noprefix`, `.global main`, `main:`, ends with `    pop rax`, `    ret`, holds the expression's code strictly between, and has 6 lines for a number and 5 otherwise |
| CodeGen.PushLineOfNum | src/codegen.rs:16 | a number's line is `    push ` followed by decimal digits whose value is the number |
| Machine.Decode | src/codegen.rs:6-18 | how the assembler reads an emitted line: unindented lines are directives or labels, `    pop rax` is the pop, and `push` is an instruction only for an immediate below 2^31 |
| Machine.Run | src/codegen.rs:5-18 | running the decoded lines up to the first `ret`; the stack grows by at most one value per line |
| Machine.ExitCode | src/main.rs:55-58 | a process's exit status is a byte |
| Pipeline.RunNumProgram | src/codegen.rs:5-16 | for a number below 2^31, one push is matched by one pop, the stack is empty at `ret`, and `rax` holds the number; for a larger number the push line is not an instruction and nothing runs |
| Pipeline.RunOtherProgram | src/codegen.rs:17 | for any other expression nothing is pushed, so `pop rax` finds none of the program's own values |
| Pipeline.ExitCodeOfNum | src/main.rs:55-60 | a compiled number below 2^31 exits with the number's low byte; for a larger number no program is built |
| Pipeline.TestExprExitCodes | src/main.rs:39-40 | the programs for `test_expr`'s inputs 1 and 123 exit with status 1 and 123 |
| Pipeline.EndToEnd | src/main.rs:37-41 | any `u32` written in decimal, with whitespace around it, lexes to that one `Num`, parses to `Expr::Num` of it, and its program returns it when it is below 2^31 (for a larger one no program is built) |
| Pipeline.TestExprFrontEnd | src/main.rs:39-40 | `"1  "` lexes to `[Num(1)]` and `" 123"` to `[Num(123)]`, and each parses to that number |
| Pipeline.TestExprPushLine | src/main.rs:40 | the program for 123 pushes it with the line `    push 123` |

## Left out

- `src/main.rs`: `main`, `compile` and the `test_compile` harness. They handle arguments, create files, run the C compiler and run processes. Only the test inputs and expected exit statuses of `test_expr` are used, as lemma cases.
- `src/error.rs`: only `Display` formatting of error values. No code in the modelled files produces them.
- Lexing.AccumulateDigits: wraps modulo 2^32, as a release build does. A debug build would panic on overflow instead, and the model does not capture that.
- Parsing.Parser.ParseExpr: the panic is modelled as a `None` result. Unwinding and the panic message are not modelled.
- Lexing.IsWhitespace: characters are Unicode scalar values. The UTF-8 byte offsets used by `next_char` are not modelled.
- `StrLit` and `Ident` borrow text from the source. Here they hold a copy, so lifetimes and aliasing are not modelled.
- CodeGen.Output.Println: standard output is a sequence of lines. Write failures (which make `println!` panic) are not modelled.
- Machine.Decode: `gen_expr` prints `push <val>` for every `u32`, but x86-64 `push` only takes a sign-extended 32-bit immediate, so for `val` of 2^31 or more the assembler rejects the line. The model reads that line as an unknown instruction, and Pipeline.RunNumProgram, Pipeline.ExitCodeOfNum and Pipeline.EndToEnd state that no program runs then. The assembler's error message is not modelled.
- Machine.Run: only the three instructions the generator emits are given meaning. The return address beneath the program's values is not modelled, so a pop on an empty stack counts as a fault.
