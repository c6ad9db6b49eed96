/** The values that flow between the three stages of the compiler:
    tokens out of the lexer, expressions out of the parser. */
module Data {

  /** Rust's `u32`: the width of a number token. */
  const U32_MODULUS: int := 0x1_0000_0000
  type U32 = x: int | 0 <= x < U32_MODULUS

  datatype Option<T> = None | Some(value: T)

  datatype KeywordKind = Let | Func

  /** A lexeme. `Ident` and `StrLit` borrow text from the source; here they
      hold a copy of it. */
  datatype Token =
    | Keyword(kind: KeywordKind)
    | Ident(name: string)
    | Num(value: U32)
    | StrLit(text: string)

  /** The expression tree. Only number literals are produced by the parser;
      `Other` stands for every further variant, which the code generator's
      catch-all arm ignores. */
  datatype Expr = Num(val: U32) | Other
}
