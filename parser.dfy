/** The parser of src/parser.rs: a forward index into the token vector and a
    grammar of one number literal. A `panic!` is modelled as `None`. */
module Parsing {
  import opened Data

  /** The expression the parser produces from `tokens`, or `None` where it
      panics: the first token must be a number. */
  function Parsed(tokens: seq<Token>): (r: Option<Expr>)
    ensures r.Some? ==> r.value.Num? && tokens != [] && tokens[0] == Token.Num(r.value.val)
    ensures r != Some(Expr.Other)
  {
    if tokens != [] && tokens[0].Num? then Some(Expr.Num(tokens[0].value)) else None
  }

  class Parser {
    /** The token vector is moved in by `new` and never changed. */
    const tokens: seq<Token>
    /** Index of the next token to read. */
    var pos: nat

    ghost predicate Valid()
      reads this
    {
      pos <= |tokens|
    }

    /** The tokens not yet read. */
    ghost function Remaining(): seq<Token>
      reads this
      requires Valid()
    {
      tokens[pos..]
    }

    constructor (tokens: seq<Token>)
      ensures Valid()
      ensures this.tokens == tokens && pos == 0
    {
      this.tokens := tokens;
      pos := 0;
    }

    /** Bounds-checked read-and-advance. */
    method Next() returns (t: Option<Token>)
      requires Valid()
      modifies this`pos
      ensures Valid()
      ensures old(pos) < |tokens| ==> t == Some(tokens[old(pos)]) && pos == old(pos) + 1
      ensures old(pos) >= |tokens| ==> t == None && pos == old(pos)
    {
      if pos < |tokens| {
        var token := tokens[pos];
        pos := pos + 1;
        return Some(token);
      }
      return None;
    }

    /** Reads one token, which must be a `Num`. */
    method ParseExpr() returns (r: Option<Expr>)
      requires Valid()
      modifies this`pos
      ensures Valid()
      ensures r == Parsed(old(Remaining()))
      ensures pos == if old(pos) < |tokens| then old(pos) + 1 else old(pos)
    {
      var t := Next();
      match t {
        case Some(Num(val)) => return Some(Expr.Num(val));
        case _ => return None;
      }
    }

    method Parse() returns (r: Option<Expr>)
      requires Valid()
      modifies this`pos
      ensures Valid()
      ensures r == Parsed(old(Remaining()))
      ensures pos == if old(pos) < |tokens| then old(pos) + 1 else old(pos)
    {
      r := ParseExpr();
    }
  }

  /** The free `parse` function: a fresh parser over `tokens`. It succeeds
      exactly when the first token is a number, and yields that number. */
  method Parse(tokens: seq<Token>) returns (r: Option<Expr>)
    ensures r.Some? <==> tokens != [] && tokens[0].Num?
    ensures r.Some? ==> r.value == Expr.Num(tokens[0].value)
    ensures r == Parsed(tokens)
  {
    var parser := new Parser(tokens);
    assert parser.Remaining() == tokens;
    r := parser.Parse();
  }

  /** Tokens after the first are never looked at. */
  lemma ParsedIgnoresRest(a: seq<Token>, b: seq<Token>)
    requires a != [] && b != [] && a[0] == b[0]
    ensures Parsed(a) == Parsed(b)
  {
  }
}
