/** The Pratt parser (web/src/math/parse.ts). Its state is what is left to read: a token that was peeked
    at and not taken is the front of the rest. */
module Parsing {
  import opened Wrappers
  import E = Expressions
  import opened Tokenizing

  type Expression = E.Expression

  /** The outcome of parsing: an expression, or None for null, and the lexemes left. */
  datatype Parsed = Parsed(expr: Option<Expression>, rest: seq<Lexeme>)

  /** Peeking keeps a token in front but drops a bad lexeme, which can not be held. */
  function AfterPeek(rest: seq<Lexeme>): seq<Lexeme> {
    if rest != [] && rest[0] == Bad then rest[1..] else rest
  }

  /** The binding power of the next token. */
  function NextPower(token: Option<Token>): int {
    match token
    case Some(Symbol(c)) => E.PowerOf(c, false)
    case Some(Number(_)) => E.LITERAL
    case _ => E.MIN
  }

  predicate IsInfixChar(c: char) {
    c == '+' || c == '-' || c == '*' || c == '/' || c == '('
  }

  function SignOf(c: char): Option<E.UnaryOp> {
    if c == '-' then Some(E.Negate) else if c == '+' then Some(E.Positive) else None
  }

  /** What Parser.expression computes. */
  function ParseExpression(rest: seq<Lexeme>, power: int): (p: Parsed)
    ensures |p.rest| <= |rest|
    ensures p.expr.Some? ==> |p.rest| < |rest|
    decreases |rest|, 2
  {
    var left := ParseOperand(rest);
    if left.expr.None? then left else ParseLoop(left.expr.value, left.rest, power)
  }

  /** The operand an expression starts with: a number, or a prefix expression. */
  function ParseOperand(rest: seq<Lexeme>): (p: Parsed)
    ensures |p.rest| <= |rest|
    ensures p.expr.Some? ==> |p.rest| < |rest|
    decreases |rest|, 1
  {
    match FrontToken(rest)
    case None => Parsed(None, AfterToken(rest))
    case Some(Done) => Parsed(None, rest)
    case Some(Number(v)) => Parsed(Some(E.Number(v)), rest[1..])
    case Some(Symbol(c)) =>
      if c == '(' then ParseParens(rest[1..])
      else if SignOf(c).Some? then ParseSigned(SignOf(c).value, rest[1..])
      else Parsed(None, rest[1..])
  }

  /** After an opening paren: an expression and a closing paren. */
  function ParseParens(rest: seq<Lexeme>): (p: Parsed)
    ensures |p.rest| <= |rest|
    decreases |rest|, 3
  {
    var inner := ParseExpression(rest, E.MIN);
    if inner.expr.None? then inner
    else Parsed(if FrontToken(inner.rest) == Some(Symbol(')')) then inner.expr else None, AfterToken(inner.rest))
  }

  /** After a sign: a literal takes it; any other operand, parsed at the highest power, goes under it. */
  function ParseSigned(op: E.UnaryOp, rest: seq<Lexeme>): (p: Parsed)
    ensures |p.rest| <= |rest|
    decreases |rest|, 3
  {
    match FrontToken(rest)
    case Some(Number(v)) => Parsed(Some(E.Number(E.Signed(op, v))), rest[1..])
    case _ =>
      var inner := ParseExpression(AfterPeek(rest), E.MAX);
      if inner.expr.None? then inner else Parsed(Some(E.Unary(op, inner.expr.value)), inner.rest)
  }

  /** The infix loop: extends left while the next token binds tighter than power. */
  function ParseLoop(left: Expression, rest: seq<Lexeme>, power: int): (p: Parsed)
    ensures |p.rest| <= |rest|
    decreases |rest|, 2
  {
    var peeked := AfterPeek(rest);
    if power >= NextPower(FrontToken(rest)) then Parsed(Some(left), peeked)
    else
      match FrontToken(peeked)
      case Some(Number(_)) => Parsed(None, AfterPeek(peeked))
      case Some(Symbol(c)) =>
        if !IsInfixChar(c) then Parsed(Some(left), AfterPeek(peeked))
        else
          LoopOn(ParseInfix(left, c, peeked[1..]), power)
      case _ => Parsed(Some(left), AfterPeek(peeked))
  }

  /** Goes on looping with what was parsed. */
  function LoopOn(parsed: Parsed, power: int): (p: Parsed)
    ensures |p.rest| <= |parsed.rest|
    decreases |parsed.rest|, 3
  {
    if parsed.expr.None? then parsed else ParseLoop(parsed.expr.value, parsed.rest, power)
  }

  /** The right-hand side of an infix symbol; a paren multiplies. */
  function ParseInfix(left: Expression, symbol: char, rest: seq<Lexeme>): (p: Parsed)
    ensures |p.rest| <= |rest|
    decreases |rest|, 4
  {
    if symbol == '(' then
      var inner := ParseParens(rest);
      if inner.expr.None? then inner else Parsed(Some(E.Binary(E.Times, left, inner.expr.value)), inner.rest)
    else
      match E.BinOpOf(symbol)
      case None => Parsed(None, rest)
      case Some(op) =>
        var right := ParseExpression(rest, E.PowerOf(symbol, false));
        if right.expr.None? then right else Parsed(Some(E.Binary(op, left, right.expr.value)), right.rest)
  }

  /** Whether the infix loop ends holding a token it peeked at: a bad lexeme can not be held. */
  predicate LoopHolds(left: Expression, rest: seq<Lexeme>, power: int)
    decreases |rest|
  {
    var peeked := AfterPeek(rest);
    if power >= NextPower(FrontToken(rest)) then FrontToken(rest).Some?
    else
      match FrontToken(peeked)
      case Some(Symbol(c)) =>
        if !IsInfixChar(c) then true
        else
          var parsed := ParseInfix(left, c, peeked[1..]);
          parsed.expr.Some? && LoopHolds(parsed.expr.value, parsed.rest, power)
      case token => token.Some?
  }

  /** Whether Parser.expression ends holding a token. */
  predicate ExpressionHolds(rest: seq<Lexeme>, power: int) {
    var left := ParseOperand(rest);
    left.expr.Some? && LoopHolds(left.expr.value, left.rest, power)
  }

  /** A turn of the loop over an infix symbol goes on with what the symbol makes of left. */
  lemma InfixTurn(left: Expression, rest: seq<Lexeme>, power: int, symbol: char)
    requires power < NextPower(FrontToken(rest))
    requires FrontToken(AfterPeek(rest)) == Some(Symbol(symbol)) && IsInfixChar(symbol)
    ensures var parsed := ParseInfix(left, symbol, AfterToken(AfterPeek(rest)));
            && ParseLoop(left, rest, power) == LoopOn(parsed, power)
            && LoopHolds(left, rest, power) == (parsed.expr.Some? && LoopHolds(parsed.expr.value, parsed.rest, power))
  {
  }

  /** A held token stands in front of what the tokenizer has left; a held end stands for nothing. */
  function Holding(lookahead: Option<Token>, rest: seq<Lexeme>): seq<Lexeme> {
    match lookahead
    case Some(Symbol(c)) => [Sym(c)] + rest
    case Some(Number(v)) => [Num(v)] + rest
    case _ => rest
  }

  lemma HeldInFront(token: Token, rest: seq<Lexeme>)
    ensures token.Done? ==> Holding(Some(token), rest) == rest
    ensures !token.Done? ==> FrontToken(Holding(Some(token), rest)) == Some(token)
                             && AfterToken(Holding(Some(token), rest)) == rest
                             && AfterPeek(Holding(Some(token), rest)) == Holding(Some(token), rest)
  {
  }

  lemma PutBack(rest: seq<Lexeme>)
    ensures FrontToken(rest).Some? ==> Holding(FrontToken(rest), AfterToken(rest)) == rest == AfterPeek(rest)
    ensures FrontToken(rest).None? ==> AfterPeek(rest) == AfterToken(rest)
  {
  }

  class Parser {
    const tokenizer: Tokenizer
    var lookahead: Option<Token>

    constructor (text: string)
      ensures Valid() && fresh(tokenizer)
      ensures tokenizer.text == text && Position() == 0 && Rest() == Lex(text, 0)
    {
      tokenizer := new Tokenizer(text);
      lookahead := None;
    }

    /** The position is one that reading gets to, and a held end of text is at the end of the text. */
    predicate Valid()
      reads this, tokenizer
    {
      && tokenizer.position <= |tokenizer.text| + 1
      && Reaches(tokenizer.text, 0, tokenizer.position)
      && (lookahead == Some(Done) ==> tokenizer.position >= |tokenizer.text|)
    }

    function Position(): nat
      reads this, tokenizer
    {
      tokenizer.position
    }

    /** What is left to read. */
    function Rest(): seq<Lexeme>
      reads this, tokenizer
    {
      Holding(lookahead, tokenizer.Rest())
    }

    method Peek() returns (token: Option<Token>)
      requires Valid()
      modifies this, tokenizer
      ensures Valid() && old(Position()) <= Position()
      ensures token == FrontToken(old(Rest())) && Rest() == AfterPeek(old(Rest()))
      ensures lookahead == token
    {
      if lookahead.None? {
        PutBack(tokenizer.Rest());
        var next := tokenizer.Next();
        if next.None? {
          return None;
        }
        lookahead := next;
      } else {
        HeldInFront(lookahead.value, tokenizer.Rest());
      }
      token := lookahead;
    }

    method Take() returns (token: Option<Token>)
      requires Valid()
      modifies this, tokenizer
      ensures Valid() && old(Position()) <= Position()
      ensures token == FrontToken(old(Rest())) && Rest() == AfterToken(old(Rest()))
    {
      if lookahead.None? {
        token := tokenizer.Next();
      } else {
        HeldInFront(lookahead.value, tokenizer.Rest());
        token := lookahead;
        lookahead := None;
      }
    }

    method NextTokenPower() returns (power: int)
      requires Valid()
      modifies this, tokenizer
      ensures Valid() && old(Position()) <= Position()
      ensures power == NextPower(FrontToken(old(Rest()))) && Rest() == AfterPeek(old(Rest()))
      ensures lookahead.Some? == FrontToken(old(Rest())).Some?
    {
      var nextToken := Peek();
      power := NextPower(nextToken);
    }

    /** Terminates on every text, never moves backwards or more than one past the end, and a result that
        is not null has consumed a token and holds the one after it unless that is bad. */
    method Expression(power: int) returns (expr: Option<E.Expression>)
      requires Valid()
      modifies this, tokenizer
      ensures Valid() && old(Position()) <= Position() <= |tokenizer.text| + 1
      ensures Parsed(expr, Rest()) == ParseExpression(old(Rest()), power)
      ensures expr.Some? ==> |Rest()| < |old(Rest())| && lookahead.Some? == ExpressionHolds(old(Rest()), power)
      decreases |Rest()|, 2
    {
      var operand := Operand();
      if operand.None? {
        return None;
      }
      expr := Extend(operand.value, power);
    }

    /** The infix loop. */
    method Extend(operand: E.Expression, power: int) returns (expr: Option<E.Expression>)
      requires Valid()
      modifies this, tokenizer
      ensures Valid() && old(Position()) <= Position()
      ensures Parsed(expr, Rest()) == ParseLoop(operand, old(Rest()), power)
      ensures expr.Some? ==> lookahead.Some? == LoopHolds(operand, old(Rest()), power)
      decreases |Rest()|, 2
    {
      ghost var start := Rest();
      var left := operand;
      while true
        invariant Valid() && old(Position()) <= Position()
        invariant |Rest()| <= |start|
        invariant ParseLoop(operand, start, power) == ParseLoop(left, Rest(), power)
        invariant LoopHolds(operand, start, power) == LoopHolds(left, Rest(), power)
        decreases |Rest()|
      {
        ghost var rest := Rest();
        var nextPower := NextTokenPower();
        if power >= nextPower {
          break;
        }
        var infixToken := Peek();
        if infixToken.None? || infixToken.value.Done? {
          return Some(left);
        }
        if infixToken.value.Number? {
          return None;
        }
        var symbol := infixToken.value.symbol;
        if !IsInfixChar(symbol) {
          break;
        }
        InfixTurn(left, rest, power, symbol);
        var _ := Take();
        var parsed := Infix(left, symbol);
        if parsed.None? {
          return None;
        }
        left := parsed.value;
      }
      expr := Some(left);
    }

    /** What an expression starts with: a number, or a prefix expression. */
    method Operand() returns (expr: Option<E.Expression>)
      requires Valid()
      modifies this, tokenizer
      ensures Valid() && old(Position()) <= Position()
      ensures Parsed(expr, Rest()) == ParseOperand(old(Rest()))
      decreases |Rest()|, 1
    {
      var current := Take();
      if current.None? || current.value.Done? {
        return None;
      }
      match current.value {
        case Number(v) =>
          expr := Some(E.Number(v));
        case Symbol(c) =>
          expr := Prefix(c);
      }
    }

    /** The prefix parsers: '(', '-' and '+'. */
    method Prefix(symbol: char) returns (expr: Option<E.Expression>)
      requires Valid()
      modifies this, tokenizer
      ensures Valid() && old(Position()) <= Position()
      ensures Parsed(expr, Rest())
           == if symbol == '(' then ParseParens(old(Rest()))
              else if SignOf(symbol).Some? then ParseSigned(SignOf(symbol).value, old(Rest()))
              else Parsed(None, old(Rest()))
      decreases |Rest()|, 4
    {
      if symbol == '(' {
        expr := Parens();
      } else if symbol == '-' || symbol == '+' {
        var op := if symbol == '-' then E.Negate else E.Positive;
        var peeked := Peek();
        if peeked.Some? && peeked.value.Number? {
          var _ := Take();
          return Some(E.Number(E.Signed(op, peeked.value.value)));
        }
        var inner := Expression(E.MAX);
        if inner.None? {
          return None;
        }
        expr := Some(E.Unary(op, inner.value));
      } else {
        expr := None;
      }
    }

    /** An expression and the closing paren after it. */
    method Parens() returns (expr: Option<E.Expression>)
      requires Valid()
      modifies this, tokenizer
      ensures Valid() && old(Position()) <= Position()
      ensures Parsed(expr, Rest()) == ParseParens(old(Rest()))
      decreases |Rest()|, 3
    {
      var inner := Expression(E.MIN);
      if inner.None? {
        return None;
      }
      var ending := Take();
      expr := if ending == Some(Symbol(')')) then inner else None;
    }

    method Infix(left: E.Expression, symbol: char) returns (expr: Option<E.Expression>)
      requires Valid()
      modifies this, tokenizer
      ensures Valid() && old(Position()) <= Position()
      ensures Parsed(expr, Rest()) == ParseInfix(left, symbol, old(Rest()))
      decreases |Rest()|, 4
    {
      if symbol == '(' {
        var inner := Parens();
        return if inner.None? then None else Some(E.Binary(E.Times, left, inner.value));
      }
      var op := E.BinOpOf(symbol);
      if op.None? {
        return None;
      }
      var right := Expression(E.PowerOf(symbol, false));
      expr := if right.None? then None else Some(E.Binary(op.value, left, right.value));
    }
  }
}
