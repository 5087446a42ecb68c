/** The grammar the parser implements, as concrete syntax trees: signs bind tightest, then juxtaposed
    parens, then * and /, then + and -, and every binary form groups to the left. */
module Grammar {
  import opened Wrappers
  import E = Expressions
  import opened Tokenizing
  import opened Parsing

  datatype Tree =
    | Literal(v: real)
    | SignedLiteral(sign: E.UnaryOp, v: real)
    | Under(sign: E.UnaryOp, operand: Tree)
    | Group(inner: Tree)
    | Juxtaposed(left: Tree, inner: Tree)
    | Infix(op: E.BinOp, left: Tree, right: Tree)

  function OpPower(op: E.BinOp): int {
    E.PowerOf(E.OpSymbol(op), false)
  }

  predicate IsAtom(t: Tree) {
    t.Literal? || t.SignedLiteral? || t.Under? || t.Group?
  }

  /** The tree may stand where only operators tighter than a power may. */
  predicate Binds(t: Tree, power: int) {
    match t
    case Infix(op, _, _) => OpPower(op) > power
    case Juxtaposed(_, _) => E.PARENS > power
    case _ => true
  }

  /** The grammar. A left operand may use operators as tight as its own, a right operand only tighter
      ones; a sign in front of a bare literal is part of the literal. */
  predicate WellFormed(t: Tree) {
    match t
    case Literal(_) => true
    case SignedLiteral(_, _) => true
    case Under(_, operand) => WellFormed(operand) && IsAtom(operand) && !operand.Literal?
    case Group(inner) => WellFormed(inner)
    case Juxtaposed(left, inner) => WellFormed(left) && WellFormed(inner) && Binds(left, E.PARENS - 1)
    case Infix(op, left, right) =>
      WellFormed(left) && WellFormed(right) && Binds(left, OpPower(op) - 1) && Binds(right, OpPower(op))
  }

  /** The lexemes a tree spans. */
  function Yield(t: Tree): seq<Lexeme> {
    match t
    case Literal(v) => [Num(v)]
    case SignedLiteral(sign, v) => [Sym(E.SignSymbol(sign)), Num(v)]
    case Under(sign, operand) => [Sym(E.SignSymbol(sign))] + Yield(operand)
    case Group(inner) => [Sym('(')] + Yield(inner) + [Sym(')')]
    case Juxtaposed(left, inner) => Yield(left) + [Sym('(')] + Yield(inner) + [Sym(')')]
    case Infix(op, left, right) => Yield(left) + [Sym(E.OpSymbol(op))] + Yield(right)
  }

  /** The expression a tree stands for. */
  function Meaning(t: Tree): Expression {
    match t
    case Literal(v) => E.Number(v)
    case SignedLiteral(sign, v) => E.Number(E.Signed(sign, v))
    case Under(sign, operand) => E.Unary(sign, Meaning(operand))
    case Group(inner) => Meaning(inner)
    case Juxtaposed(left, inner) => E.Binary(E.Times, Meaning(left), Meaning(inner))
    case Infix(op, left, right) => E.Binary(op, Meaning(left), Meaning(right))
  }

  /** What may follow an expression parsed at a power: the end, a token that binds no tighter, or a
      symbol that is no infix. */
  predicate Stops(rest: seq<Lexeme>, power: int) {
    rest != [] ==>
      match rest[0]
      case Sym(c) => power >= E.PowerOf(c, false) || !IsInfixChar(c)
      case Num(_) => power >= E.LITERAL
      case Bad => false
  }

  /** Lexemes derive an expression at a power. */
  ghost predicate Derives(lexemes: seq<Lexeme>, power: int, e: Expression) {
    exists t :: WellFormed(t) && Binds(t, power) && Yield(t) == lexemes && Meaning(t) == e
  }

  lemma LoopStops(left: Expression, rest: seq<Lexeme>, power: int)
    requires Stops(rest, power)
    ensures ParseLoop(left, rest, power) == Parsed(Some(left), rest)
  {
  }

  lemma {:induction false} YieldStart(t: Tree)
    requires WellFormed(t)
    ensures Yield(t) != [] && Yield(t)[0] != Bad
    ensures IsAtom(t) && !t.Literal? ==> Yield(t)[0].Sym?
  {
    match t
    case Juxtaposed(left, _) => YieldStart(left);
    case Infix(_, left, _) => YieldStart(left);
    case _ =>
  }

  lemma {:induction false} YieldHasNoBad(t: Tree)
    ensures Bad !in Yield(t)
  {
    match t
    case Under(_, operand) => YieldHasNoBad(operand);
    case Group(inner) => YieldHasNoBad(inner);
    case Juxtaposed(left, inner) => YieldHasNoBad(left); YieldHasNoBad(inner);
    case Infix(_, left, right) => YieldHasNoBad(left); YieldHasNoBad(right);
    case _ =>
  }

  // ---- Completeness ----

  /** In front of anything but a bad lexeme, the parser reads an atom as its operand. */
  lemma {:induction false} AtomParsed(t: Tree, s: seq<Lexeme>)
    requires WellFormed(t) && IsAtom(t) && (s != [] ==> s[0] != Bad)
    ensures ParseOperand(Yield(t) + s) == Parsed(Some(Meaning(t)), s)
    decreases t, 0
  {
    match t
    case Literal(v) =>
      assert (Yield(t) + s)[1..] == s;
    case SignedLiteral(sign, v) =>
      SignedLiteralParsed(sign, v, s);
    case Under(sign, operand) =>
      UnderParsed(sign, operand, s);
      SignParsed(sign, Yield(operand), s);
    case Group(inner) =>
      ParensParsed(inner, s);
      GroupParsed(Yield(inner), s);
  }

  lemma SignedLiteralParsed(sign: E.UnaryOp, v: real, s: seq<Lexeme>)
    ensures ParseOperand([Sym(E.SignSymbol(sign)), Num(v)] + s) == Parsed(Some(E.Number(E.Signed(sign, v))), s)
  {
    var all := [Sym(E.SignSymbol(sign)), Num(v)] + s;
    assert all[1..] == [Num(v)] + s && all[1..][1..] == s;
  }

  lemma SignParsed(sign: E.UnaryOp, operand: seq<Lexeme>, s: seq<Lexeme>)
    ensures ParseOperand([Sym(E.SignSymbol(sign))] + operand + s) == ParseSigned(sign, operand + s)
  {
    assert ([Sym(E.SignSymbol(sign))] + operand + s)[1..] == operand + s;
  }

  lemma GroupParsed(inner: seq<Lexeme>, s: seq<Lexeme>)
    ensures ParseOperand([Sym('(')] + inner + [Sym(')')] + s) == ParseParens(inner + ([Sym(')')] + s))
  {
    assert ([Sym('(')] + inner + [Sym(')')] + s)[1..] == inner + ([Sym(')')] + s);
  }

  lemma {:induction false} UnderParsed(sign: E.UnaryOp, operand: Tree, s: seq<Lexeme>)
    requires WellFormed(operand) && IsAtom(operand) && !operand.Literal? && (s != [] ==> s[0] != Bad)
    ensures ParseSigned(sign, Yield(operand) + s) == Parsed(Some(E.Unary(sign, Meaning(operand))), s)
    decreases operand, 2
  {
    YieldStart(operand);
    assert (Yield(operand) + s)[0] == Yield(operand)[0];
    TreeParsed(operand, s, E.MAX);
    LoopStops(Meaning(operand), s, E.MAX);
  }

  lemma {:induction false} ParensParsed(inner: Tree, s: seq<Lexeme>)
    requires WellFormed(inner)
    ensures ParseParens(Yield(inner) + ([Sym(')')] + s)) == Parsed(Some(Meaning(inner)), s)
    decreases inner, 2
  {
    var tail := [Sym(')')] + s;
    assert tail[0] == Sym(')') && tail[1..] == s;
    TreeParsed(inner, tail, E.MIN);
    LoopStops(Meaning(inner), tail, E.MIN);
  }

  /** One turn of the loop over a juxtaposed paren. */
  lemma LoopTakesParens(left: Expression, tail: seq<Lexeme>, power: int)
    requires power < E.PARENS && ParseParens(tail).expr.Some?
    ensures ParseLoop(left, [Sym('(')] + tail, power)
         == ParseLoop(E.Binary(E.Times, left, ParseParens(tail).expr.value), ParseParens(tail).rest, power)
  {
    assert ([Sym('(')] + tail)[1..] == tail;
  }

  /** One turn of the loop over an operator. */
  lemma LoopTakesOperator(left: Expression, op: E.BinOp, tail: seq<Lexeme>, power: int, right: Parsed)
    requires power < OpPower(op) && right == ParseExpression(tail, OpPower(op)) && right.expr.Some?
    ensures ParseLoop(left, [Sym(E.OpSymbol(op))] + tail, power)
         == ParseLoop(E.Binary(op, left, right.expr.value), right.rest, power)
  {
    assert ([Sym(E.OpSymbol(op))] + tail)[1..] == tail;
  }

  lemma OperatorStops(left: Tree, op: E.BinOp, tail: seq<Lexeme>)
    requires left.Infix? && Binds(left, OpPower(op) - 1)
    ensures Stops([Sym(E.OpSymbol(op))] + tail, OpPower(left.op))
  {
  }

  /** The parser reads a tree and goes on looping with what it stands for, when an infix tree is
      followed by something that does not bind tighter than its operator. */
  lemma {:induction false} TreeParsed(t: Tree, s: seq<Lexeme>, power: int)
    requires WellFormed(t) && Binds(t, power) && (s != [] ==> s[0] != Bad)
    requires t.Infix? ==> Stops(s, OpPower(t.op))
    ensures ParseExpression(Yield(t) + s, power) == ParseLoop(Meaning(t), s, power)
    decreases t, 1
  {
    if t.Juxtaposed? {
      JuxtaposedParsed(t.left, t.inner, s, power);
    } else if t.Infix? {
      InfixParsed(t.op, t.left, t.right, s, power);
    } else {
      AtomParsed(t, s);
    }
  }

  lemma {:induction false} JuxtaposedParsed(left: Tree, inner: Tree, s: seq<Lexeme>, power: int)
    requires WellFormed(Juxtaposed(left, inner)) && power < E.PARENS
    ensures ParseExpression(Yield(Juxtaposed(left, inner)) + s, power)
         == ParseLoop(Meaning(Juxtaposed(left, inner)), s, power)
    decreases Juxtaposed(left, inner), 0
  {
    var tail := Yield(inner) + ([Sym(')')] + s);
    assert Yield(Juxtaposed(left, inner)) + s == Yield(left) + ([Sym('(')] + tail);
    TreeParsed(left, [Sym('(')] + tail, power);
    ParensParsed(inner, s);
    LoopTakesParens(Meaning(left), tail, power);
  }

  lemma {:induction false} InfixParsed(op: E.BinOp, left: Tree, right: Tree, s: seq<Lexeme>, power: int)
    requires WellFormed(Infix(op, left, right)) && power < OpPower(op) && Stops(s, OpPower(op))
    ensures ParseExpression(Yield(Infix(op, left, right)) + s, power)
         == ParseLoop(Meaning(Infix(op, left, right)), s, power)
    decreases Infix(op, left, right), 0
  {
    var tail := Yield(right) + s;
    assert Yield(Infix(op, left, right)) + s == Yield(left) + ([Sym(E.OpSymbol(op))] + tail);
    if left.Infix? {
      OperatorStops(left, op, tail);
    }
    TreeParsed(left, [Sym(E.OpSymbol(op))] + tail, power);
    if right.Infix? {
      StopsMonotone(s, OpPower(op), OpPower(right.op));
    }
    TreeParsed(right, s, OpPower(op));
    LoopStops(Meaning(right), s, OpPower(op));
    LoopTakesOperator(Meaning(left), op, tail, power, Parsed(Some(Meaning(right)), s));
  }

  lemma StopsMonotone(rest: seq<Lexeme>, power: int, tighter: int)
    requires Stops(rest, power) && power <= tighter
    ensures Stops(rest, tighter)
  {
  }

  // ---- Soundness ----

  /** An operand the parser reads is an atom. */
  lemma {:induction false} OperandDerived(lexemes: seq<Lexeme>) returns (t: Tree)
    requires Bad !in lexemes && ParseOperand(lexemes).expr.Some?
    ensures WellFormed(t) && IsAtom(t)
    ensures ParseOperand(lexemes).expr == Some(Meaning(t))
    ensures lexemes == Yield(t) + ParseOperand(lexemes).rest
    decreases |lexemes|, 0
  {
    var tail := lexemes[1..];
    match lexemes[0]
    case Num(v) =>
      t := Literal(v);
    case Sym(c) =>
      if c == '(' {
        var inner := ParensDerived(tail);
        t := Group(inner);
      } else if tail != [] && tail[0].Num? {
        t := SignedLiteral(SignOf(c).value, tail[0].v);
        assert lexemes == Yield(t) + tail[1..];
      } else {
        assert tail != [] ==> tail[0] in lexemes;
        var operand := ExpressionDerived(tail, E.MAX);
        YieldStart(operand);
        assert Yield(operand)[0] == tail[0];
        t := Under(SignOf(c).value, operand);
      }
  }

  lemma {:induction false} ParensDerived(lexemes: seq<Lexeme>) returns (inner: Tree)
    requires Bad !in lexemes && ParseParens(lexemes).expr.Some?
    ensures WellFormed(inner)
    ensures ParseParens(lexemes).expr == Some(Meaning(inner))
    ensures lexemes == Yield(inner) + [Sym(')')] + ParseParens(lexemes).rest
    decreases |lexemes|, 2
  {
    inner := ExpressionDerived(lexemes, E.MIN);
    var rest := ParseExpression(lexemes, E.MIN).rest;
    assert rest == [rest[0]] + rest[1..];
  }

  /** A turn of the loop takes a paren or an operator that binds tighter than the power, and reads
      something after it. */
  lemma TurnTaken(left: Expression, lexemes: seq<Lexeme>, power: int)
    requires lexemes != [] && lexemes[0] != Bad && !Stops(lexemes, power)
    requires ParseLoop(left, lexemes, power).expr.Some?
    ensures lexemes[0].Sym?
    ensures lexemes[0].c == '(' ==> power < E.PARENS && ParseParens(lexemes[1..]).expr.Some?
    ensures lexemes[0].c != '(' ==>
      match E.BinOpOf(lexemes[0].c)
      case None => false
      case Some(op) => power < OpPower(op) && lexemes[0].c == E.OpSymbol(op) && ParseExpression(lexemes[1..], OpPower(op)).expr.Some?
  {
  }

  /** What one turn of the loop makes of the tree read so far: a larger tree over more lexemes. */
  lemma {:induction false} TurnDerived(left: Tree, lexemes: seq<Lexeme>, power: int) returns (next: Tree, rest: seq<Lexeme>)
    requires Bad !in lexemes && WellFormed(left) && Binds(left, power) && !Stops(lexemes, power)
    requires left.Infix? ==> Stops(lexemes, OpPower(left.op))
    requires ParseLoop(Meaning(left), lexemes, power).expr.Some?
    ensures WellFormed(next) && Binds(next, power) && (next.Infix? ==> Stops(rest, OpPower(next.op)))
    ensures Yield(left) + lexemes == Yield(next) + rest && Bad !in rest && |rest| < |lexemes|
    ensures ParseLoop(Meaning(left), lexemes, power) == ParseLoop(Meaning(next), rest, power)
    decreases |lexemes|, 0
  {
    assert lexemes[0] in lexemes;
    TurnTaken(Meaning(left), lexemes, power);
    var c, tail := lexemes[0].c, lexemes[1..];
    assert lexemes == [Sym(c)] + tail;
    if c == '(' {
      next, rest := ParensTurn(left, tail, power);
    } else {
      next, rest := OperatorTurn(left, E.BinOpOf(c).value, tail, power);
    }
    NoBadSuffix(Yield(left) + lexemes, Yield(next), rest, left, lexemes);
  }

  lemma {:induction false} ParensTurn(left: Tree, tail: seq<Lexeme>, power: int) returns (next: Tree, rest: seq<Lexeme>)
    requires Bad !in tail && WellFormed(left) && power < E.PARENS && ParseParens(tail).expr.Some?
    requires left.Infix? ==> Stops([Sym('(')] + tail, OpPower(left.op))
    ensures WellFormed(next) && next.Juxtaposed? && |rest| <= |tail|
    ensures Yield(left) + ([Sym('(')] + tail) == Yield(next) + rest
    ensures ParseLoop(Meaning(left), [Sym('(')] + tail, power) == ParseLoop(Meaning(next), rest, power)
    decreases |tail|, 3
  {
    LoopTakesParens(Meaning(left), tail, power);
    var inner := ParensDerived(tail);
    next, rest := Juxtaposed(left, inner), ParseParens(tail).rest;
  }

  lemma {:induction false} OperatorTurn(left: Tree, op: E.BinOp, tail: seq<Lexeme>, power: int)
      returns (next: Tree, rest: seq<Lexeme>)
    requires Bad !in tail && WellFormed(left) && power < OpPower(op) && ParseExpression(tail, OpPower(op)).expr.Some?
    requires left.Infix? ==> Stops([Sym(E.OpSymbol(op))] + tail, OpPower(left.op))
    ensures WellFormed(next) && next.Infix? && next.op == op && Stops(rest, OpPower(op)) && |rest| <= |tail|
    ensures Yield(left) + ([Sym(E.OpSymbol(op))] + tail) == Yield(next) + rest
    ensures ParseLoop(Meaning(left), [Sym(E.OpSymbol(op))] + tail, power) == ParseLoop(Meaning(next), rest, power)
    decreases |tail|, 3
  {
    var p := ParseExpression(tail, OpPower(op));
    LoopTakesOperator(Meaning(left), op, tail, power, p);
    var right := ExpressionDerived(tail, OpPower(op));
    next, rest := Infix(op, left, right), p.rest;
    StoppedLeftBinds(left, op, tail);
    InfixYield(op, left, right, tail, rest);
  }

  lemma InfixYield(op: E.BinOp, left: Tree, right: Tree, tail: seq<Lexeme>, rest: seq<Lexeme>)
    requires tail == Yield(right) + rest
    ensures Yield(left) + ([Sym(E.OpSymbol(op))] + tail) == Yield(Infix(op, left, right)) + rest
  {
  }

  /** An infix tree that an operator does not extend binds at least as tight as it. */
  lemma StoppedLeftBinds(left: Tree, op: E.BinOp, tail: seq<Lexeme>)
    requires left.Infix? ==> Stops([Sym(E.OpSymbol(op))] + tail, OpPower(left.op))
    ensures Binds(left, OpPower(op) - 1)
  {
  }

  /** The loop makes of the tree read so far a tree over all it consumes. */
  lemma {:induction false} LoopDerived(left: Tree, lexemes: seq<Lexeme>, power: int) returns (t: Tree)
    requires Bad !in lexemes && WellFormed(left) && Binds(left, power)
    requires left.Infix? ==> Stops(lexemes, OpPower(left.op))
    requires ParseLoop(Meaning(left), lexemes, power).expr.Some?
    ensures WellFormed(t) && Binds(t, power)
    ensures var p := ParseLoop(Meaning(left), lexemes, power);
            p.expr == Some(Meaning(t)) && Yield(left) + lexemes == Yield(t) + p.rest && Stops(p.rest, power)
    decreases |lexemes|, 1
  {
    if Stops(lexemes, power) {
      LoopStops(Meaning(left), lexemes, power);
      t := left;
    } else {
      var next, rest := TurnDerived(left, lexemes, power);
      t := LoopDerived(next, rest, power);
    }
  }

  lemma NoBadSuffix(all: seq<Lexeme>, front: seq<Lexeme>, rest: seq<Lexeme>, left: Tree, lexemes: seq<Lexeme>)
    requires all == front + rest && all == Yield(left) + lexemes && Bad !in lexemes
    ensures Bad !in rest
  {
    YieldHasNoBad(left);
    assert forall x | x in rest :: x in all;
  }

  lemma {:induction false} ExpressionDerived(lexemes: seq<Lexeme>, power: int) returns (t: Tree)
    requires Bad !in lexemes && ParseExpression(lexemes, power).expr.Some?
    ensures WellFormed(t) && Binds(t, power)
    ensures var p := ParseExpression(lexemes, power);
            p.expr == Some(Meaning(t)) && lexemes == Yield(t) + p.rest && Stops(p.rest, power)
    decreases |lexemes|, 1
  {
    var atom := OperandDerived(lexemes);
    var rest := ParseOperand(lexemes).rest;
    assert forall x | x in rest :: x in lexemes;
    t := LoopDerived(atom, rest, power);
  }

  // ---- The parser is the grammar ----

  /** On every stream without bad tokens and at every power, the parser returns an expression and a rest
      if and only if what it consumed derives the expression and the rest stops it there. */
  lemma ParserMeetsGrammar(lexemes: seq<Lexeme>, power: int, e: Expression, rest: seq<Lexeme>)
    requires Bad !in lexemes
    ensures ParseExpression(lexemes, power) == Parsed(Some(e), rest)
       <==> exists consumed :: lexemes == consumed + rest && Derives(consumed, power, e) && Stops(rest, power)
  {
    if ParseExpression(lexemes, power) == Parsed(Some(e), rest) {
      var t := ExpressionDerived(lexemes, power);
      assert Derives(Yield(t), power, e);
    }
    forall consumed | lexemes == consumed + rest && Derives(consumed, power, e) && Stops(rest, power)
      ensures ParseExpression(lexemes, power) == Parsed(Some(e), rest)
    {
      var t :| WellFormed(t) && Binds(t, power) && Yield(t) == consumed && Meaning(t) == e;
      DerivedIsParsed(t, rest, power);
    }
  }

  lemma DerivedIsParsed(t: Tree, rest: seq<Lexeme>, power: int)
    requires WellFormed(t) && Binds(t, power) && Stops(rest, power)
    ensures ParseExpression(Yield(t) + rest, power) == Parsed(Some(Meaning(t)), rest)
  {
    if t.Infix? {
      StopsMonotone(rest, power, OpPower(t.op));
    }
    TreeParsed(t, rest, power);
    LoopStops(Meaning(t), rest, power);
  }

  /** No stream derives two expressions. */
  lemma Unambiguous(lexemes: seq<Lexeme>, power: int, e: Expression, e': Expression)
    requires Derives(lexemes, power, e) && Derives(lexemes, power, e')
    ensures e == e'
  {
    var t :| WellFormed(t) && Binds(t, power) && Yield(t) == lexemes && Meaning(t) == e;
    var t' :| WellFormed(t') && Binds(t', power) && Yield(t') == lexemes && Meaning(t') == e';
    DerivedIsParsed(t, [], power);
    DerivedIsParsed(t', [], power);
    assert Yield(t) + [] == Yield(t') + [];
  }

  // ---- Numbers side by side ----

  /** A number right behind an expression makes it null: nothing multiplies but a paren. */
  lemma {:induction false} NumberBehindIsNull(t: Tree, v: real, s: seq<Lexeme>, power: int)
    requires WellFormed(t) && Binds(t, power) && power < E.PARENS
    ensures ParseExpression(Yield(t) + ([Num(v)] + s), power).expr.None?
  {
    var after := [Num(v)] + s;
    match t
    case Infix(op, left, right) =>
      var tail := Yield(right) + after;
      assert Yield(t) + after == Yield(left) + ([Sym(E.OpSymbol(op))] + tail);
      if left.Infix? {
        OperatorStops(left, op, tail);
      }
      TreeParsed(left, [Sym(E.OpSymbol(op))] + tail, power);
      NumberBehindIsNull(right, v, s, OpPower(op));
      LoopFailsWith(Meaning(left), op, tail, power);
    case Juxtaposed(_, _) =>
      JuxtaposedParsed(t.left, t.inner, after, power);
      LoopMeetsNumber(Meaning(t), v, s, power);
    case _ =>
      AtomParsed(t, after);
      LoopMeetsNumber(Meaning(t), v, s, power);
  }

  lemma LoopMeetsNumber(left: Expression, v: real, s: seq<Lexeme>, power: int)
    requires power < E.PARENS
    ensures ParseLoop(left, [Num(v)] + s, power).expr.None?
  {
  }

  lemma LoopFailsWith(left: Expression, op: E.BinOp, tail: seq<Lexeme>, power: int)
    requires power < OpPower(op) && ParseExpression(tail, OpPower(op)).expr.None?
    ensures ParseLoop(left, [Sym(E.OpSymbol(op))] + tail, power).expr.None?
  {
    assert ([Sym(E.OpSymbol(op))] + tail)[1..] == tail;
  }
}
