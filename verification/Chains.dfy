/** Chains of operators over literals and juxtaposed parens: how they group, and what they come to. */
module Chains {
  import opened Wrappers
  import E = Expressions
  import opened Tokenizing
  import opened Parsing
  import opened Grammar

  /** A literal with literals in parens behind it, as in 2(3)(4). */
  datatype Factor = Factor(head: real, groups: seq<real>)

  /** f op f op ... f: the operators with the factors after a first one. */
  type Chain = seq<(E.BinOp, Factor)>

  predicate IsAdditive(op: E.BinOp) {
    op == E.Plus || op == E.Minus
  }

  function FactorLexemes(f: Factor): seq<Lexeme>
    decreases |f.groups|
  {
    if f.groups == [] then [Num(f.head)]
    else FactorLexemes(Front(f)) + [Sym('('), Num(f.groups[|f.groups| - 1]), Sym(')')]
  }

  /** The factor without its last group. */
  function Front(f: Factor): Factor
    requires f.groups != []
  {
    f.(groups := f.groups[..|f.groups| - 1])
  }

  function ChainLexemes(first: Factor, rest: Chain): seq<Lexeme> {
    if rest == [] then FactorLexemes(first)
    else
      var last := rest[|rest| - 1];
      ChainLexemes(first, rest[..|rest| - 1]) + [Sym(E.OpSymbol(last.0))] + FactorLexemes(last.1)
  }

  /** The left fold of a factor's groups. */
  function Multiplied(f: Factor): Expression
    decreases |f.groups|
  {
    if f.groups == [] then E.Number(f.head)
    else E.Binary(E.Times, Multiplied(Front(f)), E.Number(f.groups[|f.groups| - 1]))
  }

  /** The position after the last additive operator; 0 when there is none. */
  function LastTerm(rest: Chain): (k: nat)
    ensures k <= |rest|
    ensures k > 0 ==> IsAdditive(rest[k - 1].0)
    ensures forall i | k <= i < |rest| :: !IsAdditive(rest[i].0)
  {
    if rest == [] then 0
    else if IsAdditive(rest[|rest| - 1].0) then |rest|
    else
      var k := LastTerm(rest[..|rest| - 1]);
      assert forall i | k <= i < |rest| - 1 :: rest[..|rest| - 1][i] == rest[i];
      k
  }

  /** A left fold over operators applied to factors. */
  function Product(first: Factor, rest: Chain): Expression {
    if rest == [] then Multiplied(first)
    else E.Binary(rest[|rest| - 1].0, Product(first, rest[..|rest| - 1]), Multiplied(rest[|rest| - 1].1))
  }

  /** The left fold over the additive operators of the left folds over the operators between them. */
  function Sum(first: Factor, rest: Chain): Expression
    decreases |rest|
  {
    var k := LastTerm(rest);
    if k == 0 then Product(first, rest)
    else E.Binary(rest[k - 1].0, Sum(first, rest[..k - 1]), Product(rest[k - 1].1, rest[k..]))
  }

  // ---- How chains group ----

  lemma {:induction false} FactorTree(f: Factor) returns (t: Tree)
    ensures WellFormed(t) && !t.Infix? && Binds(t, E.MUL_DIV)
    ensures Yield(t) == FactorLexemes(f) && Meaning(t) == Multiplied(f)
    decreases |f.groups|
  {
    if f.groups == [] {
      t := Literal(f.head);
    } else {
      var left := FactorTree(Front(f));
      t := Juxtaposed(left, Literal(f.groups[|f.groups| - 1]));
    }
  }

  lemma {:induction false} ProductTree(first: Factor, rest: Chain) returns (t: Tree)
    requires forall i | 0 <= i < |rest| :: !IsAdditive(rest[i].0)
    ensures WellFormed(t) && Binds(t, E.ADD_SUB)
    ensures Yield(t) == ChainLexemes(first, rest) && Meaning(t) == Product(first, rest)
  {
    if rest == [] {
      t := FactorTree(first);
    } else {
      var last := rest[|rest| - 1];
      var left := ProductTree(first, rest[..|rest| - 1]);
      var right := FactorTree(last.1);
      t := Infix(last.0, left, right);
    }
  }

  lemma {:induction false} ChainSplit(first: Factor, rest: Chain, k: nat)
    requires 0 < k <= |rest|
    ensures ChainLexemes(first, rest)
         == ChainLexemes(first, rest[..k - 1]) + [Sym(E.OpSymbol(rest[k - 1].0))] + ChainLexemes(rest[k - 1].1, rest[k..])
    decreases |rest|
  {
    if k < |rest| {
      ChainSplit(first, rest[..|rest| - 1], k);
      assert rest[..|rest| - 1][..k - 1] == rest[..k - 1];
      assert rest[k..][..|rest[k..]| - 1] == rest[..|rest| - 1][k..];
    } else {
      assert rest[k..] == [];
    }
  }

  lemma {:induction false} SumTree(first: Factor, rest: Chain) returns (t: Tree)
    ensures WellFormed(t) && Binds(t, E.MIN)
    ensures Yield(t) == ChainLexemes(first, rest) && Meaning(t) == Sum(first, rest)
    decreases |rest|
  {
    var k := LastTerm(rest);
    if k == 0 {
      t := ProductTree(first, rest);
    } else {
      var left := SumTree(first, rest[..k - 1]);
      var right := ProductTree(rest[k - 1].1, rest[k..]);
      ChainSplit(first, rest, k);
      t := Infix(rest[k - 1].0, left, right);
    }
  }

  /** Any chain, of any length, parses to the left fold over + and - of the left folds over * and / of its
      factors, and each factor to the left fold of its groups. */
  lemma ChainsParse(first: Factor, rest: Chain)
    ensures ParseExpression(ChainLexemes(first, rest), E.MIN) == Parsed(Some(Sum(first, rest)), [])
  {
    var t := SumTree(first, rest);
    DerivedIsParsed(t, [], E.MIN);
    assert Yield(t) + [] == Yield(t);
  }

  /** A paren behind a literal binds tighter than any operator before it: 8/2(4) is 8/(2*4). */
  lemma ParensBindTightest(op: E.BinOp, a: real, b: real, c: real)
    ensures ParseExpression([Num(a), Sym(E.OpSymbol(op)), Num(b), Sym('('), Num(c), Sym(')')], E.MIN)
         == Parsed(Some(E.Binary(op, E.Number(a), E.Binary(E.Times, E.Number(b), E.Number(c)))), [])
  {
    var f := Factor(b, [c]);
    var rest: Chain := [(op, f)];
    assert f.groups[..0] == [] && rest[..0] == [] && rest[1..] == [];
    assert FactorLexemes(f) == [Num(b), Sym('('), Num(c), Sym(')')];
    assert Multiplied(f) == E.Binary(E.Times, E.Number(b), E.Number(c));
    assert ChainLexemes(Factor(a, []), rest) == [Num(a), Sym(E.OpSymbol(op)), Num(b), Sym('('), Num(c), Sym(')')];
    assert LastTerm(rest) == if IsAdditive(op) then 1 else 0;
    assert Sum(Factor(a, []), rest[..0]) == E.Number(a);
    assert Product(f, []) == Multiplied(f);
    ChainsParse(Factor(a, []), rest);
  }

  // ---- What chains come to ----

  /** A pocket calculator with two registers: a total, and the term being worked on. */
  datatype Registers = Registers(total: real, term: real)

  function FactorValue(f: Factor): real
    decreases |f.groups|
  {
    if f.groups == [] then f.head else E.Mul(FactorValue(Front(f)), f.groups[|f.groups| - 1])
  }

  /** Keying in an operator and a number; None once something was divided by 0. */
  function Key(r: Registers, op: E.BinOp, x: real): Option<Registers> {
    match op
    case Plus => Some(Registers(r.total + r.term, x))
    case Minus => Some(Registers(r.total + r.term, -x))
    case Times => Some(Registers(r.total, E.Mul(r.term, x)))
    case Divide => if x == 0.0 then None else Some(Registers(r.total, E.Div(r.term, x)))
  }

  function Calculate(first: Factor, rest: Chain): Option<Registers> {
    if rest == [] then Some(Registers(0.0, FactorValue(first)))
    else
      match Calculate(first, rest[..|rest| - 1])
      case None => None
      case Some(r) => Key(r, rest[|rest| - 1].0, FactorValue(rest[|rest| - 1].1))
  }

  lemma {:induction false} FactorEvaluates(f: Factor)
    ensures E.Evaluate(Multiplied(f)) == Some(FactorValue(f))
    decreases |f.groups|
  {
    if f.groups != [] {
      FactorEvaluates(Front(f));
      var last := E.Number(f.groups[|f.groups| - 1]);
      assert Multiplied(f) == E.Binary(E.Times, Multiplied(Front(f)), last);
      E.TimesValue(Multiplied(Front(f)), last, FactorValue(Front(f)), last.value);
    }
  }

  /** What the registers hold: the value before the last additive operator, and that of the term after it with
      its sign. */
  predicate Holds(r: Option<Registers>, before: Option<real>, negative: bool, term: Option<real>) {
    if before.None? || term.None? then r.None?
    else r == Some(Registers(before.value, if negative then -term.value else term.value))
  }

  function Before(first: Factor, rest: Chain): Option<real> {
    var k := LastTerm(rest);
    if k == 0 then Some(0.0) else E.Evaluate(Sum(first, rest[..k - 1]))
  }

  function Term(first: Factor, rest: Chain): Expression {
    var k := LastTerm(rest);
    if k == 0 then Product(first, rest) else Product(rest[k - 1].1, rest[k..])
  }

  predicate Negative(rest: Chain) {
    LastTerm(rest) > 0 && rest[LastTerm(rest) - 1].0 == E.Minus
  }

  /** A sum is its last term, or what is before its last additive operator with that term. */
  lemma SumSplits(first: Factor, rest: Chain)
    ensures LastTerm(rest) == 0 ==> Sum(first, rest) == Term(first, rest) && !Negative(rest) && Before(first, rest) == Some(0.0)
    ensures LastTerm(rest) > 0 ==>
      && Sum(first, rest) == E.Binary(if Negative(rest) then E.Minus else E.Plus, Sum(first, rest[..LastTerm(rest) - 1]), Term(first, rest))
      && Before(first, rest) == E.Evaluate(Sum(first, rest[..LastTerm(rest) - 1]))
  {
  }

  lemma AdditiveValue(negative: bool, before: Expression, term: Expression, r: Option<Registers>)
    requires Holds(r, E.Evaluate(before), negative, E.Evaluate(term))
    ensures E.Evaluate(E.Binary(if negative then E.Minus else E.Plus, before, term)) == Shown(r)
  {
  }

  /** What the calculator shows. */
  function Shown(r: Option<Registers>): Option<real> {
    match r case None => None case Some(v) => Some(v.total + v.term)
  }

  lemma SumValue(first: Factor, rest: Chain, r: Option<Registers>)
    requires Holds(r, Before(first, rest), Negative(rest), E.Evaluate(Term(first, rest)))
    ensures E.Evaluate(Sum(first, rest)) == Shown(r)
  {
    SumSplits(first, rest);
    var k := LastTerm(rest);
    if k > 0 {
      AdditiveValue(Negative(rest), Sum(first, rest[..k - 1]), Term(first, rest), r);
    }
  }

  lemma KeyMultiplies(r: Registers, x: real, before: real, negative: bool, term: real)
    requires r == Registers(before, if negative then -term else term)
    ensures Key(r, E.Times, x) == Some(Registers(before, if negative then -E.Mul(term, x) else E.Mul(term, x)))
    ensures x != 0.0 ==> Key(r, E.Divide, x) == Some(Registers(before, if negative then -E.Div(term, x) else E.Div(term, x)))
  {
    Negated(term, x);
  }

  lemma Negated(t: real, x: real)
    ensures E.Mul(-t, x) == -E.Mul(t, x)
    ensures x != 0.0 ==> E.Div(-t, x) == -E.Div(t, x)
  {
  }

  lemma TermGrows(first: Factor, rest: Chain)
    requires rest != [] && !IsAdditive(rest[|rest| - 1].0)
    ensures var front, last := rest[..|rest| - 1], rest[|rest| - 1];
            && LastTerm(rest) == LastTerm(front) && Negative(rest) == Negative(front)
            && Before(first, rest) == Before(first, front)
            && Term(first, rest) == E.Binary(last.0, Term(first, front), Multiplied(last.1))
  {
    var front, k := rest[..|rest| - 1], LastTerm(rest);
    if k > 0 {
      assert front[..k - 1] == rest[..k - 1] && front[k - 1] == rest[k - 1];
      assert rest[k..][..|rest[k..]| - 1] == front[k..];
    }
  }

  lemma TermStarts(first: Factor, rest: Chain)
    requires rest != [] && IsAdditive(rest[|rest| - 1].0)
    ensures var front, last := rest[..|rest| - 1], rest[|rest| - 1];
            && Negative(rest) == (last.0 == E.Minus)
            && Before(first, rest) == E.Evaluate(Sum(first, front))
            && Term(first, rest) == Multiplied(last.1)
  {
    assert rest[|rest|..] == [];
  }

  lemma KeyHolds(r: Option<Registers>, op: E.BinOp, x: real, before: Option<real>, negative: bool, term: Expression, factor: Expression)
    requires Holds(r, before, negative, E.Evaluate(term)) && !IsAdditive(op) && E.Evaluate(factor) == Some(x)
    ensures Holds(if r.None? then None else Key(r.value, op, x), before, negative, E.Evaluate(E.Binary(op, term, factor)))
  {
    if r.Some? {
      KeyMultiplies(r.value, x, before.value, negative, E.Evaluate(term).value);
    }
  }

  lemma {:induction false} CalculatorHolds(first: Factor, rest: Chain)
    ensures Holds(Calculate(first, rest), Before(first, rest), Negative(rest), E.Evaluate(Term(first, rest)))
    decreases |rest|
  {
    if rest == [] {
      FactorEvaluates(first);
    } else {
      var front, last := rest[..|rest| - 1], rest[|rest| - 1];
      CalculatorHolds(first, front);
      FactorEvaluates(last.1);
      if IsAdditive(last.0) {
        SumValue(first, front, Calculate(first, front));
        TermStarts(first, rest);
      } else {
        TermGrows(first, rest);
        KeyHolds(Calculate(first, front), last.0, FactorValue(last.1), Before(first, front), Negative(front),
                 Term(first, front), Multiplied(last.1));
      }
    }
  }

  /** A chain, parsed and evaluated, comes to what a calculator with two registers shows for it: for any
      length, and to nothing exactly when it divides by 0. */
  lemma ChainsEvaluate(first: Factor, rest: Chain)
    ensures var parsed := ParseExpression(ChainLexemes(first, rest), E.MIN);
            && parsed.expr.Some? && parsed.rest == []
            && E.Evaluate(parsed.expr.value)
               == Shown(Calculate(first, rest))
  {
    ChainsParse(first, rest);
    CalculatorHolds(first, rest);
    SumValue(first, rest, Calculate(first, rest));
  }

  // ---- The symbols ----

  /** What the four operators mean, symbol by symbol. */
  lemma SymbolsMean(a: real, b: real)
    ensures Computes([Num(a), Sym('+'), Num(b)], Some(a + b))
    ensures Computes([Num(a), Sym('-'), Num(b)], Some(a - b))
    ensures Computes([Num(a), Sym('*'), Num(b)], Some(E.Mul(a, b)))
    ensures Computes([Num(a), Sym('/'), Num(b)], if b == 0.0 then None else Some(E.Div(a, b)))
    ensures Computes([Num(a), Sym('('), Num(b), Sym(')')], Some(E.Mul(a, b)))
  {
    OperatorMeans(a, E.Plus, b);
    OperatorMeans(a, E.Minus, b);
    OperatorMeans(a, E.Times, b);
    OperatorMeans(a, E.Divide, b);
    ParenMeans(a, b);
  }

  /** Lexemes parse as a whole, and evaluate to a value or to none. */
  predicate Computes(lexemes: seq<Lexeme>, value: Option<real>) {
    var parsed := ParseExpression(lexemes, E.MIN);
    parsed.expr.Some? && parsed.rest == [] && E.Evaluate(parsed.expr.value) == value
  }

  lemma OperatorMeans(a: real, op: E.BinOp, b: real)
    ensures Computes([Num(a), Sym(E.OpSymbol(op)), Num(b)], E.ApplyBinary(op, Some(a), Some(b)))
  {
    var t := Infix(op, Literal(a), Literal(b));
    DerivedIsParsed(t, [], E.MIN);
    assert Yield(t) + [] == [Num(a), Sym(E.OpSymbol(op)), Num(b)];
  }

  lemma ParenMeans(a: real, b: real)
    ensures Computes([Num(a), Sym('('), Num(b), Sym(')')], Some(E.Mul(a, b)))
  {
    var t := Juxtaposed(Literal(a), Literal(b));
    DerivedIsParsed(t, [], E.MIN);
    assert Yield(t) + [] == [Num(a), Sym('('), Num(b), Sym(')')];
  }

  /** What the two signs mean, in front of a literal and of a paren. */
  lemma SignsMean(a: real)
    ensures Computes([Sym('-'), Num(a)], Some(-a)) && Computes([Sym('+'), Num(a)], Some(a))
    ensures Computes([Sym('-'), Sym('('), Num(a), Sym(')')], Some(-a))
    ensures Computes([Sym('+'), Sym('('), Num(a), Sym(')')], Some(a))
  {
    SignMeans(E.Negate, a);
    SignMeans(E.Positive, a);
  }

  lemma SignMeans(sign: E.UnaryOp, a: real)
    ensures Computes([Sym(E.SignSymbol(sign)), Num(a)], Some(if sign == E.Negate then -a else a))
    ensures Computes([Sym(E.SignSymbol(sign)), Sym('('), Num(a), Sym(')')], Some(if sign == E.Negate then -a else a))
  {
    DerivedIsParsed(SignedLiteral(sign, a), [], E.MIN);
    var t := Under(sign, Group(Literal(a)));
    assert Yield(Literal(a)) == [Num(a)] && Yield(Group(Literal(a))) == [Sym('('), Num(a), Sym(')')];
    var inner := Meaning(Group(Literal(a)));
    assert Meaning(Literal(a)) == E.Number(a) && inner == Meaning(Literal(a));
    assert Meaning(t) == E.Unary(sign, inner) && E.Evaluate(inner) == Some(a);
    DerivedIsParsed(t, [], E.MIN);
    assert Yield(t) + [] == [Sym(E.SignSymbol(sign)), Sym('('), Num(a), Sym(')')];
    assert Yield(SignedLiteral(sign, a)) + [] == [Sym(E.SignSymbol(sign)), Num(a)];
  }
}
