/** The expressions of a numeric input: their powers, their text and their value (web/src/math/index.ts). */
module Expressions {
  import opened Wrappers

  datatype BinOp = Plus | Minus | Times | Divide

  datatype UnaryOp = Negate | Positive

  datatype Expression =
    | Number(value: real)
    | Binary(op: BinOp, left: Expression, right: Expression)
    | Unary(uop: UnaryOp, expr: Expression)

  // Binding powers.
  const MIN := 0
  const ADD_SUB := 1
  const MUL_DIV := 2
  const NEGATE := 3
  const PARENS := 4
  const LITERAL := 5
  const MAX := 6

  /** The binding power of a symbol, optionally in prefix position. */
  function PowerOf(symbol: char, prefix: bool): int {
    match symbol
    case '+' | '-' => if prefix then NEGATE else ADD_SUB
    case '*' | '/' => MUL_DIV
    case '(' | ')' => PARENS
    case _ => MIN
  }

  function OpSymbol(op: BinOp): char {
    match op
    case Plus => '+'
    case Minus => '-'
    case Times => '*'
    case Divide => '/'
  }

  function SignSymbol(op: UnaryOp): char {
    match op
    case Negate => '-'
    case Positive => '+'
  }

  /** The operator of a symbol; None stands for the error thrown on a symbol that is none. */
  function BinOpOf(symbol: char): Option<BinOp> {
    match symbol
    case '+' => Some(Plus)
    case '-' => Some(Minus)
    case '*' => Some(Times)
    case '/' => Some(Divide)
    case _ => None
  }

  function ApplyUnary(op: UnaryOp, v: Option<real>): Option<real> {
    if v.None? then None else Some(if op == Positive then v.value else -1.0 * v.value)
  }

  function Mul(x: real, y: real): real {
    x * y
  }

  function Div(x: real, y: real): real
    requires y != 0.0
  {
    x / y
  }

  function ApplyBinary(op: BinOp, l: Option<real>, r: Option<real>): Option<real> {
    if l.None? || r.None? then None
    else
      match op
      case Plus => Some(l.value + r.value)
      case Minus => Some(l.value - r.value)
      case Times => Some(Mul(l.value, r.value))
      case Divide => if r.value == 0.0 then None else Some(Div(l.value, r.value))
  }

  /** The value of an expression; None when it divides by zero. */
  function Evaluate(e: Expression): Option<real> {
    match e
    case Number(value) => Some(value)
    case Unary(op, inner) => ApplyUnary(op, Evaluate(inner))
    case Binary(op, left, right) => ApplyBinary(op, Evaluate(left), Evaluate(right))
  }

  /** A literal with its sign folded in. */
  function Signed(op: UnaryOp, value: real): real {
    if op == Positive then value else if value == 0.0 then 0.0 else -value
  }

  /** The expression with every sign that stands directly over a non-negative literal folded into it. */
  function Fold(e: Expression): Expression {
    match e
    case Number(_) => e
    case Unary(op, inner) =>
      if inner.Number? && inner.value >= 0.0 then Number(Signed(op, inner.value)) else Unary(op, Fold(inner))
    case Binary(op, left, right) => Binary(op, Fold(left), Fold(right))
  }

  /** No sign stands directly over a non-negative literal. */
  predicate Folded(e: Expression) {
    match e
    case Number(_) => true
    case Unary(op, inner) => !(inner.Number? && inner.value >= 0.0) && Folded(inner)
    case Binary(op, left, right) => Folded(left) && Folded(right)
  }

  lemma {:induction false} FoldedIsFixed(e: Expression)
    ensures Fold(e) == e <==> Folded(e)
  {
    match e
    case Number(_) =>
    case Unary(op, inner) => FoldedIsFixed(inner);
    case Binary(op, left, right) => FoldedIsFixed(left); FoldedIsFixed(right);
  }

  lemma {:induction false} FoldKeepsValue(e: Expression)
    ensures Evaluate(Fold(e)) == Evaluate(e)
  {
    match e
    case Number(_) =>
    case Unary(op, inner) => FoldKeepsValue(inner);
    case Binary(op, left, right) => FoldKeepsValue(left); FoldKeepsValue(right);
  }

  // ---- What the operators compute ----

  /** Sums commute and associate, with unit 0. */
  lemma SumLaws(a: Expression, b: Expression, c: Expression)
    ensures Evaluate(Binary(Plus, a, b)) == Evaluate(Binary(Plus, b, a))
    ensures Evaluate(Binary(Plus, Binary(Plus, a, b), c)) == Evaluate(Binary(Plus, a, Binary(Plus, b, c)))
    ensures Evaluate(Binary(Plus, a, Number(0.0))) == Evaluate(a)
  {
  }

  lemma TimesValue(a: Expression, b: Expression, x: real, y: real)
    requires Evaluate(a) == Some(x) && Evaluate(b) == Some(y)
    ensures Evaluate(Binary(Times, a, b)) == Some(Mul(x, y))
  {
  }

  lemma RealLaws(x: real, y: real, z: real)
    ensures Mul(x, y) == Mul(y, x) && Mul(Mul(x, y), z) == Mul(x, Mul(y, z)) && Mul(x, y + z) == Mul(x, y) + Mul(x, z)
  {
  }

  /** Products commute and associate, with unit 1, and distribute over sums. */
  lemma ProductCommutes(a: Expression, b: Expression)
    ensures Evaluate(Binary(Times, a, b)) == Evaluate(Binary(Times, b, a))
    ensures Evaluate(Binary(Times, a, Number(1.0))) == Evaluate(a)
  {
    TimesOne(a);
    if Evaluate(a).Some? && Evaluate(b).Some? {
      RealLaws(Evaluate(a).value, Evaluate(b).value, 0.0);
    }
  }

  lemma TimesOne(a: Expression)
    ensures Evaluate(Binary(Times, a, Number(1.0))) == Evaluate(a)
  {
    if Evaluate(a).Some? {
      TimesValue(a, Number(1.0), Evaluate(a).value, 1.0);
    }
  }

  lemma ProductAssociates(a: Expression, b: Expression, c: Expression)
    ensures Evaluate(Binary(Times, Binary(Times, a, b), c)) == Evaluate(Binary(Times, a, Binary(Times, b, c)))
  {
    if Evaluate(a).Some? && Evaluate(b).Some? && Evaluate(c).Some? {
      var x, y, z := Evaluate(a).value, Evaluate(b).value, Evaluate(c).value;
      RealLaws(x, y, z);
      TimesValue(a, b, x, y);
      TimesValue(b, c, y, z);
      TimesValue(Binary(Times, a, b), c, Mul(x, y), z);
      TimesValue(a, Binary(Times, b, c), x, Mul(y, z));
    }
  }

  lemma ProductDistributes(a: Expression, b: Expression, c: Expression)
    ensures Evaluate(Binary(Times, a, Binary(Plus, b, c)))
         == Evaluate(Binary(Plus, Binary(Times, a, b), Binary(Times, a, c)))
  {
    if Evaluate(a).Some? && Evaluate(b).Some? && Evaluate(c).Some? {
      var x, y, z := Evaluate(a).value, Evaluate(b).value, Evaluate(c).value;
      RealLaws(x, y, z);
      TimesValue(a, b, x, y);
      TimesValue(a, c, x, z);
      TimesValue(a, Binary(Plus, b, c), x, y + z);
    }
  }

  /** A difference is undone by adding its right operand, a negation by adding what it negates. */
  lemma DifferenceLaw(a: Expression, b: Expression)
    ensures Evaluate(b).Some? ==> Evaluate(Binary(Plus, Binary(Minus, a, b), b)) == Evaluate(a)
    ensures Evaluate(a).Some? ==> Evaluate(Binary(Plus, Unary(Negate, a), a)) == Some(0.0)
    ensures Evaluate(Unary(Positive, a)) == Evaluate(a)
  {
  }

  /** A quotient is undone by multiplying with its divisor, and has no value exactly when an operand has none
      or the divisor is 0. */
  lemma QuotientLaw(a: Expression, b: Expression)
    ensures Evaluate(Binary(Divide, a, b)).Some? ==> Evaluate(Binary(Times, Binary(Divide, a, b), b)) == Evaluate(a)
    ensures Evaluate(Binary(Divide, a, b)).None?
       <==> Evaluate(a).None? || Evaluate(b).None? || (Evaluate(b).Some? && Evaluate(b).value == 0.0)
  {
    if Evaluate(a).Some? && Evaluate(b).Some? && Evaluate(b).value != 0.0 {
      var x, y := Evaluate(a).value, Evaluate(b).value;
      DivisionUndone(x, y);
      TimesValue(Binary(Divide, a, b), b, Div(x, y), y);
    }
  }

  lemma DivisionUndone(x: real, y: real)
    requires y != 0.0
    ensures Mul(Div(x, y), y) == x
  {
  }

  /** Every other operator has a value exactly when its operands have. */
  lemma OthersAreTotal(op: BinOp, a: Expression, b: Expression)
    requires op != Divide
    ensures Evaluate(Binary(op, a, b)).Some? <==> Evaluate(a).Some? && Evaluate(b).Some?
  {
  }

  /** One and one is two. */
  lemma OnePlusOne()
    ensures Evaluate(Binary(Plus, Number(1.0), Number(1.0))) == Some(2.0)
  {
  }

  /** Parens bind tighter than * and /, these than + and -, and these than any other symbol; signs bind tighter
      than the operators they look like. */
  lemma PowersOrdered(other: char)
    requires other !in "+-*/()"
    ensures PowerOf('(', false) == PowerOf(')', false) > PowerOf('*', false) == PowerOf('/', false)
    ensures PowerOf('*', false) > PowerOf('+', false) == PowerOf('-', false) > PowerOf(other, false) == MIN
    ensures PowerOf('+', true) == PowerOf('-', true) && PowerOf('(', false) > PowerOf('+', true) > PowerOf('*', false)
  {
  }
}
