/** Printing expressions, and what parsing their text gives back (web/src/math/index.ts). */
module Printing {
  import opened Wrappers
  import E = Expressions
  import opened Tokenizing
  import opened Parsing
  import opened Grammar

  // ---- Text of an expression ----

  predicate Integral(v: real) {
    v.Floor as real == v
  }

  /** Every literal is a whole number. */
  predicate WholeLiterals(e: Expression) {
    match e
    case Number(value) => Integral(value)
    case Unary(_, inner) => WholeLiterals(inner)
    case Binary(_, left, right) => WholeLiterals(left) && WholeLiterals(right)
  }

  function NatText(n: nat): (s: string)
    ensures s != ""
  {
    var digit := '0' + (n % 10) as char;
    if n < 10 then [digit] else NatText(n / 10) + [digit]
  }

  function NumberText(v: real): string {
    if v < 0.0 then ['-'] + NatText((-v).Floor) else NatText(v.Floor)
  }

  function Texty(e: Expression): string
    requires WholeLiterals(e)
  {
    match e
    case Number(value) => NumberText(value)
    case Unary(op, inner) => [E.SignSymbol(op)] + Texty(inner)
    case Binary(op, left, right) =>
      ['('] + Texty(left) + [' ', E.OpSymbol(op), ' '] + Texty(right) + [')']
  }

  /** The tree of the grammar that an expression is printed as. */
  function TreeOf(e: Expression): Tree {
    match e
    case Number(value) => if value < 0.0 then SignedLiteral(E.Negate, -value) else Literal(value)
    case Unary(op, inner) =>
      if inner.Number? && inner.value >= 0.0 then SignedLiteral(op, inner.value) else Under(op, TreeOf(inner))
    case Binary(op, left, right) => Group(Infix(op, TreeOf(left), TreeOf(right)))
  }

  lemma {:induction false} TreeOfMeansFold(e: Expression)
    ensures WellFormed(TreeOf(e)) && IsAtom(TreeOf(e)) && Meaning(TreeOf(e)) == E.Fold(e)
    ensures TreeOf(e).Literal? <==> e.Number? && e.value >= 0.0
  {
    match e
    case Number(_) =>
    case Unary(_, inner) => TreeOfMeansFold(inner);
    case Binary(_, left, right) => TreeOfMeansFold(left); TreeOfMeansFold(right);
  }

  // ---- Numbers ----

  ghost predicate AllDigits(s: string) {
    forall k | 0 <= k < |s| :: IsDigit(s[k])
  }

  lemma {:induction false} NatTextReads(n: nat)
    ensures AllDigits(NatText(n)) && DigitsValue(NatText(n)) == n
  {
    var s := NatText(n);
    if n >= 10 {
      NatTextReads(n / 10);
      assert s[..|s| - 1] == NatText(n / 10);
    } else {
      assert s[..|s| - 1] == "";
    }
  }

  lemma {:induction false} DigitCountOf(digits: string, after: string)
    requires AllDigits(digits) && (after != "" ==> !IsDigit(after[0]))
    ensures DigitCount(digits + after) == |digits|
  {
    if digits == "" {
      assert digits + after == after;
    } else {
      DigitCountOf(digits[1..], after);
      assert (digits + after)[1..] == digits[1..] + after;
    }
  }

  lemma WholeDigits(digits: string, blanks: string)
    requires AllDigits(digits) && digits != "" && (blanks == "" || blanks == " ")
    ensures LiteralDigits(digits + blanks) == Some((digits, ""))
  {
    var s := digits + blanks;
    assert IsDigit(s[0]) && DropSpaces(s) == s;
    DigitCountOf(digits, blanks);
    assert s[..|digits|] == digits;
    assert DigitCount("") == 0 && ""[..0] == "";
  }

  lemma ReadDigits(digits: string, blanks: string)
    requires AllDigits(digits) && digits != "" && (blanks == "" || blanks == " ")
    ensures ParseFloat(digits + blanks) == Some(DigitsValue(digits) as real)
  {
    WholeDigits(digits, blanks);
    assert FractionValue("") == 0.0;
  }

  // ---- Lexing printed text ----

  lemma {:induction false} BlankEndShift(before: string, s: string, i: nat)
    requires i <= |s|
    ensures BlankEnd(before + s, |before| + i) == |before| + BlankEnd(s, i)
    decreases |s| - i
  {
    if i < |s| {
      BlankEndShift(before, s, i + 1);
    }
  }

  lemma {:induction false} NumberEndShift(before: string, s: string, i: nat)
    requires i <= |s|
    ensures NumberEnd(before + s, |before| + i) == |before| + NumberEnd(s, i)
    decreases |s| - i
  {
    if i < |s| {
      NumberEndShift(before, s, i + 1);
    }
  }

  lemma NumberCharsShift(before: string, s: string, i: nat)
    requires i < |s|
    ensures NumberChars(before + s, |before| + i) == NumberChars(s, i)
  {
    NumberEndShift(before, s, i + 1);
    var end := NumberEnd(s, i + 1);
    assert (before + s)[|before| + i + 1..|before| + end] == s[i + 1..end];
  }

  lemma LexemeShift(before: string, s: string, i: nat)
    requires i <= |s|
    ensures LexemeAt(before + s, |before| + i) == LexemeAt(s, i)
    ensures LexemeEnd(before + s, |before| + i) == |before| + LexemeEnd(s, i)
  {
    if i < |s| {
      NumberCharsShift(before, s, i);
      NumberEndShift(before, s, i + 1);
    }
  }

  lemma LexStep(text: string, position: nat, i: nat)
    requires position < |text| && i == BlankEnd(text, position)
    ensures Lex(text, position) == [LexemeAt(text, i)] + Lex(text, LexemeEnd(text, i))
  {
  }

  /** lex reads a text lexeme by lexeme. */
  ghost predicate Scans(text: string, lex: nat -> seq<Lexeme>) {
    && (forall p: nat {:trigger BlankEnd(text, p)} | p < |text| ::
          lex(p) == [LexemeAt(text, BlankEnd(text, p))] + lex(LexemeEnd(text, BlankEnd(text, p))))
    && (forall p: nat {:trigger lex(p)} | p >= |text| :: lex(p) == [])
  }

  lemma LexScans(text: string)
    ensures Scans(text, (p: nat) => Lex(text, p))
  {
    forall p: nat | p < |text|
      ensures Lex(text, p) == [LexemeAt(text, BlankEnd(text, p))] + Lex(text, LexemeEnd(text, BlankEnd(text, p)))
    {
      LexStep(text, p, BlankEnd(text, p));
    }
  }

  lemma {:induction false} ScanShift(
      before: string, s: string, i: nat, lex: nat -> seq<Lexeme>, lex': nat -> seq<Lexeme>)
    requires Scans(s, lex) && Scans(before + s, lex')
    ensures lex'(|before| + i) == lex(i)
    decreases |s| - i
  {
    if i < |s| {
      BlankEndShift(before, s, i);
      LexemeShift(before, s, BlankEnd(s, i));
      ScanShift(before, s, LexemeEnd(s, BlankEnd(s, i)), lex, lex');
    }
  }

  /** What is read from a position does not depend on the text before it. */
  lemma LexShift(before: string, s: string, i: nat)
    ensures Lex(before + s, |before| + i) == Lex(s, i)
  {
    LexScans(s);
    LexScans(before + s);
    ScanShift(before, s, i, (p: nat) => Lex(s, p), (p: nat) => Lex(before + s, p));
  }

  /** The text ends, or goes on with a symbol, with at most one blank before it. */
  predicate Boundary(s: string) {
    s != "" && !IsSymbol(s[0]) ==> s[0] == ' ' && |s| > 1 && IsSymbol(s[1])
  }

  /** How a text is read: a symbol by itself, a blank before another character skipped, a run of digits
      as the number it spells. */
  ghost predicate Reads(lex: string -> seq<Lexeme>) {
    && (forall c, s {:trigger lex([c] + s)} | IsSymbol(c) :: lex([c] + s) == [Sym(c)] + lex(s))
    && (forall s {:trigger lex([' '] + s)} | s != "" && !IsBlank(s[0]) :: lex([' '] + s) == lex(s))
    && (forall digits, s {:trigger lex(digits + s)} | digits != "" && AllDigits(digits) && Boundary(s) ::
          lex(digits + s) == [Num(DigitsValue(digits) as real)] + lex(s))
  }

  lemma SymbolAt(text: string)
    requires text != "" && IsSymbol(text[0])
    ensures LexemeAt(text, 0) == Sym(text[0]) && LexemeEnd(text, 0) == 1 && BlankEnd(text, 0) == 0
  {
  }

  lemma LexSymbol(c: char, s: string)
    requires IsSymbol(c)
    ensures Lex([c] + s, 0) == [Sym(c)] + Lex(s, 0)
  {
    SymbolAt([c] + s);
    LexStep([c] + s, 0, 0);
    LexShift([c], s, 0);
  }

  lemma LexBlank(s: string)
    requires s != "" && !IsBlank(s[0])
    ensures Lex([' '] + s, 0) == Lex(s, 0)
  {
    var text := [' '] + s;
    assert BlankEnd(text, 0) == 1 && BlankEnd(text, 1) == 1;
    LexStep(text, 0, 1);
    LexStep(text, 1, 1);
    LexShift([' '], s, 0);
  }

  lemma {:induction false} NumberEndOf(digits: string, s: string, i: nat)
    requires AllDigits(digits) && Boundary(s) && i <= |digits|
    ensures NumberEnd(digits + s, i) == |digits| + if s != "" && s[0] == ' ' then 1 else 0
    decreases |digits| - i
  {
    if i < |digits| {
      NumberEndOf(digits, s, i + 1);
    }
  }

  lemma {:induction false} NoSeparators(s: string)
    requires forall k | 0 <= k < |s| :: !IsSeparator(s[k])
    ensures WithoutSeparators(s) == s
  {
    if s != "" {
      NoSeparators(s[1..]);
    }
  }

  /** The characters of a run of digits, with a blank after it. */
  lemma NumberCharsOf(digits: string, s: string)
    requires digits != "" && AllDigits(digits) && Boundary(s)
    ensures NumberChars(digits + s, 0) == digits + if s != "" && s[0] == ' ' then " " else ""
  {
    var blanks := if s != "" && s[0] == ' ' then " " else "";
    NumberEndOf(digits, s, 1);
    assert (digits + s)[1..|digits| + |blanks|] == digits[1..] + blanks;
    NoSeparators(digits[1..] + blanks);
    assert [digits[0]] + (digits[1..] + blanks) == digits + blanks;
  }

  lemma NumberLexemeAt(text: string, i: nat, chars: string, v: real)
    requires i < |text| && IsNumberChar(text[i]) && chars == NumberChars(text, i) && ParseFloat(chars) == Some(v)
    ensures LexemeAt(text, i) == Num(v)
  {
  }

  lemma DigitsLexeme(digits: string, s: string, blanks: nat)
    requires digits != "" && AllDigits(digits) && Boundary(s) && blanks == if s != "" && s[0] == ' ' then 1 else 0
    ensures LexemeAt(digits + s, 0) == Num(DigitsValue(digits) as real)
    ensures LexemeEnd(digits + s, 0) == |digits| + blanks && BlankEnd(digits + s, 0) == 0
  {
    var text := digits + s;
    assert text[0] == digits[0] && IsDigit(digits[0]);
    NumberCharsOf(digits, s);
    ReadDigits(digits, if blanks == 1 then " " else "");
    NumberLexemeAt(text, 0, NumberChars(text, 0), DigitsValue(digits) as real);
    NumberEndOf(digits, s, 1);
  }

  lemma LexAfterBlank(s: string)
    requires Boundary(s) && s != "" && s[0] == ' '
    ensures Lex(s, 1) == Lex(s, 0)
  {
    LexBlank(s[1..]);
    LexShift([' '], s[1..], 0);
    assert [' '] + s[1..] == s;
  }

  lemma LexDigits(digits: string, s: string)
    requires digits != "" && AllDigits(digits) && Boundary(s)
    ensures Lex(digits + s, 0) == [Num(DigitsValue(digits) as real)] + Lex(s, 0)
  {
    var blanks := if s != "" && s[0] == ' ' then 1 else 0;
    DigitsLexeme(digits, s, blanks);
    LexStep(digits + s, 0, 0);
    LexShift(digits, s, blanks);
    if blanks == 1 {
      LexAfterBlank(s);
    }
  }

  lemma LexReads()
    ensures Reads(s => Lex(s, 0))
  {
    forall c, s | IsSymbol(c) ensures Lex([c] + s, 0) == [Sym(c)] + Lex(s, 0) {
      LexSymbol(c, s);
    }
    forall s: string | s != "" && !IsBlank(s[0]) ensures Lex([' '] + s, 0) == Lex(s, 0) {
      LexBlank(s);
    }
    forall digits, s | digits != "" && AllDigits(digits) && Boundary(s)
      ensures Lex(digits + s, 0) == [Num(DigitsValue(digits) as real)] + Lex(s, 0)
    {
      LexDigits(digits, s);
    }
  }

  lemma {:induction false} TextyStart(e: Expression)
    requires WholeLiterals(e)
    ensures Texty(e) != "" && !IsBlank(Texty(e)[0])
  {
    match e
    case Number(value) =>
      NatTextReads((if value < 0.0 then -value else value).Floor);
    case _ =>
  }

  lemma NonNegativeRead(v: real, s: string, lex: string -> seq<Lexeme>)
    requires Reads(lex) && Integral(v) && v >= 0.0 && Boundary(s)
    ensures lex(NatText(v.Floor) + s) == [Num(v)] + lex(s)
  {
    NatTextReads(v.Floor);
  }

  lemma SignedRead(op: E.UnaryOp, text: string, s: string, lex: string -> seq<Lexeme>, lexemes: seq<Lexeme>)
    requires Reads(lex) && lex(text + s) == lexemes + lex(s)
    ensures lex([E.SignSymbol(op)] + text + s) == [Sym(E.SignSymbol(op))] + lexemes + lex(s)
  {
    assert [E.SignSymbol(op)] + text + s == [E.SignSymbol(op)] + (text + s);
  }

  lemma NegativeIntegral(v: real)
    requires Integral(v)
    ensures Integral(-v)
  {
    var k := v.Floor;
    assert -v == (-k) as real;
    assert ((-k) as real).Floor == -k;
  }

  lemma NumberRead(v: real, s: string, lex: string -> seq<Lexeme>)
    requires Reads(lex) && Integral(v) && Boundary(s)
    ensures lex(NumberText(v) + s) == Yield(TreeOf(E.Number(v))) + lex(s)
  {
    NegativeIntegral(v);
    if v < 0.0 {
      NegativeRead(-v, s, lex);
    } else {
      NonNegativeRead(v, s, lex);
    }
  }

  lemma NegativeRead(v: real, s: string, lex: string -> seq<Lexeme>)
    requires Reads(lex) && Integral(v) && v > 0.0 && Boundary(s)
    ensures lex(['-'] + NatText(v.Floor) + s) == [Sym('-'), Num(v)] + lex(s)
  {
    NonNegativeRead(v, s, lex);
    SignedRead(E.Negate, NatText(v.Floor), s, lex, [Num(v)]);
  }

  /** Wherever an expression's text stands, it is read as the lexemes of its tree. */
  lemma {:induction false} TextyRead(e: Expression, s: string, lex: string -> seq<Lexeme>)
    requires Reads(lex) && WholeLiterals(e) && Boundary(s)
    ensures lex(Texty(e) + s) == Yield(TreeOf(e)) + lex(s)
    decreases e, 1
  {
    match e
    case Number(value) =>
      NumberRead(value, s, lex);
    case Unary(op, inner) =>
      TextyRead(inner, s, lex);
      SignedRead(op, Texty(inner), s, lex, Yield(TreeOf(inner)));
      assert Yield(TreeOf(e)) == [Sym(E.SignSymbol(op))] + Yield(TreeOf(inner));
    case Binary(op, left, right) =>
      BinaryRead(op, left, right, s, lex);
  }

  lemma {:induction false} BinaryRead(
      op: E.BinOp, left: Expression, right: Expression, s: string, lex: string -> seq<Lexeme>)
    requires Reads(lex) && WholeLiterals(left) && WholeLiterals(right) && Boundary(s)
    ensures lex(Texty(E.Binary(op, left, right)) + s) == Yield(TreeOf(E.Binary(op, left, right))) + lex(s)
    decreases E.Binary(op, left, right), 0
  {
    var l, r := Texty(left), Texty(right);
    BinaryText(l, op, r, s);
    TextyRead(left, Middle(op, r, s), lex);
    TextyStart(right);
    TextyRead(right, [')'] + s, lex);
    PartsRead(l, op, r, s, lex, Yield(TreeOf(left)), Yield(TreeOf(right)));
    BinaryYield(op, TreeOf(left), TreeOf(right), lex(s));
  }

  /** What follows the left operand of a binary expression. */
  function Middle(op: E.BinOp, r: string, s: string): string {
    [' '] + ([E.OpSymbol(op)] + ([' '] + (r + ([')'] + s))))
  }

  lemma BinaryText(l: string, op: E.BinOp, r: string, s: string)
    ensures ['('] + l + [' ', E.OpSymbol(op), ' '] + r + [')'] + s == ['('] + (l + Middle(op, r, s))
  {
  }

  lemma PartsRead(
      l: string, op: E.BinOp, r: string, s: string, lex: string -> seq<Lexeme>, left: seq<Lexeme>, right: seq<Lexeme>)
    requires Reads(lex) && r != "" && !IsBlank(r[0])
    requires lex(l + Middle(op, r, s)) == left + lex(Middle(op, r, s))
    requires lex(r + ([')'] + s)) == right + lex([')'] + s)
    ensures lex(['('] + (l + Middle(op, r, s)))
         == [Sym('(')] + (left + ([Sym(E.OpSymbol(op))] + (right + ([Sym(')')] + lex(s)))))
  {
  }

  lemma BinaryYield(op: E.BinOp, left: Tree, right: Tree, rest: seq<Lexeme>)
    ensures Yield(Group(Infix(op, left, right))) + rest
         == [Sym('(')] + (Yield(left) + ([Sym(E.OpSymbol(op))] + (Yield(right) + ([Sym(')')] + rest))))
  {
  }

  // ---- The round trip ----

  /** Printing an expression and parsing the text gives it back with the signs over literals folded in,
      and leaves nothing to read. */
  lemma ParsingUndoesPrinting(e: Expression)
    requires WholeLiterals(e)
    ensures ParseExpression(Lex(Texty(e), 0), E.MIN) == Parsed(Some(E.Fold(e)), [])
  {
    LexReads();
    TextyRead(e, "", s => Lex(s, 0));
    assert Texty(e) + "" == Texty(e) && Yield(TreeOf(e)) + [] == Yield(TreeOf(e));
    TreeOfMeansFold(e);
    DerivedIsParsed(TreeOf(e), [], E.MIN);
  }

  /** So it gives back exactly the expression if and only if no sign stands directly over a
      non-negative literal. */
  lemma RoundTripIff(e: Expression)
    requires WholeLiterals(e)
    ensures ParseExpression(Lex(Texty(e), 0), E.MIN).expr == Some(e) <==> E.Folded(e)
  {
    ParsingUndoesPrinting(e);
    E.FoldedIsFixed(e);
  }

  /** Parses a whole text. */
  method ParseText(text: string) returns (expr: Option<Expression>)
    ensures expr == ParseExpression(Lex(text, 0), E.MIN).expr
  {
    var parser := new Parser(text);
    expr := parser.Expression(E.MIN);
  }

  /** What an expression evaluates to survives being printed and typed in again. */
  method Reenter(e: Expression) returns (expr: Expression)
    requires WholeLiterals(e)
    ensures expr == E.Fold(e) && E.Evaluate(expr) == E.Evaluate(e)
  {
    var parsed := ParseText(Texty(e));
    ParsingUndoesPrinting(e);
    E.FoldKeepsValue(e);
    expr := parsed.value;
  }

  /** How expressions look. */
  lemma TextyLooks(l: Expression, r: Expression)
    requires WholeLiterals(l) && WholeLiterals(r)
    ensures Texty(E.Binary(E.Plus, l, r)) == "(" + Texty(l) + " + " + Texty(r) + ")"
    ensures Texty(E.Binary(E.Minus, l, r)) == "(" + Texty(l) + " - " + Texty(r) + ")"
    ensures Texty(E.Binary(E.Times, l, r)) == "(" + Texty(l) + " * " + Texty(r) + ")"
    ensures Texty(E.Binary(E.Divide, l, r)) == "(" + Texty(l) + " / " + Texty(r) + ")"
    ensures Texty(E.Unary(E.Negate, l)) == "-" + Texty(l) && Texty(E.Unary(E.Positive, l)) == "+" + Texty(l)
  {
  }
}
