/** When a numeric input accepts a text: the parser returned an expression and its position is the end of
    the text (web/src/component/NumericInput.tsx). The position counts a token that was looked at and not
    taken. */
module Acceptance {
  import opened Wrappers
  import E = Expressions
  import opened Tokenizing
  import opened Parsing
  import opened Grammar

  /** Reading runs one past the end: the text ends in blanks that no number takes along. */
  predicate Overruns(text: string) {
    Reaches(text, 0, |text| + 1)
  }

  /** What an input accepts of lexemes that do not run over: an expression that leaves nothing but the token
      held, if one is. */
  function Accepted(lexemes: seq<Lexeme>): Option<Expression> {
    var p := ParseExpression(lexemes, E.MIN);
    if |p.rest| <= (if ExpressionHolds(lexemes, E.MIN) then 1 else 0) then p.expr else None
  }

  lemma {:induction false} ReachedEndUnique(text: string, from: nat, p: nat, q: nat)
    requires Reaches(text, from, p) && Reaches(text, from, q) && p >= |text| && q >= |text|
    ensures p == q
    decreases |text| - from
  {
    if from < |text| {
      ReachedEndUnique(text, NextPosition(text, from), p, q);
    }
  }

  lemma {:induction false} OverrunIsBad(text: string, from: nat)
    requires Reaches(text, from, |text| + 1) && from <= |text|
    ensures Bad in Lex(text, from)
    decreases |text| - from
  {
    if NextPosition(text, from) <= |text| {
      OverrunIsBad(text, NextPosition(text, from));
    }
  }

  /** Nothing runs over unless its last lexeme is bad. */
  lemma GoodTextsDoNotOverrun(text: string)
    requires Bad !in Lex(text, 0)
    ensures !Overruns(text)
  {
    if Overruns(text) {
      OverrunIsBad(text, 0);
    }
  }

  lemma LexEnds(text: string, position: nat)
    ensures Lex(text, position) == [] <==> position >= |text|
  {
  }

  /** The text is accepted when the parser's position is its end: for every text, when reading does not run
      over and its expression leaves nothing but the token held. */
  method ReadInput(text: string) returns (accepted: Option<Expression>)
    ensures accepted == if Overruns(text) then None else Accepted(Lex(text, 0))
  {
    var parser := new Parser(text);
    var expr := parser.Expression(E.MIN);
    var pos := parser.Position();
    if expr.None? {
      return None;
    }
    LexEnds(text, pos);
    PositionAtEnd(text, pos);
    if pos != |text| {
      return None;
    }
    accepted := expr;
  }

  lemma PositionAtEnd(text: string, position: nat)
    requires Reaches(text, 0, position) && position <= |text| + 1
    ensures position == |text| ==> !Overruns(text)
    ensures position == |text| + 1 ==> Overruns(text)
  {
    if position >= |text| && Overruns(text) {
      ReachedEndUnique(text, 0, position, |text| + 1);
    }
  }

  lemma InfixRest(left: Expression, symbol: char, lexemes: seq<Lexeme>)
    requires Bad !in lexemes && IsInfixChar(symbol) && ParseInfix(left, symbol, lexemes).expr.Some?
    ensures Bad !in ParseInfix(left, symbol, lexemes).rest
  {
    if symbol == '(' {
      var inner := ParensDerived(lexemes);
    } else {
      var right := ExpressionDerived(lexemes, E.PowerOf(symbol, false));
    }
    assert forall x | x in ParseInfix(left, symbol, lexemes).rest :: x in lexemes;
  }

  lemma {:induction false} LoopHoldsGood(left: Expression, lexemes: seq<Lexeme>, power: int)
    requires Bad !in lexemes && ParseLoop(left, lexemes, power).expr.Some?
    ensures LoopHolds(left, lexemes, power)
    decreases |lexemes|
  {
    assert lexemes != [] ==> lexemes[0] in lexemes;
    if lexemes != [] && lexemes[0].Sym? && power < NextPower(FrontToken(lexemes)) && IsInfixChar(lexemes[0].c) {
      var parsed := ParseInfix(left, lexemes[0].c, lexemes[1..]);
      InfixTurn(left, lexemes, power, lexemes[0].c);
      InfixRest(left, lexemes[0].c, lexemes[1..]);
      LoopHoldsGood(parsed.expr.value, parsed.rest, power);
    }
  }

  /** Without a bad lexeme a token, or the end, is always held. */
  lemma GoodLexemesAreHeld(lexemes: seq<Lexeme>)
    requires Bad !in lexemes && ParseExpression(lexemes, E.MIN).expr.Some?
    ensures ExpressionHolds(lexemes, E.MIN)
  {
    var operand := OperandDerived(lexemes);
    var left := ParseOperand(lexemes);
    assert forall x | x in left.rest :: x in lexemes;
    LoopHoldsGood(left.expr.value, left.rest, E.MIN);
  }

  /** A symbol at the end that no infix expression starts with, such as a closing paren or ^. */
  predicate StrayEnd(lexemes: seq<Lexeme>) {
    lexemes != [] && lexemes[|lexemes| - 1].Sym? && !IsInfixChar(lexemes[|lexemes| - 1].c)
  }

  /** An input accepts exactly the texts that derive an expression, and those with one stray symbol behind
      it, which it has then not read. */
  lemma AcceptedIff(lexemes: seq<Lexeme>, e: Expression)
    requires Bad !in lexemes
    ensures Accepted(lexemes) == Some(e)
       <==> Derives(lexemes, E.MIN, e) || (StrayEnd(lexemes) && Derives(lexemes[..|lexemes| - 1], E.MIN, e))
  {
    var p := ParseExpression(lexemes, E.MIN);
    if p.expr.Some? {
      GoodLexemesAreHeld(lexemes);
    }
    AcceptedWhole(lexemes, e);
    if lexemes != [] {
      AcceptedStray(lexemes[..|lexemes| - 1], lexemes[|lexemes| - 1], e);
      assert lexemes == lexemes[..|lexemes| - 1] + [lexemes[|lexemes| - 1]];
    }
    if |p.rest| == 1 && p.expr.Some? {
      var t := ExpressionDerived(lexemes, E.MIN);
      assert p.rest == [p.rest[0]] && lexemes[|lexemes| - 1] == p.rest[0];
    }
  }

  lemma AcceptedWhole(lexemes: seq<Lexeme>, e: Expression)
    requires Bad !in lexemes
    ensures ParseExpression(lexemes, E.MIN) == Parsed(Some(e), []) <==> Derives(lexemes, E.MIN, e)
  {
    ParserMeetsGrammar(lexemes, E.MIN, e, []);
    assert lexemes == lexemes + [];
    forall consumed | lexemes == consumed + [] ensures consumed == lexemes {
    }
  }

  lemma AcceptedStray(front: seq<Lexeme>, last: Lexeme, e: Expression)
    requires Bad !in front && last != Bad
    ensures ParseExpression(front + [last], E.MIN) == Parsed(Some(e), [last])
       <==> Derives(front, E.MIN, e) && last.Sym? && !IsInfixChar(last.c)
  {
    ParserMeetsGrammar(front + [last], E.MIN, e, [last]);
    forall consumed | front + [last] == consumed + [last] ensures consumed == front {
      assert (front + [last])[..|front|] == (consumed + [last])[..|consumed|];
    }
  }

  /** Behind an expression a stray symbol is not read: the whole derives nothing. */
  lemma StrayIsNotRead(lexemes: seq<Lexeme>, e: Expression, e': Expression)
    requires Bad !in lexemes && StrayEnd(lexemes) && Derives(lexemes[..|lexemes| - 1], E.MIN, e)
    ensures !Derives(lexemes, E.MIN, e')
  {
    AcceptedStray(lexemes[..|lexemes| - 1], lexemes[|lexemes| - 1], e);
    assert lexemes == lexemes[..|lexemes| - 1] + [lexemes[|lexemes| - 1]];
    AcceptedWhole(lexemes, e');
  }

  /** "1)" is accepted as 1. */
  lemma StrayParenIsAccepted(v: real)
    ensures Accepted([Num(v), Sym(')')]) == Some(E.Number(v)) && !Derives([Num(v), Sym(')')], E.MIN, E.Number(v))
  {
    var lexemes := [Num(v), Sym(')')];
    LoopStops(E.Number(v), [Sym(')')], E.MIN);
    assert lexemes[1..] == [Sym(')')];
    AcceptedWhole(lexemes, E.Number(v));
    GoodLexemesAreHeld(lexemes);
  }

  /** At the end of an expression a bad lexeme is dropped, not held. */
  lemma BadIsDropped(left: Expression, after: seq<Lexeme>, power: int)
    requires power >= E.MIN
    ensures ParseLoop(left, [Bad] + after, power) == Parsed(Some(left), after) && !LoopHolds(left, [Bad] + after, power)
  {
    assert ([Bad] + after)[1..] == after;
  }

  /** "1$" is accepted as 1, "1$)" is refused. */
  lemma NumberThenBad(v: real, after: seq<Lexeme>)
    ensures Accepted([Num(v), Bad] + after) == if after == [] then Some(E.Number(v)) else None
  {
    assert ([Num(v), Bad] + after)[1..] == [Bad] + after;
    BadIsDropped(E.Number(v), after, E.MIN);
  }

  // ---- Blanks at the end ----

  lemma SymbolEndsLexeme(text: string, from: nat, k: nat)
    requires from <= k < |text| && IsSymbol(text[k])
    ensures NumberEnd(text, from) <= k
    decreases k - from
  {
    if from < k {
      SymbolEndsLexeme(text, from + 1, k);
    }
  }

  lemma BlanksEndAtSymbol(text: string, from: nat, k: nat)
    requires from <= k < |text| && IsSymbol(text[k])
    ensures BlankEnd(text, from) <= k
    decreases k - from
  {
    if from < k {
      BlanksEndAtSymbol(text, from + 1, k);
    }
  }

  lemma {:induction false} ReachesBehindSymbol(text: string, from: nat, k: nat)
    requires from <= k < |text| && IsSymbol(text[k])
    ensures Reaches(text, from, k + 1)
    decreases |text| - from
  {
    BlanksEndAtSymbol(text, from, k);
    var i := BlankEnd(text, from);
    if i < k {
      SymbolEndsLexeme(text, i + 1, k);
      ReachesBehindSymbol(text, NextPosition(text, from), k);
    }
  }

  /** A blank behind a symbol at the end runs over: "(1) " is never accepted, whatever it parses to. */
  lemma BlankBehindSymbolOverruns(text: string)
    requires text != "" && IsSymbol(text[|text| - 1])
    ensures Overruns(text + " ")
  {
    var all := text + " ";
    ReachesBehindSymbol(all, 0, |text| - 1);
    assert BlankEnd(all, |text|) == |all|;
    assert NextPosition(all, |text|) == |all| + 1;
    ReachesNext(all, 0, |text|);
  }
}
