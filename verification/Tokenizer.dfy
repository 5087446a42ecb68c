/** Splitting text into tokens (web/src/math/tokenize.ts). */
module Tokenizing {
  import opened Wrappers

  datatype Token = Done | Symbol(symbol: char) | Number(value: real)

  /** What a stretch of text is read as; Bad is a stretch for which next() returns null. */
  datatype Lexeme = Sym(c: char) | Num(v: real) | Bad

  predicate IsBlank(c: char) {
    c == ' ' || c == '\t'
  }

  predicate IsDigit(c: char) {
    '0' <= c <= '9'
  }

  /** The characters JavaScript trims: alone they convert to the number 0. */
  predicate IsSpace(c: char) {
    var n := c as int;
    || 0x9 <= n <= 0xD || n == 0x20 || n == 0xA0 || n == 0x1680 || 0x2000 <= n <= 0x200A
    || n == 0x2028 || n == 0x2029 || n == 0x202F || n == 0x205F || n == 0x3000 || n == 0xFEFF
  }

  /** !isNaN(c) || c === '.' */
  predicate IsNumberChar(c: char) {
    IsDigit(c) || IsSpace(c) || c == '.'
  }

  /** Separators are skipped inside a number. */
  predicate IsSeparator(c: char) {
    c == '_' || c == ','
  }

  predicate IsSymbol(c: char) {
    c == '(' || c == ')' || c == '+' || c == '-' || c == '*' || c == '/' || c == '^'
  }

  // ---- parseFloat on digits, spaces and points ----

  function DigitCount(s: string): (n: nat)
    ensures n <= |s|
  {
    if s != "" && IsDigit(s[0]) then 1 + DigitCount(s[1..]) else 0
  }

  function DigitsValue(s: string): nat
    requires forall c | c in s :: IsDigit(c)
  {
    if s == "" then 0
    else
      assert s[|s| - 1] in s && IsDigit(s[|s| - 1]);
      10 * DigitsValue(s[..|s| - 1]) + (s[|s| - 1] as int - '0' as int)
  }

  /** The value of the digits after a decimal point. */
  function FractionValue(s: string): real
    requires forall c | c in s :: IsDigit(c)
  {
    if s == "" then 0.0
    else
      assert s[0] in s && IsDigit(s[0]);
      ((s[0] as int - '0' as int) as real + FractionValue(s[1..])) / 10.0
  }

  lemma {:induction false} DigitPrefix(s: string)
    ensures forall c | c in s[..DigitCount(s)] :: IsDigit(c)
  {
    if s != "" && IsDigit(s[0]) {
      DigitPrefix(s[1..]);
      assert s[..DigitCount(s)] == [s[0]] + s[1..][..DigitCount(s[1..])];
    }
  }

  function DropSpaces(s: string): string {
    if s != "" && IsSpace(s[0]) then DropSpaces(s[1..]) else s
  }

  /** The digits before and after the point of the longest decimal literal after leading space; None when
      there are none. */
  function LiteralDigits(s: string): (digits: Option<(string, string)>)
    ensures digits.Some? ==> forall c | c in digits.value.0 || c in digits.value.1 :: IsDigit(c)
  {
    var t := DropSpaces(s);
    var n := DigitCount(t);
    DigitPrefix(t);
    var fraction := if n < |t| && t[n] == '.' then t[n + 1..] else "";
    var m := DigitCount(fraction);
    DigitPrefix(fraction);
    if n == 0 && m == 0 then None else Some((t[..n], fraction[..m]))
  }

  /** parseFloat: the value of the longest decimal literal after leading space; None is NaN. */
  function ParseFloat(s: string): Option<real> {
    match LiteralDigits(s)
    case None => None
    case Some((whole, fraction)) => Some(DigitsValue(whole) as real + FractionValue(fraction))
  }

  // ---- One token ----

  /** Where the blanks from a position end. */
  function BlankEnd(text: string, i: nat): (j: nat)
    requires i <= |text|
    ensures i <= j <= |text|
    decreases |text| - i
  {
    if i < |text| && IsBlank(text[i]) then BlankEnd(text, i + 1) else i
  }

  /** Where a number that goes on at a position ends. */
  function NumberEnd(text: string, i: nat): (j: nat)
    requires i <= |text|
    ensures i <= j <= |text|
    decreases |text| - i
  {
    if i < |text| && (IsNumberChar(text[i]) || IsSeparator(text[i])) then NumberEnd(text, i + 1) else i
  }

  function WithoutSeparators(s: string): string {
    if s == "" then "" else (if IsSeparator(s[0]) then [] else [s[0]]) + WithoutSeparators(s[1..])
  }

  /** The characters of the number that starts at a position, separators left out. */
  function NumberChars(text: string, i: nat): string
    requires i < |text|
  {
    [text[i]] + WithoutSeparators(text[i + 1..NumberEnd(text, i + 1)])
  }

  function NumberLexeme(value: Option<real>): Lexeme {
    if value.Some? then Num(value.value) else Bad
  }

  /** The lexeme that starts, without blanks before it, at a position; Bad past the end. */
  function LexemeAt(text: string, i: nat): Lexeme {
    if i >= |text| then Bad
    else if IsNumberChar(text[i]) then NumberLexeme(ParseFloat(NumberChars(text, i)))
    else if IsSymbol(text[i]) then Sym(text[i])
    else Bad
  }

  /** Where that lexeme ends; text that ends in blanks is run past by one. */
  function LexemeEnd(text: string, i: nat): (j: nat)
    requires i <= |text|
    ensures i < j <= |text| + 1
  {
    if i < |text| && IsNumberChar(text[i]) then NumberEnd(text, i + 1) else i + 1
  }

  /** Where reading stands after the lexeme at or behind the blanks of a position. */
  function NextPosition(text: string, position: nat): (next: nat)
    requires position <= |text|
    ensures position < next <= |text| + 1
  {
    LexemeEnd(text, BlankEnd(text, position))
  }

  /** Reading from one position gets to another. */
  predicate Reaches(text: string, from: nat, position: nat)
    decreases |text| - from
  {
    position == from || (from < |text| && Reaches(text, NextPosition(text, from), position))
  }

  lemma {:induction false} ReachesNext(text: string, from: nat, position: nat)
    requires Reaches(text, from, position) && position < |text|
    ensures Reaches(text, from, NextPosition(text, position))
    decreases |text| - from
  {
    if position != from {
      ReachesNext(text, NextPosition(text, from), position);
    }
  }

  /** The lexemes of a text from a position on. */
  function Lex(text: string, position: nat): seq<Lexeme>
    decreases |text| - position
  {
    if position >= |text| then []
    else
      var i := BlankEnd(text, position);
      [LexemeAt(text, i)] + Lex(text, LexemeEnd(text, i))
  }

  /** The token of the front of a lexeme sequence; None is the null of a bad lexeme. */
  function FrontToken(rest: seq<Lexeme>): Option<Token> {
    if rest == [] then Some(Done)
    else
      match rest[0]
      case Sym(c) => Some(Symbol(c))
      case Num(v) => Some(Number(v))
      case Bad => None
  }

  function AfterToken(rest: seq<Lexeme>): seq<Lexeme> {
    if rest == [] then [] else rest[1..]
  }

  class Tokenizer {
    const text: string
    var position: nat

    constructor (text: string)
      ensures this.text == text && position == 0
    {
      this.text := text;
      position := 0;
    }

    function Rest(): seq<Lexeme>
      reads this
    {
      Lex(text, position)
    }

    /** Takes the character at the position, and then, while it has a blank, the next one. */
    method SkipBlanks() returns (nextChar: Option<char>)
      requires position < |text|
      modifies this
      ensures position == BlankEnd(text, old(position)) + 1
      ensures nextChar == if position <= |text| then Some(text[position - 1]) else None
    {
      ghost var start := position;
      nextChar := Some(text[position]);
      position := position + 1;
      while nextChar == Some(' ') || nextChar == Some('\t')
        invariant start < position <= |text| + 1
        invariant nextChar == if position <= |text| then Some(text[position - 1]) else None
        invariant BlankEnd(text, start) == BlankEnd(text, position - 1)
        decreases |text| + 1 - position
      {
        nextChar := if position < |text| then Some(text[position]) else None;
        position := position + 1;
      }
    }

    /** Keeps taking number characters until a character that is none, or the end. */
    method TakeNumber(first: char) returns (numberChars: string)
      requires 0 < position <= |text| && first == text[position - 1]
      modifies this
      ensures position == NumberEnd(text, old(position)) && position <= |text|
      ensures numberChars == NumberChars(text, old(position) - 1)
    {
      ghost var from := position;
      numberChars := [first];
      while position < |text| + 1
        invariant from <= position <= |text|
        invariant numberChars == [first] + WithoutSeparators(text[from..position])
        invariant NumberEnd(text, from) == NumberEnd(text, position)
        decreases |text| - position
      {
        if position == |text| {
          break;
        }
        var peeked := text[position];
        SeparatorsSnoc(text[from..position], peeked);
        assert text[from..position + 1] == text[from..position] + [peeked];
        if IsNumberChar(peeked) {
          numberChars := numberChars + [peeked];
          position := position + 1;
        } else if IsSeparator(peeked) {
          position := position + 1;
        } else {
          break;
        }
      }
    }

    /** Produces the next token of the text. The position only moves forward, by at least one before the
        end, and stops one past the end. */
    method Next() returns (token: Option<Token>)
      requires position <= |text| + 1
      modifies this
      ensures token == FrontToken(old(Rest())) && Rest() == AfterToken(old(Rest()))
      ensures old(position) <= position <= |text| + 1
      ensures old(position) < |text| ==> old(position) < position
      ensures Reaches(text, 0, old(position)) ==> Reaches(text, 0, position)
    {
      if Reaches(text, 0, position) && position < |text| {
        ReachesNext(text, 0, position);
      }
      if position >= |text| {
        return Some(Done);
      }
      var nextChar := SkipBlanks();
      if nextChar.None? {
        return None;
      }
      if IsNumberChar(nextChar.value) {
        var numberChars := TakeNumber(nextChar.value);
        var numberValue := ParseFloat(numberChars);
        return if numberValue.Some? then Some(Number(numberValue.value)) else None;
      }
      if IsSymbol(nextChar.value) {
        return Some(Symbol(nextChar.value));
      }
      return None;
    }
  }

  lemma {:induction false} SeparatorsSnoc(s: string, c: char)
    ensures WithoutSeparators(s + [c]) == WithoutSeparators(s) + if IsSeparator(c) then [] else [c]
  {
    if s == "" {
      assert [c][1..] == "";
    } else {
      SeparatorsSnoc(s[1..], c);
      assert (s + [c])[1..] == s[1..] + [c];
    }
  }
}
