/** What the tokenizer makes of single characters, blanks and spaces (web/src/math/tokenize.ts). */
module Characters {
  import opened Wrappers
  import opened Tokenizing
  import opened Printing
  import opened Decimals

  /** The seven symbols stand alone. */
  lemma SymbolsStandAlone(c: char, s: string)
    requires c in "()+-*/^"
    ensures Lex([c] + s, 0) == [Sym(c)] + Lex(s, 0)
  {
    LexSymbol(c, s);
  }

  /** Other characters that are no digits, points or spaces are bad, one by one. */
  lemma OthersAreBad(c: char, s: string)
    requires c !in "()+-*/^" && c != '.' && !('0' <= c <= '9') && !IsSpace(c)
    ensures Lex([c] + s, 0) == [Bad] + Lex(s, 0)
  {
    var text := [c] + s;
    assert text[0] == c && BlankEnd(text, 0) == 0;
    LexStep(text, 0, 0);
    LexShift([c], s, 0);
  }

  /** Blanks in front of a character that is none are skipped. */
  lemma BlanksAreSkipped(blank: char, s: string)
    requires blank == ' ' || blank == '\t'
    requires s != "" && s[0] != ' ' && s[0] != '\t'
    ensures Lex([blank] + s, 0) == Lex(s, 0)
  {
    var text := [blank] + s;
    assert text[1] == s[0] && BlankEnd(text, 1) == 1 && BlankEnd(text, 0) == 1;
    LexStep(text, 0, 1);
    LexStep(text, 1, 1);
    LexShift([blank], s, 0);
  }

  /** Ordinary spaces count as characters of numbers. */
  lemma SpacesAreNumberChars(c: char)
    requires c in " \t\n\r"
    ensures IsSpace(c) && IsNumberChar(c)
  {
  }

  lemma SpacedDigits(digits: string, c: char)
    requires AllDigits(digits) && digits != "" && IsSpace(c)
    ensures ParseFloat([c] + digits) == Some(DigitsValue(digits) as real)
    ensures ParseFloat(digits + [c]) == Some(DigitsValue(digits) as real)
  {
    assert ([c] + digits)[1..] == digits && DropSpaces(digits) == digits;
    DigitsAlone(digits);
    DigitsThen(digits, c);
  }

  lemma DigitsAlone(digits: string)
    requires AllDigits(digits) && digits != ""
    ensures LiteralDigits(digits) == Some((digits, "")) && FractionValue("") == 0.0
  {
    WholeDigits(digits, "");
    assert digits + "" == digits;
  }

  lemma DigitsThen(digits: string, c: char)
    requires AllDigits(digits) && digits != "" && IsSpace(c)
    ensures LiteralDigits(digits + [c]) == Some((digits, ""))
  {
    var s := digits + [c];
    assert s[0] == digits[0] && IsDigit(digits[0]) && DropSpaces(s) == s;
    DigitCountOf(digits, [c]);
    assert s[..|digits|] == digits;
    assert DigitCount("") == 0 && ""[..0] == "";
  }

  /** Digits and points without a digit are a bad lexeme: a point alone, or with a blank behind it. */
  lemma PointAloneIsBad(s: string)
    requires Boundary(s)
    ensures Lex("." + s, 0) == [Bad] + Lex(s, 0)
  {
    PointIsNoNumber(BlankOf(s));
    NoNumberLexeme(".", s);
    RunIsLexed(".", s, Bad);
  }

  lemma PointIsNoNumber(blanks: string)
    requires blanks == "" || blanks == " "
    ensures ParseFloat("." + blanks) == None
  {
    var s := "." + blanks;
    assert DropSpaces(s) == s && DigitCount(s) == 0 && s[1..] == blanks && DigitCount(blanks) == 0;
  }

  lemma NoNumberLexeme(run: string, s: string)
    requires IsRun(run) && run != "" && run[0] != '_' && run[0] != ',' && Boundary(s)
    requires ParseFloat(Kept(run) + BlankOf(s)) == None
    ensures LexemeAt(run + s, 0) == Bad
  {
    assert (run + s)[0] == run[0];
    RunChars(run, s);
  }
}
