/** Decimal literals are read exactly (web/src/math/tokenize.ts). */
module Decimals {
  import opened Wrappers
  import opened Tokenizing
  import opened Printing

  /** A number with its point moved to the right by a number of places. */
  function Scale(x: real, places: nat): real {
    if places == 0 then x else 10.0 * Scale(x, places - 1)
  }

  lemma {:induction false} ScaleSum(x: real, y: real, places: nat)
    ensures Scale(x + y, places) == Scale(x, places) + Scale(y, places)
  {
    if places > 0 {
      ScaleSum(x, y, places - 1);
    }
  }

  lemma {:induction false} ScaleTenth(x: real, places: nat)
    ensures Scale(x / 10.0, places + 1) == Scale(x, places)
  {
    if places > 0 {
      ScaleTenth(x, places - 1);
    }
  }

  function DigitOf(c: char): nat
    requires IsDigit(c)
  {
    c as int - '0' as int
  }

  lemma DigitsSnoc(s: string, c: char)
    requires AllDigits(s) && IsDigit(c)
    ensures AllDigits(s + [c]) && DigitsValue(s + [c]) == 10 * DigitsValue(s) + DigitOf(c)
  {
    assert (s + [c])[..|s + [c]| - 1] == s;
  }

  /** Digits in front of others count for a power of ten more each. */
  lemma {:induction false} DigitsJoined(a: string, b: string)
    requires AllDigits(a) && AllDigits(b)
    ensures AllDigits(a + b)
    ensures DigitsValue(a + b) as real == Scale(DigitsValue(a) as real, |b|) + DigitsValue(b) as real
  {
    if b == "" {
      assert a + b == a;
    } else {
      var front, last := b[..|b| - 1], b[|b| - 1];
      DigitsJoined(a, front);
      DigitsSnoc(a + front, last);
      DigitsSnoc(front, last);
      assert a + front + [last] == a + b && front + [last] == b;
    }
  }

  lemma FractionFront(s: string)
    requires s != "" && AllDigits(s)
    ensures FractionValue(s) == (DigitOf(s[0]) as real + FractionValue(s[1..])) / 10.0
  {
  }

  lemma ScaleOfTenth(y: real, x: real, places: nat)
    requires y == x / 10.0 && places > 0
    ensures Scale(y, places) == Scale(x, places - 1)
  {
    ScaleTenth(x, places - 1);
  }

  lemma FractionStep(s: string)
    requires s != "" && AllDigits(s)
    ensures Scale(FractionValue(s), |s|) == Scale(DigitOf(s[0]) as real + FractionValue(s[1..]), |s| - 1)
  {
    FractionFront(s);
    ScaleOfTenth(FractionValue(s), DigitOf(s[0]) as real + FractionValue(s[1..]), |s|);
  }

  lemma OneDigit(d: char)
    requires IsDigit(d)
    ensures AllDigits([d]) && DigitsValue([d]) == DigitOf(d)
  {
    DigitsSnoc("", d);
    assert "" + [d] == [d];
  }

  lemma FrontDigit(s: string)
    requires s != "" && AllDigits(s)
    ensures DigitsValue(s) as real == Scale(DigitOf(s[0]) as real, |s| - 1) + DigitsValue(s[1..]) as real
  {
    OneDigit(s[0]);
    DigitsJoined([s[0]], s[1..]);
    assert [s[0]] + s[1..] == s;
  }

  /** Digits after a point count for a power of ten less each. */
  lemma {:induction false} FractionScaled(s: string)
    requires AllDigits(s)
    ensures Scale(FractionValue(s), |s|) == DigitsValue(s) as real
  {
    if s != "" {
      FractionScaled(s[1..]);
      FractionStep(s);
      FrontDigit(s);
      ScaleSum(DigitOf(s[0]) as real, FractionValue(s[1..]), |s| - 1);
    }
  }

  lemma PartsScaled(a: string, b: string)
    requires AllDigits(a) && AllDigits(b)
    ensures AllDigits(a + b)
    ensures Scale(DigitsValue(a) as real + FractionValue(b), |b|) == DigitsValue(a + b) as real
  {
    FractionScaled(b);
    DigitsJoined(a, b);
    ScaleSum(DigitsValue(a) as real, FractionValue(b), |b|);
  }

  // ---- One lexeme ----

  /** Digits, points and separators. */
  predicate IsRun(run: string) {
    forall k | 0 <= k < |run| :: IsDigit(run[k]) || run[k] == '.' || run[k] == '_' || run[k] == ','
  }

  /** A run without its underscores and commas. */
  function Kept(run: string): string {
    if run == "" then ""
    else Kept(run[..|run| - 1]) + if run[|run| - 1] == '_' || run[|run| - 1] == ',' then "" else [run[|run| - 1]]
  }

  function BlankOf(s: string): string {
    if s != "" && s[0] == ' ' then " " else ""
  }

  lemma {:induction false} RunEnd(run: string, s: string, i: nat)
    requires IsRun(run) && Boundary(s) && i <= |run|
    ensures NumberEnd(run + s, i) == |run| + |BlankOf(s)|
    decreases |run| - i
  {
    if i < |run| {
      RunEnd(run, s, i + 1);
    }
  }

  lemma {:induction false} KeptIsWithout(run: string)
    ensures Kept(run) == WithoutSeparators(run)
  {
    if run != "" {
      KeptIsWithout(run[..|run| - 1]);
      SeparatorsSnoc(run[..|run| - 1], run[|run| - 1]);
      assert run == run[..|run| - 1] + [run[|run| - 1]];
    }
  }

  lemma KeptFirst(run: string)
    requires run != "" && run[0] != '_' && run[0] != ','
    ensures Kept(run) == [run[0]] + WithoutSeparators(run[1..])
  {
    KeptIsWithout(run);
  }

  lemma BlankIsKept(run: string, s: string)
    ensures WithoutSeparators(run + BlankOf(s)) == WithoutSeparators(run) + BlankOf(s)
  {
    if BlankOf(s) == " " {
      SeparatorsSnoc(run, ' ');
    } else {
      assert run + BlankOf(s) == run;
    }
  }

  lemma AppendSlice(run: string, s: string, k: nat)
    requires run != "" && k <= |s|
    ensures (run + s)[1..|run| + k] == run[1..] + s[..k]
  {
  }

  lemma RunTail(run: string, s: string)
    requires IsRun(run) && run != "" && Boundary(s)
    ensures NumberEnd(run + s, 1) == |run| + |BlankOf(s)|
    ensures (run + s)[1..NumberEnd(run + s, 1)] == run[1..] + BlankOf(s)
  {
    RunEnd(run, s, 1);
    AppendSlice(run, s, |BlankOf(s)|);
    assert s[..|BlankOf(s)|] == BlankOf(s);
  }

  /** The characters of a run, separators left out, with a blank behind it. */
  lemma RunChars(run: string, s: string)
    requires IsRun(run) && run != "" && run[0] != '_' && run[0] != ',' && Boundary(s)
    ensures NumberChars(run + s, 0) == Kept(run) + BlankOf(s)
  {
    RunTail(run, s);
    CharsOf(run + s, run[1..] + BlankOf(s));
    BlankIsKept(run[1..], s);
    KeptFirst(run);
    assert [run[0]] + (WithoutSeparators(run[1..]) + BlankOf(s)) == [run[0]] + WithoutSeparators(run[1..]) + BlankOf(s);
  }

  lemma CharsOf(text: string, tail: string)
    requires text != "" && text[1..NumberEnd(text, 1)] == tail
    ensures NumberChars(text, 0) == [text[0]] + WithoutSeparators(tail)
  {
  }

  lemma RunLexeme(run: string, s: string, v: real)
    requires IsRun(run) && run != "" && run[0] != '_' && run[0] != ',' && Boundary(s)
    requires ParseFloat(Kept(run) + BlankOf(s)) == Some(v)
    ensures LexemeAt(run + s, 0) == Num(v)
  {
    assert (run + s)[0] == run[0];
    RunChars(run, s);
    NumberLexemeAt(run + s, 0, Kept(run) + BlankOf(s), v);
  }

  lemma RunSpan(run: string, s: string)
    requires IsRun(run) && run != "" && run[0] != '_' && run[0] != ',' && Boundary(s)
    ensures LexemeEnd(run + s, 0) == |run| + |BlankOf(s)| && BlankEnd(run + s, 0) == 0
  {
    assert (run + s)[0] == run[0];
    RunTail(run, s);
  }

  /** A run that is a lexeme, with a blank behind it or none, is followed by what is behind it. */
  lemma LexedAs(run: string, s: string, blanks: nat, x: Lexeme)
    requires run != "" && Boundary(s) && blanks == if s != "" && s[0] == ' ' then 1 else 0
    requires LexemeAt(run + s, 0) == x && LexemeEnd(run + s, 0) == |run| + blanks && BlankEnd(run + s, 0) == 0
    ensures Lex(run + s, 0) == [x] + Lex(s, 0)
  {
    LexStep(run + s, 0, 0);
    LexShift(run, s, blanks);
    if blanks == 1 {
      LexAfterBlank(s);
    }
  }

  lemma RunIsLexed(run: string, s: string, x: Lexeme)
    requires IsRun(run) && run != "" && run[0] != '_' && run[0] != ',' && Boundary(s)
    requires x == LexemeAt(run + s, 0)
    ensures Lex(run + s, 0) == [x] + Lex(s, 0)
  {
    RunSpan(run, s);
    LexedAs(run, s, |BlankOf(s)|, x);
  }

  lemma PointPartsBefore(a: string, b: string, blanks: string)
    requires AllDigits(a) && AllDigits(b) && a + b != "" && (blanks == "" || blanks == " ")
    ensures LiteralDigits(a + ['.'] + b + blanks) == Some((a, b))
  {
    var s := a + ['.'] + b + blanks;
    assert s == a + (['.'] + b + blanks) && s[0] == if a == "" then '.' else a[0];
    DigitCountOf(a, ['.'] + b + blanks);
    DigitCountOf(b, blanks);
    assert s[..|a|] == a && s[|a|] == '.' && s[|a| + 1..] == b + blanks && (b + blanks)[..|b|] == b;
    assert DropSpaces(s) == s;
  }

  lemma DecimalValue(a: string, b: string, blanks: string) returns (v: real)
    requires AllDigits(a) && AllDigits(b) && a + b != "" && (blanks == "" || blanks == " ")
    ensures ParseFloat(a + ['.'] + b + blanks) == Some(v)
    ensures AllDigits(a + b) && Scale(v, |b|) == DigitsValue(a + b) as real
  {
    PointPartsBefore(a, b, blanks);
    PartsScaled(a, b);
    v := DigitsValue(a) as real + FractionValue(b);
  }

  lemma DecimalLexeme(run: string, a: string, b: string, s: string) returns (v: real)
    requires IsRun(run) && run != "" && run[0] != '_' && run[0] != ',' && Boundary(s)
    requires AllDigits(a) && AllDigits(b) && a + b != "" && Kept(run) == a + ['.'] + b
    ensures LexemeAt(run + s, 0) == Num(v)
    ensures AllDigits(a + b) && Scale(v, |b|) == DigitsValue(a + b) as real
  {
    v := DecimalValue(a, b, BlankOf(s));
    RunLexeme(run, s, v);
  }

  /** However its digits are separated, a decimal literal is one lexeme: the number that all its digits spell
      when its point is moved behind them. */
  lemma DecimalIsLexed(run: string, a: string, b: string, s: string) returns (v: real)
    requires IsRun(run) && run != "" && run[0] != '_' && run[0] != ',' && Boundary(s)
    requires AllDigits(a) && AllDigits(b) && a + b != "" && Kept(run) == a + ['.'] + b
    ensures Lex(run + s, 0) == [Num(v)] + Lex(s, 0)
    ensures AllDigits(a + b) && Scale(v, |b|) == DigitsValue(a + b) as real
  {
    v := DecimalLexeme(run, a, b, s);
    RunIsLexed(run, s, Num(v));
  }

  lemma WholeLexeme(run: string, s: string)
    requires IsRun(run) && run != "" && run[0] != '_' && run[0] != ',' && Boundary(s)
    requires AllDigits(Kept(run)) && Kept(run) != ""
    ensures LexemeAt(run + s, 0) == Num(DigitsValue(Kept(run)) as real)
  {
    ReadDigits(Kept(run), BlankOf(s));
    RunLexeme(run, s, DigitsValue(Kept(run)) as real);
  }

  /** And so is a whole one: 1,000 is a thousand. */
  lemma WholeIsLexed(run: string, s: string)
    requires IsRun(run) && run != "" && run[0] != '_' && run[0] != ',' && Boundary(s)
    requires AllDigits(Kept(run)) && Kept(run) != ""
    ensures Lex(run + s, 0) == [Num(DigitsValue(Kept(run)) as real)] + Lex(s, 0)
  {
    WholeLexeme(run, s);
    RunIsLexed(run, s, LexemeAt(run + s, 0));
  }

  lemma {:induction false} DigitsAreKept(digits: string)
    requires AllDigits(digits)
    ensures Kept(digits) == digits
  {
    if digits != "" {
      DigitsAreKept(digits[..|digits| - 1]);
    }
  }

  /** Separators between digits do not count. */
  lemma {:induction false} GroupsAreKept(a: string, separator: char, b: string)
    requires AllDigits(a) && AllDigits(b) && separator in {'_', ','}
    ensures Kept(a + [separator] + b) == a + b
  {
    if b == "" {
      DigitsAreKept(a);
      assert a + [separator] + b == a + [separator] && (a + [separator])[..|a|] == a && a + b == a;
    } else {
      var front := b[..|b| - 1];
      GroupsAreKept(a, separator, front);
      var all := a + [separator] + b;
      assert all[..|all| - 1] == a + [separator] + front && all[|all| - 1] == b[|b| - 1];
      assert a + b == a + front + [b[|b| - 1]];
    }
  }

  /** Digits, a separator and digits are one lexeme: the number that the digits spell together. */
  lemma SeparatedIsLexed(a: string, separator: char, b: string, s: string)
    requires AllDigits(a) && a != "" && AllDigits(b) && separator in {'_', ','} && Boundary(s)
    ensures AllDigits(a + b)
    ensures Lex(a + [separator] + b + s, 0) == [Num(DigitsValue(a + b) as real)] + Lex(s, 0)
  {
    GroupsAreKept(a, separator, b);
    WholeIsLexed(a + [separator] + b, s);
  }

  /** Digits, a point and digits are one lexeme: 1.5 is the number 15 with its point moved by one. */
  lemma PointIsLexed(a: string, b: string, s: string) returns (v: real)
    requires AllDigits(a) && AllDigits(b) && a + b != "" && Boundary(s)
    ensures Lex(a + ['.'] + b + s, 0) == [Num(v)] + Lex(s, 0)
    ensures AllDigits(a + b) && Scale(v, |b|) == DigitsValue(a + b) as real
  {
    PointIsKept(a, b);
    v := DecimalIsLexed(a + ['.'] + b, a, b, s);
  }

  lemma {:induction false} PointIsKept(a: string, b: string)
    requires AllDigits(a) && AllDigits(b)
    ensures Kept(a + ['.'] + b) == a + ['.'] + b
  {
    var all := a + ['.'] + b;
    if b == "" {
      DigitsAreKept(a);
      assert all == a + ['.'] && all[..|a|] == a;
    } else {
      var front := b[..|b| - 1];
      PointIsKept(a, front);
      assert all[..|all| - 1] == a + ['.'] + front && all[|all| - 1] == b[|b| - 1];
    }
  }

  /** parseFloat on a decimal literal, with or without digits before or after its point, gives the number
      that all its digits spell when its point is moved behind them. */
  lemma DecimalReads(a: string, b: string) returns (v: real)
    requires AllDigits(a) && AllDigits(b) && a + b != ""
    ensures ParseFloat(a + ['.'] + b) == Some(v)
    ensures AllDigits(a + b) && Scale(v, |b|) == DigitsValue(a + b) as real
  {
    v := DecimalValue(a, b, "");
    assert a + ['.'] + b + "" == a + ['.'] + b;
  }
}
