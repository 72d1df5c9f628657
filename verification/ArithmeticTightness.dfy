/** Every clause of the condition in `ArithmeticSafety` is needed: without any one of them a text passes whose
    second pass overflows (src/commands/IfCommand.cpp:199-218). */
module ArithmeticTightness {
  import opened Text
  import opened Decimal
  import opened Arithmetic
  import opened ArithmeticTrees
  import ArithmeticLimits
  import opened ArithmeticSafety

  /** The three ways in which parenthesised text can be glued. */
  datatype Clause = DigitBefore | DigitBehind | Adjacent {
    predicate Glues(a: char, b: char) {
      match this
      case DigitBefore => IsDigit(a) && b == '('
      case DigitBehind => a == ')' && IsDigit(b)
      case Adjacent => a == ')' && b == '('
    }
  }

  /** The condition without one clause. */
  ghost predicate UngluedBut(c: Clause, s: string) {
    forall i :: 0 <= i < |s| - 1 ==> GoodPair(s[i], s[i + 1]) || c.Glues(s[i], s[i + 1])
  }

  // ---- the three texts ------------------------------------------------------------------------

  const MAX_TEXT: string := ToString(INT_MAX)

  /** `(2147483647+0)`, which a pass turns into `2147483647`. */
  function Largest(): Expr { ArithmeticLimits.LargestPlusZero() }

  /** `(0+9)`. */
  function Nine(): Expr { Bin('+', Lit("0"), Lit("9"), ArithmeticLimits.TIGHT) }

  /** `(9(2147483647+0)*9(2147483647+0))`, `((2147483647+0)0*(2147483647+0)0)` and
      `((2147483647+0)(0+9)*(2147483647+0)(0+9))`. */
  function Witness(c: Clause): string {
    match c
    case DigitBefore => "(9" + PrintOnto(Largest(), "*9" + PrintOnto(Largest(), ")"))
    case DigitBehind => ArithmeticLimits.GluedDigits()
    case Adjacent =>
      "(" + PrintOnto(Largest(), PrintOnto(Nine(), "*" + PrintOnto(Largest(), PrintOnto(Nine(), ")"))))
  }

  // ---- the second pass overflows -----------------------------------------------------------------

  function Square(t: string): Expr { Bin('*', Lit(t), Lit(t), ArithmeticLimits.TIGHT) }

  lemma SquareText(t: string)
    ensures PrintOnto(Square(t), "") == "(" + (t + ("*" + (t + ")")))
  {
    var r1 := ")" + "";
    var r2 := t + r1;
    var r3 := "*" + r2;
    assert r1 == ")" && "" + r1 == r1 && "" + r2 == r2 && "" + r3 == r3 && "" + (t + r3) == t + r3 && ['*'] == "*";
    assert PrintOnto(Lit(t), r1) == r2 && PrintOnto(Lit(t), r3) == t + r3;
  }

  lemma LargeSquare(t: string)
    requires IsIntText(t) && 0x1_0000_0000 <= IntValue(t) <= LLONG_MAX
    ensures HasMatch(PrintOnto(Square(t), "")) && !PassDefined(PrintOnto(Square(t), ""))
  {
    hide MatchMath, PrintOnto;
    var v := IntValue(t);
    ProductMonotone(0x1_0000_0000, v, v);
    assert v * v > LLONG_MAX;
    assert Operand(t) == v;
    assert ValidExpr(Square(t));
    InnermostMatches(Square(t), "");
    PrintedBinStarts(Square(t), "");
  }

  lemma NineIsInt()
    ensures ValidExpr(Nine()) && IntLiterals(Nine()) && Collapse(Nine()) == Lit("9")
  {
    assert IsIntText("0") && IntValue("0") == 0 && IsIntText("9") && IntValue("9") == 9;
    assert Value(Nine().left) == 0 && Value(Nine().right) == 9;
  }

  lemma NoOperatorAtParenthesis(left: string, s: string)
    requires s != "" && s[0] == '('
    ensures MatchOp(left, s).NoMatch?
  {
    hide MatchRight, SkipSpace;
    SkipSpaceAppend("", s);
    assert "" + s == s;
    assert SkipSpace(s) == s && !IsOperator(s[0]);
  }

  lemma NoMatchBehindNine(s: string)
    requires s != "" && s[0] == '('
    ensures MatchMath("(9" + s).NoMatch?
  {
    hide MatchMath, MatchOp;
    assert IsIntText("9");
    MatchMathOnto("", "9", s);
    assert "(" + ("" + ("9" + s)) == "(9" + s;
    NoOperatorAtParenthesis("9", s);
  }

  lemma DigitBeforePass()
    ensures var s := Witness(DigitBefore);
            PassDefined(s) && HasMatch(s) && Pass(s) == PrintOnto(Square("9" + MAX_TEXT), "")
  {
    hide PassDefined, Pass, HasMatch, MatchMath, ToString, Collapse, PrintOnto;
    var e, t := Largest(), MAX_TEXT;
    var inner := PrintOnto(e, ")");
    var behind := PrintOnto(e, "*9" + inner);
    ArithmeticLimits.LargestPlusZeroIsInt();
    PrintedBinStarts(e, "*9" + inner);
    NoMatchBehindNine(behind);
    assert "(" + ("9" + behind) == Witness(DigitBefore);
    ParenthesisCopied("9" + behind);
    TextCopied("9", behind);
    PassCollapses(e, "*9" + inner);
    TextCopied("*9", inner);
    PassCollapses(e, ")");
    CloseCopied();
    LitText(t, "*9" + (t + ")"));
    LitText(t, ")");
    SquareText("9" + t);
    assert "9" + (t + ("*9" + (t + ")"))) == "9" + t + ("*" + ("9" + t + ")"));
  }

  lemma CloseCopied()
    ensures Pass(")") == ")" && !HasMatch(")") && PassDefined(")")
  {
    hide Pass, HasMatch, PassDefined;
    TextCopied(")", "");
    EmptyText();
    assert ")" + "" == ")";
  }

  lemma LitText(t: string, rest: string)
    ensures PrintOnto(Lit(t), rest) == t + rest
  {
  }

  lemma AdjacentPass()
    ensures var s := Witness(Adjacent);
            PassDefined(s) && HasMatch(s) && Pass(s) == PrintOnto(Square(MAX_TEXT + "9"), "")
  {
    hide PassDefined, Pass, HasMatch, MatchMath, ToString, Collapse, PrintOnto, ScanInt, SkipSpace;
    var e, n, t := Largest(), Nine(), MAX_TEXT;
    var x1 := PrintOnto(n, ")");
    var x2 := PrintOnto(e, x1);
    var x3 := PrintOnto(n, "*" + x2);
    var x4 := PrintOnto(e, x3);
    ArithmeticLimits.LargestPlusZeroIsInt();
    NineIsInt();
    PrintedBinStarts(e, x3);
    NoMatchAtTwo(x4);
    ParenthesisCopied(x4);
    PassCollapses(e, x3);
    PassCollapses(n, "*" + x2);
    TextCopied("*", x2);
    PassCollapses(e, x1);
    PassCollapses(n, ")");
    CloseCopied();
    LitText("9", ")");
    LitText(t, "9" + ")");
    LitText("9", "*" + (t + ("9" + ")")));
    LitText(t, "9" + ("*" + (t + ("9" + ")"))));
    SquareText(t + "9");
    assert t + ("9" + ("*" + (t + ("9" + ")")))) == t + "9" + ("*" + (t + "9" + ")"));
  }

  lemma NoMatchAtTwo(s: string)
    requires s != "" && s[0] == '('
    ensures MatchMath("(" + s).NoMatch?
  {
    NoIntAtParenthesis("", s);
    assert "" + s == s && ("(" + s)[1..] == s;
  }

  lemma DigitsStep(n: nat, d: nat)
    requires 0 < n && d < 10
    ensures Digits(10 * n + d) == Digits(n) + [DigitChar(d)]
  {
    assert (10 * n + d) / 10 == n && (10 * n + d) % 10 == d;
  }

  /** A digit behind two numbers of which one has a `9` more in front. */
  lemma NineKept(a: nat, b: nat, d: nat)
    requires 0 < b && b <= a && d < 10 && Digits(a) == "9" + Digits(b)
    ensures Digits(10 * a + d) == "9" + Digits(10 * b + d)
  {
    hide Digits;
    DigitsStep(a, d);
    DigitsStep(b, d);
    assert "9" + Digits(b) + [DigitChar(d)] == "9" + (Digits(b) + [DigitChar(d)]);
  }

  /** `9` in front of the digits of the largest int. */
  lemma NineBefore()
    ensures "9" + MAX_TEXT == ToString(92147483647)
  {
    NineStart();
    hide Digits;
    NineKept(92, 2, 1);
    NineKept(921, 21, 4);
    NineKept(9214, 214, 7);
    NineKept(92147, 2147, 4);
    NineKept(921474, 21474, 8);
    NineKept(9214748, 214748, 3);
    NineKept(92147483, 2147483, 6);
    NineKept(921474836, 21474836, 4);
    NineKept(9214748364, 214748364, 7);
  }

  lemma NineStart()
    ensures Digits(92) == "9" + Digits(2)
  {
    assert Digits(92) == Digits(9) + [DigitChar(2)];
  }

  /** A digit behind the digits of the largest int. */
  lemma DigitAfter(d: char)
    requires IsDigit(d)
    ensures var t := MAX_TEXT + [d]; IsIntText(t) && IntValue(t) == 10 * INT_MAX + DigitValue(d)
  {
    DigitsRoundTrip(INT_MAX);
    var t := Digits(INT_MAX) + [d];
    assert t[..|t| - 1] == Digits(INT_MAX);
    assert forall i :: 0 <= i < |t| ==> IsDigit(t[i]);
  }

  lemma WitnessOverflows(c: Clause)
    ensures PassDefined(Witness(c)) && !PassesDefined(Witness(c), MAX_PASSES)
  {
    hide PassDefined, Pass, HasMatch, PrintOnto, ToString, Witness;
    match c
    case DigitBefore =>
      DigitBeforePass();
      NineBefore();
      ToStringRoundTrip(92147483647);
      LargeSquare("9" + MAX_TEXT);
    case DigitBehind =>
      ArithmeticLimits.GluedDigitsOverflow();
      assert Witness(c) == ArithmeticLimits.GluedDigits() by { WitnessIsGlued(); }
    case Adjacent =>
      AdjacentPass();
      DigitAfter('9');
      LargeSquare(MAX_TEXT + "9");
  }

  lemma WitnessIsGlued()
    ensures Witness(DigitBehind) == ArithmeticLimits.GluedDigits()
  {
  }

  // ---- they meet the rest of the condition ----------------------------------------------------------

  /** Both conditions at once, for a text that more is put in front of. */
  ghost predicate Fits(c: Clause, s: string) { s != "" && UngluedBut(c, s) && SmallNumbers(s) }

  lemma FitsCons(c: Clause, a: char, s: string)
    requires Fits(c, s) && !IsDigit(a) && (GoodPair(a, s[0]) || c.Glues(a, s[0]))
    ensures Fits(c, [a] + s)
  {
    hide SmallNumbers;
    SmallCons(a, s);
    forall i | 0 <= i < |[a] + s| - 1
      ensures GoodPair(([a] + s)[i], ([a] + s)[i + 1]) || c.Glues(([a] + s)[i], ([a] + s)[i + 1])
    {
      if i > 0 {
        assert ([a] + s)[i] == s[i - 1] && ([a] + s)[i + 1] == s[i - 1 + 1];
      }
    }
  }

  lemma {:induction false} DigitsUnglued(c: Clause, t: string, s: string)
    requires AllDigits(t) && s != "" && UngluedBut(c, s)
    requires t != "" ==> GoodPair('0', s[0]) || c.Glues('0', s[0])
    ensures UngluedBut(c, t + s)
  {
    if t == "" {
      assert t + s == s;
    } else {
      DigitsUnglued(c, t[1..], s);
      var rest := t[1..] + s;
      assert t + s == [t[0]] + rest;
      assert rest[0] == if |t| > 1 then t[1] else s[0];
      forall i | 0 <= i < |t + s| - 1
        ensures GoodPair((t + s)[i], (t + s)[i + 1]) || c.Glues((t + s)[i], (t + s)[i + 1])
      {
        if i > 0 {
          assert (t + s)[i] == rest[i - 1] && (t + s)[i + 1] == rest[i - 1 + 1];
        }
      }
    }
  }

  lemma FitsDigits(c: Clause, t: string, s: string)
    requires Fits(c, s) && AllDigits(t) && t != "" && DigitsValue(t) <= LIMIT && !IsDigit(s[0])
    requires GoodPair('0', s[0]) || c.Glues('0', s[0])
    ensures Fits(c, t + s)
  {
    hide SmallNumbers, UngluedBut;
    DigitsUnglued(c, t, s);
    SmallAppend(t, s);
  }

  lemma FitsFormula(c: Clause, left: string, right: string, s: string)
    requires Fits(c, s) && (GoodPair(')', s[0]) || c.Glues(')', s[0]))
    requires AllDigits(left) && left != "" && DigitsValue(left) <= LIMIT
    requires AllDigits(right) && right != "" && DigitsValue(right) <= LIMIT
    ensures var e := Bin('+', Lit(left), Lit(right), ArithmeticLimits.TIGHT);
            Fits(c, PrintOnto(e, s)) && PrintOnto(e, s)[0] == '('
  {
    hide Fits;
    var r1 := ")" + s;
    var r2 := right + r1;
    var r3 := "+" + r2;
    var r4 := left + r3;
    FitsStart(c, s);
    FitsCons(c, ')', s);
    FitsDigits(c, right, r1);
    FitsCons(c, '+', r2);
    FitsDigits(c, left, r3);
    FitsCons(c, '(', r4);
    assert "" + r1 == r1 && "" + r2 == r2 && "" + r3 == r3 && "" + r4 == r4 && ['+'] == "+";
    assert PrintOnto(Lit(right), r1) == r2 && PrintOnto(Lit(left), r3) == r4;
  }

  lemma FitsLargest(c: Clause, s: string)
    requires Fits(c, s) && (GoodPair(')', s[0]) || c.Glues(')', s[0]))
    ensures Fits(c, PrintOnto(Largest(), s)) && PrintOnto(Largest(), s) != "" && PrintOnto(Largest(), s)[0] == '('
  {
    hide Fits, PrintOnto, Digits, DigitsValue;
    Numbers();
    FitsFormula(c, MAX_TEXT, "0", s);
    FitsStart(c, PrintOnto(Largest(), s));
  }

  lemma FitsNine(c: Clause, s: string)
    requires Fits(c, s) && (GoodPair(')', s[0]) || c.Glues(')', s[0]))
    ensures Fits(c, PrintOnto(Nine(), s)) && PrintOnto(Nine(), s) != "" && PrintOnto(Nine(), s)[0] == '('
  {
    hide Fits, PrintOnto, Digits, DigitsValue;
    Numbers();
    FitsFormula(c, "0", "9", s);
    FitsStart(c, PrintOnto(Nine(), s));
  }

  lemma FitsStart(c: Clause, s: string)
    requires Fits(c, s)
    ensures s != ""
  {
  }

  lemma FitsClose(c: Clause)
    ensures Fits(c, ")")
  {
    assert ")"[1..] == "";
  }

  lemma Numbers()
    ensures AllDigits(MAX_TEXT) && MAX_TEXT != "" && DigitsValue(MAX_TEXT) <= LIMIT
    ensures AllDigits("0") && DigitsValue("0") <= LIMIT && AllDigits("9") && DigitsValue("9") <= LIMIT
  {
    DigitsRoundTrip(INT_MAX);
  }

  lemma DigitBeforeFits()
    ensures Fits(DigitBefore, Witness(DigitBefore))
  {
    hide Fits, PrintOnto, DigitsValue, Digits, ToString, Largest, Nine, ArithmeticLimits.GluedDigits;
    var c := DigitBefore;
    Numbers();
    FitsClose(c);
    FitsLargest(c, ")");
    var x := PrintOnto(Largest(), ")");
    FitsDigits(c, "9", x);
    FitsCons(c, '*', "9" + x);
    assert ['*'] + ("9" + x) == "*9" + x;
    FitsLargest(c, "*9" + x);
    var y := PrintOnto(Largest(), "*9" + x);
    FitsDigits(c, "9", y);
    FitsCons(c, '(', "9" + y);
    assert ['('] + ("9" + y) == "(9" + y;
  }

  lemma DigitBehindFits()
    ensures Fits(DigitBehind, Witness(DigitBehind))
  {
    hide Fits, PrintOnto, DigitsValue, Digits, ToString;
    var c := DigitBehind;
    Numbers();
    FitsClose(c);
    FitsDigits(c, "0", ")");
    assert "0" + ")" == "0)";
    FitsLargest(c, "0)");
    var x := PrintOnto(Largest(), "0)");
    FitsCons(c, '*', x);
    FitsDigits(c, "0", "*" + x);
    assert "0" + ("*" + x) == "0*" + x;
    FitsLargest(c, "0*" + x);
    FitsCons(c, '(', PrintOnto(Largest(), "0*" + x));
  }

  lemma AdjacentFits()
    ensures Fits(Adjacent, Witness(Adjacent))
  {
    hide Fits, PrintOnto, DigitsValue, Digits, ToString, Largest, Nine, ArithmeticLimits.GluedDigits;
    var c := Adjacent;
    Numbers();
    FitsClose(c);
    FitsNine(c, ")");
    var x := PrintOnto(Nine(), ")");
    FitsLargest(c, x);
    var y := PrintOnto(Largest(), x);
    FitsCons(c, '*', y);
    FitsNine(c, "*" + y);
    var z := PrintOnto(Nine(), "*" + y);
    FitsLargest(c, z);
    FitsCons(c, '(', PrintOnto(Largest(), z));
  }

  lemma WitnessFits(c: Clause)
    ensures UngluedBut(c, Witness(c)) && SmallNumbers(Witness(c))
  {
    hide UngluedBut, SmallNumbers, Witness;
    match c
    case DigitBefore => DigitBeforeFits();
    case DigitBehind => DigitBehindFits();
    case Adjacent => AdjacentFits();
  }

  /** Without any one clause the condition does not keep all passes safe. */
  lemma EveryClauseIsNeeded(c: Clause)
    ensures UngluedBut(c, Witness(c)) && SmallNumbers(Witness(c)) && !PassesDefined(Witness(c), MAX_PASSES)
  {
    hide UngluedBut, SmallNumbers, PassesDefined, PassDefined, Witness;
    WitnessFits(c);
    WitnessOverflows(c);
  }
}
