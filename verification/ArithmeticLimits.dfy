/** What phase 2 guarantees on every text, not only on printed expressions: progress, a settled
    result, and when its 64-bit arithmetic is safe (src/commands/IfCommand.cpp:183-225). */
module ArithmeticLimits {
  import opened Text
  import opened Decimal
  import opened Arithmetic
  import opened ArithmeticTrees

  function CountOpen(s: string): nat {
    if s == "" then 0 else (if s[0] == '(' then 1 else 0) + CountOpen(s[1..])
  }

  lemma {:induction false} CountOpenAppend(a: string, b: string)
    ensures CountOpen(a + b) == CountOpen(a) + CountOpen(b)
  {
    if a == "" {
      assert a + b == b;
    } else {
      assert (a + b)[1..] == a[1..] + b;
      CountOpenAppend(a[1..], b);
    }
  }

  lemma {:induction false} CountOpenNone(s: string)
    requires '(' !in s
    ensures CountOpen(s) == 0
  {
    if s != "" {
      CountOpenNone(s[1..]);
    }
  }

  lemma CountOpenAtMatch(s: string, rest: string)
    requires IsSuffix(rest, s) && |rest| < |s| && s[0] == '('
    ensures CountOpen(rest) < CountOpen(s)
  {
    var used := s[..|s| - |rest|];
    assert s == used + rest;
    CountOpenAppend(used, rest);
    assert used[0] == '(';
  }

  lemma CountOpenInNumber(v: int)
    ensures CountOpen(ToString(v)) == 0
  {
    ToStringRoundTrip(v);
    IntTextHasNoParenthesis(ToString(v));
    CountOpenNone(ToString(v));
  }

  /** A pass never adds an opening parenthesis, and removes one for a match it finds. */
  lemma {:induction false} PassLowersOpen(s: string)
    ensures CountOpen(Pass(s)) <= CountOpen(s)
    ensures HasMatch(s) ==> CountOpen(Pass(s)) < CountOpen(s)
    decreases |s|
  {
    hide MatchMath, ToString, Reduce;
    if s != "" {
      var m := MatchMath(s);
      if m.Found? {
        PassLowersOpen(m.rest);
        CountOpenAtMatch(s, m.rest);
        CountOpenInNumber(Reduce(m));
        CountOpenAppend(ToString(Reduce(m)), Pass(m.rest));
      } else {
        PassLowersOpen(s[1..]);
        CountOpenAppend([s[0]], Pass(s[1..]));
      }
    }
  }

  lemma {:induction false} PassesSettle(s: string, n: nat)
    requires CountOpen(s) <= n
    ensures !HasMatch(Passes(s, n))
    decreases n
  {
    hide HasMatch, Pass, CountOpen;
    PassLowersOpen(s);
    if HasMatch(s) {
      PassesSettle(Pass(s), n - 1);
    }
  }

  /** With at most sixteen opening parentheses nothing reducible is left, and evaluating the
      result again changes nothing. */
  lemma EvaluateSettles(s: string)
    requires CountOpen(s) <= MAX_PASSES
    ensures !HasMatch(Evaluate(s)) && Evaluate(Evaluate(s)) == Evaluate(s)
  {
    hide CountOpen, HasMatch;
    PassesSettle(s, MAX_PASSES);
  }

  // ---- 64-bit safety on arbitrary text ------------------------------------

  /** Every operand that the pass reads is in the int range. */
  predicate IntOperands(s: string)
    decreases |s|
  {
    s == "" ||
    var m := MatchMath(s);
    if m.Found? then InInt(Operand(m.left)) && InInt(Operand(m.right)) && IntOperands(m.rest)
    else IntOperands(s[1..])
  }

  /** A pass over int-range operands never overflows. */
  lemma {:induction false} IntPassDefined(s: string)
    requires IntOperands(s)
    ensures PassDefined(s)
    decreases |s|
  {
    hide MatchMath, Operand, Exact;
    if s != "" {
      var m := MatchMath(s);
      if m.Found? {
        SmallOperandsDefined(m.op, Operand(m.left), Operand(m.right));
        IntPassDefined(m.rest);
      } else {
        IntPassDefined(s[1..]);
      }
    }
  }

  const TIGHT := Spacing("", "", "", "")

  /** `(2147483647+0)`. */
  function LargestPlusZero(): Expr { Bin('+', Lit(ToString(INT_MAX)), Lit("0"), TIGHT) }

  /** `((2147483647+0)0*(2147483647+0)0)`: no literal exceeds the int range. */
  function GluedDigits(): string {
    "(" + PrintOnto(LargestPlusZero(), "0*" + PrintOnto(LargestPlusZero(), "0)"))
  }

  lemma LargestPlusZeroIsInt()
    ensures ValidExpr(LargestPlusZero()) && Collapse(LargestPlusZero()) == Lit(ToString(INT_MAX))
    ensures IntLiterals(LargestPlusZero())
  {
    ToStringRoundTrip(INT_MAX);
    assert IsIntText("0") && IntValue("0") == 0;
  }

  /** `(21474836470*21474836470)`. */
  function GluedProduct(): Expr {
    Bin('*', Lit(ToString(INT_MAX) + "0"), Lit(ToString(INT_MAX) + "0"), TIGHT)
  }

  lemma GluedStart()
    ensures MatchMath(GluedDigits()).NoMatch?
  {
    var s := PrintOnto(LargestPlusZero(), "0*" + PrintOnto(LargestPlusZero(), "0)"));
    PrintedBinStarts(LargestPlusZero(), "0*" + PrintOnto(LargestPlusZero(), "0)"));
    NoIntAtParenthesis("", s);
    assert "" + s == s && GluedDigits()[1..] == s;
  }

  lemma GluedFirstPass()
    ensures PassDefined(GluedDigits()) && HasMatch(GluedDigits())
    ensures Pass(GluedDigits()) == PrintOnto(GluedProduct(), "")
  {
    hide PassDefined, Pass, HasMatch, MatchMath, ToString, Collapse, ScanInt, SkipSpace;
    var e := LargestPlusZero();
    var inner := PrintOnto(e, "0)");
    LargestPlusZeroIsInt();
    GluedStart();
    ParenthesisCopied(PrintOnto(e, "0*" + inner));
    PassCollapses(e, "0*" + inner);
    TextCopied("0*", inner);
    PassCollapses(e, "0)");
    TextCopied("0)", "");
    EmptyText();
    assert "0)" + "" == "0)";
    assert Pass(GluedDigits()) == "(" + (ToString(INT_MAX) + ("0*" + (ToString(INT_MAX) + "0)")));
  }

  lemma GluedValue()
    ensures var t := ToString(INT_MAX) + "0"; IsIntText(t) && Operand(t) == 10 * INT_MAX
  {
    DigitsRoundTrip(INT_MAX);
    var t := Digits(INT_MAX) + "0";
    assert t[..|t| - 1] == Digits(INT_MAX);
    assert forall i :: 0 <= i < |t| ==> IsDigit(t[i]);
  }

  lemma GluedSecondPass()
    ensures HasMatch(PrintOnto(GluedProduct(), "")) && !PassDefined(PrintOnto(GluedProduct(), ""))
  {
    hide MatchMath, PrintOnto;
    GluedValue();
    assert ValidExpr(GluedProduct());
    InnermostMatches(GluedProduct(), "");
    PrintedBinStarts(GluedProduct(), "");
  }

  /** A result next to a digit forms a longer literal, so int-range literals do not make the
      later passes safe: here the second pass multiplies 21474836470 by itself. */
  lemma GluedDigitsOverflow()
    ensures PassDefined(GluedDigits())
    ensures !PassesDefined(GluedDigits(), MAX_PASSES)
  {
    hide PassDefined, Pass, HasMatch, PrintOnto;
    GluedFirstPass();
    GluedSecondPass();
  }
}
