/** A condition on the text, checked once before phase 2, under which none of its passes overflows 64-bit
    arithmetic (src/commands/IfCommand.cpp:183-225). */
module ArithmeticSafety {
  import opened Text
  import opened Decimal
  import opened Arithmetic
  import opened ArithmeticTrees
  import opened ArithmeticLimits

  const LIMIT := 0x8000_0000

  predicate GoodPair(a: char, b: char) {
    !(IsDigit(a) && b == '(') && !(a == ')' && (IsDigit(b) || b == '('))
  }

  /** No parenthesised text touches a digit or another parenthesised text. */
  ghost predicate Unglued(s: string) { forall i :: 0 <= i < |s| - 1 ==> GoodPair(s[i], s[i + 1]) }

  /** Every run of digits has a value of at most 2 to the 31. */
  predicate SmallNumbers(s: string) {
    s == "" || (DigitsValue(s[..Run(s, IsDigit)]) <= LIMIT && SmallNumbers(s[1..]))
  }

  // ---- small numbers make a pass safe ------------------------------------------------------

  lemma {:induction false} SmallSuffix(r: string, s: string)
    requires SmallNumbers(s) && IsSuffix(r, s)
    ensures SmallNumbers(r)
  {
    if |r| < |s| {
      SmallSuffix(r, s[1..]);
    } else {
      assert r == s;
    }
  }

  lemma SmallScan(s: string)
    requires SmallNumbers(s) && ScanInt(s).IntFound?
    ensures Abs(IntValue(ScanInt(s).text)) <= LIMIT && SmallNumbers(ScanInt(s).rest)
  {
    var m := ScanInt(s);
    SmallSuffix(m.rest, s);
    if s[0] == '-' {
      var n := Run(s[1..], IsDigit);
      assert m.text == s[..n + 1] && m.text[1..] == s[1..][..n];
      assert SmallNumbers(s[1..]);
    } else {
      assert s[0..] == s && m.text == s[..Run(s, IsDigit)];
      assert IsDigit(m.text[0]);
    }
  }

  lemma SmallSkip(s: string)
    requires SmallNumbers(s)
    ensures SmallNumbers(SkipSpace(s))
  {
    SmallSuffix(SkipSpace(s), s);
  }

  lemma SmallRight(left: string, op: char, s: string)
    requires SmallNumbers(s)
    ensures MatchRight(left, op, s).Found? ==> Abs(Operand(MatchRight(left, op, s).right)) <= LIMIT
  {
    hide ScanInt, SkipSpace;
    SmallSkip(s);
    if ScanInt(SkipSpace(s)).IntFound? {
      SmallScan(SkipSpace(s));
    }
  }

  lemma SmallMatch(s: string)
    requires SmallNumbers(s)
    ensures MatchMath(s).Found? ==>
              Abs(Operand(MatchMath(s).left)) <= LIMIT && Abs(Operand(MatchMath(s).right)) <= LIMIT
  {
    hide ScanInt, SkipSpace, MatchRight;
    if MatchMath(s).Found? {
      var s1 := SkipSpace(s[1..]);
      SmallSkip(s[1..]);
      SmallScan(s1);
      var left := ScanInt(s1);
      MatchOpFound(left.text, left.rest);
      var s2 := SkipSpace(left.rest);
      SmallSkip(left.rest);
      SmallSuffix(s2[1..], s2);
      SmallRight(left.text, s2[0], s2[1..]);
    }
  }

  lemma MatchOpFound(left: string, s: string)
    ensures MatchOp(left, s).Found? ==>
            var s1 := SkipSpace(s);
            s1 != "" && IsOperator(s1[0])
            && MatchOp(left, s) == MatchRight(left, s1[0], s1[1..])
  {
  }

  lemma {:induction false} SmallPassDefined(s: string)
    requires SmallNumbers(s)
    ensures PassDefined(s)
    decreases |s|
  {
    hide MatchMath, Operand, Exact;
    if s != "" {
      var m := MatchMath(s);
      if m.Found? {
        SmallMatch(s);
        SmallOperandsDefined(m.op, Operand(m.left), Operand(m.right));
        SmallSuffix(m.rest, s);
        SmallPassDefined(m.rest);
      } else {
        SmallPassDefined(s[1..]);
      }
    }
  }

  // ---- a pass keeps the numbers small ----------------------------------------------------------

  /** A match ends with `)`. */
  lemma MatchEnd(s: string)
    ensures MatchMath(s).Found? ==>
            var k := |s| - |MatchMath(s).rest|;
            0 < k && s[k - 1] == ')' && MatchMath(s).rest == s[k..]
  {
    hide ScanInt, SkipSpace, MatchRight;
    if MatchMath(s).Found? {
      var s1 := SkipSpace(s[1..]);
      var left := ScanInt(s1);
      MatchOpFound(left.text, left.rest);
      var s2 := SkipSpace(left.rest);
      RightEnd(left.text, s2[0], s2[1..]);
      var r := MatchMath(s).rest;
      SuffixByte(r, s2[1..], s2);
      SuffixByte(r, s2, left.rest);
      SuffixByte(r, left.rest, s1);
      SuffixByte(r, s1, s[1..]);
      SuffixByte(r, s[1..], s);
    }
  }

  lemma RightEnd(left: string, op: char, s: string)
    ensures MatchRight(left, op, s).Found? ==> BehindParenthesis(MatchRight(left, op, s).rest, s)
  {
    hide ScanInt, SkipSpace;
    if MatchRight(left, op, s).Found? {
      var s1 := SkipSpace(s);
      var right := ScanInt(s1);
      var s2 := SkipSpace(right.rest);
      var r := MatchRight(left, op, s).rest;
      assert r == s2[1..];
      SuffixByte(r, s2, right.rest);
      SuffixByte(r, right.rest, s1);
      SuffixByte(r, s1, s);
    }
  }

  /** `r` ends `s` and a `)` stands in front of it. */
  ghost predicate BehindParenthesis(r: string, s: string) {
    IsSuffix(r, s) && |r| < |s| && s[|s| - |r| - 1] == ')'
  }

  lemma SuffixByte(r: string, a: string, b: string)
    requires BehindParenthesis(r, a) && IsSuffix(a, b)
    ensures BehindParenthesis(r, b)
  {
    SuffixTransitive(r, a, b);
    assert b[|b| - |a|..][|a| - |r| - 1] == b[|b| - |r| - 1];
  }

  lemma UngluedSuffix(s: string, k: nat)
    requires Unglued(s) && k <= |s|
    ensures Unglued(s[k..])
  {
    forall i | 0 <= i < |s[k..]| - 1 ensures GoodPair(s[k..][i], s[k..][i + 1]) {
      assert GoodPair(s[k + i], s[k + i + 1]);
    }
  }

  predicate IsNumberByte(c: char) { IsDigit(c) || c == '-' }

  lemma NumberBytes(v: int)
    ensures ToString(v) != "" && All(ToString(v), IsNumberByte) && IsDigit(ToString(v)[|ToString(v)| - 1])
  {
    DigitsRoundTrip(if v < 0 then -v else v);
  }

  /** The first byte of a pass. */
  lemma PassStart(s: string)
    ensures s == "" ==> Pass(s) == ""
    ensures s != "" && MatchMath(s).NoMatch? ==> Pass(s) != "" && Pass(s)[0] == s[0]
    ensures MatchMath(s).Found? ==> s != "" && s[0] == '(' && Pass(s) != "" && IsNumberByte(Pass(s)[0])
  {
    hide MatchMath, ToString, Reduce;
    if MatchMath(s).Found? {
      NumberBytes(Reduce(MatchMath(s)));
    }
  }

  /** Behind a match nothing continues the number that replaces it. */
  lemma BehindMatch(s: string)
    requires Unglued(s)
    ensures MatchMath(s).Found? ==>
            var rest := MatchMath(s).rest;
            Unglued(rest) && StopsAt(Pass(rest), IsDigit) && (Pass(rest) != "" ==> Pass(rest)[0] != '(')
  {
    hide MatchMath, Pass;
    if MatchMath(s).Found? {
      var rest := MatchMath(s).rest;
      MatchEnd(s);
      var k := |s| - |rest|;
      UngluedSuffix(s, k);
      PassStart(rest);
      if rest != "" {
        assert GoodPair(s[k - 1], s[k]) && rest[0] == s[k];
      }
    }
  }

  /** A byte that is copied does not touch a number that the pass writes. */
  lemma BehindCopied(s: string)
    requires Unglued(s) && s != ""
    ensures Unglued(s[1..])
    ensures Pass(s[1..]) != "" ==> GoodPair(s[0], Pass(s[1..])[0])
    ensures IsDigit(s[0]) && StopsAt(s[1..], IsDigit) ==> StopsAt(Pass(s[1..]), IsDigit)
  {
    hide MatchMath, Pass;
    UngluedSuffix(s, 1);
    PassStart(s[1..]);
    if |s| > 1 {
      assert GoodPair(s[0], s[0 + 1]);
    }
  }

  lemma {:induction false} PassUnglued(s: string)
    requires Unglued(s)
    ensures Unglued(Pass(s))
    decreases |s|
  {
    hide MatchMath, ToString, Reduce, Unglued;
    if s == "" {
      assert Unglued("") by { NothingGlued(); }
    } else if MatchMath(s).Found? {
      var m := MatchMath(s);
      BehindMatch(s);
      PassUnglued(m.rest);
      NumberBytes(Reduce(m));
      UngluedAppend(ToString(Reduce(m)), Pass(m.rest));
    } else {
      BehindCopied(s);
      PassUnglued(s[1..]);
      UngluedCons(s[0], Pass(s[1..]));
    }
  }

  lemma NothingGlued()
    ensures Unglued("")
  {
  }

  lemma UngluedCons(c: char, p: string)
    requires Unglued(p) && (p != "" ==> GoodPair(c, p[0]))
    ensures Unglued([c] + p)
  {
    forall i | 0 <= i < |[c] + p| - 1 ensures GoodPair(([c] + p)[i], ([c] + p)[i + 1]) {
      if i > 0 {
        assert GoodPair(p[i - 1], p[i - 1 + 1]);
      }
    }
  }

  lemma {:induction false} UngluedAppend(t: string, p: string)
    requires All(t, IsNumberByte) && Unglued(p) && (p != "" ==> p[0] != '(')
    ensures Unglued(t + p)
  {
    if t == "" {
      assert t + p == p;
    } else {
      var rest := t[1..] + p;
      UngluedAppend(t[1..], p);
      assert t + p == [t[0]] + rest;
      assert |t| > 1 ==> rest[0] == t[1];
      UngluedCons(t[0], rest);
    }
  }

  lemma {:induction false} TailValue(t: string)
    requires AllDigits(t) && t != ""
    ensures AllDigits(t[1..]) && DigitsValue(t[1..]) <= DigitsValue(t)
  {
    if |t| > 1 {
      TailValue(t[..|t| - 1]);
      assert t[..|t| - 1][1..] == t[1..][..|t| - 2];
    }
  }

  lemma SmallFirst(s: string, n: nat)
    requires s != "" && Run(s, IsDigit) == n && DigitsValue(s[..n]) <= LIMIT && SmallNumbers(s[1..])
    ensures SmallNumbers(s)
  {
  }

  lemma {:induction false} SmallAppend(t: string, p: string)
    requires AllDigits(t) && DigitsValue(t) <= LIMIT && SmallNumbers(p) && StopsAt(p, IsDigit)
    ensures SmallNumbers(t + p)
  {
    hide SmallNumbers, Run, DigitsValue;
    if t == "" {
      assert t + p == p;
    } else {
      TailValue(t);
      SmallAppend(t[1..], p);
      assert (t + p)[1..] == t[1..] + p;
      RunAppend(t, p, IsDigit);
      assert (t + p)[..|t|] == t;
      SmallFirst(t + p, |t|);
    }
  }

  lemma SmallNumber(v: int, p: string)
    requires Abs(v) <= LIMIT && SmallNumbers(p) && StopsAt(p, IsDigit)
    ensures SmallNumbers(ToString(v) + p)
  {
    hide SmallNumbers;
    var d := Digits(if v < 0 then -v else v);
    DigitsRoundTrip(if v < 0 then -v else v);
    SmallAppend(d, p);
    if v < 0 {
      assert ToString(v) + p == "-" + (d + p);
      SmallCons('-', d + p);
    }
  }

  lemma ReducedIsSmall(m: Match)
    requires m.Found? && IsIntText(m.left) && IsIntText(m.right)
    ensures Abs(Reduce(m)) <= LIMIT
  {
    hide Exact, Operand;
  }

  lemma SmallCons(c: char, p: string)
    requires SmallNumbers(p) && !IsDigit(c)
    ensures SmallNumbers([c] + p)
  {
    assert ([c] + p)[1..] == p;
  }

  /** A digit in front of a text lengthens its run of digits. */
  lemma RunCons(c: char, p: string)
    requires IsDigit(c)
    ensures Run([c] + p, IsDigit) == 1 + Run(p, IsDigit)
    ensures ([c] + p)[..1 + Run(p, IsDigit)] == [c] + p[..Run(p, IsDigit)]
  {
    assert ([c] + p)[1..] == p;
  }

  lemma NoRun(p: string)
    requires StopsAt(p, IsDigit)
    ensures Run(p, IsDigit) == 0 && p[..0] == ""
  {
  }

  lemma DigitCopied(s: string)
    requires s != "" && IsDigit(s[0])
    ensures Pass(s) == [s[0]] + Pass(s[1..]) && s == [s[0]] + s[1..]
  {
    hide MatchMath, Pass;
    assert MatchMath(s).NoMatch?;
    PassStep(s);
  }

  /** The digits at the front of a text are copied, and nothing is added to them. */
  lemma {:induction false} LeadingRun(s: string)
    requires Unglued(s) && s != "" && IsDigit(s[0])
    ensures var n := Run(s, IsDigit); Run(Pass(s), IsDigit) == n && n <= |Pass(s)| && Pass(s)[..n] == s[..n]
    decreases |s|
  {
    hide Unglued, Pass, Run;
    var rest := s[1..];
    var p := Pass(rest);
    BehindCopied(s);
    DigitCopied(s);
    RunCons(s[0], rest);
    RunCons(s[0], p);
    if rest != "" && IsDigit(rest[0]) {
      LeadingRun(rest);
    } else {
      NoRun(rest);
      NoRun(p);
    }
  }

  lemma {:induction false} PassSmall(s: string)
    requires Unglued(s) && SmallNumbers(s)
    ensures SmallNumbers(Pass(s))
    decreases |s|
  {
    hide MatchMath, ToString, Reduce, Unglued;
    if s != "" {
      var m := MatchMath(s);
      if m.Found? {
        BehindMatch(s);
        SmallSuffix(m.rest, s);
        PassSmall(m.rest);
        assert Abs(Reduce(m)) <= LIMIT by { ReducedIsSmall(m); }
        SmallNumber(Reduce(m), Pass(m.rest));
      } else {
        BehindCopied(s);
        PassSmall(s[1..]);
        var p := Pass(s[1..]);
        assert Pass(s) == [s[0]] + p && ([s[0]] + p)[1..] == p;
        if IsDigit(s[0]) {
          LeadingRun(s);
        }
      }
    }
  }

  /** When no parenthesised text touches a digit or another one and every number of the text is small,
      no pass overflows, however many there are. */
  lemma {:induction false} UngluedIsSafe(s: string, n: nat)
    requires Unglued(s) && SmallNumbers(s)
    ensures PassesDefined(s, n)
    decreases n
  {
    hide Unglued, SmallNumbers, PassDefined, Pass, HasMatch;
    SmallPassDefined(s);
    if n > 0 && HasMatch(s) {
      PassUnglued(s);
      PassSmall(s);
      UngluedIsSafe(Pass(s), n - 1);
    }
  }

  /** The condition rejects the text whose second pass overflows. */
  lemma GluedIsRejected()
    ensures !Unglued(GluedDigits())
  {
    hide ToString;
    var t := ToString(INT_MAX);
    var rest := "0*" + PrintOnto(LargestPlusZero(), "0)");
    var s := GluedDigits();
    var r1 := ")" + rest;
    var r2 := "0" + r1;
    var r3 := "+" + r2;
    assert "" + r1 == r1 && "" + r2 == r2 && "" + r3 == r3 && "" + (t + r3) == t + r3 && ['+'] == "+";
    assert PrintOnto(Lit("0"), r1) == r2 && PrintOnto(Lit(t), r3) == t + r3;
    assert PrintOnto(LargestPlusZero(), rest) == "(" + (t + r3);
    assert s == "(" + ("(" + (t + r3));
    var i := |t| + 4;
    assert s[i] == ')' && s[i + 1] == rest[0] == '0';
    assert !GoodPair(s[i], s[i + 1]);
  }
}
