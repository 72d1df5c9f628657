/** Phase 2 of `Context::interpolate`: rewriting every innermost `(int op int)` of a text
    (src/commands/IfCommand.cpp:171-228). */
module Arithmetic {
  import opened Wrappers
  import opened Text
  import opened Decimal

  const MAX_PASSES := 16

  /** The four operators of the pattern. */
  predicate IsOperator(c: char) { c == '+' || c == '-' || c == '*' || c == '/' }

  /** C++ division truncates toward zero; Dafny's `/` does not. */
  function TruncDiv(a: int, b: int): int
    requires b != 0
  {
    if a >= 0 then (if b > 0 then a / b else -(a / -b))
    else (if b > 0 then -(-a / b) else -a / -b)
  }

  function Abs(x: int): int { if x < 0 then -x else x }

  lemma ProductMonotone(a: nat, b: nat, c: nat)
    requires a <= b
    ensures a * c <= b * c
  {
    assert b * c - a * c == (b - a) * c;
  }

  lemma QuotientBounds(x: nat, y: nat)
    requires y > 0
    ensures 0 <= x - x / y * y < y && 0 <= x / y <= x
  {
    ProductMonotone(1, y, x / y);
  }

  /** The remainder is smaller than the divisor and has the sign of the dividend. */
  lemma TruncDivCharacterized(a: int, b: int)
    requires b != 0
    ensures var r := a - TruncDiv(a, b) * b;
            -Abs(b) < r < Abs(b) && (a >= 0 ==> r >= 0) && (a <= 0 ==> r <= 0)
    ensures Abs(TruncDiv(a, b)) <= Abs(a)
  {
    var q := Abs(a) / Abs(b);
    QuotientBounds(Abs(a), Abs(b));
    var d := TruncDiv(a, b);
    assert d == q || d == -q;
    if a >= 0 {
      assert d * b == q * Abs(b);
    } else {
      assert d * b == -(q * Abs(b));
    }
  }

  /** The exact result of one operation; a division by zero gives 0. */
  function Exact(op: char, a: int, b: int): int {
    if op == '+' then a + b
    else if op == '-' then a - b
    else if op == '*' then a * b
    else if op == '/' then (if b != 0 then TruncDiv(a, b) else 0)
    else 0
  }

  /** The value of an operand: what `stoll` gives, or 0 when it throws. */
  function Operand(t: string): int
    requires IsIntText(t)
  {
    match Stoll(t)
    case Ok(v) => v
    case Err => 0
  }

  /** A match of the pattern at the front of a text, with what follows the match. */
  datatype Match = NoMatch | Found(left: string, op: char, right: string, rest: string)

  /** The end of the pattern: the second integer and the closing parenthesis. */
  function MatchRight(left: string, op: char, s: string): (m: Match)
    ensures m.Found? ==> m.left == left && IsIntText(m.right) && IsSuffix(m.rest, s) && |m.rest| < |s|
  {
    var s1 := SkipSpace(s);
    var right := ScanInt(s1);
    if right.NoInt? then NoMatch
    else
      var s2 := SkipSpace(right.rest);
      if s2 == "" || s2[0] != ')' then NoMatch
      else
        SuffixTransitive(s2[1..], s2, right.rest);
        SuffixTransitive(s2[1..], right.rest, s1);
        SuffixTransitive(s2[1..], s1, s);
        Found(left, op, right.text, s2[1..])
  }

  /** The middle of the pattern: the operator and what follows it. */
  function MatchOp(left: string, s: string): (m: Match)
    ensures m.Found? ==> m.left == left && IsIntText(m.right) && IsSuffix(m.rest, s) && |m.rest| < |s|
  {
    var s1 := SkipSpace(s);
    if s1 == "" || !IsOperator(s1[0]) then NoMatch
    else
      var m := MatchRight(left, s1[0], s1[1..]);
      if m.Found? then
        SuffixTransitive(m.rest, s1[1..], s1);
        SuffixTransitive(m.rest, s1, s);
        m
      else NoMatch
  }

  function MatchMath(s: string): (m: Match)
    ensures m.Found? ==> IsIntText(m.left) && IsIntText(m.right) && s != "" && s[0] == '('
    ensures m.Found? ==> IsSuffix(m.rest, s) && |m.rest| < |s|
  {
    if s == "" || s[0] != '(' then NoMatch
    else
      var s1 := SkipSpace(s[1..]);
      var left := ScanInt(s1);
      if left.NoInt? then NoMatch
      else
        var m := MatchOp(left.text, left.rest);
        if m.Found? then
          SuffixTransitive(m.rest, left.rest, s1);
          SuffixTransitive(m.rest, s1, s[1..]);
          SuffixTransitive(m.rest, s[1..], s);
          m
        else NoMatch
  }

  function Reduce(m: Match): int
    requires m.Found? && IsIntText(m.left) && IsIntText(m.right)
  {
    Clamp(Exact(m.op, Operand(m.left), Operand(m.right)))
  }

  /** One pass: every leftmost, non-overlapping match is replaced by its value. */
  function Pass(s: string): string
    decreases |s|
  {
    if s == "" then ""
    else
      var m := MatchMath(s);
      if m.Found? then ToString(Reduce(m)) + Pass(m.rest) else [s[0]] + Pass(s[1..])
  }

  predicate HasMatch(s: string)
    decreases |s|
  {
    s != "" && (MatchMath(s).Found? || HasMatch(s[1..]))
  }

  /** At most `n` passes, stopping at a text without a match. */
  function Passes(s: string, n: nat): string
    decreases n
  {
    if n == 0 || !HasMatch(s) then s else Passes(Pass(s), n - 1)
  }

  function Evaluate(s: string): string { Passes(s, MAX_PASSES) }

  // ---- undefined behaviour: signed 64-bit overflow ------------------------

  predicate OperationDefined(m: Match)
    requires m.Found? && IsIntText(m.left) && IsIntText(m.right)
  {
    InLongLong(Exact(m.op, Operand(m.left), Operand(m.right)))
  }

  /** No operation that the pass performs overflows 64-bit signed arithmetic. */
  predicate PassDefined(s: string)
    decreases |s|
  {
    s == "" ||
    var m := MatchMath(s);
    if m.Found? then OperationDefined(m) && PassDefined(m.rest) else PassDefined(s[1..])
  }

  predicate PassesDefined(s: string, n: nat)
    decreases n
  {
    n == 0 || !HasMatch(s) || (PassDefined(s) && PassesDefined(Pass(s), n - 1))
  }

  /** Operands of at most 2 to the 31 in absolute value never overflow, for any operator. */
  lemma SmallOperandsDefined(op: char, a: int, b: int)
    requires Abs(a) <= 0x8000_0000 && Abs(b) <= 0x8000_0000
    ensures InLongLong(Exact(op, a, b))
  {
    if op == '/' && b != 0 {
      TruncDivCharacterized(a, b);
    }
    if op == '*' {
      ProductBound(a, b);
    }
  }

  lemma ProductBound(a: int, b: int)
    requires Abs(a) <= 0x8000_0000 && Abs(b) <= 0x8000_0000
    ensures -0x4000_0000_0000_0000 <= a * b <= 0x4000_0000_0000_0000
  {
    ProductMonotone(Abs(a), 0x8000_0000, Abs(b));
    SignedProduct(a, b);
  }

  lemma SignedProduct(a: int, b: int)
    ensures a * b == Abs(a) * Abs(b) || a * b == -(Abs(a) * Abs(b))
    ensures 0 <= Abs(a) * Abs(b)
  {
  }

  // ---- what the signs mean, said without the operations above ---------------------

  ghost predicate IsSign(c: char) { c in "+-*/" }

  /** The quotient that leaves a remainder smaller than `r`, with the sign of `l`. */
  ghost predicate IsQuotient(l: int, r: int, q: int) {
    var m := l - q * r;
    Abs(m) < Abs(r) && (m > 0 ==> l > 0) && (m < 0 ==> l < 0)
  }

  /** What `sign` means on integers; a division by zero gives 0. */
  ghost predicate Means(sign: char, l: int, r: int, v: int) {
    && (sign == '+' ==> v == l + r)
    && (sign == '-' ==> v + r == l)
    && (sign == '*' ==> v == l * r)
    && (sign == '/' ==> if r == 0 then v == 0 else IsQuotient(l, r, v))
  }

  /** The int nearest to `v`: it differs from `v` only at the end of the range that `v` is behind. */
  ghost predicate IsNearestInt(v: int, n: int) {
    -0x8000_0000 <= n < 0x8000_0000 && (v > n ==> n == 0x7FFF_FFFF) && (v < n ==> n == -0x8000_0000)
  }

  lemma QuotientIsUnique(l: int, r: int, p: int, q: int)
    requires r != 0 && IsQuotient(l, r, p) && IsQuotient(l, r, q)
    ensures p == q
  {
    assert (p - q) * r == (l - q * r) - (l - p * r);
    if p != q {
      SignedProduct(p - q, r);
      ProductMonotone(1, Abs(p - q), Abs(r));
    }
  }

  /** The code's operation is what the sign means, and there is no other such number. */
  lemma ExactIsMeaning(sign: char, l: int, r: int, v: int)
    requires IsSign(sign)
    ensures Means(sign, l, r, v) <==> v == Exact(sign, l, r)
  {
    if sign == '/' && r != 0 {
      TruncDivCharacterized(l, r);
      assert IsQuotient(l, r, TruncDiv(l, r));
      if IsQuotient(l, r, v) {
        QuotientIsUnique(l, r, v, TruncDiv(l, r));
      }
    }
  }

  lemma ClampIsNearest(v: int, n: int)
    ensures IsNearestInt(v, n) <==> n == Clamp(v)
  {
    assert IsNearestInt(v, Clamp(v));
  }

  /** The value of a literal: its number, or 0 when it needs more than 64 bits. */
  ghost function Literal(t: string): int
    requires IsIntText(t)
  {
    if -0x8000_0000_0000_0000 <= IntValue(t) < 0x8000_0000_0000_0000 then IntValue(t) else 0
  }

  ghost function Meaning(sign: char, l: int, r: int): (v: int)
    requires IsSign(sign)
    ensures Means(sign, l, r, v)
  {
    hide Means, Exact;
    ExactIsMeaning(sign, l, r, Exact(sign, l, r));
    var v :| Means(sign, l, r, v);
    v
  }

  ghost function NearestInt(v: int): (n: int)
    ensures IsNearestInt(v, n)
  {
    ClampIsNearest(v, Clamp(v));
    var n :| IsNearestInt(v, n);
    n
  }

  /** The int nearest to what `sign` means. */
  ghost function Applied(sign: char, l: int, r: int): int
    requires IsSign(sign)
  {
    NearestInt(Meaning(sign, l, r))
  }

  /** The number that replaces a match is the value of the operation. */
  lemma ReduceIsValue(m: Match)
    requires m.Found? && IsIntText(m.left) && IsIntText(m.right) && IsSign(m.op)
    ensures Reduce(m) == Applied(m.op, Literal(m.left), Literal(m.right))
  {
    hide Exact, Clamp, Means, IsNearestInt;
    var a, b := Literal(m.left), Literal(m.right);
    var v := Meaning(m.op, a, b);
    ExactIsMeaning(m.op, a, b, v);
    ClampIsNearest(v, NearestInt(v));
  }

  // ---- the loops of the source -------------------------------------------

  /** `m` is the first match at or after `from`, and stands at `pos`; without one `pos` is the end. */
  ghost predicate IsNextMatch(s: string, from: nat, pos: nat, m: Match) {
    && from <= pos <= |s|
    && (forall i :: from <= i < pos ==> MatchMath(s[i..]).NoMatch?)
    && if pos < |s| then m.Found? && m == MatchMath(s[pos..]) else m.NoMatch?
  }

  /** The iterator's search. */
  method NextMatch(s: string, from: nat) returns (pos: nat, m: Match)
    requires from <= |s|
    ensures IsNextMatch(s, from, pos, m)
  {
    hide MatchMath;
    pos := from;
    while pos < |s|
      invariant from <= pos <= |s|
      invariant forall i :: from <= i < pos ==> MatchMath(s[i..]).NoMatch?
    {
      m := MatchMath(s[pos..]);
      if m.Found? {
        return;
      }
      pos := pos + 1;
    }
    m := NoMatch;
  }

  lemma PassStep(s: string)
    requires s != "" && MatchMath(s).NoMatch?
    ensures Pass(s) == [s[0]] + Pass(s[1..])
    ensures HasMatch(s) == HasMatch(s[1..])
    ensures PassDefined(s) == PassDefined(s[1..])
  {
    hide MatchMath;
  }

  /** Text without a match is copied. */
  lemma {:induction false} FromNextMatch(s: string, last: nat, pos: nat)
    requires last <= pos <= |s|
    requires forall i :: last <= i < pos ==> MatchMath(s[i..]).NoMatch?
    ensures Pass(s[last..]) == s[last..pos] + Pass(s[pos..])
    ensures HasMatch(s[last..]) == HasMatch(s[pos..])
    ensures PassDefined(s[last..]) == PassDefined(s[pos..])
    decreases pos - last
  {
    hide MatchMath, Pass, HasMatch, PassDefined;
    if last < pos {
      PassStep(s[last..]);
      assert s[last..][1..] == s[last + 1..];
      FromNextMatch(s, last + 1, pos);
      assert s[last..pos] == [s[last]] + s[last + 1..pos];
    }
  }

  lemma PassAtMatch(s: string, pos: nat)
    requires pos < |s|
    ensures MatchMath(s[pos..]).Found? ==>
            var m := MatchMath(s[pos..]);
            var next := |s| - |m.rest|;
            && pos < next <= |s| && m.rest == s[next..] && HasMatch(s[pos..])
            && Pass(s[pos..]) == ToString(Reduce(m)) + Pass(s[next..])
            && (PassDefined(s[pos..]) ==> OperationDefined(m) && PassDefined(s[next..]))
  {
    hide MatchMath;
  }

  /** The value that replaces a match: computed in 64 bits, then clamped to the int range. */
  method ReplacementOf(m: Match) returns (r: int)
    requires m.Found? && IsIntText(m.left) && IsIntText(m.right) && OperationDefined(m)
    ensures r == Reduce(m)
    ensures IsSign(m.op) ==> r == Applied(m.op, Literal(m.left), Literal(m.right))
  {
    if IsSign(m.op) {
      ReduceIsValue(m);
    }
    var a, b := Operand(m.left), Operand(m.right);
    r := Exact(m.op, a, b);
    if r < INT_MIN {
      r := INT_MIN;
    }
    if r > INT_MAX {
      r := INT_MAX;
    }
  }

  /** The text up to the next match, the number in its place, and the pass over what follows. */
  lemma OneMatch(s: string, last: nat, pos: nat, m: Match)
    requires IsNextMatch(s, last, pos, m) && m.Found?
    ensures last <= pos < |s| && |m.rest| < |s| - pos && IsIntText(m.left) && IsIntText(m.right)
    ensures var next := |s| - |m.rest|;
            && HasMatch(s[last..])
            && Pass(s[last..]) == s[last..pos] + (ToString(Reduce(m)) + Pass(s[next..]))
            && (PassDefined(s[last..]) ==> OperationDefined(m) && PassDefined(s[next..]))
  {
    hide MatchMath, Pass, HasMatch, PassDefined, OperationDefined, Reduce, ToString;
    FromNextMatch(s, last, pos);
    PassAtMatch(s, pos);
  }

  /** Behind the last match everything is copied. */
  lemma NoMoreMatches(s: string, last: nat, pos: nat, m: Match)
    requires IsNextMatch(s, last, pos, m) && m.NoMatch?
    ensures last <= |s| && Pass(s[last..]) == s[last..] && !HasMatch(s[last..])
  {
    hide MatchMath, Pass, HasMatch, PassDefined;
    FromNextMatch(s, last, pos);
    EmptyText();
    assert s[pos..] == "" && s[last..pos] + "" == s[last..];
  }

  /** One pass as the source runs it; it keeps `last` and appends to `replaced`. */
  method RunPass(current: string) returns (replaced: string, foundAny: bool)
    requires PassDefined(current)
    ensures replaced == Pass(current) && foundAny == HasMatch(current)
  {
    hide MatchMath, Pass, HasMatch, PassDefined, OperationDefined, Reduce, ToString, IsNextMatch;
    replaced, foundAny := "", false;
    var last := 0;
    assert current[0..] == current;
    var pos, m := NextMatch(current, last);
    while m.Found?
      invariant last <= |current| && IsNextMatch(current, last, pos, m)
      invariant replaced + Pass(current[last..]) == Pass(current)
      invariant PassDefined(current[last..])
      invariant HasMatch(current) == (foundAny || HasMatch(current[last..]))
      decreases |current| - last, if m.Found? then 1 else 0
    {
      OneMatch(current, last, pos, m);
      ghost var done, copied := replaced, current[last..pos];
      foundAny := true;
      replaced := replaced + current[last..pos];
      var r := ReplacementOf(m);
      replaced := replaced + ToString(r);
      last := |current| - |m.rest|;
      ghost var later := Pass(current[last..]);
      assert done + copied + ToString(r) + later == done + (copied + (ToString(r) + later));
      pos, m := NextMatch(current, last);
    }
    NoMoreMatches(current, last, pos, m);
    replaced := replaced + current[last..];
  }

  lemma EmptyText()
    ensures Pass("") == "" && !HasMatch("") && PassDefined("")
  {
  }

  /** The pass loop.  Overflowing 64-bit arithmetic is undefined in C++, so the caller must rule it out. */
  method EvaluateText(afterVars: string) returns (result: string)
    requires PassesDefined(afterVars, MAX_PASSES)
    ensures result == Evaluate(afterVars)
  {
    hide MatchMath, Pass, HasMatch, PassDefined;
    var current := afterVars;
    var pass := 0;
    while pass < MAX_PASSES
      invariant 0 <= pass <= MAX_PASSES
      invariant Passes(current, MAX_PASSES - pass) == Evaluate(afterVars)
      invariant PassesDefined(current, MAX_PASSES - pass)
    {
      if !HasMatch(current) {
        PassWithoutMatch(current);
      }
      var replaced, foundAny := RunPass(current);
      current := replaced;
      if !foundAny {
        break;
      }
      pass := pass + 1;
    }
    result := current;
  }

  /** A pass over a text without a match changes nothing. */
  lemma {:induction false} PassWithoutMatch(s: string)
    requires !HasMatch(s)
    ensures Pass(s) == s && PassDefined(s)
    decreases |s|
  {
    if s != "" {
      PassWithoutMatch(s[1..]);
    }
  }
}
