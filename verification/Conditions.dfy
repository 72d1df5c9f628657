/** The text of an If condition (src/commands/IfCommand.cpp:258-330). */
module Conditions {
  import opened Wrappers
  import opened Text
  import opened Decimal
  import opened Arithmetic
  import ScriptLines
  import ScriptParser

  datatype Comparator = Equal | NotEqual | AtLeast | AtMost | Greater | Less {
    predicate Holds(a: int, b: int) {
      match this
      case Equal => a == b
      case NotEqual => a != b
      case AtLeast => a >= b
      case AtMost => a <= b
      case Greater => a > b
      case Less => a < b
    }
  }

  /** A drawn number or a variable, compared with a number. */
  datatype Condition =
    | Drawn(min: int, max: int, op: Comparator, value: int)
    | Compared(name: string, op: Comparator, value: int)

  /** `safe_stoi`: the value in 64 bits, clamped to the int range; 0 when it does not fit in 64 bits. */
  function SafeStoi(t: string): int
    requires IsIntText(t)
  {
    Clamp(Operand(t))
  }

  function ScanComparator(s: string): Option<(Comparator, string)> {
    if |s| >= 2 && s[..2] == "==" then Some((Equal, s[2..]))
    else if |s| >= 1 && s[0] == '=' then Some((Equal, s[1..]))
    else if |s| >= 2 && s[..2] == "!=" then Some((NotEqual, s[2..]))
    else if |s| >= 2 && s[..2] == ">=" then Some((AtLeast, s[2..]))
    else if |s| >= 2 && s[..2] == "<=" then Some((AtMost, s[2..]))
    else if |s| >= 1 && s[0] == '>' then Some((Greater, s[1..]))
    else if |s| >= 1 && s[0] == '<' then Some((Less, s[1..]))
    else None
  }

  /** `\s*(==|=|...)\s*(-?\d+)\s*$`. */
  function ComparisonTail(s: string): Option<(Comparator, int)> {
    match ScanComparator(SkipSpace(s))
    case None => None
    case Some((op, rest)) =>
      var n := ScanInt(SkipSpace(rest));
      if n.IntFound? && SkipSpace(n.rest) == "" then Some((op, SafeStoi(n.text))) else None
  }

  /** `random(min, max)`, in any letter case, and a comparison. */
  function ParseDrawn(s: string): Option<Condition> {
    var t := SkipSpace(s);
    if |t| < 7 || ScriptLines.Lower(t[..7]) != "random(" then None
    else
      var lo := ScanInt(SkipSpace(t[7..]));
      if lo.NoInt? then None
      else
        match ScriptParser.AfterComma(lo.rest)
        case None => None
        case Some(s2) =>
          var hi := ScanInt(s2);
          if hi.NoInt? || !StartsWithClose(SkipSpace(hi.rest)) then None
          else
            match ComparisonTail(SkipSpace(hi.rest)[1..])
            case None => None
            case Some((op, v)) => Some(Drawn(SafeStoi(lo.text), SafeStoi(hi.text), op, v))
  }

  predicate StartsWithClose(s: string) { s != "" && s[0] == ')' }

  /** A variable name and a comparison. */
  function ParseCompared(s: string): Option<Condition> {
    var t := SkipSpace(s);
    var n := ScriptParser.IdentifierLength(t);
    if n == 0 then None
    else
      match ComparisonTail(t[n..])
      case None => None
      case Some((op, v)) => Some(Compared(t[..n], op, v))
  }

  /** The condition a text stands for; `None` stands for the exception. */
  function ParseCondition(s: string): Option<Condition> {
    match ParseDrawn(s)
    case Some(c) => Some(c)
    case None => ParseCompared(s)
  }

  // ---- conditions as they are written -----------------------------------------------

  /** What a written sign says of two integers. */
  ghost predicate Truth(sign: string, a: int, b: int) {
    && (sign == "=" || sign == "==" ==> a == b)
    && (sign == "!=" ==> a < b || a > b)
    && (sign == ">=" ==> !(a < b))
    && (sign == "<=" ==> !(a > b))
    && (sign == ">" ==> a > b)
    && (sign == "<" ==> a < b)
  }

  const SIGNS: seq<string> := ["=", "==", "!=", ">=", "<=", ">", "<"]

  /** The number of a numeral: the nearest int, or 0 when the numeral needs more than 64 bits. */
  ghost function Number(t: string): int
    requires IsIntText(t)
  {
    NearestInt(Literal(t))
  }

  /** A sign and a number, with white space before, between and behind. */
  datatype Tail = Tail(before: string, sign: string, after: string, number: string, end: string) {
    ghost predicate Valid() {
      All(before, IsSpace) && sign in SIGNS && All(after, IsSpace) && IsIntText(number) && All(end, IsSpace)
    }

    function Text(): string { before + (sign + (after + (number + end))) }
  }

  /** A condition: a variable, or `random(low, high)` in any letter case, and what it is compared with.
      White space may stand anywhere but inside names, numbers and signs, and not before the `(`. */
  datatype Written =
    | Variable(front: string, name: string, tail: Tail)
    | Draw(front: string, word: string, open: string, low: string, before: string, after: string, high: string,
           close: string, tail: Tail)
  {
    ghost predicate Valid() {
      && All(front, IsSpace) && tail.Valid()
      && match this
         case Variable(_, name, _) => name != "" && IsWordStart(name[0]) && All(name, IsWord)
         case Draw(_, word, open, low, before, after, high, close, _) =>
           && ScriptLines.Lower(word) == "random(" && IsIntText(low) && IsIntText(high)
           && All(open, IsSpace) && All(before, IsSpace) && All(after, IsSpace) && All(close, IsSpace)
    }

    function Text(): string {
      match this
      case Variable(front, name, tail) => front + (name + tail.Text())
      case Draw(front, word, open, low, before, after, high, close, tail) =>
        front + (word + (open + (low + (before + ("," + (after + (high + (close + (")" + tail.Text())))))))))
    }
  }

  /** The comparator decides what the sign says. */
  ghost predicate Decides(op: Comparator, sign: string) {
    forall a, b :: op.Holds(a, b) <==> Truth(sign, a, b)
  }

  // ---- every written condition is read as what it says ---------------------------------

  lemma SafeStoiIsNumber(t: string)
    requires IsIntText(t)
    ensures SafeStoi(t) == Number(t)
  {
    hide Clamp, IsNearestInt;
    ClampIsNearest(Literal(t), NearestInt(Literal(t)));
  }

  lemma SignBack(sign: string, rest: string)
    requires sign in SIGNS && rest != "" && rest[0] != '='
    ensures var r := ScanComparator(sign + rest); r.Some? && r.value.1 == rest && Decides(r.value.0, sign)
  {
    var s := sign + rest;
    assert s[|sign|..] == rest && s[0] == sign[0];
    assert |sign| == 2 ==> s[..2] == sign;
    assert |sign| == 1 ==> s[1] == rest[0] && s[..2][1] == rest[0];
  }

  lemma SignStops(sign: string, rest: string)
    requires sign in SIGNS
    ensures StopsAt(sign + rest, IsSpace) && StopsAt(sign + rest, IsWord)
  {
    assert (sign + rest)[0] == sign[0];
  }

  lemma NumeralStarts(t: string, rest: string)
    requires IsIntText(t)
    ensures StopsAt(t + rest, IsSpace) && t + rest != "" && (t + rest)[0] != '='
  {
    assert (t + rest)[0] == t[0];
    if t[0] != '-' {
      assert IsDigit(t[0]);
    }
  }

  lemma SpacesThen(w: string, s: string)
    requires All(w, IsSpace) && s != "" && s[0] != '='
    ensures w + s != "" && (w + s)[0] != '='
  {
    assert (w + s)[0] == if w == "" then s[0] else w[0];
  }

  lemma SpacesSkipped(w: string)
    requires All(w, IsSpace)
    ensures SkipSpace(w) == "" && StopsAt(w, IsDigit)
  {
    SkipSpaceAppend(w, "");
    assert w + "" == w;
  }

  lemma TailBack(tail: Tail)
    requires tail.Valid()
    ensures var r := ComparisonTail(tail.Text());
            r.Some? && r.value.1 == Number(tail.number) && Decides(r.value.0, tail.sign)
  {
    hide ScanComparator, ScanInt, SkipSpace, SafeStoi, Number, Decides;
    var s3 := tail.number + tail.end;
    var s2 := tail.after + s3;
    SignStops(tail.sign, s2);
    SkipSpaceAppend(tail.before, tail.sign + s2);
    NumeralStarts(tail.number, tail.end);
    SpacesThen(tail.after, s3);
    SignBack(tail.sign, s2);
    SkipSpaceAppend(tail.after, s3);
    SpacesSkipped(tail.end);
    ScanIntAppend(tail.number, tail.end);
    SafeStoiIsNumber(tail.number);
  }

  lemma TailStops(tail: Tail)
    requires tail.Valid()
    ensures tail.Text() != "" && StopsAt(tail.Text(), IsWord)
    ensures IsSpace(tail.Text()[0]) || tail.Text()[0] in "=!<>"
  {
    SignStops(tail.sign, tail.after + (tail.number + tail.end));
    if tail.before != "" {
      assert tail.Text()[0] == tail.before[0];
    } else {
      assert tail.Text()[0] == tail.sign[0];
    }
  }

  /** A name is never taken for a draw, not even `random`. */
  lemma NoDraw(name: string, rest: string)
    requires name != "" && All(name, IsWord) && rest != "" && (IsSpace(rest[0]) || rest[0] in "=!<>")
    ensures |name + rest| >= 7 ==> ScriptLines.Lower((name + rest)[..7]) != "random("
  {
    hide IsWord;
    var s := name + rest;
    var w := "random(";
    if |s| >= 7 {
      var k := if |name| >= 7 then 6 else |name|;
      assert s[..7][k] == s[k] == if |name| >= 7 then name[6] else rest[0];
      assert ScriptLines.Lower(s[..7])[k] == ScriptLines.LowerChar(s[k]);
      NotInWord(s[k], k);
    }
  }

  lemma NotInWord(c: char, k: nat)
    requires k < 7 && (IsSpace(c) || c in "=!<>" || (k == 6 && IsWord(c)))
    ensures ScriptLines.LowerChar(c) != "random("[k]
  {
  }

  lemma VariableBack(w: Written)
    requires w.Valid() && w.Variable?
    ensures var r := ParseCondition(w.Text());
            && r.Some? && r.value.Compared? && r.value.name == w.name
            && r.value.value == Number(w.tail.number) && Decides(r.value.op, w.tail.sign)
  {
    hide SkipSpace, Decides, Number, ComparisonTail, ScriptLines.Lower, Tail.Text, Tail.Valid;
    var tail := w.tail.Text();
    var s := w.name + tail;
    TailStops(w.tail);
    assert IsWord(s[0]) && s[0] == w.name[0];
    SkipSpaceAppend(w.front, s);
    RunAppend(w.name, tail, IsWord);
    assert s[..|w.name|] == w.name && s[|w.name|..] == tail;
    TailBack(w.tail);
    NoDraw(w.name, tail);
  }

  /** An integer behind white space, up to something that is no digit. */
  lemma NumeralThen(w: string, t: string, rest: string)
    requires All(w, IsSpace) && IsIntText(t) && StopsAt(rest, IsDigit)
    ensures ScanInt(SkipSpace(w + (t + rest))) == IntFound(t, rest)
  {
    hide ScanInt, SkipSpace;
    NumeralStarts(t, rest);
    SkipSpaceAppend(w, t + rest);
    ScanIntAppend(t, rest);
  }

  /** White space and a character that is neither space nor digit. */
  lemma MarkThen(w: string, c: char, rest: string)
    requires All(w, IsSpace) && !IsSpace(c) && !IsDigit(c)
    ensures StopsAt(w + ([c] + rest), IsDigit) && SkipSpace(w + ([c] + rest)) == [c] + rest && ([c] + rest)[1..] == rest
  {
    SkipSpaceAppend(w, [c] + rest);
    assert (w + ([c] + rest))[0] == if w == "" then c else w[0];
  }

  lemma WordThen(front: string, word: string, rest: string)
    requires All(front, IsSpace) && ScriptLines.Lower(word) == "random("
    ensures var t := SkipSpace(front + (word + rest)); |t| >= 7 && t[..7] == word && t[7..] == rest
  {
    hide SkipSpace;
    var s := word + rest;
    assert ScriptLines.LowerChar(word[0]) == "random("[0] == 'r';
    assert s[0] == word[0] && !IsSpace(s[0]);
    SkipSpaceAppend(front, s);
    assert s[..7] == word && s[7..] == rest;
  }

  lemma CommaThen(before: string, rest: string)
    requires All(before, IsSpace)
    ensures ScriptParser.AfterComma(before + ("," + rest)) == Some(SkipSpace(rest))
  {
    hide SkipSpace;
    MarkThen(before, ',', rest);
  }

  /** The steps of the pattern of a draw, one behind the other. */
  lemma DrawSteps(s: string, s1: string, low: string, s2: string, s3: string, high: string, s4: string, s5: string)
    requires var t := SkipSpace(s); |t| >= 7 && ScriptLines.Lower(t[..7]) == "random(" && t[7..] == s1
    requires ScanInt(SkipSpace(s1)) == IntFound(low, s2) && ScriptParser.AfterComma(s2) == Some(SkipSpace(s3))
    requires ScanInt(SkipSpace(s3)) == IntFound(high, s4) && SkipSpace(s4) == ")" + s5
    ensures IsIntText(low) && IsIntText(high)
    ensures ComparisonTail(s5).Some? ==>
              var r := ComparisonTail(s5).value;
              ParseCondition(s) == Some(Drawn(SafeStoi(low), SafeStoi(high), r.0, r.1))
  {
    hide SkipSpace, ScanInt, ComparisonTail, SafeStoi, ParseCompared, ScriptLines.Lower, ScriptParser.AfterComma;
    assert (")" + s5)[1..] == s5;
  }

  lemma DrawBack(w: Written)
    requires w.Valid() && w.Draw?
    ensures var r := ParseCondition(w.Text());
            && r.Some? && r.value.Drawn? && r.value.min == Number(w.low) && r.value.max == Number(w.high)
            && r.value.value == Number(w.tail.number) && Decides(r.value.op, w.tail.sign)
  {
    hide SkipSpace, ScanInt, Decides, Number, ComparisonTail, SafeStoi, ParseCondition, ScriptLines.Lower,
         ScriptParser.AfterComma, Tail.Text, Tail.Valid;
    var s5 := w.tail.Text();
    var s4 := w.close + (")" + s5);
    var s3 := w.after + (w.high + s4);
    var s2 := w.before + ("," + s3);
    var s1 := w.open + (w.low + s2);
    WordThen(w.front, w.word, s1);
    MarkThen(w.before, ',', s3);
    NumeralThen(w.open, w.low, s2);
    CommaThen(w.before, s3);
    MarkThen(w.close, ')', s5);
    NumeralThen(w.after, w.high, s4);
    DrawSteps(w.Text(), s1, w.low, s2, s3, w.high, s4, s5);
    TailBack(w.tail);
    SafeStoiIsNumber(w.low);
    SafeStoiIsNumber(w.high);
  }

  // ---- and there are no other conditions -------------------------------------------------

  lemma SignShape(s: string)
    requires ScanComparator(s).Some?
    ensures exists sign :: sign in SIGNS && s == sign + ScanComparator(s).value.1
  {
    var rest := ScanComparator(s).value.1;
    var sign := s[..|s| - |rest|];
    assert SIGNS[0] == "=" && SIGNS[1] == "==" && SIGNS[2] == "!=" && SIGNS[3] == ">=" && SIGNS[4] == "<="
           && SIGNS[5] == ">" && SIGNS[6] == "<";
    assert s == sign + rest;
    assert |sign| == 1 ==> sign == [s[0]];
  }

  lemma TailShape(s: string)
    requires ComparisonTail(s).Some?
    ensures exists tail: Tail :: tail.Valid() && s == tail.Text()
  {
    hide ScanComparator, ScanInt, SkipSpace, SafeStoi, Skipped;
    var s1 := SkipSpace(s);
    SignShape(s1);
    var rest := ScanComparator(s1).value.1;
    var sign :| sign in SIGNS && s1 == sign + rest;
    var n := ScanInt(SkipSpace(rest));
    var tail := Tail(Skipped(s), sign, Skipped(rest), n.text, Skipped(n.rest));
    assert n.rest == tail.end + "" == tail.end;
    assert tail.Valid() && s == tail.Text();
  }

  lemma VariableShape(s: string)
    requires ParseCompared(s).Some?
    ensures exists w: Written :: w.Valid() && s == w.Text()
  {
    hide SkipSpace, Skipped, ComparisonTail, Run, Tail.Valid, Tail.Text;
    var t := SkipSpace(s);
    var n := ScriptParser.IdentifierLength(t);
    TailShape(t[n..]);
    var tail: Tail :| tail.Valid() && t[n..] == tail.Text();
    var w := Variable(Skipped(s), t[..n], tail);
    assert w.name[0] == t[0];
    assert t == t[..n] + t[n..];
    assert w.Valid() && s == w.Text();
  }

  lemma CommaShape(s: string)
    requires ScriptParser.AfterComma(s).Some?
    ensures exists before, after ::
              All(before, IsSpace) && All(after, IsSpace)
              && s == before + ("," + (after + ScriptParser.AfterComma(s).value))
  {
    hide SkipSpace, Skipped;
    var t := SkipSpace(s);
    assert t == "," + t[1..];
    assert s == Skipped(s) + ("," + (Skipped(t[1..]) + SkipSpace(t[1..])));
  }

  /** The parts of a draw that was read, up to its closing parenthesis. */
  lemma DrawParts(s: string) returns (t: string, lo: IntScan, s2: string, hi: IntScan, t4: string)
    requires ParseDrawn(s).Some?
    ensures t == SkipSpace(s) && |t| >= 7 && ScriptLines.Lower(t[..7]) == "random("
    ensures lo == ScanInt(SkipSpace(t[7..])) && lo.IntFound? && ScriptParser.AfterComma(lo.rest) == Some(s2)
    ensures hi == ScanInt(s2) && hi.IntFound? && t4 == SkipSpace(hi.rest)
    ensures t4 != "" && t4[0] == ')' && ComparisonTail(t4[1..]).Some?
  {
    hide SkipSpace, ScanInt, ComparisonTail, SafeStoi, ScriptLines.Lower, ScriptParser.AfterComma;
    t := SkipSpace(s);
    lo := ScanInt(SkipSpace(t[7..]));
    s2 := ScriptParser.AfterComma(lo.rest).value;
    hi := ScanInt(s2);
    t4 := SkipSpace(hi.rest);
  }

  lemma DrawShape(s: string)
    requires ParseDrawn(s).Some?
    ensures exists w: Written :: w.Valid() && s == w.Text()
  {
    hide ParseDrawn, SkipSpace, Skipped, ScanInt, ComparisonTail, ScriptLines.Lower, ScriptParser.AfterComma, Tail.Valid,
         Tail.Text;
    var t, lo, s2, hi, t4 := DrawParts(s);
    CommaShape(lo.rest);
    var before, after :| All(before, IsSpace) && All(after, IsSpace) && lo.rest == before + ("," + (after + s2));
    TailShape(t4[1..]);
    var tail: Tail :| tail.Valid() && t4[1..] == tail.Text();
    var w := Draw(Skipped(s), t[..7], Skipped(t[7..]), lo.text, before, after, hi.text, Skipped(hi.rest), tail);
    assert w.Valid();
    assert t4 == ")" + t4[1..] && t == t[..7] + t[7..];
    assert s == w.Text();
  }

  /** A text is read as a condition exactly when it is a written one; the `regex_match` of any other fails. */
  lemma ConditionShape(s: string)
    ensures ParseCondition(s).Some? <==> exists w: Written :: w.Valid() && s == w.Text()
  {
    hide ParseCompared, ParseDrawn, Written.Valid, Written.Text;
    if ParseDrawn(s).Some? {
      DrawShape(s);
    } else if ParseCompared(s).Some? {
      VariableShape(s);
    }
    if exists w: Written :: w.Valid() && s == w.Text() {
      var w: Written :| w.Valid() && s == w.Text();
      if w.Draw? {
        DrawBack(w);
      } else {
        VariableBack(w);
      }
    }
  }
}
