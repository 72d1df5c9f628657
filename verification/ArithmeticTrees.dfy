/** Rewriting the text of an expression computes what a recursive evaluator computes
    (src/commands/IfCommand.cpp:171-228). */
module ArithmeticTrees {
  import opened Wrappers
  import opened Text
  import opened Decimal
  import opened Arithmetic

  /** White space after `(`, before and after the operator, and before `)`. */
  datatype Spacing = Spacing(open: string, before: string, after: string, close: string) {
    ghost predicate Valid() {
      All(open, IsSpace) && All(before, IsSpace) && All(after, IsSpace) && All(close, IsSpace)
    }
  }

  /** A fully parenthesised expression.  A literal keeps its text, such as `08`. */
  datatype Expr = Lit(text: string) | Bin(op: char, left: Expr, right: Expr, sp: Spacing)

  ghost predicate ValidExpr(e: Expr) {
    match e
    case Lit(t) => IsIntText(t)
    case Bin(op, l, r, sp) => IsSign(op) && ValidExpr(l) && ValidExpr(r) && sp.Valid()
  }

  /** The text of `e`, followed by `rest`. */
  function PrintOnto(e: Expr, rest: string): string {
    match e
    case Lit(t) => t + rest
    case Bin(op, l, r, sp) =>
      "(" + (sp.open + PrintOnto(l, sp.before + ([op] + (sp.after + PrintOnto(r, sp.close + (")" + rest))))))
  }

  /** The recursive evaluator, which shares no operation with the rewriting. */
  ghost function Value(e: Expr): int
    requires ValidExpr(e)
  {
    match e
    case Lit(t) => Literal(t)
    case Bin(op, l, r, _) => Applied(op, Value(l), Value(r))
  }

  /** What should stand in place of `e` in the result. */
  ghost function Rendered(e: Expr): string
    requires ValidExpr(e)
  {
    if e.Lit? then e.text else ToString(Value(e))
  }

  function Max(a: nat, b: nat): nat { if a < b then b else a }

  function Depth(e: Expr): nat {
    match e
    case Lit(_) => 0
    case Bin(_, l, r, _) => 1 + Max(Depth(l), Depth(r))
  }

  /** All innermost operations replaced by their values. */
  ghost function Collapse(e: Expr): Expr
    requires ValidExpr(e)
  {
    match e
    case Lit(_) => e
    case Bin(op, l, r, sp) =>
      if l.Lit? && r.Lit? then Lit(ToString(Value(e))) else Bin(op, Collapse(l), Collapse(r), sp)
  }

  lemma {:induction false} CollapseProperties(e: Expr)
    requires ValidExpr(e)
    ensures ValidExpr(Collapse(e)) && Rendered(Collapse(e)) == Rendered(e)
    ensures Value(Collapse(e)) == Value(e)
    ensures Depth(Collapse(e)) == if Depth(e) == 0 then 0 else Depth(e) - 1
  {
    if e.Bin? {
      if e.left.Lit? && e.right.Lit? {
        ToStringRoundTrip(Value(e));
      } else {
        CollapseProperties(e.left);
        CollapseProperties(e.right);
      }
    }
  }

  // ---- the scanner on printed expressions --------------------------------

  /** Text without `(` holds no match, whatever follows it. */
  lemma {:induction false} TextCopied(t: string, rest: string)
    requires '(' !in t
    ensures Pass(t + rest) == t + Pass(rest)
    ensures HasMatch(t + rest) == HasMatch(rest)
    ensures PassDefined(t + rest) == PassDefined(rest)
  {
    if t == "" {
      assert t + rest == rest;
    } else {
      assert (t + rest)[1..] == t[1..] + rest;
      assert (t + rest)[0] == t[0];
      TextCopied(t[1..], rest);
    }
  }

  lemma OperatorStops(op: char)
    requires IsSign(op)
    ensures IsOperator(op) && !IsDigit(op) && !IsSpace(op) && op != '('
  {
  }

  lemma StopsBeforeSpaceThen(w: string, c: char, rest: string)
    requires All(w, IsSpace) && !IsDigit(c)
    ensures StopsAt(w + ([c] + rest), IsDigit)
  {
    if w == "" {
      assert w + ([c] + rest) == [c] + rest;
    } else {
      assert (w + ([c] + rest))[0] == w[0];
    }
  }

  lemma IntTextStart(t: string, rest: string)
    requires IsIntText(t)
    ensures StopsAt(t + rest, IsSpace)
  {
    assert (t + rest)[0] == t[0];
    if t[0] != '-' {
      assert IsDigit(t[0]);
    }
  }

  lemma MatchRightOnto(left: string, op: char, t: string, w1: string, w2: string, rest: string)
    requires IsIntText(t) && All(w1, IsSpace) && All(w2, IsSpace)
    ensures MatchRight(left, op, w1 + (t + (w2 + (")" + rest)))) == Found(left, op, t, rest)
  {
    hide SkipSpace, ScanInt;
    var s2 := ")" + rest;
    var s1 := t + (w2 + s2);
    IntTextStart(t, w2 + s2);
    SkipSpaceAppend(w1, s1);
    StopsBeforeSpaceThen(w2, ')', rest);
    ScanIntAppend(t, w2 + s2);
    SkipSpaceAppend(w2, s2);
    assert s2[1..] == rest;
  }

  lemma MatchOpOnto(left: string, op: char, w: string, s: string)
    requires IsSign(op) && All(w, IsSpace)
    ensures MatchOp(left, w + ([op] + s)) == MatchRight(left, op, s)
  {
    hide MatchRight;
    OperatorStops(op);
    SkipSpaceAppend(w, [op] + s);
    assert ([op] + s)[1..] == s;
  }

  /** After `(`, spaces, an integer and anything that is no digit, the match goes on with the operator. */
  lemma MatchMathOnto(w: string, t: string, s: string)
    requires All(w, IsSpace) && IsIntText(t) && StopsAt(s, IsDigit)
    ensures MatchMath("(" + (w + (t + s))) == MatchOp(t, s)
  {
    hide MatchOp;
    var all := "(" + (w + (t + s));
    assert all[1..] == w + (t + s);
    SkipSpaceAppend(w, t + s);
    ScanIntAppend(t, s);
  }

  /** No integer can start with an opening parenthesis. */
  lemma NoIntAtParenthesis(w: string, s: string)
    requires All(w, IsSpace) && s != "" && s[0] == '('
    ensures ScanInt(SkipSpace(w + s)) == NoInt
  {
    SkipSpaceAppend(w, s);
    assert s[0..] == s;
  }

  lemma PrintedBinStarts(e: Expr, rest: string)
    requires e.Bin?
    ensures PrintOnto(e, rest) != "" && PrintOnto(e, rest)[0] == '('
  {
  }

  /** An innermost operation matches as a whole. */
  lemma InnermostMatches(e: Expr, rest: string)
    requires ValidExpr(e) && e.Bin? && e.left.Lit? && e.right.Lit?
    ensures MatchMath(PrintOnto(e, rest)) == Found(e.left.text, e.op, e.right.text, rest)
  {
    hide MatchMath, MatchOp, MatchRight;
    var y := PrintOnto(e.right, e.sp.close + (")" + rest));
    var x := e.sp.before + ([e.op] + (e.sp.after + y));
    OperatorStops(e.op);
    StopsBeforeSpaceThen(e.sp.before, e.op, e.sp.after + y);
    MatchMathOnto(e.sp.open, e.left.text, x);
    MatchOpOnto(e.left.text, e.op, e.sp.before, e.sp.after + y);
    MatchRightOnto(e.left.text, e.op, e.right.text, e.sp.after, e.sp.close, rest);
  }

  lemma RightIsPrinted(left: string, op: char, s: string)
    requires MatchRight(left, op, s).Found?
    ensures var m := MatchRight(left, op, s);
            && m.left == left && m.op == op
            && exists after, close ::
                 All(after, IsSpace) && All(close, IsSpace) && s == after + (m.right + (close + (")" + m.rest)))
  {
    hide SkipSpace, ScanInt, Skipped;
    var m := MatchRight(left, op, s);
    var after := Skipped(s);
    var n := ScanInt(SkipSpace(s));
    var close := Skipped(n.rest);
    var s2 := SkipSpace(n.rest);
    assert s2 == ")" + s2[1..];
    assert s == after + (m.right + (close + (")" + m.rest)));
  }

  /** The white space around the operator, and what follows it. */
  lemma OperatorIsPrinted(left: string, s: string)
    requires MatchOp(left, s).Found?
    ensures var m := MatchOp(left, s);
            && m.left == left && IsSign(m.op)
            && exists before, y ::
                 All(before, IsSpace) && s == before + ([m.op] + y) && m == MatchRight(left, m.op, y)
  {
    hide SkipSpace, Skipped, MatchRight;
    var s1 := SkipSpace(s);
    RightIsPrinted(left, s1[0], s1[1..]);
    assert s == Skipped(s) + ([s1[0]] + s1[1..]);
  }

  lemma PrintedOperation(e: Expr, rest: string)
    requires e.Bin? && e.left.Lit? && e.right.Lit?
    ensures PrintOnto(e, rest)
         == "(" + (e.sp.open + (e.left.text
            + (e.sp.before + ([e.op] + (e.sp.after + (e.right.text + (e.sp.close + (")" + rest))))))))
  {
  }

  /** Whatever matches is the text of an innermost operation. */
  lemma MatchIsOperation(s: string)
    requires MatchMath(s).Found?
    ensures exists e :: ValidExpr(e) && e.Bin? && e.left.Lit? && e.right.Lit?
                        && s == PrintOnto(e, MatchMath(s).rest)
                        && MatchMath(s) == Found(e.left.text, e.op, e.right.text, MatchMath(s).rest)
  {
    hide SkipSpace, ScanInt, Skipped, MatchOp, MatchRight, PrintOnto;
    var m := MatchMath(s);
    var open := Skipped(s[1..]);
    var left := ScanInt(SkipSpace(s[1..]));
    OperatorIsPrinted(left.text, left.rest);
    var before, y :| All(before, IsSpace) && left.rest == before + ([m.op] + y) && m == MatchRight(left.text, m.op, y);
    RightIsPrinted(left.text, m.op, y);
    var after, close :|
      All(after, IsSpace) && All(close, IsSpace) && y == after + (m.right + (close + (")" + m.rest)));
    var e := Bin(m.op, Lit(m.left), Lit(m.right), Spacing(open, before, after, close));
    assert e.sp.Valid() && ValidExpr(e.left) && ValidExpr(e.right);
    PrintedOperation(e, m.rest);
    assert s[1..] == open + (m.left + left.rest);
    assert s == "(" + s[1..];
  }

  /** Any other operation does not match at its own parenthesis. */
  lemma NestedDoesNotMatch(e: Expr, rest: string)
    requires ValidExpr(e) && e.Bin? && (e.left.Bin? || e.right.Bin?)
    ensures MatchMath(PrintOnto(e, rest)).NoMatch?
  {
    var y := PrintOnto(e.right, e.sp.close + (")" + rest));
    var x := e.sp.before + ([e.op] + (e.sp.after + y));
    if e.left.Bin? {
      PrintedBinStarts(e.left, x);
      NoIntAtParenthesis(e.sp.open, PrintOnto(e.left, x));
      assert PrintOnto(e, rest)[1..] == e.sp.open + PrintOnto(e.left, x);
    } else {
      hide MatchMath, MatchOp;
      OperatorStops(e.op);
      StopsBeforeSpaceThen(e.sp.before, e.op, e.sp.after + y);
      MatchMathOnto(e.sp.open, e.left.text, x);
      MatchOpOnto(e.left.text, e.op, e.sp.before, e.sp.after + y);
      PrintedBinStarts(e.right, e.sp.close + (")" + rest));
      NoIntAtParenthesis(e.sp.after, y);
    }
  }

  lemma IntTextHasNoParenthesis(t: string)
    requires IsIntText(t)
    ensures '(' !in t
  {
    forall i | 0 <= i < |t|
      ensures t[i] != '('
    {
      if t[0] == '-' && i > 0 {
        assert t[i] == t[1..][i - 1];
      }
    }
  }

  lemma SpaceHasNoParenthesis(w: string)
    requires All(w, IsSpace)
    ensures '(' !in w
  {
  }

  /** What the pass does on the parts of a nested operation between its two operands. */
  lemma MiddleCopied(e: Expr, y: string)
    requires ValidExpr(e) && e.Bin?
    ensures var x := e.sp.before + ([e.op] + (e.sp.after + y));
            && Pass(x) == e.sp.before + ([e.op] + (e.sp.after + Pass(y)))
            && HasMatch(x) == HasMatch(y)
            && PassDefined(x) == PassDefined(y)
  {
    hide Pass, HasMatch, PassDefined;
    OperatorStops(e.op);
    SpaceHasNoParenthesis(e.sp.before);
    SpaceHasNoParenthesis(e.sp.after);
    TextCopied(e.sp.before, [e.op] + (e.sp.after + y));
    TextCopied([e.op], e.sp.after + y);
    TextCopied(e.sp.after, y);
  }

  lemma EndCopied(e: Expr, rest: string)
    requires ValidExpr(e) && e.Bin?
    ensures var z := e.sp.close + (")" + rest);
            && Pass(z) == e.sp.close + (")" + Pass(rest))
            && HasMatch(z) == HasMatch(rest)
            && PassDefined(z) == PassDefined(rest)
  {
    hide Pass, HasMatch, PassDefined;
    SpaceHasNoParenthesis(e.sp.close);
    TextCopied(e.sp.close, ")" + rest);
    TextCopied(")", rest);
  }

  /** A `(` that starts no match is copied. */
  lemma ParenthesisCopied(s: string)
    requires MatchMath("(" + s).NoMatch?
    ensures Pass("(" + s) == "(" + Pass(s)
    ensures HasMatch("(" + s) == HasMatch(s)
    ensures PassDefined("(" + s) == PassDefined(s)
  {
    hide MatchMath;
    assert ("(" + s)[1..] == s;
  }

  /** Literals in the int range, for which no operation can overflow. */
  ghost predicate IntLiterals(e: Expr)
    requires ValidExpr(e)
  {
    match e
    case Lit(t) => InInt(IntValue(t))
    case Bin(_, l, r, _) => IntLiterals(l) && IntLiterals(r)
  }

  lemma {:induction false} IntLiteralsCollapse(e: Expr)
    requires ValidExpr(e) && IntLiterals(e)
    ensures ValidExpr(Collapse(e)) && IntLiterals(Collapse(e))
  {
    CollapseProperties(e);
    if e.Bin? {
      if e.left.Lit? && e.right.Lit? {
        ToStringRoundTrip(Value(e));
      } else {
        IntLiteralsCollapse(e.left);
        IntLiteralsCollapse(e.right);
      }
    }
  }

  /** One pass turns the text of `e` into the text of `Collapse(e)`, in any context. */
  lemma {:induction false} PassCollapses(e: Expr, rest: string)
    requires ValidExpr(e)
    ensures Pass(PrintOnto(e, rest)) == PrintOnto(Collapse(e), Pass(rest))
    ensures HasMatch(PrintOnto(e, rest)) == (e.Bin? || HasMatch(rest))
    ensures IntLiterals(e) && PassDefined(rest) ==> PassDefined(PrintOnto(e, rest))
  {
    if e.Lit? {
      hide Pass, HasMatch, PassDefined;
      IntTextHasNoParenthesis(e.text);
      TextCopied(e.text, rest);
    } else if e.left.Lit? && e.right.Lit? {
      InnermostPass(e, rest);
    } else {
      hide Pass, HasMatch, PassDefined, MatchMath;
      var z := e.sp.close + (")" + rest);
      var y := PrintOnto(e.right, z);
      var x := e.sp.before + ([e.op] + (e.sp.after + y));
      NestedDoesNotMatch(e, rest);
      ParenthesisCopied(e.sp.open + PrintOnto(e.left, x));
      SpaceHasNoParenthesis(e.sp.open);
      TextCopied(e.sp.open, PrintOnto(e.left, x));
      PassCollapses(e.left, x);
      MiddleCopied(e, y);
      PassCollapses(e.right, z);
      EndCopied(e, rest);
    }
  }

  lemma InnermostDefined(e: Expr)
    requires ValidExpr(e) && e.Bin? && e.left.Lit? && e.right.Lit? && IntLiterals(e)
    requires IsIntText(e.left.text) && IsIntText(e.right.text)
    ensures InLongLong(Exact(e.op, Operand(e.left.text), Operand(e.right.text)))
  {
    hide Exact;
    assert IntLiterals(e.left) && IntLiterals(e.right);
    SmallOperandsDefined(e.op, Operand(e.left.text), Operand(e.right.text));
  }

  lemma InnermostPass(e: Expr, rest: string)
    requires ValidExpr(e) && e.Bin? && e.left.Lit? && e.right.Lit?
    ensures Pass(PrintOnto(e, rest)) == PrintOnto(Collapse(e), Pass(rest))
    ensures HasMatch(PrintOnto(e, rest))
    ensures IntLiterals(e) && PassDefined(rest) ==> PassDefined(PrintOnto(e, rest))
  {
    hide MatchMath, Exact, Operand, Clamp, ToString;
    InnermostMatches(e, rest);
    PrintedBinStarts(e, rest);
    assert ValidExpr(e.left) && ValidExpr(e.right);
    assert Value(e.left) == Literal(e.left.text) && Value(e.right) == Literal(e.right.text);
    ReduceIsValue(MatchMath(PrintOnto(e, rest)));
    assert Collapse(e) == Lit(ToString(Value(e)));
    if IntLiterals(e) {
      InnermostDefined(e);
    }
  }

  // ---- documents: expressions inside ordinary text ------------------------

  datatype Piece = Plain(text: string) | Formula(expr: Expr)

  type Document = seq<Piece>

  /** Plain text may hold anything but an opening parenthesis. */
  ghost predicate ValidPiece(p: Piece) {
    match p
    case Plain(t) => '(' !in t
    case Formula(e) => ValidExpr(e)
  }

  ghost predicate ValidDocument(d: Document) { forall i :: 0 <= i < |d| ==> ValidPiece(d[i]) }

  ghost predicate IntDocument(d: Document)
    requires ValidDocument(d)
  {
    forall i :: 0 <= i < |d| && d[i].Formula? ==> IntLiterals(d[i].expr)
  }

  function PrintDocument(d: Document): string {
    if d == [] then ""
    else
      match d[0]
      case Plain(t) => t + PrintDocument(d[1..])
      case Formula(e) => PrintOnto(e, PrintDocument(d[1..]))
  }

  /** The document with every expression replaced by its value. */
  ghost function RenderDocument(d: Document): string
    requires ValidDocument(d)
  {
    if d == [] then ""
    else
      match d[0]
      case Plain(t) => t + RenderDocument(d[1..])
      case Formula(e) => Rendered(e) + RenderDocument(d[1..])
  }

  function DocumentDepth(d: Document): nat {
    if d == [] then 0
    else Max(if d[0].Formula? then Depth(d[0].expr) else 0, DocumentDepth(d[1..]))
  }

  ghost function CollapsePiece(p: Piece): Piece
    requires ValidPiece(p)
  {
    if p.Plain? then p else Formula(Collapse(p.expr))
  }

  ghost function CollapseDocument(d: Document): Document
    requires ValidDocument(d)
  {
    if d == [] then [] else [CollapsePiece(d[0])] + CollapseDocument(d[1..])
  }

  lemma {:induction false} CollapseDocumentProperties(d: Document)
    requires ValidDocument(d)
    ensures var c := CollapseDocument(d);
            && ValidDocument(c) && RenderDocument(c) == RenderDocument(d)
            && DocumentDepth(c) == (if DocumentDepth(d) == 0 then 0 else DocumentDepth(d) - 1)
            && (IntDocument(d) ==> IntDocument(c))
  {
    if d != [] {
      hide Rendered, Depth, Collapse, ValidExpr, IntLiterals;
      CollapseDocumentProperties(d[1..]);
      assert CollapseDocument(d)[1..] == CollapseDocument(d[1..]);
      if d[0].Formula? {
        CollapseProperties(d[0].expr);
        if IntDocument(d) {
          assert IntLiterals(d[0].expr);
          IntLiteralsCollapse(d[0].expr);
        }
      }
    }
  }

  lemma {:induction false} PassOnDocument(d: Document)
    requires ValidDocument(d)
    ensures Pass(PrintDocument(d)) == PrintDocument(CollapseDocument(d))
    ensures HasMatch(PrintDocument(d)) <==> DocumentDepth(d) > 0
    ensures IntDocument(d) ==> PassDefined(PrintDocument(d))
  {
    if d == [] {
      EmptyText();
    } else {
      hide Pass, HasMatch, PassDefined, PrintOnto;
      PassOnDocument(d[1..]);
      assert CollapseDocument(d)[1..] == CollapseDocument(d[1..]);
      match d[0]
      case Plain(t) => TextCopied(t, PrintDocument(d[1..]));
      case Formula(e) =>
        PassCollapses(e, PrintDocument(d[1..]));
        assert IntDocument(d) ==> IntLiterals(d[0].expr);
    }
  }

  /** A document without operations is its own rendering. */
  lemma {:induction false} FlatDocument(d: Document)
    requires ValidDocument(d) && DocumentDepth(d) == 0
    ensures PrintDocument(d) == RenderDocument(d)
  {
    if d != [] {
      FlatDocument(d[1..]);
    }
  }

  lemma {:induction false} RenderingHasNoMatch(d: Document)
    requires ValidDocument(d)
    ensures !HasMatch(RenderDocument(d))
  {
    if d == [] {
      EmptyText();
    } else {
      hide HasMatch, PassDefined;
      RenderingHasNoMatch(d[1..]);
      match d[0]
      case Plain(t) => TextCopied(t, RenderDocument(d[1..]));
      case Formula(e) =>
        if e.Bin? {
          ToStringRoundTrip(Value(e));
        }
        IntTextHasNoParenthesis(Rendered(e));
        TextCopied(Rendered(e), RenderDocument(d[1..]));
    }
  }

  lemma {:induction false} PassesOnDocument(d: Document, n: nat)
    requires ValidDocument(d)
    ensures DocumentDepth(d) <= n ==> Passes(PrintDocument(d), n) == RenderDocument(d)
    ensures DocumentDepth(d) > n ==> HasMatch(Passes(PrintDocument(d), n))
    ensures IntDocument(d) ==> PassesDefined(PrintDocument(d), n)
    decreases n
  {
    hide Pass, HasMatch, PassDefined, PrintDocument, RenderDocument, CollapseDocument, DocumentDepth;
    PassOnDocument(d);
    CollapseDocumentProperties(d);
    if DocumentDepth(d) == 0 {
      FlatDocument(d);
    } else if n > 0 {
      PassesOnDocument(CollapseDocument(d), n - 1);
    }
  }

  /** Phase 2 computes every expression of a document exactly when none is nested deeper than the
      sixteen passes reach. */
  lemma EvaluateDocument(d: Document)
    requires ValidDocument(d)
    ensures Evaluate(PrintDocument(d)) == RenderDocument(d) <==> DocumentDepth(d) <= MAX_PASSES
  {
    hide Passes, HasMatch, PrintDocument, RenderDocument, DocumentDepth;
    PassesOnDocument(d, MAX_PASSES);
    RenderingHasNoMatch(d);
  }

  /** With literals in the int range no 64-bit operation of phase 2 overflows. */
  lemma DocumentDefined(d: Document)
    requires ValidDocument(d) && IntDocument(d)
    ensures PassesDefined(PrintDocument(d), MAX_PASSES)
  {
    hide PassesDefined, PrintDocument;
    PassesOnDocument(d, MAX_PASSES);
  }
}
