/** Every script tree, in every layout, parses back to itself
    (src/commands/ScriptParser.cpp:318-429). */
module ScriptRoundTrip {
  import opened Wrappers
  import opened Text
  import opened ScriptLines
  import opened ScriptLayout
  import opened ScriptParser

  /** The line of an If: `if`, blanks, the condition in parentheses, and perhaps the brace. */
  datatype Head = Head(gap: string, before: string, condition: string, after: string, close: string, inlineBrace: bool)

  /** A tree as it stands in the normalised lines: simple lines (commands or ignored lines) and
      branches, whose else part is absent, a block, or another branch (`else if`). */
  datatype Node = Simple(line: string) | Branch(head: Head, body: seq<Node>, tail: Tail)
  datatype Tail =
    | NoElse
    | Else(gap: string, inlineBrace: bool, body: seq<Node>)
    | ElseBranch(gap: string, head: Head, body: seq<Node>, tail: Tail)

  function HeadText(h: Head): string {
    "if" + (h.gap + ("(" + (h.before + (h.condition + (h.after + (")" + (h.close + if h.inlineBrace then "{" else "")))))))
  }

  function BraceOnto(inline: bool, line: string, rest: seq<string>): seq<string> {
    if inline then [line] + rest else [line] + (["{"] + rest)
  }

  function LinesOnto(ns: seq<Node>, rest: seq<string>): seq<string>
    decreases ns
  {
    if ns == [] then rest else NodeOnto(ns[0], LinesOnto(ns[1..], rest))
  }

  function NodeOnto(n: Node, rest: seq<string>): seq<string>
    decreases n
  {
    match n
    case Simple(line) => [line] + rest
    case Branch(h, body, tail) => BraceOnto(h.inlineBrace, HeadText(h), LinesOnto(body, ["}"] + TailOnto(tail, rest)))
  }

  function TailOnto(t: Tail, rest: seq<string>): seq<string>
    decreases t
  {
    match t
    case NoElse => rest
    case Else(gap, inlineBrace, body) =>
      BraceOnto(inlineBrace, "else" + (gap + if inlineBrace then "{" else ""), LinesOnto(body, ["}"] + rest))
    case ElseBranch(gap, h, body, tail) =>
      BraceOnto(h.inlineBrace, "else" + (gap + HeadText(h)), LinesOnto(body, ["}"] + TailOnto(tail, rest)))
  }

  // ---- the tree without its style -------------------------------------------------

  function Erase(ns: seq<Node>): seq<Command>
    requires ValidNodes(ns)
    decreases ns
  {
    if ns == [] then [] else EraseNode(ns[0]) + Erase(ns[1..])
  }

  /** An ignored line stands for no command. */
  function EraseNode(n: Node): seq<Command>
    requires ValidNode(n)
    decreases n
  {
    match n
    case Simple(line) =>
      (match SimpleCommand(line)
       case Ok(Some(c)) => [c]
       case _ => [])
    case Branch(h, body, tail) => [If(h.condition, Erase(body), EraseTail(tail))]
  }

  function EraseTail(t: Tail): seq<Command>
    requires ValidTail(t)
    decreases t
  {
    match t
    case NoElse => []
    case Else(_, _, body) => Erase(body)
    case ElseBranch(_, h, body, tail) => [If(h.condition, Erase(body), EraseTail(tail))]
  }

  ghost predicate ValidHead(h: Head) {
    && All(h.gap, IsSpace) && All(h.before, IsBlank) && All(h.after, IsBlank) && All(h.close, IsBlank)
    && Trimmed(h.condition) && (h.inlineBrace ==> '{' !in h.condition)
    && (!h.inlineBrace ==> h.close == "")
  }

  ghost predicate ValidNodes(ns: seq<Node>)
    decreases ns
  {
    ns == [] || (ValidNode(ns[0]) && ValidNodes(ns[1..]))
  }

  ghost predicate ValidNode(n: Node)
    decreases n
  {
    match n
    case Simple(line) => line != "}" && !StartsIf(line) && !StartsElse(line) && SimpleCommand(line).Ok?
    case Branch(h, body, tail) => ValidHead(h) && ValidNodes(body) && ValidTail(tail)
  }

  ghost predicate ValidTail(t: Tail)
    decreases t
  {
    match t
    case NoElse => true
    case Else(gap, inlineBrace, body) =>
      All(gap, IsBlank) && ValidNodes(body) && (!inlineBrace ==> gap == "")
    case ElseBranch(gap, h, body, tail) =>
      gap != "" && All(gap, IsBlank) && ValidHead(h) && ValidNodes(body) && ValidTail(tail)
  }

  // ---- heads and else lines ----------------------------------------------------------

  lemma HeadStartsIf(h: Head)
    requires ValidHead(h)
    ensures StartsIf(HeadText(h)) && !StartsElse(HeadText(h)) && Trimmed(HeadText(h))
  {
    var t := HeadText(h);
    var tail := h.gap + ("(" + (h.before + (h.condition + (h.after + (")" + (h.close + if h.inlineBrace then "{" else ""))))));
    assert t == "if" + tail && t[2..] == tail && t[..2] == "if";
    assert tail[0] == if h.gap == "" then '(' else h.gap[0];
    assert t[|t| - 1] == if h.inlineBrace then '{' else ')';
    assert t[0] == 'i';
  }

  function Enclosed(front: string, inner: string, end: string): string { front + ("(" + (inner + (")" + end))) }

  lemma LastAt(s: string, c: char, i: nat)
    requires i < |s| && s[i] == c && c !in s[i + 1..]
    ensures RFind(s, c) == i
  {
    assert forall k :: i < k < |s| ==> s[k] == s[i + 1..][k - i - 1];
  }

  /** Where the parentheses stand, and what is between them. */
  lemma EnclosedPositions(front: string, inner: string, end: string)
    requires '(' !in front && ')' !in end
    ensures var t, open, close := Enclosed(front, inner, end), |front|, |front| + 1 + |inner|;
            Find(t, '(') == open && RFind(t, ')') == close < |t| && t[open + 1..close] == inner
  {
    hide Find, RFind;
    var t, open, close := Enclosed(front, inner, end), |front|, |front| + 1 + |inner|;
    assert t[..open] == front;
    FindAt(t, '(', open);
    assert t[close + 1..] == end;
    LastAt(t, ')', close);
    assert t[open + 1..close] == inner;
  }

  function Inner(h: Head): string { h.before + (h.condition + h.after) }

  function Ending(h: Head): string { h.close + if h.inlineBrace then "{" else "" }

  lemma HeadShape(h: Head)
    requires ValidHead(h)
    ensures HeadText(h) == Enclosed("if" + h.gap, Inner(h), Ending(h))
    ensures '(' !in "if" + h.gap && ')' !in Ending(h)
  {
    var tail := ")" + Ending(h);
    assert h.before + (h.condition + (h.after + tail)) == Inner(h) + tail;
    assert "if" + (h.gap + ("(" + (Inner(h) + tail))) == "if" + h.gap + ("(" + (Inner(h) + tail));
  }

  lemma HeadCondition(h: Head)
    requires ValidHead(h)
    ensures ExtractCondition(HeadText(h)) == Ok(h.condition)
  {
    hide HeadText, Enclosed;
    HeadShape(h);
    EnclosedPositions("if" + h.gap, Inner(h), Ending(h));
    BlankIsTrailing(h.after);
    TrimDecorated(h.before, h.condition, h.after);
    assert h.before + h.condition + h.after == Inner(h);
  }

  lemma NoBraceInside(h: Head)
    requires ValidHead(h) && h.inlineBrace
    ensures '{' !in "if" + h.gap && '{' !in Inner(h)
  {
  }

  /** The first brace behind an enclosed text. */
  lemma BraceBehind(front: string, inner: string, blanks: string)
    requires '{' !in front && '{' !in inner && All(blanks, IsBlank)
    ensures Find(Enclosed(front, inner, blanks + "{"), '{') == |front| + |inner| + |blanks| + 2
  {
    var t := Enclosed(front, inner, blanks + "{");
    var n := |front| + |inner| + |blanks| + 2;
    assert t[..n] == front + ("(" + (inner + (")" + blanks)));
    FindAt(t, '{', n);
  }

  lemma HeadBrace(h: Head)
    requires ValidHead(h)
    ensures HasInlineOpenBrace(HeadText(h)) == h.inlineBrace
  {
    hide HeadText;
    HeadShape(h);
    EnclosedPositions("if" + h.gap, Inner(h), Ending(h));
    if h.inlineBrace {
      NoBraceInside(h);
      BraceBehind("if" + h.gap, Inner(h), h.close);
    }
  }

  /** `else` in front of a text without a command word, or in front of an `if`. */
  lemma ElseLine(gap: string, tail: string)
    requires All(gap, IsBlank) && Trimmed(tail) && (tail != "" ==> gap != "" || tail[0] == '{')
    ensures var line := "else" + (gap + tail);
            StartsElse(line) && !StartsIf(line) && line != "}" && BehindElse(line) == tail
  {
    var line := "else" + (gap + tail);
    assert line[..4] == "else" && line[4..] == gap + tail;
    assert line[0] == 'e';
    if gap != "" {
      assert line[4..][0] == gap[0];
    } else if tail != "" {
      assert line[4..][0] == tail[0];
    }
    TrimDecorated(gap, tail, "");
    assert gap + tail + "" == gap + tail;
    if tail == "" {
      BlankIsTrailing(gap);
    }
  }

  lemma BraceIsNoIf()
    ensures !StartsIf("{") && !StartsIf("") && Trimmed("{")
  {
  }

  lemma AfterBraceOnto(inline: bool, line: string, rest: seq<string>)
    ensures BraceOnto(inline, line, rest) != [] && BraceOnto(inline, line, rest)[0] == line
    ensures AfterBrace(inline, BraceOnto(inline, line, rest)[1..]) == Ok(rest)
  {
    if inline {
      assert ([line] + rest)[1..] == rest;
    } else {
      assert ([line] + (["{"] + rest))[1..] == ["{"] + rest;
      assert (["{"] + rest)[1..] == rest;
    }
  }

  // ---- sizes, on which the proofs below recur ------------------------------------------

  function SizeOfNodes(ns: seq<Node>): nat
    decreases ns
  {
    if ns == [] then 0 else 1 + SizeOfNode(ns[0]) + SizeOfNodes(ns[1..])
  }

  function SizeOfNode(n: Node): nat
    decreases n
  {
    match n
    case Simple(_) => 1
    case Branch(_, body, tail) => 1 + SizeOfNodes(body) + SizeOfTail(tail)
  }

  function SizeOfTail(t: Tail): (n: nat)
    ensures n > 0
    decreases t
  {
    match t
    case NoElse => 1
    case Else(_, _, body) => 1 + SizeOfNodes(body)
    case ElseBranch(_, _, body, tail) => 1 + SizeOfNodes(body) + SizeOfTail(tail)
  }

  // ---- the round trip on lines -----------------------------------------------------------

  /** The lines behind a node: they do not start with an else of their own. */
  predicate NoElseAhead(rest: seq<string>) { rest == [] || !StartsElse(rest[0]) }

  lemma ClosingBrace(rest: seq<string>)
    ensures Block(["}"] + rest, true) == Ok(([], rest))
    ensures NoElseAhead(["}"] + rest)
  {
    assert (["}"] + rest)[1..] == rest;
  }

  lemma AppendNone(r: Parsed<seq<Command>>)
    ensures Append([], r) == r
  {
    AppendNothing(r);
  }

  lemma AppendTwice(a: seq<Command>, b: seq<Command>, r: Parsed<seq<Command>>)
    ensures Append(a, Append(b, r)) == Append(a + b, r)
  {
    if r.Ok? {
      assert a + (b + r.value.0) == a + b + r.value.0;
    }
  }

  lemma LinesStartWithoutElse(ns: seq<Node>, rest: seq<string>)
    requires ValidNodes(ns) && NoElseAhead(rest)
    ensures NoElseAhead(LinesOnto(ns, rest))
  {
    if ns != [] && ns[0].Branch? {
      HeadStartsIf(ns[0].head);
    }
  }

  lemma {:induction false} BlockOnto(ns: seq<Node>, rest: seq<string>, stop: bool)
    requires ValidNodes(ns) && NoElseAhead(rest)
    ensures Block(LinesOnto(ns, rest), stop) == Append(Erase(ns), Block(rest, stop))
    decreases SizeOfNodes(ns), 0
  {
    hide Block, Append, NodeOnto, EraseNode, StartsWithCommand;
    if ns == [] {
      AppendNone(Block(rest, stop));
    } else {
      var later := LinesOnto(ns[1..], rest);
      LinesStartWithoutElse(ns[1..], rest);
      BlockOnto(ns[1..], rest, stop);
      NodeParses(ns[0], later, stop);
      AppendTwice(EraseNode(ns[0]), Erase(ns[1..]), Block(rest, stop));
    }
  }

  lemma {:induction false} NodeParses(n: Node, rest: seq<string>, stop: bool)
    requires ValidNode(n) && NoElseAhead(rest)
    ensures Block(NodeOnto(n, rest), stop) == Append(EraseNode(n), Block(rest, stop))
    decreases SizeOfNode(n), 0
  {
    match n
    case Simple(line) =>
      SimpleParses(line, rest, stop);
    case Branch(h, body, tail) =>
      hide Block, Chain, LinesOnto, TailOnto, StartsWithCommand, HeadText, ValidHead;
      HeadStartsIf(h);
      AfterBraceOnto(h.inlineBrace, HeadText(h), LinesOnto(body, ["}"] + TailOnto(tail, rest)));
      ChainOnto(HeadText(h), h, body, tail, rest);
      BranchInBlock(NodeOnto(n, rest), stop);
      AppendOne(EraseNode(n)[0], Block(rest, stop));
  }

  lemma AppendOne(c: Command, r: Parsed<seq<Command>>)
    ensures Append([c], r) == Cons(c, r)
  {
  }

  lemma BranchInBlock(lines: seq<string>, stop: bool)
    requires lines != [] && StartsIf(lines[0]) && Chain(lines).Ok?
    ensures Block(lines, stop) == Cons(Chain(lines).value.0, Block(Chain(lines).value.1, stop))
  {
    hide Chain;
  }

  lemma SimpleParses(line: string, rest: seq<string>, stop: bool)
    requires ValidNode(Simple(line))
    ensures Block([line] + rest, stop) == Append(EraseNode(Simple(line)), Block(rest, stop))
  {
    hide SimpleCommand, StartsWithCommand;
    assert ([line] + rest)[1..] == rest;
    AppendNone(Block(rest, stop));
  }

  /** A chain whose head stands on `line`, alone or behind `else`. */
  lemma {:induction false} ChainOnto(line: string, h: Head, body: seq<Node>, tail: Tail, rest: seq<string>)
    requires ValidHead(h) && ValidNodes(body) && ValidTail(tail) && NoElseAhead(rest)
    requires HeadOf(line) == HeadText(h)
    ensures Chain(BraceOnto(h.inlineBrace, line, LinesOnto(body, ["}"] + TailOnto(tail, rest))))
            == Ok((If(h.condition, Erase(body), EraseTail(tail)), rest))
    decreases SizeOfNodes(body) + SizeOfTail(tail), 1
  {
    hide Block, Append, Chain, ElsePart, HeadText, HeadOf, StartsWithCommand, ExtractCondition, HasInlineOpenBrace;
    hide LinesOnto, TailOnto, Erase, EraseTail, ValidHead, AfterBrace, BraceOnto;
    var behind := TailOnto(tail, rest);
    var inner := LinesOnto(body, ["}"] + behind);
    HeadStartsIf(h);
    HeadCondition(h);
    HeadBrace(h);
    AfterBraceOnto(h.inlineBrace, line, inner);
    ChainAtLine(BraceOnto(h.inlineBrace, line, inner));
    ClosingBrace(behind);
    BlockOnto(body, ["}"] + behind, true);
    AppendClosed(Erase(body), behind);
    TailParses(tail, rest);
  }

  lemma AppendClosed(commands: seq<Command>, rest: seq<string>)
    ensures Append(commands, Ok(([], rest))) == Ok((commands, rest))
  {
    assert commands + [] == commands;
  }

  lemma {:induction false} TailParses(t: Tail, rest: seq<string>)
    requires ValidTail(t) && NoElseAhead(rest)
    ensures ElsePart(TailOnto(t, rest)) == Ok((EraseTail(t), rest))
    decreases SizeOfTail(t), 0
  {
    match t
    case NoElse =>
    case Else(gap, inlineBrace, body) => ElseParses(gap, inlineBrace, body, rest);
    case ElseBranch(gap, h, body, tail) =>
      hide Chain, HeadText, LinesOnto, ValidHead, StartsWithCommand, Trimmed;
      HeadStartsIf(h);
      var line := "else" + (gap + HeadText(h));
      ElseLine(gap, HeadText(h));
      AfterBraceOnto(h.inlineBrace, line, LinesOnto(body, ["}"] + TailOnto(tail, rest)));
      ChainOnto(line, h, body, tail, rest);
  }

  lemma {:induction false} ElseParses(gap: string, inlineBrace: bool, body: seq<Node>, rest: seq<string>)
    requires ValidTail(Else(gap, inlineBrace, body)) && NoElseAhead(rest)
    ensures ElsePart(TailOnto(Else(gap, inlineBrace, body), rest)) == Ok((Erase(body), rest))
    decreases SizeOfNodes(body), 1
  {
    hide Block, Append, LinesOnto, StartsWithCommand, Trimmed, Chain, Erase;
    var tail := if inlineBrace then "{" else "";
    var line := "else" + (gap + tail);
    BraceIsNoIf();
    ElseLine(gap, tail);
    assert '{' in line <==> inlineBrace by {
      if inlineBrace {
        assert line[|line| - 1] == '{';
      }
    }
    AfterBraceOnto(inlineBrace, line, LinesOnto(body, ["}"] + rest));
    ClosingBrace(rest);
    BlockOnto(body, ["}"] + rest, true);
    AppendClosed(Erase(body), rest);
  }

  /** The lines of a tree parse to the tree, and no line is left. */
  lemma LinesRoundTrip(ns: seq<Node>)
    requires ValidNodes(ns)
    ensures Block(LinesOnto(ns, []), false) == Ok((Erase(ns), []))
  {
    hide Block, LinesOnto, Erase;
    BlockOnto(ns, [], false);
    BlockAtEnd(false);
    AppendClosed(Erase(ns), []);
  }

  /** Text to tree: whenever the raw lines of a block mean the lines of a tree, the text parses to
      the tree, with carriage returns anywhere and with or without a line break at the end. */
  lemma TextRoundTrip(text: string, rs: seq<RawLine>, ns: seq<Node>)
    requires ValidBlock(rs) && ValidNodes(ns) && BlockMeaning(rs) == LinesOnto(ns, [])
    requires DropReturns(text) == BlockText(rs) || DropReturns(text) + "\n" == BlockText(rs)
    ensures ParseActionBlock(text) == Ok(Erase(ns))
  {
    hide Block, LinesOnto, Erase, BlockMeaning, BlockText, LinesFrom, DropReturns, ValidNodes, ValidBlock;
    ReturnsIgnored(text, "");
    LastBreakIgnored(DropReturns(text), "");
    PreprocessBlock(rs);
    LinesRoundTrip(ns);
  }
}
