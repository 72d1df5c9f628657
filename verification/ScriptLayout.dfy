/** Layout and letter case do not matter: what the lines of a block mean
    (src/commands/ScriptParser.cpp:107-232). */
module ScriptLayout {
  import opened Wrappers
  import opened Text
  import opened ScriptLines

  /** What stands on a line of code after its closing braces.  Command words may be typed in any
      letter case. */
  datatype Content =
    | Nothing
    | Command(typed: string, tail: string)
    | ElseIf(typedElse: string, gap: string, typedIf: string, tail: string)
    | Other(text: string)

  /** A line as it is typed.  Every closing brace is followed by blanks of its own. */
  datatype RawLine =
    | Blank(space: string)
    | Comment(lead: string, text: string)
    | Code(lead: string, closes: seq<string>, content: Content, trail: string)

  function ContentText(c: Content): string {
    match c
    case Nothing => ""
    case Command(typed, tail) => typed + tail
    case ElseIf(typedElse, gap, typedIf, tail) => typedElse + (gap + (typedIf + tail))
    case Other(text) => text
  }

  /** The normalised lines that the content stands for: the argument text keeps its case. */
  function ContentMeaning(c: Content): seq<string> {
    match c
    case Nothing => []
    case Command(typed, tail) => [Lower(typed) + tail]
    case ElseIf(_, gap, _, tail) => ["else" + (gap + ("if" + tail))]
    case Other(text) => [text]
  }

  function CodeText(closes: seq<string>, c: Content): string {
    if closes == [] then ContentText(c) else "}" + (closes[0] + CodeText(closes[1..], c))
  }

  function CodeMeaning(closes: seq<string>, c: Content): seq<string> {
    if closes == [] then ContentMeaning(c) else ["}"] + CodeMeaning(closes[1..], c)
  }

  function LineText(r: RawLine): string {
    match r
    case Blank(space) => space
    case Comment(lead, text) => lead + text
    case Code(lead, closes, c, trail) => lead + CodeText(closes, c) + trail
  }

  function LineMeaning(r: RawLine): seq<string> {
    if r.Code? then CodeMeaning(r.closes, r.content) else []
  }

  function BlockText(rs: seq<RawLine>): string {
    if rs == [] then "" else LineText(rs[0]) + ("\n" + BlockText(rs[1..]))
  }

  function BlockMeaning(rs: seq<RawLine>): seq<string> {
    if rs == [] then [] else LineMeaning(rs[0]) + BlockMeaning(rs[1..])
  }

  ghost predicate ValidContent(c: Content) {
    && Trimmed(ContentText(c))
    && match c
       case Nothing => true
       case Command(typed, tail) =>
         && Lower(typed) in COMMANDS && AtBoundary(tail)
         && (Lower(typed) == "else" ==> !CommandAt("else" + tail, 4 + Run(tail, IsSpace), "if"))
       case ElseIf(typedElse, gap, typedIf, tail) =>
         Lower(typedElse) == "else" && Lower(typedIf) == "if" && gap != "" && All(gap, IsSpace) && AtBoundary(tail)
       case Other(text) => text != "" && text[0] != '}' && FirstCommand(text, COMMANDS).None?
  }

  ghost predicate ValidCode(closes: seq<string>, c: Content) {
    && ValidContent(c)
    && (forall i :: 0 <= i < |closes| ==> All(closes[i], IsBlank))
    && (c.Nothing? && closes != [] ==> closes[|closes| - 1] == "")
  }

  ghost predicate ValidLine(r: RawLine) {
    && '\n' !in LineText(r) && '\r' !in LineText(r)
    && match r
       case Blank(space) => All(space, IsBlank)
       case Comment(lead, text) => All(lead, IsBlank) && text != "" && (text[0] == ';' || text[0] == '#')
       case Code(lead, closes, c, trail) =>
         && All(lead, IsBlank) && All(trail, IsBlank) && ValidCode(closes, c)
         && (closes == [] && c.Other? ==> c.text[0] != ';' && c.text[0] != '#')
  }

  ghost predicate ValidBlock(rs: seq<RawLine>) { forall i :: 0 <= i < |rs| ==> ValidLine(rs[i]) }

  // ---- command words -----------------------------------------------------------

  predicate IsLowerLetter(c: char) { 'a' <= c <= 'z' }

  lemma CommandsAreWords(command: string)
    requires command in COMMANDS
    ensures command != "" && All(command, IsLowerLetter)
  {
  }

  lemma TypedLetters(typed: string)
    requires Lower(typed) in COMMANDS
    ensures typed != "" && forall i :: 0 <= i < |typed| ==> IsLowerLetter(LowerChar(typed[i]))
  {
    hide COMMANDS;
    CommandsAreWords(Lower(typed));
    assert forall i :: 0 <= i < |typed| ==> Lower(typed)[i] == LowerChar(typed[i]);
  }

  lemma LetterIsNoBoundary(c: char)
    requires IsLowerLetter(LowerChar(c))
    ensures !IsBoundary(c) && c != '}' && c != ';' && c != '#' && !IsTrailing(c)
  {
  }

  lemma TypedCommandAt(front: string, typed: string, tail: string)
    requires AtBoundary(tail)
    ensures CommandAt(front + (typed + tail), |front|, Lower(typed))
    ensures LowerAt(front + (typed + tail), |front|, Lower(typed)) == front + (Lower(typed) + tail)
  {
    hide Lower;
    var line := front + (typed + tail);
    var n := |front| + |typed|;
    assert line[|front|..n] == typed && line[n..] == tail && line[..|front|] == front;
    assert front + Lower(typed) + tail == front + (Lower(typed) + tail);
  }

  /** At most one command word stands in front of a boundary. */
  lemma OnlyTypedCommand(typed: string, tail: string, command: string)
    requires Lower(typed) in COMMANDS && command in COMMANDS && AtBoundary(tail)
    requires CommandAt(typed + tail, 0, command)
    ensures command == Lower(typed)
  {
    hide COMMANDS;
    var line := typed + tail;
    TypedLetters(typed);
    CommandsAreWords(command);
    if |command| < |typed| {
      assert line[|command|..][0] == typed[|command|];
      LetterIsNoBoundary(typed[|command|]);
    } else if |command| > |typed| {
      assert line[0..|command|][|typed|] == tail[0];
      assert Lower(line[0..|command|])[|typed|] == LowerChar(tail[0]);
      LetterIsNoBoundary(tail[0]);
    } else {
      assert line[0..|typed|] == typed;
    }
  }

  lemma FirstCommandTyped(typed: string, tail: string)
    requires Lower(typed) in COMMANDS && AtBoundary(tail)
    ensures FirstCommand(typed + tail, COMMANDS) == Some(Lower(typed))
  {
    hide COMMANDS, CommandAt, LowerAt;
    TypedCommandAt("", typed, tail);
    assert "" + (typed + tail) == typed + tail;
    var found := FirstCommand(typed + tail, COMMANDS);
    assert found.Some?;
    OnlyTypedCommand(typed, tail, found.value);
  }

  lemma NormalizeFound(line: string, command: string)
    requires FirstCommand(line, COMMANDS) == Some(command)
    ensures command != "else" ==> NormalizeTokens(line) == LowerAt(line, 0, command)
    ensures command == "else" ==>
              |LowerAt(line, 0, command)| >= 4 && NormalizeTokens(line) == LowerElseIf(LowerAt(line, 0, command))
  {
    hide COMMANDS, CommandAt, LowerAt, FirstCommand, LowerElseIf;
    if command == "else" {
      ElseLength(line);
    }
  }

  lemma NormalizeCommand(typed: string, tail: string)
    requires Lower(typed) in COMMANDS && AtBoundary(tail)
    requires Lower(typed) == "else" ==> !CommandAt("else" + tail, 4 + Run(tail, IsSpace), "if")
    ensures NormalizeTokens(typed + tail) == Lower(typed) + tail
  {
    hide COMMANDS, CommandAt, LowerAt, FirstCommand, NormalizeTokens, LowerElseIf;
    FirstCommandTyped(typed, tail);
    TypedCommandAt("", typed, tail);
    NormalizeFound(typed + tail, Lower(typed));
    assert "" + (typed + tail) == typed + tail && "" + (Lower(typed) + tail) == Lower(typed) + tail;
    if Lower(typed) == "else" {
      ElseWithoutIf(tail);
    }
  }

  lemma ElseWithoutIf(tail: string)
    requires !CommandAt("else" + tail, 4 + Run(tail, IsSpace), "if")
    ensures LowerElseIf("else" + tail) == "else" + tail
  {
    assert ("else" + tail)[4..] == tail;
  }

  lemma ElseIsCommand()
    ensures "else" in COMMANDS && "if" in COMMANDS
  {
    assert COMMANDS[9] == "else" && COMMANDS[10] == "if";
  }

  lemma NormalizeElseIfLine(typedElse: string, gap: string, typedIf: string, tail: string)
    requires Lower(typedElse) == "else" && Lower(typedIf) == "if" && gap != "" && All(gap, IsSpace) && AtBoundary(tail)
    ensures NormalizeTokens(typedElse + (gap + (typedIf + tail))) == "else" + (gap + ("if" + tail))
  {
    hide COMMANDS, CommandAt, LowerAt, FirstCommand, NormalizeTokens, LowerElseIf;
    ElseIsCommand();
    var rest := gap + (typedIf + tail);
    assert AtBoundary(rest) by { assert rest[0] == gap[0]; }
    FirstCommandTyped(typedElse, rest);
    TypedCommandAt("", typedElse, rest);
    NormalizeFound(typedElse + rest, "else");
    assert "" + (typedElse + rest) == typedElse + rest && "" + ("else" + rest) == "else" + rest;
    ElseThenIf(gap, typedIf, tail);
  }

  lemma LowerBehind(front: string, gap: string, typed: string, tail: string)
    requires AtBoundary(tail)
    ensures LowerAt(front + (gap + (typed + tail)), |front| + |gap|, Lower(typed)) == front + (gap + (Lower(typed) + tail))
  {
    hide LowerAt, CommandAt, Lower;
    TypedCommandAt(front + gap, typed, tail);
    assert front + (gap + (typed + tail)) == front + gap + (typed + tail);
    assert front + (gap + (Lower(typed) + tail)) == front + gap + (Lower(typed) + tail);
  }

  lemma ElseThenIf(gap: string, typedIf: string, tail: string)
    requires All(gap, IsSpace) && Lower(typedIf) == "if" && AtBoundary(tail)
    ensures LowerElseIf("else" + (gap + (typedIf + tail))) == "else" + (gap + ("if" + tail))
  {
    hide LowerAt, CommandAt, COMMANDS, Lower, Run;
    assert ("else" + (gap + (typedIf + tail)))[4..] == gap + (typedIf + tail);
    GapBeforeIf(gap, typedIf, tail);
    LowerBehind("else", gap, typedIf, tail);
  }

  lemma GapBeforeIf(gap: string, typedIf: string, tail: string)
    requires All(gap, IsSpace) && Lower(typedIf) == "if"
    ensures Run(gap + (typedIf + tail), IsSpace) == |gap|
  {
    hide COMMANDS;
    ElseIsCommand();
    TypedLetters(typedIf);
    LetterIsNoBoundary(typedIf[0]);
    assert StopsAt(typedIf + tail, IsSpace);
    RunAppend(gap, typedIf + tail, IsSpace);
  }

  /** The first character of content: never a closing brace, and no comment sign for a command. */
  lemma ContentStart(c: Content)
    requires ValidContent(c) && !c.Nothing?
    ensures var t := ContentText(c);
            t != "" && t[0] != '}' && (!c.Other? ==> t[0] != ';' && t[0] != '#')
  {
    hide COMMANDS, CommandAt;
    match c
    case Other(_) =>
    case Command(typed, tail) =>
      TypedLetters(typed);
      LetterIsNoBoundary(typed[0]);
      assert ContentText(c)[0] == typed[0];
    case ElseIf(typedElse, gap, typedIf, tail) =>
      ElseIsCommand();
      TypedLetters(typedElse);
      LetterIsNoBoundary(typedElse[0]);
      assert ContentText(c)[0] == typedElse[0];
  }

  lemma NormalizeContent(c: Content)
    requires ValidContent(c) && !c.Nothing?
    ensures [NormalizeTokens(ContentText(c))] == ContentMeaning(c)
  {
    hide COMMANDS, CommandAt, LowerAt, LowerElseIf;
    match c
    case Other(_) =>
    case Command(typed, tail) => NormalizeCommand(typed, tail);
    case ElseIf(typedElse, gap, typedIf, tail) => NormalizeElseIfLine(typedElse, gap, typedIf, tail);
  }

  // ---- lines ---------------------------------------------------------------------

  lemma {:induction false} CodeTextTrimmed(closes: seq<string>, c: Content)
    requires ValidCode(closes, c)
    ensures Trimmed(CodeText(closes, c))
    ensures closes != [] ==> CodeText(closes, c) != "" && CodeText(closes, c)[0] == '}'
    ensures closes == [] && !c.Nothing? ==> CodeText(closes, c) != ""
  {
    hide ValidContent, Trimmed, ContentText;
    if closes == [] {
      assert Trimmed(ContentText(c)) by { ContentIsTrimmed(c); }
      if !c.Nothing? { ContentStart(c); }
    } else {
      var rest := CodeText(closes[1..], c);
      CodeTextTrimmed(closes[1..], c);
      assert rest == "" ==> closes[0] == "";
      BehindClose(closes[0], rest);
    }
  }

  lemma BehindClose(blanks: string, rest: string)
    requires Trimmed(rest) && (rest == "" ==> blanks == "")
    ensures var t := "}" + (blanks + rest); Trimmed(t) && t != "" && t[0] == '}'
  {
    var t := "}" + (blanks + rest);
    if rest == "" {
      assert t == "}";
    } else {
      assert t[|t| - 1] == rest[|rest| - 1];
    }
  }

  lemma ContentIsTrimmed(c: Content)
    requires ValidContent(c)
    ensures Trimmed(ContentText(c))
  {
  }

  lemma {:induction false} PeelCode(closes: seq<string>, c: Content)
    requires ValidCode(closes, c)
    ensures Peel(CodeText(closes, c)) == CodeMeaning(closes, c)
  {
    hide ValidContent, NormalizeTokens, Trimmed;
    if closes == [] {
      if !c.Nothing? {
        ContentStart(c);
        NormalizeContent(c);
      }
    } else {
      var rest := CodeText(closes[1..], c);
      PeelCode(closes[1..], c);
      CodeTextTrimmed(closes[1..], c);
      TrimDecorated(closes[0], rest, "");
      assert closes[0] + rest + "" == closes[0] + rest;
      assert CodeText(closes, c)[1..] == closes[0] + rest;
    }
  }

  lemma ProcessCode(r: RawLine)
    requires ValidLine(r) && r.Code?
    ensures ProcessLine(LineText(r)) == LineMeaning(r)
  {
    hide ValidContent, NormalizeTokens, Peel, Trimmed;
    var core := CodeText(r.closes, r.content);
    CodeTextTrimmed(r.closes, r.content);
    BlankIsTrailing(r.trail);
    TrimDecorated(r.lead, core, r.trail);
    if r.closes == [] && !r.content.Nothing? {
      ContentStart(r.content);
    }
    PeelCode(r.closes, r.content);
    assert Peel("") == [] by { PeelNothing(); }
  }

  lemma PeelNothing()
    ensures Peel("") == []
  {
  }

  lemma BlankIsTrailing(s: string)
    requires All(s, IsBlank)
    ensures All(s, IsTrailing)
  {
  }

  lemma ProcessComment(lead: string, text: string)
    requires All(lead, IsBlank) && text != "" && (text[0] == ';' || text[0] == '#')
    ensures ProcessLine(lead + text) == []
  {
    var trail := TrimEndSplits(text);
    var core := TrimEnd(text);
    TrimEndKeepsFirst(text);
    TrimDecorated(lead, core, trail);
    assert lead + core + trail == lead + text;
  }

  lemma ProcessBlank(space: string)
    requires All(space, IsBlank)
    ensures ProcessLine(space) == []
  {
    TrimDecorated(space, "", "");
    assert space + "" + "" == space;
  }

  lemma ProcessRaw(r: RawLine)
    requires ValidLine(r)
    ensures ProcessLine(LineText(r)) == LineMeaning(r)
  {
    hide ProcessLine, CodeText, CodeMeaning, ValidCode;
    match r
    case Blank(space) => ProcessBlank(space);
    case Comment(lead, text) => ProcessComment(lead, text);
    case Code(_, _, _, _) => ProcessCode(r);
  }

  // ---- blocks ----------------------------------------------------------------------

  lemma {:induction false} ReadLine(line: string, current: string, rest: string)
    requires '\n' !in line && '\r' !in line
    ensures LinesFrom(line + ("\n" + rest), current) == ProcessLine(current + line) + LinesFrom(rest, "")
    decreases |line|
  {
    hide ProcessLine;
    var block := line + ("\n" + rest);
    if line == "" {
      assert block == "\n" + rest && block[1..] == rest && current + line == current;
    } else {
      assert block[0] == line[0] && block[1..] == line[1..] + ("\n" + rest);
      assert current + [line[0]] + line[1..] == current + line;
      ReadLine(line[1..], current + [line[0]], rest);
    }
  }

  /** The lines of a block are what its raw lines mean: indentation, trailing blanks, blank lines,
      comments, braces that share a line and the case of command words leave no trace. */
  lemma {:induction false} PreprocessBlock(rs: seq<RawLine>)
    requires ValidBlock(rs)
    ensures Preprocess(BlockText(rs)) == BlockMeaning(rs)
  {
    if rs != [] {
      hide ProcessLine, LineText, LineMeaning, LinesFrom;
      assert ValidLine(rs[0]);
      PreprocessBlock(rs[1..]);
      NoLineEnds(rs[0]);
      ReadLine(LineText(rs[0]), "", BlockText(rs[1..]));
      assert "" + LineText(rs[0]) == LineText(rs[0]);
      ProcessRaw(rs[0]);
    }
  }

  lemma NoLineEnds(r: RawLine)
    requires ValidLine(r)
    ensures '\n' !in LineText(r) && '\r' !in LineText(r)
  {
  }

  function DropReturns(block: string): string {
    if block == "" then ""
    else if block[0] == '\r' then DropReturns(block[1..])
    else [block[0]] + DropReturns(block[1..])
  }

  /** Carriage returns anywhere make no difference. */
  lemma {:induction false} ReturnsIgnored(block: string, current: string)
    ensures LinesFrom(block, current) == LinesFrom(DropReturns(block), current)
    decreases |block|
  {
    hide ProcessLine;
    if block != "" {
      if block[0] == '\r' {
        ReturnsIgnored(block[1..], current);
      } else if block[0] == '\n' {
        ReturnsIgnored(block[1..], "");
        assert DropReturns(block)[1..] == DropReturns(block[1..]);
      } else {
        ReturnsIgnored(block[1..], current + [block[0]]);
        assert DropReturns(block)[1..] == DropReturns(block[1..]);
      }
    }
  }

  /** A line break at the end of the block makes no difference. */
  lemma {:induction false} LastBreakIgnored(block: string, current: string)
    ensures LinesFrom(block + "\n", current) == LinesFrom(block, current)
    decreases |block|
  {
    hide ProcessLine;
    var b := block + "\n";
    if block == "" {
      assert b[1..] == "";
      assert LinesFrom("", "") == [];
      EmptyLine();
    } else {
      assert b[0] == block[0] && b[1..] == block[1..] + "\n";
      LastBreakIgnored(block[1..], if block[0] == '\n' then "" else if block[0] == '\r' then current else current + [block[0]]);
    }
  }

  lemma EmptyLine()
    ensures ProcessLine("") == []
  {
  }
}
