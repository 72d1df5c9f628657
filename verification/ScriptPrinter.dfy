/** Every command tree has a text that parses back to it
    (src/commands/ScriptParser.cpp:234-429). */
module ScriptPrinter {
  import opened Wrappers
  import opened Text
  import opened Decimal
  import opened ScriptLines
  import opened ScriptLayout
  import opened ScriptParser
  import opened ScriptRoundTrip
  import SendInput

  ghost predicate OneLine(s: string) { '\n' !in s && '\r' !in s }

  ghost predicate Identifier(name: string) { name != "" && IsWordStart(name[0]) && All(name, IsWord) }

  /** Text that can stand behind a command word and its comma. */
  ghost predicate ArgumentText(s: string) { s != "" && Trimmed(s) && OneLine(s) }

  ghost predicate ValidCommands(cs: seq<Command>)
    decreases cs
  {
    cs == [] || (ValidCommand(cs[0]) && ValidCommands(cs[1..]))
  }

  ghost predicate ValidCommand(c: Command)
    decreases c
  {
    match c
    case Send(parts) => SendInput.Canonical(parts) && ArgumentText(SendInput.Print(parts))
    case Sleep(ms) => ms <= INT_MAX
    case Random(name, lo, hi) => Identifier(name) && InInt(lo) && InInt(hi)
    case Cancel => true
    case ShowMarkdown(path) => ArgumentText(path)
    case Increment(name) => Identifier(name)
    case If(condition, t, e) => Trimmed(condition) && OneLine(condition) && ValidCommands(t) && ValidCommands(e)
  }

  /** The typed command word and the text behind it. */
  ghost function SimpleContent(c: Command): Content
    requires ValidCommand(c) && !c.If?
  {
    match c
    case Send(parts) => ScriptLayout.Command("SendInput", ", " + SendInput.Print(parts))
    case Sleep(ms) => ScriptLayout.Command("Sleep", ", " + ToString(ms))
    case Random(name, lo, hi) =>
      ScriptLayout.Command("Random", ", " + (name + (", " + (ToString(lo) + (", " + ToString(hi))))))
    case Cancel => ScriptLayout.Command("Cancel", "")
    case ShowMarkdown(path) => ScriptLayout.Command("ShowMarkdown", ", " + path)
    case Increment(name) => Other(name + "++")
  }

  /** The head of an If; a condition that holds a brace needs the opening brace on the next line. */
  function HeadFor(condition: string): Head {
    if '{' in condition then Head(" ", "", condition, "", "", false) else Head(" ", "", condition, "", " ", true)
  }

  ghost function NodesOf(cs: seq<Command>): seq<Node>
    requires ValidCommands(cs)
    decreases cs
  {
    if cs == [] then [] else [NodeOf(cs[0])] + NodesOf(cs[1..])
  }

  ghost function NodeOf(c: Command): Node
    requires ValidCommand(c)
    decreases c
  {
    match c
    case If(condition, t, e) =>
      Branch(HeadFor(condition), NodesOf(t), if e == [] then NoElse else Else(" ", true, NodesOf(e)))
    case _ => Simple(ContentMeaning(SimpleContent(c))[0])
  }

  // ---- the dispatch on the command word -------------------------------------------------

  lemma LowerOfLower(s: string)
    requires All(s, IsLowerLetter)
    ensures Lower(s) == s
  {
  }

  /** A line starts with one command word only. */
  lemma DispatchUnique(word: string, tail: string, command: string)
    requires word in COMMANDS && command in COMMANDS && AtBoundary(tail)
    ensures StartsWithCommand(word + tail, command) <==> command == word
  {
    hide COMMANDS;
    CommandsAreWords(word);
    LowerOfLower(word);
    CommandsAreWords(command);
    LowerOfLower(command);
    var line := word + tail;
    assert line[..|word|] == word && line[|word|..] == tail;
    if StartsWithCommand(line, command) {
      assert line[0..|command|] == line[..|command|];
      OnlyTypedCommand(word, tail, command);
    }
  }

  lemma CommandNames()
    ensures "sendinput" in COMMANDS && "sleep" in COMMANDS && "random" in COMMANDS && "sendmessage" in COMMANDS
    ensures "input" in COMMANDS && "return" in COMMANDS && "cancel" in COMMANDS && "pause" in COMMANDS
    ensures "showmarkdown" in COMMANDS && "if" in COMMANDS && "else" in COMMANDS
  {
    assert COMMANDS[0] == "showmarkdown" && COMMANDS[1] == "sendinput" && COMMANDS[2] == "sendmessage";
    assert COMMANDS[3] == "random" && COMMANDS[4] == "return" && COMMANDS[5] == "cancel" && COMMANDS[6] == "sleep";
    assert COMMANDS[7] == "pause" && COMMANDS[8] == "input" && COMMANDS[9] == "else" && COMMANDS[10] == "if";
  }

  /** A command word is read by its own parser. */
  lemma Dispatch(word: string, tail: string)
    requires word in COMMANDS && word != "if" && word != "else" && AtBoundary(tail)
    ensures var line := word + tail;
            && line != "}" && !StartsIf(line) && !StartsElse(line)
            && SimpleCommand(line)
               == if word == "sendinput" then ParseSend(tail)
                  else if word == "sleep" then ParseSleep(tail)
                  else if word == "random" then ParseRandom(tail)
                  else if word == "showmarkdown" then ParseMarkdown(tail)
                  else if word == "cancel" || word == "pause" then Ok(Some(Cancel))
                  else Ok(None)
  {
    DispatchWords(word, tail);
    var line := word + tail;
    assert line[|word|..] == tail;
    hide COMMANDS, StartsWithCommand, ParseSend, ParseSleep, ParseRandom, ParseMarkdown, IncrementName;
    OtherWords(word);
  }

  lemma OtherWords(word: string)
    requires word in COMMANDS && word != "if" && word != "else"
    ensures word == "sendinput" || word == "sleep" || word == "random" || word == "sendmessage" || word == "input"
            || word == "return" || word == "cancel" || word == "pause" || word == "showmarkdown"
  {
  }

  lemma DispatchWords(word: string, tail: string)
    requires word in COMMANDS && AtBoundary(tail)
    ensures var line := word + tail;
            && line != "}"
            && (StartsIf(line) <==> word == "if") && (StartsElse(line) <==> word == "else")
            && (StartsWithCommand(line, "sendinput") <==> word == "sendinput")
            && (StartsWithCommand(line, "sleep") <==> word == "sleep")
            && (StartsWithCommand(line, "random") <==> word == "random")
            && (StartsWithCommand(line, "sendmessage") <==> word == "sendmessage")
            && (StartsWithCommand(line, "input") <==> word == "input")
            && (StartsWithCommand(line, "return") <==> word == "return")
            && (StartsWithCommand(line, "cancel") <==> word == "cancel")
            && (StartsWithCommand(line, "pause") <==> word == "pause")
            && (StartsWithCommand(line, "showmarkdown") <==> word == "showmarkdown")
  {
    hide COMMANDS, StartsWithCommand, AtBoundary;
    CommandNames();
    CommandsAreWords(word);
    assert (word + tail)[0] == word[0];
    forall command | command in COMMANDS
      ensures StartsWithCommand(word + tail, command) <==> command == word
    {
      DispatchUnique(word, tail, command);
    }
  }

  // ---- arguments ---------------------------------------------------------------------------

  /** The arguments behind a command word, with or without the comma, whatever blanks stand around them. */
  lemma ArgumentsAre(lead: string, gap: string, s: string, trail: string)
    requires All(lead, IsBlank) && All(gap, IsBlank) && Trimmed(s) && All(trail, IsTrailing)
    ensures s == "" || s[0] != ',' ==> Arguments(lead + s + trail) == s
    ensures s != "" ==> Arguments(lead + ("," + (gap + s)) + trail) == s
    ensures Arguments(lead + "," + trail) == ""
  {
    hide Trim;
    TrimDecorated(lead, s, trail);
    TrimDecorated(gap, s, "");
    assert gap + s + "" == gap + s;
    var t := "," + (gap + s);
    assert t[1..] == gap + s;
    if s != "" {
      assert t[|t| - 1] == s[|s| - 1];
      TrimDecorated(lead, t, trail);
    }
    TrimDecorated(lead, ",", trail);
    TrimDecorated("", "", "");
    assert "" + "" + "" == "" && ","[1..] == "";
  }

  lemma ArgumentsBack(s: string)
    requires s != "" && Trimmed(s)
    ensures Arguments(", " + s) == s
  {
    var t := ", " + s;
    assert t[|t| - 1] == s[|s| - 1];
    TrimOfTrimmed(t);
    assert t[1..] == " " + s;
    TrimDecorated(" ", s, "");
    assert " " + s + "" == " " + s;
  }

  lemma NumberIsTrimmed(v: int)
    ensures ToString(v) != "" && Trimmed(ToString(v)) && OneLine(ToString(v))
  {
    ToStringRoundTrip(v);
    IntTextChars(ToString(v));
  }

  lemma IntTextChars(t: string)
    requires IsIntText(t)
    ensures forall i :: 0 <= i < |t| ==> IsDigit(t[i]) || t[i] == '-'
  {
    if t[0] == '-' {
      assert forall i :: 1 <= i < |t| ==> t[i] == t[1..][i - 1];
    }
  }

  lemma StoiIntText(t: string)
    requires IsIntText(t)
    ensures Stoi(t) == if InInt(IntValue(t)) then Ok(IntValue(t)) else Err
  {
    IntTextChars(t);
    SkipSpaceAppend("", t);
    assert "" + t == t;
    if t[0] == '-' {
      RunAppend(t[1..], "", IsDigit);
      assert t[1..] + "" == t[1..] && t[1..][..|t| - 1] == t[1..];
    } else {
      RunAppend(t, "", IsDigit);
      assert t + "" == t && t[..|t|] == t;
    }
  }

  lemma SignsAreText()
    ensures !IsSpace('-') && !IsSpace('+') && !IsDigit('-') && !IsDigit('+')
    ensures forall c :: IsDigit(c) ==> !IsSpace(c) && c != '-' && c != '+'
  {
  }

  /** `std::stoi` reads white space, a sign and all the digits that follow; what stands behind them does not
      matter, and without digits or outside the int range it throws. */
  lemma StoiReads(space: string, sign: string, digits: string, rest: string)
    requires All(space, IsSpace) && sign in {"", "-", "+"} && AllDigits(digits) && StopsAt(rest, IsDigit)
    requires digits == "" && sign == "" ==> StopsAt(rest, IsSpace) && (rest == "" || (rest[0] != '-' && rest[0] != '+'))
    ensures var v := if sign == "-" then 0 - DigitsValue(digits) else DigitsValue(digits);
            Stoi(space + (sign + (digits + rest))) == if digits != "" && InInt(v) then Ok(v) else Err
  {
    hide Run, DigitsValue, IsSpace, IsSuffix;
    SignsAreText();
    var u := digits + rest;
    var t := sign + u;
    assert t != "" ==> t[0] == if sign != "" then sign[0] else if digits != "" then digits[0] else rest[0];
    assert sign == "" ==> t == u;
    assert sign != "" ==> t[1..] == u;
    SkipSpaceAppend(space, t);
    RunAppend(digits, rest, IsDigit);
    assert u[..|digits|] == digits;
    if digits != "" {
      assert IsDigit(digits[0]);
    }
  }

  lemma StoiBack(v: int)
    requires InInt(v)
    ensures Stoi(ToString(v)) == Ok(v)
  {
    hide Stoi, ToString;
    ToStringRoundTrip(v);
    StoiIntText(ToString(v));
  }

  lemma AfterCommaBack(s: string)
    requires s != "" && !IsSpace(s[0])
    ensures AfterComma(", " + s) == Some(s)
  {
    SkipSpaceAppend("", ", " + s);
    assert "" + (", " + s) == ", " + s;
    assert (", " + s)[1..] == " " + s;
    SkipSpaceAppend(" ", s);
  }

  lemma BoundsBack(lo: int, hi: int)
    ensures RandomBounds(", " + (ToString(lo) + (", " + ToString(hi)))) == Some((ToString(lo), ToString(hi)))
  {
    hide AfterComma, ScanInt, ToString, IsIntText, SkipSpace;
    var a, b := ToString(lo), ToString(hi);
    NumberText(lo);
    NumberText(hi);
    assert (a + (", " + b))[0] == a[0];
    AfterCommaBack(a + (", " + b));
    ScanIntAppend(a, ", " + b);
    AfterCommaBack(b);
    assert b + "" == b;
    ScanIntAppend(b, "");
    SkipSpaceAppend("", "");
    assert "" + "" == "";
  }

  lemma NumberText(v: int)
    ensures IsIntText(ToString(v)) && ToString(v) != "" && !IsSpace(ToString(v)[0])
  {
    ToStringRoundTrip(v);
    IntTextChars(ToString(v));
  }

  lemma RandomBack(name: string, lo: int, hi: int)
    requires Identifier(name) && InInt(lo) && InInt(hi)
    ensures ParseRandom(", " + (name + (", " + (ToString(lo) + (", " + ToString(hi)))))) == Ok(Some(Random(name, lo, hi)))
  {
    hide AfterComma, RandomBounds, Stoi, ToString;
    var bounds := ", " + (ToString(lo) + (", " + ToString(hi)));
    var s := name + bounds;
    assert IsWord(s[0]) && s[0] == name[0];
    AfterCommaBack(s);
    RunAppend(name, bounds, IsWord);
    assert s[..|name|] == name && s[|name|..] == bounds;
    BoundsBack(lo, hi);
    StoiBack(lo);
    StoiBack(hi);
  }

  lemma IncrementBack(name: string)
    requires Identifier(name)
    ensures IncrementName(name + "++") == Some(name)
  {
    hide SkipSpace, Run;
    var s := name + "++";
    assert IsWord(name[0]) && s[0] == name[0];
    SkipSpaceAppend("", s);
    assert "" + s == s;
    RunAppend(name, "++", IsWord);
    assert s[..|name|] == name && s[|name| + 2..] == "";
    assert s[|name|] == '+' && s[|name| + 1] == '+';
    SkipSpaceAppend("", "");
    assert "" + "" == "";
  }

  /** `name++` starts with no command word, whatever the name is. */
  lemma IncrementIsNoCommand(name: string, command: string)
    requires Identifier(name) && command in COMMANDS
    ensures !StartsWithCommand(name + "++", command) && !CommandAt(name + "++", 0, command)
  {
    hide COMMANDS;
    CommandsAreWords(command);
    var line := name + "++";
    forall i | 0 <= i < |line| ensures !IsBoundary(line[i]) {
      if i < |name| { assert IsWord(name[i]); }
    }
    var k := |command|;
    if k < |line| {
      assert line[k..][0] == line[k];
    } else if k == |line| {
      assert line[0..k][k - 1] == '+' && line[..k][k - 1] == '+';
      assert Lower(line[0..k])[k - 1] == '+';
      assert IsLowerLetter(command[k - 1]);
    }
  }

  lemma IncrementParses(name: string)
    requires Identifier(name)
    ensures var line := name + "++";
            && line != "}" && !StartsIf(line) && !StartsElse(line)
            && SimpleCommand(line) == Ok(Some(Increment(name)))
            && FirstCommand(line, COMMANDS) == None
  {
    hide COMMANDS, StartsWithCommand, CommandAt, IncrementName;
    CommandNames();
    IncrementBack(name);
    forall command | command in COMMANDS
      ensures !StartsWithCommand(name + "++", command) && !CommandAt(name + "++", 0, command)
    {
      IncrementIsNoCommand(name, command);
    }
  }

  // ---- simple commands ------------------------------------------------------------------------

  lemma LowerIs(typed: string, word: string)
    requires |typed| == |word| && forall i :: 0 <= i < |typed| ==> LowerChar(typed[i]) == word[i]
    ensures Lower(typed) == word
  {
    hide Lower;
  }

  lemma TypedWords()
    ensures Lower("SendInput") == "sendinput" && Lower("Sleep") == "sleep" && Lower("Random") == "random"
    ensures Lower("Cancel") == "cancel" && Lower("ShowMarkdown") == "showmarkdown"
    ensures Lower("If") == "if" && Lower("Else") == "else"
  {
    hide Lower;
    LowerIs("SendInput", "sendinput");
    LowerIs("Sleep", "sleep");
    LowerIs("Random", "random");
    LowerIs("Cancel", "cancel");
    LowerIs("ShowMarkdown", "showmarkdown");
    LowerIs("If", "if");
    LowerIs("Else", "else");
  }

  /** What a line must satisfy to be read as the command. */
  predicate ReadsAs(line: string, c: Command) {
    line != "}" && !StartsIf(line) && !StartsElse(line) && SimpleCommand(line) == Ok(Some(c))
  }

  lemma SendBack(parts: seq<SendInput.Part>)
    requires ValidCommand(Send(parts))
    ensures ReadsAs("sendinput" + (", " + SendInput.Print(parts)), Send(parts))
  {
    hide COMMANDS, StartsWithCommand, SimpleCommand, Arguments;
    var s := SendInput.Print(parts);
    CommandNames();
    Dispatch("sendinput", ", " + s);
    ArgumentsBack(s);
    SendInput.ParsePrint(parts);
  }

  lemma SleepBack(ms: nat)
    requires ms <= INT_MAX
    ensures ReadsAs("sleep" + (", " + ToString(ms)), Sleep(ms))
  {
    hide COMMANDS, StartsWithCommand, SimpleCommand, Arguments, ToString, Stoi;
    CommandNames();
    Dispatch("sleep", ", " + ToString(ms));
    NumberIsTrimmed(ms);
    ArgumentsBack(ToString(ms));
    StoiBack(ms);
  }

  lemma MarkdownBack(path: string)
    requires ArgumentText(path)
    ensures ReadsAs("showmarkdown" + (", " + path), ShowMarkdown(path))
  {
    hide COMMANDS, StartsWithCommand, SimpleCommand, Arguments;
    CommandNames();
    Dispatch("showmarkdown", ", " + path);
    ArgumentsBack(path);
  }

  lemma RandomReads(name: string, lo: int, hi: int)
    requires Identifier(name) && InInt(lo) && InInt(hi)
    ensures ReadsAs("random" + (", " + (name + (", " + (ToString(lo) + (", " + ToString(hi)))))), Random(name, lo, hi))
  {
    hide COMMANDS, StartsWithCommand, SimpleCommand, ToString, ParseRandom;
    CommandNames();
    Dispatch("random", ", " + (name + (", " + (ToString(lo) + (", " + ToString(hi))))));
    RandomBack(name, lo, hi);
  }

  lemma CancelReads()
    ensures ReadsAs("cancel" + "", Cancel)
  {
    hide COMMANDS, StartsWithCommand, SimpleCommand;
    CommandNames();
    Dispatch("cancel", "");
  }

  lemma SimpleBack(c: Command)
    requires ValidCommand(c) && !c.If?
    ensures |ContentMeaning(SimpleContent(c))| == 1
    ensures ReadsAs(ContentMeaning(SimpleContent(c))[0], c)
  {
    hide COMMANDS, StartsWithCommand, SimpleCommand, ToString, Lower, ReadsAs;
    TypedWords();
    match c
    case Send(parts) => SendBack(parts);
    case Sleep(ms) => SleepBack(ms);
    case Random(name, lo, hi) => RandomReads(name, lo, hi);
    case Cancel => CancelReads();
    case ShowMarkdown(path) => MarkdownBack(path);
    case Increment(name) => IncrementReads(name);
  }

  lemma IncrementReads(name: string)
    requires Identifier(name)
    ensures ReadsAs(name + "++", Increment(name))
  {
    hide SimpleCommand, StartsWithCommand, FirstCommand, COMMANDS;
    IncrementParses(name);
  }

  lemma HeadForValid(condition: string)
    requires Trimmed(condition)
    ensures ValidHead(HeadFor(condition)) && HeadFor(condition).condition == condition
  {
  }

  lemma {:induction false} NodesBack(cs: seq<Command>)
    requires ValidCommands(cs)
    ensures ValidNodes(NodesOf(cs)) && Erase(NodesOf(cs)) == cs
    decreases cs
  {
    hide SimpleCommand, StartsWithCommand, ValidHead, ValidCommand, NodeOf, NodesOf, ValidNode, EraseNode, ValidNodes, Erase;
    NodesStep(cs);
    if cs == [] {
      NoNodes();
    } else {
      NodeBack(cs[0]);
      NodesBack(cs[1..]);
      EraseCons(NodeOf(cs[0]), NodesOf(cs[1..]));
      assert [cs[0]] + cs[1..] == cs;
    }
  }

  lemma NodesStep(cs: seq<Command>)
    requires ValidCommands(cs)
    ensures cs == [] ==> NodesOf(cs) == []
    ensures cs != [] ==> NodesOf(cs) == [NodeOf(cs[0])] + NodesOf(cs[1..])
  {
    hide ValidCommand, NodeOf;
  }

  lemma NoNodes()
    ensures ValidNodes([]) && Erase([]) == []
  {
  }

  lemma EraseCons(n: Node, ns: seq<Node>)
    requires ValidNode(n) && ValidNodes(ns)
    ensures ValidNodes([n] + ns) && Erase([n] + ns) == EraseNode(n) + Erase(ns)
  {
    hide ValidNode, EraseNode;
    assert ([n] + ns)[0] == n && ([n] + ns)[1..] == ns;
  }

  lemma {:induction false} NodeBack(c: Command)
    requires ValidCommand(c)
    ensures ValidNode(NodeOf(c)) && EraseNode(NodeOf(c)) == [c]
    decreases c
  {
    hide SimpleCommand, StartsWithCommand, ValidHead, SimpleContent, ContentMeaning, HeadFor;
    match c
    case If(condition, t, e) =>
      HeadForValid(condition);
      NodesBack(t);
      NodesBack(e);
    case _ => SimpleBack(c);
  }

  // ---- the text ---------------------------------------------------------------------------------

  ghost function CodeLine(c: Content): RawLine { Code("", [], c, "") }

  const CLOSE_LINE: RawLine := Code("", [""], Nothing, "")
  const OPEN_LINE: RawLine := Code("", [], Other("{"), "")

  /** The lines as a user would type them, in front of `rest`. */
  ghost function RawOnto(cs: seq<Command>, rest: seq<RawLine>): seq<RawLine>
    requires ValidCommands(cs)
    decreases cs, 0
  {
    if cs == [] then rest else RawCommandOnto(cs[0], RawOnto(cs[1..], rest))
  }

  ghost function RawCommandOnto(c: Command, rest: seq<RawLine>): seq<RawLine>
    requires ValidCommand(c)
    decreases c
  {
    match c
    case If(condition, t, e) => HeadLines(condition, RawOnto(t, [CLOSE_LINE] + RawElseOnto(e, rest)))
    case _ => [CodeLine(SimpleContent(c))] + rest
  }

  ghost function RawElseOnto(e: seq<Command>, rest: seq<RawLine>): seq<RawLine>
    requires ValidCommands(e)
    decreases e, 1
  {
    if e == [] then rest else [CodeLine(ScriptLayout.Command("Else", " {"))] + RawOnto(e, [CLOSE_LINE] + rest)
  }

  /** `If (condition) {`, or the brace on the next line. */
  ghost function HeadLines(condition: string, rest: seq<RawLine>): seq<RawLine> {
    if '{' in condition then
      [CodeLine(ScriptLayout.Command("If", " (" + (condition + ")")))] + ([OPEN_LINE] + rest)
    else [CodeLine(ScriptLayout.Command("If", " (" + (condition + ") {")))] + rest
  }

  ghost function ScriptText(cs: seq<Command>): string
    requires ValidCommands(cs)
  {
    BlockText(RawOnto(cs, []))
  }

  lemma MeaningOfLine(r: RawLine, rest: seq<RawLine>)
    ensures BlockMeaning([r] + rest) == LineMeaning(r) + BlockMeaning(rest)
    ensures ValidBlock([r] + rest) <==> ValidLine(r) && ValidBlock(rest)
  {
    hide ValidLine, LineMeaning;
    assert ([r] + rest)[1..] == rest;
    if ValidBlock([r] + rest) {
      assert ValidLine(([r] + rest)[0]);
      forall i | 0 <= i < |rest| ensures ValidLine(rest[i]) { assert rest[i] == ([r] + rest)[i + 1]; }
    }
  }

  lemma CodeLineValid(c: Content)
    requires ValidContent(c) && !c.Nothing? && OneLine(ContentText(c))
    requires c.Other? ==> c.text[0] != ';' && c.text[0] != '#'
    ensures ValidLine(CodeLine(c)) && LineMeaning(CodeLine(c)) == ContentMeaning(c)
  {
    hide ValidContent, ContentText, ContentMeaning;
    assert "" + CodeText([], c) + "" == ContentText(c);
  }

  lemma CloseLine()
    ensures ValidLine(CLOSE_LINE) && LineMeaning(CLOSE_LINE) == ["}"]
  {
    assert CodeText([""][1..], Nothing) == "";
    assert CodeText([""], Nothing) == "}";
    assert "" + "}" + "" == "}";
    assert CodeMeaning([""][1..], Nothing) == [];
  }

  lemma OpenLine()
    ensures ValidLine(OPEN_LINE) && LineMeaning(OPEN_LINE) == ["{"]
  {
    BraceIsNoCommand();
    hide COMMANDS, FirstCommand;
    CodeLineValid(Other("{"));
  }

  lemma BraceIsNoCommand()
    ensures FirstCommand("{", COMMANDS).None?
  {
    hide COMMANDS;
    forall command | command in COMMANDS ensures !CommandAt("{", 0, command) {
      CommandsAreWords(command);
      if |command| == 1 {
        assert "{"[0..1] == "{";
      }
    }
  }

  lemma NoIfBehindElse()
    ensures !CommandAt("else" + " {", 4 + Run(" {", IsSpace), "if")
  {
    assert "else" + " {" == "else {";
    RunAppend(" ", "{", IsSpace);
    assert " " + "{" == " {";
  }

  lemma ElseTypedLine()
    ensures ValidLine(CodeLine(ScriptLayout.Command("Else", " {")))
    ensures LineMeaning(CodeLine(ScriptLayout.Command("Else", " {"))) == ["else" + " {"]
  {
    hide COMMANDS, CommandAt, Lower, Run;
    TypedWords();
    CommandNames();
    NoIfBehindElse();
    assert "Else" + " {" == "Else {";
    CodeLineValid(ScriptLayout.Command("Else", " {"));
  }

  lemma IfTypedLine(tail: string)
    requires AtBoundary(tail) && OneLine(tail) && tail != "" && !IsTrailing(tail[|tail| - 1])
    ensures ValidLine(CodeLine(ScriptLayout.Command("If", tail)))
    ensures LineMeaning(CodeLine(ScriptLayout.Command("If", tail))) == ["if" + tail]
  {
    hide COMMANDS, CommandAt, Lower, Run, ValidLine, LineMeaning;
    TypedWords();
    CommandNames();
    var text := "If" + tail;
    assert text[|text| - 1] == tail[|tail| - 1] && text[0] == 'I';
    CodeLineValid(ScriptLayout.Command("If", tail));
  }

  lemma HeadLinesMean(condition: string, rest: seq<RawLine>)
    requires Trimmed(condition) && OneLine(condition) && ValidBlock(rest)
    ensures ValidBlock(HeadLines(condition, rest))
    ensures var h := HeadFor(condition);
            BlockMeaning(HeadLines(condition, rest)) == BraceOnto(h.inlineBrace, HeadText(h), BlockMeaning(rest))
  {
    hide ValidLine, LineMeaning, ValidBlock, BlockMeaning;
    var h := HeadFor(condition);
    if '{' in condition {
      var tail := " (" + (condition + ")");
      IfTypedLine(tail);
      OpenLine();
      MeaningOfLine(OPEN_LINE, rest);
      MeaningOfLine(CodeLine(ScriptLayout.Command("If", tail)), [OPEN_LINE] + rest);
      assert HeadText(h) == "if" + tail;
    } else {
      var tail := " (" + (condition + ") {");
      IfTypedLine(tail);
      MeaningOfLine(CodeLine(ScriptLayout.Command("If", tail)), rest);
      assert HeadText(h) == "if" + tail;
    }
  }

  lemma ArgumentLine(typed: string, s: string)
    requires Lower(typed) in COMMANDS && Lower(typed) != "else" && s != "" && Trimmed(s) && OneLine(s)
    ensures ValidLine(CodeLine(ScriptLayout.Command(typed, ", " + s)))
  {
    hide COMMANDS, CommandAt, Lower;
    var text := typed + (", " + s);
    TypedLetters(typed);
    LetterIsNoBoundary(typed[0]);
    assert text[|text| - 1] == s[|s| - 1] && text[0] == typed[0];
    forall i | 0 <= i < |typed| ensures typed[i] != '\n' && typed[i] != '\r' { LetterIsNoBoundary(typed[i]); }
  }

  lemma RandomArgumentText(name: string, lo: int, hi: int)
    requires Identifier(name)
    ensures ArgumentText(name + (", " + (ToString(lo) + (", " + ToString(hi)))))
  {
    hide ToString;
    NumberIsTrimmed(lo);
    NumberIsTrimmed(hi);
    var s := name + (", " + (ToString(lo) + (", " + ToString(hi))));
    assert s[|s| - 1] == ToString(hi)[|ToString(hi)| - 1] && s[0] == name[0];
    assert IsWord(name[0]);
    forall i | 0 <= i < |name| ensures name[i] != '\n' && name[i] != '\r' { assert IsWord(name[i]); }
  }

  lemma SimpleLine(c: Command)
    requires ValidCommand(c) && !c.If?
    ensures ValidLine(CodeLine(SimpleContent(c)))
    ensures LineMeaning(CodeLine(SimpleContent(c))) == ContentMeaning(SimpleContent(c))
    ensures |ContentMeaning(SimpleContent(c))| == 1
  {
    hide COMMANDS, CommandAt, Lower, ToString, ValidLine, FirstCommand;
    TypedWords();
    CommandNames();
    match c
    case Send(parts) => ArgumentLine("SendInput", SendInput.Print(parts));
    case Sleep(ms) =>
      NumberIsTrimmed(ms);
      ArgumentLine("Sleep", ToString(ms));
    case Random(name, lo, hi) =>
      RandomArgumentText(name, lo, hi);
      ArgumentLine("Random", name + (", " + (ToString(lo) + (", " + ToString(hi)))));
    case Cancel => CancelLine();
    case ShowMarkdown(path) => ArgumentLine("ShowMarkdown", path);
    case Increment(name) => IncrementLine(name);
  }

  lemma CancelLine()
    ensures ValidLine(CodeLine(ScriptLayout.Command("Cancel", "")))
  {
    hide COMMANDS, CommandAt, Lower;
    TypedWords();
    CommandNames();
    assert "Cancel" + "" == "Cancel";
  }

  lemma IncrementLine(name: string)
    requires Identifier(name)
    ensures ValidLine(CodeLine(Other(name + "++")))
  {
    hide COMMANDS, FirstCommand, SimpleCommand, StartsWithCommand;
    IncrementParses(name);
    var text := name + "++";
    assert text[0] == name[0] && IsWord(name[0]);
    forall i | 0 <= i < |name| ensures name[i] != '\n' && name[i] != '\r' { assert IsWord(name[i]); }
  }

  lemma {:induction false} RawMeaning(cs: seq<Command>, rest: seq<RawLine>)
    requires ValidCommands(cs) && ValidBlock(rest)
    ensures ValidBlock(RawOnto(cs, rest))
    ensures BlockMeaning(RawOnto(cs, rest)) == LinesOnto(NodesOf(cs), BlockMeaning(rest))
    decreases cs, 0
  {
    if cs != [] {
      hide ValidBlock, BlockMeaning, RawCommandOnto, NodeOf, NodeOnto;
      RawMeaning(cs[1..], rest);
      RawCommandMeaning(cs[0], RawOnto(cs[1..], rest));
      assert NodesOf(cs)[1..] == NodesOf(cs[1..]);
    }
  }

  lemma {:induction false} RawCommandMeaning(c: Command, rest: seq<RawLine>)
    requires ValidCommand(c) && ValidBlock(rest)
    ensures ValidBlock(RawCommandOnto(c, rest))
    ensures BlockMeaning(RawCommandOnto(c, rest)) == NodeOnto(NodeOf(c), BlockMeaning(rest))
    decreases c
  {
    hide ValidBlock, BlockMeaning, ValidLine, LineMeaning, HeadLines, HeadText, LinesOnto, RawOnto;
    if c.If? {
      var behind := RawElseOnto(c.elseBranch, rest);
      RawElseMeaning(c.elseBranch, rest);
      CloseLine();
      MeaningOfLine(CLOSE_LINE, behind);
      RawMeaning(c.thenBranch, [CLOSE_LINE] + behind);
      HeadLinesMean(c.condition, RawOnto(c.thenBranch, [CLOSE_LINE] + behind));
    } else {
      SimpleLine(c);
      MeaningOfLine(CodeLine(SimpleContent(c)), rest);
    }
  }

  lemma {:induction false} RawElseMeaning(e: seq<Command>, rest: seq<RawLine>)
    requires ValidCommands(e) && ValidBlock(rest)
    ensures ValidBlock(RawElseOnto(e, rest))
    ensures BlockMeaning(RawElseOnto(e, rest))
            == TailOnto(if e == [] then NoElse else Else(" ", true, NodesOf(e)), BlockMeaning(rest))
    decreases e, 1
  {
    hide ValidBlock, BlockMeaning, ValidLine, LineMeaning, LinesOnto, RawOnto, NodesOf, BraceOnto;
    if e != [] {
      CloseLine();
      MeaningOfLine(CLOSE_LINE, rest);
      RawMeaning(e, [CLOSE_LINE] + rest);
      ElseTypedLine();
      MeaningOfLine(CodeLine(ScriptLayout.Command("Else", " {")), RawOnto(e, [CLOSE_LINE] + rest));
      ElseTailOnto(NodesOf(e), BlockMeaning(rest));
    }
  }

  lemma ElseTailOnto(body: seq<Node>, rest: seq<string>)
    ensures TailOnto(Else(" ", true, body), rest) == ["else" + " {"] + LinesOnto(body, ["}"] + rest)
  {
    hide LinesOnto;
    assert "else" + (" " + "{") == "else" + " {";
  }

  /** For every command tree the text of the tree parses to the tree. */
  lemma ScriptRoundTrips(cs: seq<Command>)
    requires ValidCommands(cs)
    ensures ParseActionBlock(ScriptText(cs)) == Ok(cs)
  {
    hide ValidBlock, BlockMeaning, BlockText, LinesOnto, Erase, ValidNodes, NodesOf, RawOnto, ParseActionBlock;
    NodesBack(cs);
    EmptyBlock();
    RawMeaning(cs, []);
    NoReturns(RawOnto(cs, []));
    TextRoundTrip(ScriptText(cs), RawOnto(cs, []), NodesOf(cs));
  }

  lemma EmptyBlock()
    ensures ValidBlock([]) && BlockMeaning([]) == []
  {
  }

  lemma {:induction false} DropNone(s: string, rest: string)
    requires '\r' !in s
    ensures DropReturns(s + rest) == s + DropReturns(rest)
  {
    if s == "" {
      assert s + rest == rest;
    } else {
      assert (s + rest)[0] == s[0] && (s + rest)[1..] == s[1..] + rest;
      DropNone(s[1..], rest);
    }
  }

  lemma {:induction false} NoReturns(rs: seq<RawLine>)
    requires ValidBlock(rs)
    ensures DropReturns(BlockText(rs)) == BlockText(rs)
  {
    if rs != [] {
      hide LineText, DropReturns;
      assert ValidLine(rs[0]);
      NoLineEnds(rs[0]);
      NoReturns(rs[1..]);
      DropNone(LineText(rs[0]), "\n" + BlockText(rs[1..]));
      DropNone("\n", BlockText(rs[1..]));
    } else {
      assert DropReturns("") == "";
    }
  }
}
