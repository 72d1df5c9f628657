/** The trees that have a text: whatever an action block parses to can be printed again
    (src/commands/ScriptParser.cpp:179-429). */
module ScriptImage {
  import opened Wrappers
  import opened Text
  import opened Decimal
  import opened ScriptLines
  import opened ScriptLayout
  import opened ScriptParser
  import opened ScriptPrinter
  import BraceText
  import Keys
  import SendInput

  // ---- lines without line ends -----------------------------------------------------------

  ghost predicate AllOneLine(lines: seq<string>) { forall i :: 0 <= i < |lines| ==> OneLine(lines[i]) }

  lemma TrimOneLine(s: string)
    requires OneLine(s)
    ensures OneLine(Trim(s))
  {
    var lead, trail := TrimDecomposes(s);
    assert forall i :: 0 <= i < |Trim(s)| ==> Trim(s)[i] == s[|lead| + i];
  }

  lemma CommandOneLine(command: string)
    requires command in COMMANDS
    ensures OneLine(command)
  {
    hide COMMANDS;
    CommandsAreWords(command);
  }

  lemma LowerAtOneLine(line: string, pos: nat, command: string)
    requires OneLine(line) && OneLine(command)
    ensures OneLine(LowerAt(line, pos, command))
  {
    hide Lower;
  }

  lemma NormalizedOneLine(line: string)
    requires OneLine(line)
    ensures OneLine(NormalizeTokens(line))
  {
    hide COMMANDS, CommandAt, LowerAt, FirstCommand, NormalizeTokens, LowerElseIf;
    var found := FirstCommand(line, COMMANDS);
    if found.Some? {
      CommandOneLine(found.value);
      LowerAtOneLine(line, 0, found.value);
      NormalizeFound(line, found.value);
      if found.value == "else" {
        ElseIfOneLine(LowerAt(line, 0, "else"));
      }
    } else {
      NotNormalized(line);
    }
  }

  lemma NotNormalized(line: string)
    requires FirstCommand(line, COMMANDS).None?
    ensures NormalizeTokens(line) == line
  {
    hide COMMANDS, FirstCommand;
  }

  lemma ElseIfOneLine(line: string)
    requires OneLine(line) && |line| >= 4
    ensures OneLine(LowerElseIf(line))
  {
    hide LowerAt;
    LowerAtOneLine(line, 4 + Run(line[4..], IsSpace), "if");
  }

  lemma {:induction false} PeelOneLine(line: string)
    requires OneLine(line)
    ensures AllOneLine(Peel(line))
    decreases |line|
  {
    hide NormalizeTokens, Trim;
    if line != "" {
      if line[0] == '}' {
        TrimIsTrimmed(line[1..]);
        TrimOneLine(line[1..]);
        PeelOneLine(Trim(line[1..]));
      } else {
        NormalizedOneLine(line);
      }
    }
  }

  lemma ProcessedOneLine(raw: string)
    requires OneLine(raw)
    ensures AllOneLine(ProcessLine(raw))
  {
    hide Peel, Trim;
    TrimOneLine(raw);
    PeelOneLine(Trim(raw));
  }

  lemma {:induction false} LinesOneLine(block: string, current: string)
    requires OneLine(current)
    ensures AllOneLine(LinesFrom(block, current))
    decreases |block|
  {
    hide ProcessLine;
    ProcessedOneLine(current);
    if block != "" {
      if block[0] == '\r' {
        LinesOneLine(block[1..], current);
      } else if block[0] == '\n' {
        LinesOneLine(block[1..], "");
      } else {
        LinesOneLine(block[1..], current + [block[0]]);
      }
    }
  }

  // ---- what a Send sequence parses to ------------------------------------------------------

  ghost predicate CleanParts(parts: seq<SendInput.Part>) {
    forall i :: 0 <= i < |parts| ==> parts[i].Chunk? ==> OneLine(parts[i].text)
  }

  ghost predicate StartsClean(parts: seq<SendInput.Part>) {
    parts != [] && (parts[0].Chunk? ==> parts[0].text != "" && !IsBlank(parts[0].text[0]))
  }

  ghost predicate EndsClean(parts: seq<SendInput.Part>) {
    parts != [] &&
    var p := parts[|parts| - 1];
    p.Chunk? ==> p.text != "" && !IsTrailing(p.text[|p.text| - 1])
  }

  lemma PrependClean(t: string, parts: seq<SendInput.Part>)
    requires t != "" && OneLine(t) && CleanParts(parts)
    ensures CleanParts(SendInput.PrependText(t, parts)) && SendInput.PrependText(t, parts) != []
    ensures !IsBlank(t[0]) ==> StartsClean(SendInput.PrependText(t, parts))
    ensures parts == [] && !IsTrailing(t[|t| - 1]) ==> EndsClean(SendInput.PrependText(t, parts))
    ensures EndsClean(parts) ==> EndsClean(SendInput.PrependText(t, parts))
  {
    var r := SendInput.PrependText(t, parts);
    if parts != [] && parts[0].Chunk? {
      assert r[0].text == t + parts[0].text;
      if |parts| == 1 && parts[0].text != "" {
        assert r[0].text[|r[0].text| - 1] == parts[0].text[|parts[0].text| - 1];
      }
      assert forall i :: 1 <= i < |r| ==> r[i] == parts[i];
    } else {
      assert forall i :: 1 <= i < |r| ==> r[i] == parts[i - 1];
    }
  }

  lemma KeyClean(key: SendInput.Part, parts: seq<SendInput.Part>)
    requires key.Key? && CleanParts(parts)
    ensures CleanParts([key] + parts) && StartsClean([key] + parts)
    ensures parts == [] || EndsClean(parts) ==> EndsClean([key] + parts)
  {
    var r := [key] + parts;
    assert forall i :: 1 <= i < |r| ==> r[i] == parts[i - 1];
  }

  /** The parts of a text keep its bytes: no line end, no blank at the start, none at the end. */
  lemma {:induction false} ParsedParts(s: string)
    requires SendInput.Parse(s).Ok? && OneLine(s)
    ensures var parts := SendInput.Parse(s).value;
            && CleanParts(parts) && (s == "" ==> parts == [])
            && (s != "" && !IsBlank(s[0]) ==> StartsClean(parts))
            && (s != "" && !IsTrailing(s[|s| - 1]) ==> EndsClean(parts))
    decreases |s|
  {
    hide SendInput.PrependText, SendInput.KeyPart, BraceText.ScanBrace, CleanParts, StartsClean, EndsClean;
    if s == "" {
      NoParts();
    } else if s[0] != '{' {
      ParsedParts(s[1..]);
      PrependClean([s[0]], SendInput.Parse(s[1..]).value);
    } else {
      var b := BraceText.ScanBrace(s);
      var parts := SendInput.Parse(b.rest).value;
      BraceOneLine(s, b.body, b.rest);
      ParsedParts(b.rest);
      if BraceText.IsEscape(b.body) {
        PrependClean(b.body, parts);
      } else {
        SendInput.KeyPartValid(b.body);
        KeyClean(SendInput.KeyPart(b.body).value, parts);
      }
    }
  }

  lemma NoParts()
    ensures CleanParts([])
  {
  }

  lemma BraceOneLine(s: string, body: string, rest: string)
    requires OneLine(s) && s == "{" + body + "}" + rest
    ensures OneLine(rest) && |rest| < |s| && (rest != "" ==> rest[|rest| - 1] == s[|s| - 1])
  {
    assert forall i :: 0 <= i < |rest| ==> rest[i] == s[|s| - |rest| + i];
  }

  lemma {:induction false} EscapedText(t: string)
    requires OneLine(t) && t != ""
    ensures var e := SendInput.EscapeText(t);
            && e != "" && OneLine(e) && (e[0] == t[0] || e[0] == '{')
            && (e[|e| - 1] == t[|t| - 1] || e[|e| - 1] == '}')
  {
    if |t| > 1 {
      EscapedText(t[1..]);
    } else {
      assert SendInput.EscapeText(t[1..]) == "";
    }
  }

  lemma PrintedPart(p: SendInput.Part)
    requires SendInput.ValidPart(p) && (p.Chunk? ==> OneLine(p.text))
    ensures var e := SendInput.PrintPart(p);
            && e != "" && OneLine(e)
            && (p.Key? ==> e[0] == '{' && e[|e| - 1] == '}')
            && (p.Chunk? ==> (e[0] == p.text[0] || e[0] == '{')
                             && (e[|e| - 1] == p.text[|p.text| - 1] || e[|e| - 1] == '}'))
  {
    hide SendInput.EscapeText, ToString, SendInput.KnownCode;
    if p.Chunk? {
      EscapedText(p.text);
    } else {
      NumberIsTrimmed(p.count);
      Keys.SpecialKeyNames(SendInput.NameOf(p.code));
      WordOneLine(SendInput.NameOf(p.code));
    }
  }

  lemma WordOneLine(name: string)
    requires Keys.IsKeyName(name)
    ensures OneLine(name)
  {
  }

  lemma {:induction false} PrintedOneLine(parts: seq<SendInput.Part>)
    requires SendInput.Canonical(parts) && CleanParts(parts)
    ensures OneLine(SendInput.Print(parts))
  {
    hide SendInput.PrintPart, SendInput.Canonical;
    if parts != [] {
      SendInput.CanonicalSplits(parts);
      PrintedPart(parts[0]);
      PrintedOneLine(parts[1..]);
    }
  }

  lemma {:induction false} PrintedEnd(parts: seq<SendInput.Part>)
    requires SendInput.Canonical(parts) && CleanParts(parts) && EndsClean(parts)
    ensures var e := SendInput.Print(parts); e != "" && !IsTrailing(e[|e| - 1])
  {
    hide SendInput.PrintPart, SendInput.Canonical;
    SendInput.CanonicalSplits(parts);
    PrintedPart(parts[0]);
    if |parts| > 1 {
      PrintedEnd(parts[1..]);
    } else {
      assert SendInput.Print(parts[1..]) == "" by { NothingPrinted(parts[1..]); }
    }
  }

  lemma NothingPrinted(parts: seq<SendInput.Part>)
    requires parts == []
    ensures SendInput.Canonical(parts) && SendInput.Print(parts) == ""
  {
  }

  /** The printed form of a parsed argument is again an argument. */
  lemma PrintedArgument(args: string)
    requires ArgumentText(args) && SendInput.Parse(args).Ok?
    ensures SendInput.Canonical(SendInput.Parse(args).value) && ArgumentText(SendInput.Print(SendInput.Parse(args).value))
  {
    hide SendInput.Parse, SendInput.Canonical, SendInput.PrintPart;
    var parts := SendInput.Parse(args).value;
    SendInput.ParseCanonical(args);
    ParsedParts(args);
    PrintedOneLine(parts);
    PrintedEnd(parts);
    SendInput.CanonicalSplits(parts);
    PrintedPart(parts[0]);
    PrintedStart(parts);
  }

  lemma PrintedStart(parts: seq<SendInput.Part>)
    requires SendInput.Canonical(parts) && parts != [] && SendInput.ValidPart(parts[0]) && SendInput.PrintPart(parts[0]) != ""
    ensures SendInput.Print(parts) != "" && SendInput.Print(parts)[0] == SendInput.PrintPart(parts[0])[0]
  {
    hide SendInput.PrintPart;
    SendInput.CanonicalSplits(parts);
  }

  // ---- what a line parses to -----------------------------------------------------------------

  lemma ArgumentsClean(tail: string)
    requires OneLine(tail)
    ensures Arguments(tail) != "" ==> ArgumentText(Arguments(tail))
  {
    hide Trim;
    TrimOneLine(tail);
    TrimIsTrimmed(tail);
    var args := Trim(tail);
    if args != "" && args[0] == ',' {
      TrimOneLine(args[1..]);
      TrimIsTrimmed(args[1..]);
    }
  }

  lemma IdentifierFound(s: string)
    ensures IdentifierLength(s) > 0 ==> Identifier(s[..IdentifierLength(s)])
  {
  }

  lemma StoiInInt(s: string)
    ensures Stoi(s).Ok? ==> InInt(Stoi(s).value)
  {
  }

  lemma RandomValid(tail: string)
    requires ParseRandom(tail).Ok?
    ensures ParseRandom(tail).value.Some? && ValidCommand(ParseRandom(tail).value.value) && !ParseRandom(tail).value.value.If?
  {
    hide Stoi, RandomBounds, AfterComma, IdentifierLength;
    var args := RandomArguments(tail).value;
    RandomNameValid(tail);
    StoiInInt(args.1);
    StoiInInt(args.2);
  }

  lemma RandomNameValid(tail: string)
    requires RandomArguments(tail).Some?
    ensures Identifier(RandomArguments(tail).value.0)
  {
    hide RandomBounds, AfterComma, IdentifierLength;
    IdentifierFound(AfterComma(tail).value);
  }

  lemma IncrementValid(line: string)
    requires IncrementName(line).Some?
    ensures ValidCommand(Increment(IncrementName(line).value))
  {
    hide IdentifierLength, SkipSpace;
    IdentifierFound(SkipSpace(line));
  }

  lemma SendValid(tail: string)
    requires OneLine(tail) && ParseSend(tail).Ok?
    ensures ParseSend(tail).value.Some? && ValidCommand(ParseSend(tail).value.value) && !ParseSend(tail).value.value.If?
  {
    hide Arguments, SendInput.Parse, SendInput.Canonical, ArgumentText;
    ArgumentsClean(tail);
    PrintedArgument(Arguments(tail));
  }

  lemma SleepValid(tail: string)
    requires ParseSleep(tail).Ok?
    ensures ParseSleep(tail).value.Some? && ValidCommand(ParseSleep(tail).value.value) && !ParseSleep(tail).value.value.If?
  {
    hide Arguments, Stoi;
    StoiInInt(Arguments(tail));
  }

  lemma MarkdownValid(tail: string)
    requires OneLine(tail) && ParseMarkdown(tail).Ok?
    ensures ParseMarkdown(tail).value.Some? && ValidCommand(ParseMarkdown(tail).value.value)
            && !ParseMarkdown(tail).value.value.If?
  {
    hide Arguments, ArgumentText;
    ArgumentsClean(tail);
  }

  /** A line that is a command is a printable one. */
  lemma SimpleValid(line: string)
    requires OneLine(line) && SimpleCommand(line).Ok? && SimpleCommand(line).value.Some?
    ensures ValidCommand(SimpleCommand(line).value.value) && !SimpleCommand(line).value.value.If?
  {
    hide ParseSend, ParseSleep, ParseRandom, ParseMarkdown, IncrementName, OneLine, StartsWithCommand, ValidCommand;
    StartsLong(line);
    if StartsWithCommand(line, "sendinput") {
      RestOneLine(line, 9);
      SendValid(line[9..]);
    } else if StartsWithCommand(line, "sleep") {
      SleepValid(line[5..]);
    } else if StartsWithCommand(line, "random") {
      RandomValid(line[6..]);
    } else if StartsWithCommand(line, "sendmessage") || StartsWithCommand(line, "input") || StartsWithCommand(line, "return") {
    } else if StartsWithCommand(line, "cancel") || StartsWithCommand(line, "pause") {
      CancelValid();
    } else if StartsWithCommand(line, "showmarkdown") {
      RestOneLine(line, 12);
      MarkdownValid(line[12..]);
    } else if IncrementName(line).Some? {
      IncrementValid(line);
    }
  }

  lemma StartsLong(line: string)
    ensures StartsWithCommand(line, "sendinput") ==> |line| >= 9
    ensures StartsWithCommand(line, "sleep") ==> |line| >= 5
    ensures StartsWithCommand(line, "random") ==> |line| >= 6
    ensures StartsWithCommand(line, "showmarkdown") ==> |line| >= 12
  {
  }

  lemma CancelValid()
    ensures ValidCommand(Cancel)
  {
  }

  lemma RestOneLine(line: string, n: nat)
    requires OneLine(line) && n <= |line|
    ensures OneLine(line[n..])
  {
  }

  // ---- what blocks parse to -------------------------------------------------------------------

  lemma TailOneLine(lines: seq<string>, rest: seq<string>)
    requires AllOneLine(lines) && |rest| <= |lines| && rest == lines[|lines| - |rest|..]
    ensures AllOneLine(rest)
  {
  }

  lemma ConditionClean(line: string)
    requires OneLine(line) && ExtractCondition(line).Ok?
    ensures Trimmed(ExtractCondition(line).value) && OneLine(ExtractCondition(line).value)
  {
    hide Trim, Find, RFind;
    var inner := line[Find(line, '(') + 1..RFind(line, ')')];
    assert OneLine(inner) by { SliceOneLine(line, Find(line, '(') + 1, RFind(line, ')')); }
    TrimOneLine(inner);
    TrimIsTrimmed(inner);
  }

  lemma SliceOneLine(line: string, i: nat, j: nat)
    requires OneLine(line) && i <= j <= |line|
    ensures OneLine(line[i..j])
  {
  }

  lemma HeadOneLine(line: string)
    requires OneLine(line)
    ensures OneLine(HeadOf(line))
  {
    hide Trim;
    if StartsElse(line) {
      RestOneLine(line, 4);
      TrimOneLine(line[4..]);
    }
  }

  lemma BraceTail(inline: bool, lines: seq<string>)
    requires AllOneLine(lines) && AfterBrace(inline, lines).Ok?
    ensures AllOneLine(AfterBrace(inline, lines).value)
  {
  }

  lemma {:induction false} BlockValid(lines: seq<string>, stop: bool)
    requires AllOneLine(lines) && Block(lines, stop).Ok?
    ensures ValidCommands(Block(lines, stop).value.0)
    decreases |lines|, 1
  {
    hide SimpleCommand, StartsWithCommand, Chain, ValidCommand, OneLine;
    if lines == [] || StopsBlock(lines[0], stop) {
    } else if lines[0] != "}" && StartsIf(lines[0]) {
      ChainValid(lines);
      ChainLeavesTail(lines);
      var r := Chain(lines).value;
      TailOneLine(lines, r.1);
      BlockValid(r.1, stop);
      ConsValid(r.0, Block(r.1, stop).value.0);
    } else {
      TailOneLine(lines, lines[1..]);
      BlockValid(lines[1..], stop);
      if lines[0] != "}" && SimpleCommand(lines[0]).value.Some? {
        SimpleValid(lines[0]);
        ConsValid(SimpleCommand(lines[0]).value.value, Block(lines[1..], stop).value.0);
      }
    }
  }

  lemma ConsValid(c: Command, cs: seq<Command>)
    requires ValidCommand(c) && ValidCommands(cs)
    ensures ValidCommands([c] + cs)
  {
    hide ValidCommand;
    assert ([c] + cs)[1..] == cs;
  }

  lemma {:induction false} ChainValid(lines: seq<string>)
    requires AllOneLine(lines)
    ensures Chain(lines).Ok? ==> ValidCommand(Chain(lines).value.0)
    decreases |lines|, 0
  {
    hide SimpleCommand, StartsWithCommand, ExtractCondition, HasInlineOpenBrace, Block, ElsePart, HeadOf, OneLine, ValidCommands,
         Trimmed;
    if Chain(lines).Ok? {
      var head := HeadOf(lines[0]);
      HeadOneLine(lines[0]);
      ConditionClean(head);
      TailOneLine(lines, lines[1..]);
      BraceTail(HasInlineOpenBrace(head), lines[1..]);
      var body := AfterBrace(HasInlineOpenBrace(head), lines[1..]).value;
      BlockValid(body, true);
      BlockLeavesTail(body, true);
      var rest := Block(body, true).value.1;
      TailOneLine(body, rest);
      ElseValid(rest);
    }
  }

  lemma {:induction false} ElseValid(lines: seq<string>)
    requires AllOneLine(lines) && ElsePart(lines).Ok?
    ensures ValidCommands(ElsePart(lines).value.0)
    decreases |lines|, 1
  {
    hide StartsWithCommand, Block, Chain, BehindElse, ValidCommand, OneLine;
    if lines != [] && StartsElse(lines[0]) {
      if StartsIf(BehindElse(lines[0])) {
        ChainValid(lines);
        var c := Chain(lines).value.0;
        ConsValid(c, []);
        assert [c] + [] == [c];
      } else {
        TailOneLine(lines, lines[1..]);
        BraceTail('{' in lines[0], lines[1..]);
        BlockValid(AfterBrace('{' in lines[0], lines[1..]).value, true);
      }
    }
  }

  /** Every tree that an action block parses to is a tree that can be printed. */
  lemma ParsedIsPrintable(text: string)
    requires ParseActionBlock(text).Ok?
    ensures ValidCommands(ParseActionBlock(text).value)
  {
    hide Block, LinesFrom, ValidCommands;
    LinesOneLine(text, "");
    BlockValid(Preprocess(text), false);
  }

  /** The trees with a text are exactly the valid ones. */
  lemma ValidIffParsed(cs: seq<Command>)
    ensures (exists text :: ParseActionBlock(text) == Ok(cs)) <==> ValidCommands(cs)
  {
    hide ParseActionBlock, ValidCommands;
    if ValidCommands(cs) {
      ScriptRoundTrips(cs);
    }
    forall text | ParseActionBlock(text) == Ok(cs) ensures ValidCommands(cs) {
      ParsedIsPrintable(text);
    }
  }
}
