/** Normalised lines to a command tree (src/commands/ScriptParser.cpp:65-105 and 234-429). */
module ScriptParser {
  import opened Wrappers
  import opened Text
  import opened Decimal
  import opened ScriptLines
  import SendInput

  datatype Command =
    | Send(parts: seq<SendInput.Part>)
    | Sleep(ms: nat)
    | Random(name: string, min: int, max: int)
    | Cancel
    | ShowMarkdown(path: string)
    | Increment(name: string)
    | If(condition: string, thenBranch: seq<Command>, elseBranch: seq<Command>)

  // ---- simple commands -----------------------------------------------------------

  /** The arguments behind a command word: trimmed, without one leading comma. */
  function Arguments(tail: string): string {
    var args := Trim(tail);
    if args != "" && args[0] == ',' then Trim(args[1..]) else args
  }

  /** `std::stoi`: it skips white space, ignores what follows the number, and throws when there is no
      number or when it does not fit in an int. */
  function Stoi(s: string): Result<int> {
    var t := SkipSpace(s);
    var signed := t != "" && (t[0] == '-' || t[0] == '+');
    var u := if signed then t[1..] else t;
    var n := Run(u, IsDigit);
    if n == 0 then Err
    else
      var v := if t[0] == '-' then 0 - DigitsValue(u[..n]) else DigitsValue(u[..n]);
      if InInt(v) then Ok(v) else Err
  }

  /** `\s*,\s*` at the front of a text: what follows it. */
  function AfterComma(s: string): Option<string> {
    var t := SkipSpace(s);
    if t != "" && t[0] == ',' then Some(SkipSpace(t[1..])) else None
  }

  /** `[A-Za-z_]\w*` at the front of a text: its length, or 0. */
  function IdentifierLength(s: string): (n: nat)
    ensures n <= |s|
  {
    if s == "" || !IsWordStart(s[0]) then 0 else Run(s, IsWord)
  }

  /** The arguments of `random` as its pattern matches them. */
  function RandomArguments(tail: string): Option<(string, string, string)> {
    match AfterComma(tail)
    case None => None
    case Some(s) =>
      var n := IdentifierLength(s);
      if n == 0 then None
      else
        match RandomBounds(s[n..])
        case None => None
        case Some((lo, hi)) => Some((s[..n], lo, hi))
  }

  function RandomBounds(tail: string): (r: Option<(string, string)>)
    ensures r.Some? ==> IsIntText(r.value.0) && IsIntText(r.value.1)
  {
    match AfterComma(tail)
    case None => None
    case Some(s1) =>
      var lo := ScanInt(s1);
      if lo.NoInt? then None
      else
        match AfterComma(lo.rest)
        case None => None
        case Some(s2) =>
          var hi := ScanInt(s2);
          if hi.NoInt? || SkipSpace(hi.rest) != "" then None else Some((lo.text, hi.text))
  }

  /** `name++` with white space around it. */
  function IncrementName(line: string): Option<string> {
    var s := SkipSpace(line);
    var n := IdentifierLength(s);
    if n > 0 && |s| >= n + 2 && s[n] == '+' && s[n + 1] == '+' && SkipSpace(s[n + 2..]) == ""
    then Some(s[..n]) else None
  }

  function ParseSend(tail: string): Result<Option<Command>> {
    var args := Arguments(tail);
    if args == "" then Err
    else
      match SendInput.Parse(args)
      case Err => Err
      case Ok(parts) => Ok(Some(Send(parts)))
  }

  function ParseSleep(tail: string): Result<Option<Command>> {
    var args := Arguments(tail);
    if args == "" then Err
    else
      match Stoi(args)
      case Err => Err
      case Ok(v) => Ok(Some(Sleep(if v < 0 then 0 else v)))
  }

  function ParseRandom(tail: string): Result<Option<Command>> {
    match RandomArguments(tail)
    case None => Err
    case Some((name, lo, hi)) =>
      match (Stoi(lo), Stoi(hi))
      case (Ok(a), Ok(b)) => Ok(Some(Random(name, a, b)))
      case _ => Err
  }

  function ParseMarkdown(tail: string): Result<Option<Command>> {
    var args := Arguments(tail);
    if args == "" then Err else Ok(Some(ShowMarkdown(args)))
  }

  /** `parse_simple_command`: an exception, nothing (an ignored line), or a command. */
  function SimpleCommand(line: string): Result<Option<Command>> {
    if StartsWithCommand(line, "sendinput") then ParseSend(line[9..])
    else if StartsWithCommand(line, "sleep") then ParseSleep(line[5..])
    else if StartsWithCommand(line, "random") then ParseRandom(line[6..])
    else if StartsWithCommand(line, "sendmessage") || StartsWithCommand(line, "input")
            || StartsWithCommand(line, "return") then Ok(None)
    else if StartsWithCommand(line, "cancel") || StartsWithCommand(line, "pause") then Ok(Some(Cancel))
    else if StartsWithCommand(line, "showmarkdown") then ParseMarkdown(line[12..])
    else
      match IncrementName(line)
      case Some(name) => Ok(Some(Increment(name)))
      case None => Ok(None)
  }

  // ---- blocks and if chains ---------------------------------------------------------

  /** The text between the first `(` and the last `)`. */
  function ExtractCondition(line: string): Result<string> {
    var open, close := Find(line, '('), RFind(line, ')');
    if open == |line| || close == |line| || close <= open then Err
    else Ok(Trim(line[open + 1..close]))
  }

  predicate HasInlineOpenBrace(line: string) {
    var close, brace := RFind(line, ')'), Find(line, '{');
    close < |line| && brace < |line| && brace > close
  }

  predicate StartsIf(line: string) { StartsWithCommand(line, "if") }

  predicate StartsElse(line: string) { StartsWithCommand(line, "else") }

  /** What stands behind an `else`. */
  function BehindElse(line: string): string
    requires StartsElse(line)
  {
    Trim(line[4..])
  }

  /** The line that an if chain starts with: `if ...`, or `else if ...` without its `else`. */
  function HeadOf(line: string): string {
    if StartsElse(line) && StartsIf(BehindElse(line)) then BehindElse(line) else line
  }

  /** The lines after an opening brace that stands on a line of its own, unless it was inline. */
  function AfterBrace(inline: bool, lines: seq<string>): (r: Result<seq<string>>)
    ensures r.Ok? ==> |r.value| <= |lines|
  {
    if inline then Ok(lines)
    else if lines == [] || lines[0] != "{" then Err
    else Ok(lines[1..])
  }

  type Parsed<T> = Result<(T, seq<string>)>

  function Cons(c: Command, r: Parsed<seq<Command>>): Parsed<seq<Command>> {
    match r
    case Err => Err
    case Ok((commands, rest)) => Ok(([c] + commands, rest))
  }

  /** `parse_block_lines`: the commands and the lines left. */
  function Block(lines: seq<string>, stop: bool): (r: Parsed<seq<Command>>)
    ensures r.Ok? ==> |r.value.1| <= |lines|
    decreases |lines|, 1
  {
    if lines == [] then Ok(([], []))
    else if lines[0] == "}" then
      if stop then Ok(([], lines[1..])) else Block(lines[1..], stop)
    else if StartsIf(lines[0]) then
      match Chain(lines)
      case Err => Err
      case Ok((c, rest)) => Cons(c, Block(rest, stop))
    else if StartsElse(lines[0]) then Ok(([], lines))
    else
      match SimpleCommand(lines[0])
      case Err => Err
      case Ok(None) => Block(lines[1..], stop)
      case Ok(Some(c)) => Cons(c, Block(lines[1..], stop))
  }

  /** `parse_if_chain`: one If, with everything its else parts hold. */
  function Chain(lines: seq<string>): (r: Parsed<Command>)
    ensures r.Ok? ==> |r.value.1| < |lines| && r.value.0.If?
    decreases |lines|, 0
  {
    if lines == [] || !StartsIf(HeadOf(lines[0])) then Err
    else
      var head := HeadOf(lines[0]);
      match ExtractCondition(head)
      case Err => Err
      case Ok(condition) =>
        match AfterBrace(HasInlineOpenBrace(head), lines[1..])
        case Err => Err
        case Ok(body) =>
          match Block(body, true)
          case Err => Err
          case Ok((thenBranch, rest)) =>
            match ElsePart(rest)
            case Err => Err
            case Ok((elseBranch, rest')) => Ok((If(condition, thenBranch, elseBranch), rest'))
  }

  /** The else part that `lines` may start with. */
  function ElsePart(lines: seq<string>): (r: Parsed<seq<Command>>)
    ensures r.Ok? ==> |r.value.1| <= |lines|
    decreases |lines|, 1
  {
    if lines == [] || !StartsElse(lines[0]) then Ok(([], lines))
    else if StartsIf(BehindElse(lines[0])) then
      match Chain(lines)
      case Err => Err
      case Ok((c, rest)) => Ok(([c], rest))
    else
      match AfterBrace('{' in lines[0], lines[1..])
      case Err => Err
      case Ok(body) => Block(body, true)
  }

  /** `parse_action_block`: lines that are left after a stray else are dropped. */
  function ParseActionBlock(text: string): Result<seq<Command>> {
    match Block(Preprocess(text), false)
    case Err => Err
    case Ok((commands, _)) => Ok(commands)
  }

  // ---- what every parse does, on any lines --------------------------------------------

  lemma SuffixOfTail(rest: seq<string>, lines: seq<string>)
    requires |lines| > 0 && |rest| < |lines| && rest == lines[1..][|lines| - 1 - |rest|..]
    ensures rest == lines[|lines| - |rest|..]
  {
  }

  lemma SuffixOfSuffix(a: seq<string>, b: seq<string>, c: seq<string>)
    requires |a| <= |b| <= |c| && a == b[|b| - |a|..] && b == c[|c| - |b|..]
    ensures a == c[|c| - |a|..]
  {
  }

  /** The index moves forward only: what is left is a tail of the lines. */
  lemma {:induction false} BlockLeavesTail(lines: seq<string>, stop: bool)
    requires Block(lines, stop).Ok?
    ensures var rest := Block(lines, stop).value.1; rest == lines[|lines| - |rest|..]
    decreases |lines|, 1
  {
    hide SimpleCommand, StartsWithCommand, Chain;
    var rest := Block(lines, stop).value.1;
    if lines == [] || StopsBlock(lines[0], stop) {
    } else if lines[0] != "}" && StartsIf(lines[0]) {
      ChainLeavesTail(lines);
      var mid := Chain(lines).value.1;
      BlockLeavesTail(mid, stop);
      SuffixOfSuffix(rest, mid, lines);
    } else {
      BlockLeavesTail(lines[1..], stop);
      SuffixOfTail(rest, lines);
    }
  }

  predicate StopsBlock(line: string, stop: bool) {
    if line == "}" then stop else !StartsIf(line) && StartsElse(line)
  }

  lemma {:induction false} ChainLeavesTail(lines: seq<string>)
    ensures Chain(lines).Ok? ==> var rest := Chain(lines).value.1; rest == lines[|lines| - |rest|..]
    decreases |lines|, 0
  {
    hide SimpleCommand, StartsWithCommand, ExtractCondition, HasInlineOpenBrace, Block, ElsePart, HeadOf;
    if Chain(lines).Ok? {
      var body := AfterBrace(HasInlineOpenBrace(HeadOf(lines[0])), lines[1..]).value;
      var mid := Block(body, true).value.1;
      var rest := Chain(lines).value.1;
      BlockLeavesTail(body, true);
      ElseLeavesTail(mid);
      SuffixOfSuffix(rest, mid, body);
      SuffixOfSuffix(rest, body, lines);
    }
  }

  lemma {:induction false} ElseLeavesTail(lines: seq<string>)
    requires ElsePart(lines).Ok?
    ensures var rest := ElsePart(lines).value.1; rest == lines[|lines| - |rest|..]
    decreases |lines|, 1
  {
    hide StartsWithCommand, Block, Chain, BehindElse;
    if lines != [] && StartsElse(lines[0]) {
      if StartsIf(BehindElse(lines[0])) {
        ChainLeavesTail(lines);
      } else {
        var body := AfterBrace('{' in lines[0], lines[1..]).value;
        BlockLeavesTail(body, true);
        SuffixOfSuffix(ElsePart(lines).value.1, body, lines);
      }
    }
  }

  /** At the top level the parser stops before the end only at a stray else. */
  lemma {:induction false} TopLevelStopsAtElse(lines: seq<string>)
    requires Block(lines, false).Ok?
    ensures var rest := Block(lines, false).value.1;
            rest == [] || (StartsElse(rest[0]) && !StartsIf(rest[0]) && rest[0] != "}")
    decreases |lines|
  {
    hide SimpleCommand, StartsWithCommand, Chain;
    if lines == [] || StopsBlock(lines[0], false) {
    } else if lines[0] != "}" && StartsIf(lines[0]) {
      TopLevelStopsAtElse(Chain(lines).value.1);
    } else {
      TopLevelStopsAtElse(lines[1..]);
    }
  }

  // ---- the mutually recursive methods of the source -------------------------------------

  function Append(commands: seq<Command>, r: Parsed<seq<Command>>): Parsed<seq<Command>> {
    match r
    case Err => Err
    case Ok((more, rest)) => Ok((commands + more, rest))
  }

  lemma AppendCons(commands: seq<Command>, c: Command, r: Parsed<seq<Command>>)
    ensures Append(commands + [c], r) == Append(commands, Cons(c, r))
  {
    if r.Ok? {
      assert commands + [c] + r.value.0 == commands + ([c] + r.value.0);
    }
  }

  lemma AppendNothing(r: Parsed<seq<Command>>)
    ensures Append([], r) == r
  {
    if r.Ok? {
      assert [] + r.value.0 == r.value.0;
    }
  }

  /** `idx` is passed by reference in the source; here the method returns where it ends. */
  method ParseBlockLines(lines: seq<string>, idx: nat, stop: bool) returns (r: Result<seq<Command>>, next: nat)
    requires idx <= |lines|
    ensures idx <= next <= |lines|
    ensures Block(lines[idx..], stop) == if r.Err? then Err else Ok((r.value, lines[next..]))
    decreases |lines| - idx, 1
  {
    hide Block, Chain, StartsWithCommand, SimpleCommand;
    var commands := [];
    next := idx;
    AppendNothing(Block(lines[idx..], stop));
    while next < |lines|
      invariant idx <= next <= |lines|
      invariant Block(lines[idx..], stop) == Append(commands, Block(lines[next..], stop))
    {
      var line := lines[next];
      BlockAtLine(lines, next, stop);
      if line == "}" {
        next := next + 1;
        if stop {
          assert commands + [] == commands;
          return Ok(commands), next;
        }
        continue;
      }
      if StartsIf(line) {
        var c, after := ParseIfChain(lines, next);
        if c.Err? {
          return Err, next;
        }
        AppendCons(commands, c.value, Block(lines[after..], stop));
        commands, next := commands + [c.value], after;
        continue;
      }
      if StartsElse(line) {
        break;
      }
      var simple := SimpleCommand(line);
      if simple.Err? {
        return Err, next;
      }
      if simple.value.Some? {
        AppendCons(commands, simple.value.value, Block(lines[next + 1..], stop));
        commands := commands + [simple.value.value];
      }
      next := next + 1;
    }
    if next == |lines| {
      BlockAtEnd(stop);
      assert lines[next..] == [];
    }
    assert commands + [] == commands;
    r := Ok(commands);
  }

  lemma BlockAtEnd(stop: bool)
    ensures Block([], stop) == Ok(([], []))
  {
  }

  lemma BlockAtLine(lines: seq<string>, i: nat, stop: bool)
    requires i < |lines|
    ensures var here, later := Block(lines[i..], stop), Block(lines[i + 1..], stop);
            if lines[i] == "}" then here == if stop then Ok(([], lines[i + 1..])) else later
            else if StartsIf(lines[i]) then
              var c := Chain(lines[i..]);
              here == if c.Err? then Err else Cons(c.value.0, Block(c.value.1, stop))
            else if StartsElse(lines[i]) then here == Ok(([], lines[i..]))
            else
              var c := SimpleCommand(lines[i]);
              here == if c.Err? then Err else if c.value.None? then later else Cons(c.value.value, later)
  {
    hide Chain, StartsWithCommand, SimpleCommand;
    assert lines[i..][1..] == lines[i + 1..];
  }

  method SkipOpenBrace(inline: bool, lines: seq<string>, idx: nat) returns (ok: bool, next: nat)
    requires idx <= |lines|
    ensures idx <= next <= |lines|
    ensures AfterBrace(inline, lines[idx..]) == if ok then Ok(lines[next..]) else Err
  {
    ok, next := true, idx;
    if !inline {
      if idx >= |lines| || lines[idx] != "{" {
        return false, idx;
      }
      assert lines[idx..][1..] == lines[idx + 1..];
      next := idx + 1;
    }
  }

  method ParseIfChain(lines: seq<string>, idx: nat) returns (r: Result<Command>, next: nat)
    requires idx <= |lines|
    ensures idx <= next <= |lines| && (r.Ok? ==> idx < next)
    ensures Chain(lines[idx..]) == if r.Err? then Err else Ok((r.value, lines[next..]))
    decreases |lines| - idx, 0
  {
    hide Block, Chain, StartsWithCommand, ExtractCondition, HasInlineOpenBrace, BehindElse, AfterBrace, ElsePart;
    next := idx;
    ChainAtLine(lines[idx..]);
    if idx >= |lines| {
      return Err, next;
    }
    var line := lines[idx];
    if StartsElse(line) {
      BehindElseIs(line);
      var maybeIf := TrimText(line[4..]);
      if StartsIf(maybeIf) {
        line := maybeIf;
      }
    }
    if !StartsIf(line) {
      return Err, next;
    }
    var condition := ExtractCondition(line);
    if condition.Err? {
      return Err, next;
    }
    assert lines[idx..][1..] == lines[idx + 1..];
    var ok;
    ok, next := SkipOpenBrace(HasInlineOpenBrace(line), lines, idx + 1);
    if !ok {
      return Err, next;
    }
    var thenBranch;
    thenBranch, next := ParseBlockLines(lines, next, true);
    if thenBranch.Err? {
      return Err, next;
    }
    var elseBranch;
    elseBranch, next := ParseElse(lines, next);
    if elseBranch.Err? {
      return Err, next;
    }
    r := Ok(If(condition.value, thenBranch.value, elseBranch.value));
  }

  lemma BehindElseIs(line: string)
    requires StartsElse(line)
    ensures |line| >= 4 && BehindElse(line) == Trim(line[4..])
  {
  }

  lemma ChainAtLine(lines: seq<string>)
    ensures lines == [] ==> Chain(lines) == Err
    ensures lines != [] ==>
              var head := HeadOf(lines[0]);
              Chain(lines)
              == if !StartsIf(head) || ExtractCondition(head).Err? then Err
                 else
                   var body := AfterBrace(HasInlineOpenBrace(head), lines[1..]);
                   if body.Err? || Block(body.value, true).Err? then Err
                   else
                     var t := Block(body.value, true).value;
                     var e := ElsePart(t.1);
                     if e.Err? then Err
                     else Ok((If(ExtractCondition(head).value, t.0, e.value.0), e.value.1))
  {
    hide Block, ElsePart, StartsWithCommand, ExtractCondition, HasInlineOpenBrace, AfterBrace, HeadOf;
  }

  /** The else part of `parse_if_chain` (src/commands/ScriptParser.cpp:356-378). */
  method ParseElse(lines: seq<string>, idx: nat) returns (r: Result<seq<Command>>, next: nat)
    requires idx <= |lines|
    ensures idx <= next <= |lines|
    ensures ElsePart(lines[idx..]) == if r.Err? then Err else Ok((r.value, lines[next..]))
    decreases |lines| - idx, 1
  {
    hide Block, Chain, StartsWithCommand, BehindElse, AfterBrace;
    next := idx;
    if idx < |lines| && StartsElse(lines[idx]) {
      var elseLine := lines[idx];
      BehindElseIs(elseLine);
      var maybeIf := TrimText(elseLine[4..]);
      if StartsIf(maybeIf) {
        var c;
        c, next := ParseIfChain(lines, idx);
        return if c.Err? then Err else Ok([c.value]), next;
      }
      assert lines[idx..][1..] == lines[idx + 1..];
      var ok;
      ok, next := SkipOpenBrace(Find(elseLine, '{') < |elseLine|, lines, idx + 1);
      assert Find(elseLine, '{') < |elseLine| <==> '{' in elseLine;
      if !ok {
        return Err, next;
      }
      r, next := ParseBlockLines(lines, next, true);
      return;
    }
    r := Ok([]);
  }

  method ParseBlockText(text: string) returns (r: Result<seq<Command>>)
    ensures r == ParseActionBlock(text)
  {
    hide Block, Preprocess;
    var lines := PreprocessLines(text);
    assert lines[0..] == lines;
    var next;
    r, next := ParseBlockLines(lines, 0, false);
  }
}
