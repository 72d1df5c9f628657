/** From the text of an action block to its normalised lines
    (src/commands/ScriptParser.cpp:83-232). */
module ScriptLines {
  import opened Wrappers
  import opened Text

  function LowerChar(c: char): char {
    if 'A' <= c <= 'Z' then ((c as int) + 32) as char else c
  }

  function Lower(s: string): (r: string)
    ensures |r| == |s| && forall i :: 0 <= i < |s| ==> r[i] == LowerChar(s[i])
  {
    if s == "" then "" else [LowerChar(s[0])] + Lower(s[1..])
  }

  /** The letters in lower case; every other byte stays. */
  lemma LowerLetters(c: char)
    ensures 'A' <= c <= 'Z' ==> LowerChar(c) == "abcdefghijklmnopqrstuvwxyz"[c as int - 65]
    ensures c < 'A' || c > 'Z' ==> LowerChar(c) == c
  {
  }

  predicate IsBoundary(c: char) { IsSpace(c) || c == ',' || c == '(' || c == '{' }

  /** The end of a word: the end of the line or a boundary character. */
  predicate AtBoundary(tail: string) { tail == "" || IsBoundary(tail[0]) }

  predicate StartsWithCommand(line: string, command: string) {
    |line| >= |command| && line[..|command|] == command && AtBoundary(line[|command|..])
  }

  /** The case-insensitive test at a position. */
  predicate CommandAt(line: string, pos: nat, command: string) {
    pos + |command| <= |line| && Lower(line[pos..pos + |command|]) == command
    && AtBoundary(line[pos + |command|..])
  }

  const COMMANDS: seq<string> := [
    "showmarkdown", "sendinput", "sendmessage", "random", "return", "cancel", "sleep", "pause", "input",
    "else", "if"
  ]

  function FirstCommand(line: string, commands: seq<string>): (r: Option<string>)
    ensures r.Some? ==> r.value in commands && CommandAt(line, 0, r.value)
    ensures r.None? ==> forall c :: c in commands ==> !CommandAt(line, 0, c)
  {
    if commands == [] then None
    else if CommandAt(line, 0, commands[0]) then Some(commands[0])
    else FirstCommand(line, commands[1..])
  }

  lemma ElseLength(line: string)
    requires CommandAt(line, 0, "else")
    ensures |LowerAt(line, 0, "else")| >= 4
  {
  }

  function LowerAt(line: string, pos: nat, command: string): string {
    if CommandAt(line, pos, command) then line[..pos] + command + line[pos + |command|..] else line
  }

  /** The `if` behind an `else`. */
  function LowerElseIf(line: string): string
    requires |line| >= 4
  {
    LowerAt(line, 4 + Run(line[4..], IsSpace), "if")
  }

  /** The line with the command at its front in lower case. */
  function NormalizeTokens(line: string): string {
    match FirstCommand(line, COMMANDS)
    case None => line
    case Some(command) =>
      var first := LowerAt(line, 0, command);
      if command == "else" then ElseLength(line); LowerElseIf(first) else first
  }

  /** A line without leading closing braces, after one `}` entry for each of them. */
  function Peel(line: string): seq<string>
    decreases |line|
  {
    if line == "" then []
    else if line[0] == '}' then TrimIsTrimmed(line[1..]); ["}"] + Peel(Trim(line[1..]))
    else [NormalizeTokens(line)]
  }

  function ProcessLine(raw: string): seq<string> {
    var line := Trim(raw);
    if line == "" || line[0] == ';' || line[0] == '#' then [] else Peel(line)
  }

  /** The lines of `current + block`, where `current` is the line being read. */
  function LinesFrom(block: string, current: string): seq<string>
    decreases |block|
  {
    if block == "" then (if current == "" then [] else ProcessLine(current))
    else if block[0] == '\r' then LinesFrom(block[1..], current)
    else if block[0] == '\n' then ProcessLine(current) + LinesFrom(block[1..], "")
    else LinesFrom(block[1..], current + [block[0]])
  }

  function Preprocess(block: string): seq<string> { LinesFrom(block, "") }

  // ---- the loops of the source -------------------------------------------------

  method LowercaseRange(line: string, pos: nat, len: nat) returns (r: string)
    requires pos + len <= |line|
    ensures r == line[..pos] + Lower(line[pos..pos + len]) + line[pos + len..]
  {
    r := line;
    for i := pos to pos + len
      invariant |r| == |line|
      invariant forall k :: 0 <= k < |line| ==> r[k] == if pos <= k < i then LowerChar(line[k]) else line[k]
    {
      r := r[i := LowerChar(r[i])];
    }
  }

  method NormalizeCommandAt(line: string, pos: nat, command: string) returns (r: string, matched: bool)
    requires pos <= |line|
    ensures matched == CommandAt(line, pos, command) && r == LowerAt(line, pos, command)
  {
    r, matched := line, false;
    if |line| < pos + |command| {
      return;
    }
    var word := line[pos..pos + |command|];
    for i := 0 to |command|
      invariant forall k :: 0 <= k < i ==> LowerChar(line[pos + k]) == command[k]
    {
      if LowerChar(line[pos + i]) != command[i] {
        assert Lower(word)[i] != command[i];
        return;
      }
    }
    assert Lower(word) == command;
    var end := pos + |command|;
    if end != |line| && !IsBoundary(line[end]) {
      return;
    }
    r := LowercaseRange(line, pos, |command|);
    matched := true;
  }

  method NormalizeElseIf(line: string) returns (r: string)
    requires |line| >= 4
    ensures r == LowerElseIf(line)
  {
    hide LowerAt, CommandAt;
    var ifPos := 4;
    while ifPos < |line| && IsSpace(line[ifPos])
      invariant 4 <= ifPos <= |line|
      invariant Run(line[4..], IsSpace) == ifPos - 4 + Run(line[ifPos..], IsSpace)
    {
      assert line[ifPos..][1..] == line[ifPos + 1..];
      ifPos := ifPos + 1;
    }
    var matched;
    r, matched := NormalizeCommandAt(line, ifPos, "if");
  }

  /** The loop over the commands; it stops at the first one that the line starts with. */
  method NormalizeFirst(line: string, commands: seq<string>) returns (r: string, found: Option<string>)
    ensures found == FirstCommand(line, commands)
    ensures r == if found.None? then line else LowerAt(line, 0, found.value)
  {
    hide CommandAt, LowerAt;
    r := line;
    for i := 0 to |commands|
      invariant r == line
      invariant FirstCommand(line, commands) == FirstCommand(line, commands[i..])
    {
      var command := commands[i];
      assert commands[i..][0] == command && commands[i..][1..] == commands[i + 1..];
      var lowered, matched := NormalizeCommandAt(line, 0, command);
      if matched {
        return lowered, Some(command);
      }
    }
    found := None;
  }

  method NormalizeCommandTokens(line: string) returns (r: string)
    ensures r == NormalizeTokens(line)
  {
    hide CommandAt, LowerAt, LowerElseIf, FirstCommand, COMMANDS;
    var found;
    r, found := NormalizeFirst(line, COMMANDS);
    if found == Some("else") {
      ElseLength(line);
      r := NormalizeElseIf(r);
    }
  }

  method PushProcessedLine(raw: string, out: seq<string>) returns (r: seq<string>)
    ensures r == out + ProcessLine(raw)
  {
    hide NormalizeTokens;
    r := out;
    var line := TrimText(raw);
    if line == "" || line[0] == ';' || line[0] == '#' {
      return;
    }
    while line != "" && line[0] == '}'
      invariant r + Peel(line) == out + ProcessLine(raw)
      decreases |line|
    {
      TrimIsTrimmed(line[1..]);
      r := r + ["}"];
      line := TrimText(line[1..]);
    }
    if line == "" {
      return;
    }
    var normalized := NormalizeCommandTokens(line);
    r := r + [normalized];
  }

  method PreprocessLines(block: string) returns (out: seq<string>)
    ensures out == Preprocess(block)
  {
    hide ProcessLine;
    out := [];
    var current := "";
    assert block[0..] == block;
    for i := 0 to |block|
      invariant out + LinesFrom(block[i..], current) == Preprocess(block)
    {
      assert block[i..][1..] == block[i + 1..];
      if block[i] == '\r' {
        continue;
      }
      if block[i] == '\n' {
        out := PushProcessedLine(current, out);
        current := "";
      } else {
        current := current + [block[i]];
      }
    }
    assert block[|block|..] == "";
    if current != "" {
      out := PushProcessedLine(current, out);
    }
  }
}
