/** The scan of a script file into hotstrings (src/AhkParser.cpp:109-484).  The lines of the file are the
    input; reading them is not part of this model. */
module FileScan {
  import opened Wrappers
  import opened Text
  import ScriptLines
  import ScriptParser
  import Macro
  import opened Matching
  import Replacement
  import Trigger

  // ---- what one line is --------------------------------------------------------------

  /** `find` of two bytes: the first position, or `|s|` for `npos`. */
  function FindPair(s: string, a: char, b: char): (i: nat)
    ensures i <= |s|
    ensures i < |s| ==> i + 1 < |s| && s[i] == a && s[i + 1] == b
  {
    if |s| < 2 then |s|
    else if s[0] == a && s[1] == b then 0
    else 1 + FindPair(s[1..], a, b)
  }

  predicate HasPair(s: string, a: char, b: char) { FindPair(s, a, b) < |s| }

  /** The commands that are never the start of a trigger line; `showmarkdown` is not among them. */
  const LINE_COMMANDS: seq<string> := [
    "sendinput", "sleep", "random", "cancel", "pause", "if", "else", "sendmessage", "input", "return"
  ]

  predicate IsActionText(t: string) { ScriptLines.FirstCommand(t, LINE_COMMANDS).Some? || t == "{" || t == "}" }

  /** `looks_like_action_line`. */
  predicate LooksLikeAction(line: string) { Trim(line) != "" && IsActionText(Trim(line)) }

  /** `looks_like_trigger_line`. */
  predicate LooksLikeTrigger(line: string) {
    var t := Trim(line);
    var sep := FindPair(t, ':', ':');
    && t != "" && !IsActionText(t) && sep < |t|
    && (t[0] == ':' || IsTriggerName(Trim(t[..sep])))
  }

  predicate IsTriggerName(name: string) { name != "" && '{' !in name && '}' !in name && ',' !in name }

  predicate IsCommentOrEmpty(line: string) {
    var t := Trim(line);
    t == "" || t[0] == ';' || t[0] == '#'
  }

  predicate OpensComment(t: string) { |t| >= 2 && t[0] == '/' && t[1] == '*' }

  /** An assignment to a global variable: one `=`, no `::`, and a name without white space. */
  predicate IsAssignment(t: string) {
    var eq := Find(t, '=');
    eq < |t| && !HasPair(t, ':', ':') && IsVariableName(Trim(t[..eq]))
  }

  predicate IsVariableName(name: string) { name != "" && Run(name, c => !IsSpace(c)) == |name| }

  /** Lines that the scan passes over. */
  predicate IsSkipped(t: string) { IsCommentOrEmpty(t) || (!IsAssignment(t) && !LooksLikeTrigger(t)) }

  // ---- one trigger line ----------------------------------------------------------------

  /** The trigger and the replacement of a line.  When the line starts with `::` the search for the
      colon in front of the trigger starts at position -1, that is at the end of the line. */
  function SplitTrigger(line: string): Result<(string, string)> {
    var sep := FindPair(line, ':', ':');
    if sep == |line| then Err
    else if line[0] != ':' then Ok((line[..sep], line[sep + 2..]))
    else if sep == 0 then Ok((line[RFind(line, ':') + 1..], line[2..]))
    else
      var start := RFind(line[..sep], ':');
      if start == sep then Err else Ok((line[start + 1..sep], line[sep + 2..]))
  }

  /** `parse_hotstring_line`. */
  function ParseLine(line: string, layout: Trigger.Layout): Result<Hotstring> {
    match SplitTrigger(line)
    case Err => Err
    case Ok((trigger, replacement)) =>
      match Trigger.ParseTrigger(Trim(trigger), layout)
      case Err => Err
      case Ok((keys, modifiers)) =>
        match Replacement.Read(replacement)
        case Err => Err
        case Ok(body) => Ok(Hotstring(modifiers, Macro.Job(line != "" && line[0] == ':', keys, [], body.text, body.tail)))
  }

  predicate HasInlineBody(h: Hotstring) { h.job.text != "" || h.job.tail != [] }

  // ---- bodies ----------------------------------------------------------------------------

  /** What the triggers of a stack share. */
  datatype Template = Template(commands: seq<ScriptParser.Command>, text: string, tail: seq<(int, int)>)

  const EMPTY_TEMPLATE: Template := Template([], "", [])

  function WithBody(h: Hotstring, b: Template): Hotstring {
    h.(job := h.job.(commands := b.commands, text := b.text, tail := b.tail))
  }

  function WithBodies(hs: seq<Hotstring>, b: Template): (r: seq<Hotstring>)
    ensures |r| == |hs| && forall i :: 0 <= i < |hs| ==> r[i] == WithBody(hs[i], b)
  {
    if hs == [] then [] else [WithBody(hs[0], b)] + WithBodies(hs[1..], b)
  }

  /** True when the next line that is no comment and not empty looks like a trigger. */
  predicate TriggerFollows(lines: seq<string>) {
    if lines == [] then false
    else if IsCommentOrEmpty(Trim(lines[0])) then TriggerFollows(lines[1..])
    else LooksLikeTrigger(Trim(lines[0]))
  }

  /** Only lines that are a lone brace change the depth. */
  function DepthAfter(t: string, depth: nat): nat {
    if t == "{" then depth + 1 else if t == "}" && depth > 0 then depth - 1 else depth
  }

  predicate IsReturn(t: string) { ScriptLines.CommandAt(t, 0, "return") }

  datatype Collected = Collected(count: nat, sawReturn: bool)

  /** How many lines belong to the body, and whether a `return` ends it. */
  function Collect(lines: seq<string>, depth: nat): (c: Collected)
    ensures c.count <= |lines|
    ensures c.sawReturn ==> c.count < |lines|
  {
    if lines == [] then Collected(0, false)
    else
      var t := Trim(lines[0]);
      var d := DepthAfter(t, depth);
      if d == 0 && IsReturn(t) then Collected(0, true)
      else if d == 0 && LooksLikeTrigger(t) then Collected(0, false)
      else
        var c := Collect(lines[1..], d);
        c.(count := c.count + 1)
  }

  function JoinTail(lines: seq<string>): string {
    if lines == [] then "" else "\n" + lines[0] + JoinTail(lines[1..])
  }

  function Join(lines: seq<string>): string { if lines == [] then "" else lines[0] + JoinTail(lines[1..]) }

  predicate AnyAction(lines: seq<string>) { exists i :: 0 <= i < |lines| && LooksLikeAction(lines[i]) }

  /** A body is an action block when a `return` ends it or one of its lines is an action. */
  function ReadBody(lines: seq<string>, sawReturn: bool): Result<Template> {
    if sawReturn || AnyAction(lines) then
      match ScriptParser.ParseActionBlock(Join(lines))
      case Err => Err
      case Ok(commands) => Ok(Template(commands, "", []))
    else
      match Replacement.Read(Join(lines))
      case Err => Err
      case Ok(body) => Ok(Template([], body.text, body.tail))
  }

  // ---- the scan ----------------------------------------------------------------------------

  /** What the scan finds: a trigger with a replacement on its line, a trigger without one, the body
      that ends a stack of those, and an assignment.  `at` is the index of the line. */
  datatype Item =
    | Inline(at: nat, hotstring: Hotstring)
    | Stacked(at: nat, hotstring: Hotstring)
    | Shared(body: Template)
    | Global(name: string, value: string)

  function AssignmentOf(t: string): (item: Item)
    ensures item.Global?
  {
    var eq := Find(t, '=');
    if eq == |t| then Global(Trim(t), "") else Global(Trim(t[..eq]), Trim(t[eq + 1..]))
  }

  function Before(item: Item, r: Result<seq<Item>>): Result<seq<Item>> {
    match r
    case Err => Err
    case Ok(items) => Ok([item] + items)
  }

  /** The scan of the lines from index `at` on. */
  function Scan(lines: seq<string>, at: nat, inComment: bool, layout: Trigger.Layout): Result<seq<Item>>
    decreases |lines|, 0
  {
    if lines == [] then Ok([])
    else
      var t := Trim(lines[0]);
      if inComment then Scan(lines[1..], at + 1, !HasPair(t, '*', '/'), layout)
      else if OpensComment(t) then Scan(lines[1..], at + 1, !HasPair(t[2..], '*', '/'), layout)
      else if IsSkipped(t) then Scan(lines[1..], at + 1, false, layout)
      else if IsAssignment(t) then Before(AssignmentOf(t), Scan(lines[1..], at + 1, false, layout))
      else
        match ParseLine(t, layout)
        case Err => Err
        case Ok(h) =>
          if HasInlineBody(h) then Before(Inline(at, h), Scan(lines[1..], at + 1, false, layout))
          else if TriggerFollows(lines[1..]) then Before(Stacked(at, h), Scan(lines[1..], at + 1, false, layout))
          else Before(Stacked(at, h), ScanBody(lines[1..], at + 1, layout))
  }

  /** The body behind the last trigger of a stack, and the rest of the file. */
  function ScanBody(lines: seq<string>, at: nat, layout: Trigger.Layout): Result<seq<Item>>
    decreases |lines|, 1
  {
    var c := Collect(lines, 0);
    match ReadBody(lines[..c.count], c.sawReturn)
    case Err => Err
    case Ok(body) =>
      var n := if c.sawReturn then c.count + 1 else c.count;
      Before(Shared(body), Scan(lines[n..], at + n, false, layout))
  }

  /** The body that ends the stack in front of `items`; a stack that an inline trigger or the end of
      the file ends has none. */
  function BodyBehind(items: seq<Item>): Template {
    if items == [] || items[0].Inline? then EMPTY_TEMPLATE
    else if items[0].Shared? then items[0].body
    else BodyBehind(items[1..])
  }

  /** The hotstrings that the items stand for, by look-ahead. */
  function Resolve(items: seq<Item>): seq<Hotstring> {
    if items == [] then []
    else
      match items[0]
      case Inline(_, h) => [h] + Resolve(items[1..])
      case Stacked(_, h) => [WithBody(h, BodyBehind(items[1..]))] + Resolve(items[1..])
      case Shared(_) => Resolve(items[1..])
      case Global(_, _) => Resolve(items[1..])
  }

  /** The global variables behind `items`. */
  function Assigned(items: seq<Item>, globals: map<string, string>): map<string, string> {
    if items == [] then globals
    else Assigned(items[1..], if items[0].Global? then globals[items[0].name := items[0].value] else globals)
  }

  /** `parse_file`. */
  function Script(lines: seq<string>, layout: Trigger.Layout): Result<seq<Hotstring>> {
    match Scan(lines, 0, false, layout)
    case Err => Err
    case Ok(items) => if Resolve(items) == [] then Err else Ok(Resolve(items))
  }

  /** The variables of the context that the hotstrings of a script share. */
  function ScriptGlobals(lines: seq<string>, layout: Trigger.Layout): map<string, string> {
    AssignedIn(Scan(lines, 0, false, layout), map[])
  }

  function AssignedIn(r: Result<seq<Item>>, globals: map<string, string>): map<string, string> {
    if r.Ok? then Assigned(r.value, globals) else map[]
  }

  // ---- the loops of the source ----------------------------------------------------------------

  /** The state of the loop and what is still to be scanned: pending triggers get the body behind. */
  function Finish(hotstrings: seq<Hotstring>, pending: seq<Hotstring>, r: Result<seq<Item>>): Result<seq<Hotstring>> {
    match r
    case Err => Err
    case Ok(items) => Ok(hotstrings + WithBodies(pending, BodyBehind(items)) + Resolve(items))
  }

  lemma FinishInline(hotstrings: seq<Hotstring>, pending: seq<Hotstring>, at: nat, h: Hotstring, r: Result<seq<Item>>)
    ensures Finish(hotstrings, pending, Before(Inline(at, h), r))
         == Finish(hotstrings + WithBodies(pending, EMPTY_TEMPLATE) + [h], [], r)
  {
    if r.Ok? {
      var items := [Inline(at, h)] + r.value;
      assert items[1..] == r.value;
      var flushed := hotstrings + WithBodies(pending, EMPTY_TEMPLATE);
      assert flushed + ([h] + Resolve(r.value)) == flushed + [h] + [] + Resolve(r.value);
    }
  }

  lemma FinishStacked(hotstrings: seq<Hotstring>, pending: seq<Hotstring>, at: nat, h: Hotstring, r: Result<seq<Item>>)
    ensures Finish(hotstrings, pending, Before(Stacked(at, h), r)) == Finish(hotstrings, pending + [h], r)
  {
    if r.Ok? {
      var items := [Stacked(at, h)] + r.value;
      assert items[1..] == r.value;
      var b := BodyBehind(r.value);
      assert WithBodies(pending + [h], b) == WithBodies(pending, b) + [WithBody(h, b)];
      assert hotstrings + WithBodies(pending, b) + ([WithBody(h, b)] + Resolve(r.value))
          == hotstrings + (WithBodies(pending, b) + [WithBody(h, b)]) + Resolve(r.value);
    }
  }

  lemma FinishShared(hotstrings: seq<Hotstring>, pending: seq<Hotstring>, b: Template, r: Result<seq<Item>>)
    ensures Finish(hotstrings, pending, Before(Shared(b), r)) == Finish(hotstrings + WithBodies(pending, b), [], r)
  {
    if r.Ok? {
      var items := [Shared(b)] + r.value;
      assert items[1..] == r.value;
      assert hotstrings + WithBodies(pending, b) + [] + Resolve(r.value)
          == hotstrings + WithBodies(pending, b) + Resolve(r.value);
    }
  }

  lemma FinishGlobal(hotstrings: seq<Hotstring>, pending: seq<Hotstring>, t: string, r: Result<seq<Item>>)
    ensures Finish(hotstrings, pending, Before(AssignmentOf(t), r)) == Finish(hotstrings, pending, r)
  {
    if r.Ok? {
      assert ([AssignmentOf(t)] + r.value)[1..] == r.value;
    }
  }

  lemma AssignedBefore(item: Item, r: Result<seq<Item>>, globals: map<string, string>)
    ensures AssignedIn(Before(item, r), globals)
         == AssignedIn(r, if item.Global? then globals[item.name := item.value] else globals)
  {
    if r.Ok? {
      assert ([item] + r.value)[1..] == r.value;
    }
  }

  lemma FinishNothing(r: Result<seq<Item>>)
    ensures Finish([], [], r) == if r.Ok? then Ok(Resolve(r.value)) else Err
  {
    if r.Ok? {
      assert [] + [] + Resolve(r.value) == Resolve(r.value);
    }
  }

  /** `flush_pending`. */
  method FlushPending(hotstrings: seq<Hotstring>, pending: seq<Hotstring>, tpl: Template) returns (r: seq<Hotstring>)
    ensures r == hotstrings + WithBodies(pending, tpl)
  {
    hide WithBodies, WithBody;
    ghost var all := WithBodies(pending, tpl);
    r := hotstrings;
    for i := 0 to |pending|
      invariant r == hotstrings + all[..i]
    {
      assert all[..i + 1] == all[..i] + [WithBody(pending[i], tpl)];
      r := r + [WithBody(pending[i], tpl)];
    }
    assert all[..|pending|] == all;
  }

  /** The look-ahead for another trigger of the stack. */
  method PeekTrigger(raw: seq<string>, i: nat) returns (follows: bool)
    requires i <= |raw|
    ensures follows == TriggerFollows(raw[i..])
  {
    hide LooksLikeTrigger, IsCommentOrEmpty;
    var peek := i;
    while peek < |raw| && IsCommentOrEmpty(Trim(raw[peek]))
      invariant i <= peek <= |raw|
      invariant TriggerFollows(raw[i..]) == TriggerFollows(raw[peek..])
    {
      assert raw[peek..][1..] == raw[peek + 1..];
      peek := peek + 1;
    }
    follows := peek < |raw| && LooksLikeTrigger(Trim(raw[peek]));
  }

  method CollectBlock(raw: seq<string>, i: nat) returns (block: seq<string>, sawReturn: bool, j: nat)
    requires i <= |raw|
    ensures i <= j <= |raw| && block == raw[i..j] && (sawReturn ==> j < |raw|)
    ensures Collect(raw[i..], 0) == Collected(j - i, sawReturn)
  {
    hide LooksLikeTrigger, IsReturn;
    block, sawReturn, j := [], false, i;
    var depth: nat := 0;
    while j < |raw|
      invariant i <= j <= |raw| && block == raw[i..j]
      invariant var c := Collect(raw[j..], depth);
                Collect(raw[i..], 0) == c.(count := c.count + (j - i))
    {
      var t := TrimText(raw[j]);
      assert raw[j..][1..] == raw[j + 1..];
      if t == "{" {
        depth := depth + 1;
      } else if t == "}" && depth > 0 {
        depth := depth - 1;
      }
      if IsReturn(t) && depth == 0 {
        return block, true, j;
      }
      if depth == 0 && LooksLikeTrigger(t) {
        return;
      }
      block := block + [raw[j]];
      j := j + 1;
    }
  }

  lemma JoinTailAt(lines: seq<string>, k: nat)
    requires k < |lines|
    ensures JoinTail(lines[k..]) == "\n" + lines[k] + JoinTail(lines[k + 1..])
  {
    assert lines[k..][1..] == lines[k + 1..];
  }

  method JoinLines(lines: seq<string>) returns (joined: string)
    ensures joined == Join(lines)
  {
    hide JoinTail;
    joined := "";
    for k := 0 to |lines|
      invariant if k == 0 then joined == "" else Join(lines) == joined + JoinTail(lines[k..])
    {
      JoinTailAt(lines, k);
      if k != 0 {
        joined := joined + "\n";
      }
      joined := joined + lines[k];
    }
    JoinNothing(lines, joined);
  }

  lemma JoinNothing(lines: seq<string>, joined: string)
    ensures joined + JoinTail(lines[|lines|..]) == joined
  {
  }

  method BuildTemplate(block: seq<string>, sawReturn: bool) returns (r: Result<Template>)
    ensures r == ReadBody(block, sawReturn)
  {
    hide LooksLikeAction, Join, ScriptParser.ParseActionBlock;
    var asActionBlock := sawReturn;
    for k := 0 to |block|
      invariant asActionBlock == (sawReturn || exists i :: 0 <= i < k && LooksLikeAction(block[i]))
    {
      asActionBlock := asActionBlock || LooksLikeAction(block[k]);
    }
    var joined := JoinLines(block);
    if asActionBlock {
      var commands := ScriptParser.ParseBlockText(joined);
      r := if commands.Err? then Err else Ok(Template(commands.value, "", []));
    } else {
      var body := Replacement.ParseReplacement(joined);
      r := if body.Err? then Err else Ok(Template([], body.value.text, body.value.tail));
    }
  }

  /** One line of the scan, as an equation. */
  lemma ScanLine(raw: seq<string>, i: nat, layout: Trigger.Layout)
    requires i < |raw|
    ensures var t, h := Trim(raw[i]), ParseLine(Trim(raw[i]), layout);
            Scan(raw[i..], i, false, layout)
            == if OpensComment(t) then Scan(raw[i + 1..], i + 1, !HasPair(t[2..], '*', '/'), layout)
               else if IsSkipped(t) then Scan(raw[i + 1..], i + 1, false, layout)
               else if IsAssignment(t) then Before(AssignmentOf(t), Scan(raw[i + 1..], i + 1, false, layout))
               else if h.Err? then Err
               else if HasInlineBody(h.value) then
                 Before(Inline(i, h.value), Scan(raw[i + 1..], i + 1, false, layout))
               else if TriggerFollows(raw[i + 1..]) then
                 Before(Stacked(i, h.value), Scan(raw[i + 1..], i + 1, false, layout))
               else Before(Stacked(i, h.value), ScanBody(raw[i + 1..], i + 1, layout))
  {
    hide ScanBody, OpensComment, HasPair, IsSkipped, IsAssignment, AssignmentOf, ParseLine, TriggerFollows, HasInlineBody;
    assert raw[i..][1..] == raw[i + 1..];
  }

  lemma ScanBodyAt(raw: seq<string>, i: nat, j: nat, sawReturn: bool, layout: Trigger.Layout)
    requires i <= j <= |raw| && (sawReturn ==> j < |raw|) && Collect(raw[i..], 0) == Collected(j - i, sawReturn)
    ensures var body := ReadBody(raw[i..j], sawReturn);
            var next := if sawReturn then j + 1 else j;
            ScanBody(raw[i..], i, layout)
            == if body.Err? then Err else Before(Shared(body.value), Scan(raw[next..], next, false, layout))
  {
    hide Scan, Collect, ReadBody;
    assert raw[i..][..j - i] == raw[i..j];
    var next := if sawReturn then j + 1 else j;
    assert raw[i..][next - i..] == raw[next..];
  }

  /** The context keeps the last value of a name. */
  method Assign(globals: map<string, string>, t: string) returns (r: map<string, string>)
    requires IsAssignment(t)
    ensures r == globals[AssignmentOf(t).name := AssignmentOf(t).value]
  {
    hide IsVariableName, HasPair;
    var eq := Find(t, '=');
    var name := TrimText(t[..eq]);
    var value := TrimText(t[eq + 1..]);
    r := globals[name := value];
  }

  method ParseFile(raw: seq<string>, layout: Trigger.Layout) 
    returns (r: Result<seq<Hotstring>>, globals: map<string, string>)
    ensures r == Script(raw, layout)
    ensures r.Ok? ==> globals == ScriptGlobals(raw, layout)
  {
    hide *;
    var hotstrings: seq<Hotstring>, pending: seq<Hotstring>, inComment, i := [], [], false, 0;
    globals := map[];
    assert raw[0..] == raw;
    while i < |raw|
      invariant 0 <= i <= |raw|
      invariant Finish(hotstrings, pending, Scan(raw[i..], i, inComment, layout))
             == Finish([], [], Scan(raw, 0, false, layout))
      invariant AssignedIn(Scan(raw[i..], i, inComment, layout), globals)
             == AssignedIn(Scan(raw, 0, false, layout), map[])
    {
      var line := TrimText(raw[i]);
      if inComment {
        ScanInComment(raw, i, layout);
        if HasPair(line, '*', '/') {
          inComment := false;
        }
        i := i + 1;
        continue;
      }
      ScanLine(raw, i, layout);
      if OpensComment(line) {
        OpenedLength(line);
        inComment := !HasPair(line[2..], '*', '/');
        i := i + 1;
        continue;
      }
      if IsSkipped(line) {
        i := i + 1;
        continue;
      }
      if IsAssignment(line) {
        FinishGlobal(hotstrings, pending, line, Scan(raw[i + 1..], i + 1, false, layout));
        AssignedBefore(AssignmentOf(line), Scan(raw[i + 1..], i + 1, false, layout), globals);
        globals := Assign(globals, line);
        i := i + 1;
        continue;
      }
      var hs := ParseLine(line, layout);
      if hs.Err? {
        FinishErr(hotstrings, pending, raw, layout);
        return Err, globals;
      }
      if HasInlineBody(hs.value) {
        AssignedBefore(Inline(i, hs.value), Scan(raw[i + 1..], i + 1, false, layout), globals);
        FinishInline(hotstrings, pending, i, hs.value, Scan(raw[i + 1..], i + 1, false, layout));
        hotstrings := FlushPending(hotstrings, pending, EMPTY_TEMPLATE);
        hotstrings, pending := hotstrings + [hs.value], [];
        i := i + 1;
        continue;
      }
      var follows := PeekTrigger(raw, i + 1);
      if follows {
        AssignedBefore(Stacked(i, hs.value), Scan(raw[i + 1..], i + 1, false, layout), globals);
        FinishStacked(hotstrings, pending, i, hs.value, Scan(raw[i + 1..], i + 1, false, layout));
        pending := pending + [hs.value];
        i := i + 1;
        continue;
      }
      AssignedBefore(Stacked(i, hs.value), ScanBody(raw[i + 1..], i + 1, layout), globals);
      FinishStacked(hotstrings, pending, i, hs.value, ScanBody(raw[i + 1..], i + 1, layout));
      pending := pending + [hs.value];
      var block, sawReturn, j := CollectBlock(raw, i + 1);
      ScanBodyAt(raw, i + 1, j, sawReturn, layout);
      var tpl := BuildTemplate(block, sawReturn);
      if tpl.Err? {
        FinishErr(hotstrings, pending, raw, layout);
        return Err, globals;
      }
      i := if sawReturn then j + 1 else j;
      AssignedBefore(Shared(tpl.value), Scan(raw[i..], i, false, layout), globals);
      FinishShared(hotstrings, pending, tpl.value, Scan(raw[i..], i, false, layout));
      hotstrings := FlushPending(hotstrings, pending, tpl.value);
      pending := [];
    }
    GlobalsAtEnd(raw, i, inComment, layout, globals);
    FinishAtEnd(hotstrings, pending, raw, i, inComment, layout);
    hotstrings := FlushPending(hotstrings, pending, EMPTY_TEMPLATE);
    r := if hotstrings == [] then Err else Ok(hotstrings);
  }

  lemma GlobalsAtEnd(raw: seq<string>, i: nat, inComment: bool, layout: Trigger.Layout, globals: map<string, string>)
    requires i == |raw|
    requires AssignedIn(Scan(raw[i..], i, inComment, layout), globals) == AssignedIn(Scan(raw, 0, false, layout), map[])
    ensures globals == ScriptGlobals(raw, layout)
  {
    assert raw[i..] == [];
    ScanNothing(i, inComment, layout);
  }

  lemma ScanInComment(raw: seq<string>, i: nat, layout: Trigger.Layout)
    requires i < |raw|
    ensures Scan(raw[i..], i, true, layout)
         == Scan(raw[i + 1..], i + 1, !HasPair(Trim(raw[i]), '*', '/'), layout)
  {
    hide ScanBody, OpensComment, HasPair, IsSkipped, IsAssignment, AssignmentOf, ParseLine, TriggerFollows, HasInlineBody;
    assert raw[i..][1..] == raw[i + 1..];
  }

  lemma OpenedLength(t: string)
    requires OpensComment(t)
    ensures |t| >= 2
  {
  }

  lemma FinishErr(hotstrings: seq<Hotstring>, pending: seq<Hotstring>, raw: seq<string>, layout: Trigger.Layout)
    requires Finish(hotstrings, pending, Err) == Finish([], [], Scan(raw, 0, false, layout))
    ensures Script(raw, layout) == Err
  {
    hide Scan, Resolve, BodyBehind;
  }

  lemma FinishAtEnd(hotstrings: seq<Hotstring>, pending: seq<Hotstring>, raw: seq<string>, i: nat, inComment: bool,
                    layout: Trigger.Layout)
    requires i == |raw|
    requires Finish(hotstrings, pending, Scan(raw[i..], i, inComment, layout))
          == Finish([], [], Scan(raw, 0, false, layout))
    ensures var all := hotstrings + WithBodies(pending, EMPTY_TEMPLATE);
            Script(raw, layout) == if all == [] then Err else Ok(all)
  {
    assert raw[i..] == [];
    FinishNothing(Scan(raw, 0, false, layout));
    ScanNothing(i, inComment, layout);
    var all := hotstrings + WithBodies(pending, EMPTY_TEMPLATE);
    assert all + [] == all;
  }

  lemma ScanNothing(at: nat, inComment: bool, layout: Trigger.Layout)
    ensures Scan([], at, inComment, layout) == Ok([])
  {
  }
}
