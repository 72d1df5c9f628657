/** What a script file means, section by section, and that the scan finds exactly that
    (src/AhkParser.cpp:109-484). */
module FileSections {
  import opened Wrappers
  import opened Text
  import ScriptLines
  import opened Matching
  import opened FileScan
  import Trigger

  /** A trigger line of a stack, behind comments and empty lines. */
  datatype Spaced = Spaced(gap: seq<string>, line: string)

  datatype Section =
    | Skip(line: string)
    | Assignment(line: string)
    | Comment(open: string, inner: seq<string>, close: string)
    | Single(line: string)
    | Stack(triggers: seq<Spaced>, body: seq<string>, ending: Option<string>)

  // ---- the lines of a file ---------------------------------------------------------------

  function TriggersOnto(triggers: seq<Spaced>, after: seq<string>): seq<string> {
    if triggers == [] then after
    else triggers[0].gap + ([triggers[0].line] + TriggersOnto(triggers[1..], after))
  }

  function EndingOnto(ending: Option<string>, after: seq<string>): seq<string> {
    if ending.None? then after else [ending.value] + after
  }

  function SectionOnto(s: Section, after: seq<string>): seq<string> {
    match s
    case Skip(line) => [line] + after
    case Assignment(line) => [line] + after
    case Comment(open, inner, close) => [open] + (inner + ([close] + after))
    case Single(line) => [line] + after
    case Stack(triggers, body, ending) => TriggersOnto(triggers, body + EndingOnto(ending, after))
  }

  function FileLines(sections: seq<Section>): seq<string> {
    if sections == [] then [] else SectionOnto(sections[0], FileLines(sections[1..]))
  }

  // ---- which sections a file may have ------------------------------------------------------

  predicate IsSkipLine(line: string) {
    var t := Trim(line);
    if OpensComment(t) then HasPair(t[2..], '*', '/') else IsSkipped(t)
  }

  predicate IsAssignmentLine(line: string) {
    var t := Trim(line);
    !OpensComment(t) && !IsSkipped(t) && IsAssignment(t)
  }

  predicate IsTriggerLine(line: string, layout: Trigger.Layout) {
    var t := Trim(line);
    !OpensComment(t) && !IsSkipped(t) && !IsAssignment(t) && ParseLine(t, layout).Ok?
  }

  /** The hotstring of a trigger line, with the replacement of that line. */
  function LineHotstring(line: string, layout: Trigger.Layout): Hotstring
    requires IsTriggerLine(line, layout)
  {
    ParseLine(Trim(line), layout).value
  }

  ghost predicate AllGap(gap: seq<string>) { forall i :: 0 <= i < |gap| ==> IsCommentOrEmpty(Trim(gap[i])) }

  ghost predicate AllStacked(triggers: seq<Spaced>, layout: Trigger.Layout) {
    forall i :: 0 <= i < |triggers| ==> IsStacked(triggers[i], layout)
  }

  ghost predicate IsStacked(t: Spaced, layout: Trigger.Layout) {
    AllGap(t.gap) && IsTriggerLine(t.line, layout) && !HasInlineBody(LineHotstring(t.line, layout))
  }

  /** The brace depth behind a body, if no line of it would end it. */
  function DepthThrough(body: seq<string>, depth: nat): Option<nat> {
    if body == [] then Some(depth)
    else
      var t := Trim(body[0]);
      var d := DepthAfter(t, depth);
      if d == 0 && (IsReturn(t) || LooksLikeTrigger(t)) then None else DepthThrough(body[1..], d)
  }

  ghost predicate IsBody(body: seq<string>, ending: Option<string>) {
    && DepthThrough(body, 0) == Some(0)
    && ReadBody(body, ending.Some?).Ok?
    && (ending.Some? ==> IsReturn(Trim(ending.value)))
  }

  ghost predicate IsSection(s: Section, layout: Trigger.Layout) {
    match s
    case Skip(line) => IsSkipLine(line)
    case Assignment(line) => IsAssignmentLine(line)
    case Comment(open, inner, close) => IsComment(open, inner, close)
    case Single(line) => IsTriggerLine(line, layout) && HasInlineBody(LineHotstring(line, layout))
    case Stack(triggers, body, ending) => triggers != [] && AllStacked(triggers, layout) && IsBody(body, ending)
  }

  ghost predicate IsComment(open: string, inner: seq<string>, close: string) {
    && OpensComment(Trim(open)) && !HasPair(Trim(open)[2..], '*', '/')
    && (forall i :: 0 <= i < |inner| ==> !HasPair(Trim(inner[i]), '*', '/'))
    && HasPair(Trim(close), '*', '/')
  }

  /** A body that no `return` ends goes on until the next trigger, or to the end of the file. */
  ghost predicate EndsBody(s: Section, after: seq<string>) {
    s.Stack? && s.ending.None? && after != [] ==> !AllGap(s.body) && LooksLikeTrigger(Trim(after[0]))
  }

  ghost predicate IsFile(sections: seq<Section>, layout: Trigger.Layout) {
    sections != [] ==>
      && IsSection(sections[0], layout)
      && EndsBody(sections[0], FileLines(sections[1..]))
      && IsFile(sections[1..], layout)
  }

  // ---- what the sections mean -----------------------------------------------------------------

  function StackHotstrings(triggers: seq<Spaced>, layout: Trigger.Layout): (hs: seq<Hotstring>)
    requires AllStacked(triggers, layout)
    ensures |hs| == |triggers|
  {
    if triggers == [] then []
    else assert IsStacked(triggers[0], layout); [LineHotstring(triggers[0].line, layout)] + StackHotstrings(triggers[1..], layout)
  }

  /** One hotstring for every trigger line; those of a stack share the body. */
  function SectionMeaning(s: Section, layout: Trigger.Layout): seq<Hotstring>
    requires IsSection(s, layout)
  {
    match s
    case Skip(_) => []
    case Assignment(_) => []
    case Comment(_, _, _) => []
    case Single(line) => [LineHotstring(line, layout)]
    case Stack(triggers, body, ending) => WithBodies(StackHotstrings(triggers, layout), ReadBody(body, ending.Some?).value)
  }

  function FileMeaning(sections: seq<Section>, layout: Trigger.Layout): seq<Hotstring>
    requires IsFile(sections, layout)
  {
    if sections == [] then [] else SectionMeaning(sections[0], layout) + FileMeaning(sections[1..], layout)
  }

  /** The variables after the assignments of a file; the last value of a name counts. */
  function FileGlobals(sections: seq<Section>, globals: map<string, string>): map<string, string> {
    if sections == [] then globals else FileGlobals(sections[1..], SectionGlobals(sections[0], globals))
  }

  function SectionGlobals(s: Section, globals: map<string, string>): map<string, string> {
    if s.Assignment? then
      var item := AssignmentOf(Trim(s.line));
      globals[item.name := item.value]
    else globals
  }

  // ---- the scan of each kind of line ------------------------------------------------------------

  lemma ScanFirst(line: string, rest: seq<string>, at: nat, layout: Trigger.Layout)
    ensures var t, h := Trim(line), ParseLine(Trim(line), layout);
            Scan([line] + rest, at, false, layout)
            == if OpensComment(t) then Scan(rest, at + 1, !HasPair(t[2..], '*', '/'), layout)
               else if IsSkipped(t) then Scan(rest, at + 1, false, layout)
               else if IsAssignment(t) then Before(AssignmentOf(t), Scan(rest, at + 1, false, layout))
               else if h.Err? then Err
               else if HasInlineBody(h.value) then Before(Inline(at, h.value), Scan(rest, at + 1, false, layout))
               else if TriggerFollows(rest) then Before(Stacked(at, h.value), Scan(rest, at + 1, false, layout))
               else Before(Stacked(at, h.value), ScanBody(rest, at + 1, layout))
  {
    hide ScanBody, OpensComment, HasPair, IsSkipped, IsAssignment, AssignmentOf, ParseLine, TriggerFollows, HasInlineBody;
    assert ([line] + rest)[1..] == rest;
  }

  lemma GapLine(line: string)
    requires IsCommentOrEmpty(Trim(line))
    ensures IsSkipped(Trim(line)) && !OpensComment(Trim(line))
  {
    hide LooksLikeTrigger, IsAssignment;
    TrimIsTrimmed(line);
    TrimOfTrimmed(Trim(line));
  }

  lemma {:induction false} ScanGap(gap: seq<string>, rest: seq<string>, at: nat, layout: Trigger.Layout)
    requires AllGap(gap)
    ensures Scan(gap + rest, at, false, layout) == Scan(rest, at + |gap|, false, layout)
    ensures TriggerFollows(gap + rest) == TriggerFollows(rest)
  {
    hide Scan, IsSkipped, OpensComment, IsCommentOrEmpty, LooksLikeTrigger;
    if gap == [] {
      assert gap + rest == rest;
    } else {
      assert gap + rest == [gap[0]] + (gap[1..] + rest);
      GapLine(gap[0]);
      ScanFirst(gap[0], gap[1..] + rest, at, layout);
      ScanGap(gap[1..], rest, at + 1, layout);
      assert (gap + rest)[1..] == gap[1..] + rest;
    }
  }

  lemma {:induction false} ScanComment(inner: seq<string>, close: string, rest: seq<string>, at: nat, layout: Trigger.Layout)
    requires (forall i :: 0 <= i < |inner| ==> !HasPair(Trim(inner[i]), '*', '/')) && HasPair(Trim(close), '*', '/')
    ensures Scan(inner + ([close] + rest), at, true, layout) == Scan(rest, at + |inner| + 1, false, layout)
  {
    hide Scan, HasPair;
    var lines := inner + ([close] + rest);
    assert lines[0..] == lines;
    if inner == [] {
      ScanCommentLine(close, rest, at, layout);
      assert lines == [close] + rest;
    } else {
      ScanCommentLine(inner[0], inner[1..] + ([close] + rest), at, layout);
      assert lines == [inner[0]] + (inner[1..] + ([close] + rest));
      ScanComment(inner[1..], close, rest, at + 1, layout);
    }
  }

  lemma ScanCommentLine(line: string, rest: seq<string>, at: nat, layout: Trigger.Layout)
    ensures Scan([line] + rest, at, true, layout) == Scan(rest, at + 1, !HasPair(Trim(line), '*', '/'), layout)
  {
    hide HasPair, IsSkipped, ParseLine, ScanBody;
    assert ([line] + rest)[1..] == rest;
  }

  /** A body is collected up to what follows it. */
  lemma {:induction false} CollectBody(body: seq<string>, depth: nat, after: seq<string>)
    requires DepthThrough(body, depth) == Some(0)
    ensures var c := Collect(after, 0);
            Collect(body + after, depth) == c.(count := c.count + |body|)
  {
    hide IsReturn, LooksLikeTrigger, DepthAfter;
    if body == [] {
      assert body + after == after;
    } else {
      assert (body + after)[1..] == body[1..] + after;
      CollectBody(body[1..], DepthAfter(Trim(body[0]), depth), after);
    }
  }

  /** No trigger follows in front of the end of a body, unless nothing but comments is there. */
  lemma {:induction false} NoTriggerInBody(body: seq<string>, after: seq<string>)
    requires DepthThrough(body, 0).Some?
    ensures TriggerFollows(body + after) <==> AllGap(body) && TriggerFollows(after)
  {
    hide LooksLikeTrigger, IsCommentOrEmpty;
    if body == [] {
      assert body + after == after;
    } else {
      assert (body + after)[1..] == body[1..] + after;
      if IsCommentOrEmpty(Trim(body[0])) {
        GapKeepsDepth(body[0]);
        NoTriggerInBody(body[1..], after);
        assert AllGap(body) <==> AllGap(body[1..]) by {
          assert body == [body[0]] + body[1..];
        }
      } else {
        FirstOfBody(body);
      }
    }
  }

  lemma GapKeepsDepth(line: string)
    requires IsCommentOrEmpty(Trim(line))
    ensures DepthAfter(Trim(line), 0) == 0
  {
    TrimIsTrimmed(line);
    TrimOfTrimmed(Trim(line));
  }

  lemma FirstOfBody(body: seq<string>)
    requires body != [] && DepthThrough(body, 0).Some?
    ensures !LooksLikeTrigger(Trim(body[0]))
  {
    hide LooksLikeTrigger, IsReturn;
    if DepthAfter(Trim(body[0]), 0) != 0 {
      BraceIsNoTrigger();
    }
  }

  lemma BraceIsNoTrigger()
    ensures !LooksLikeTrigger("{")
  {
    TrimOfTrimmed("{");
  }

  lemma ReturnIsNoTrigger(line: string)
    requires IsReturn(Trim(line))
    ensures !LooksLikeTrigger(Trim(line)) && !IsCommentOrEmpty(Trim(line)) && DepthAfter(Trim(line), 0) == 0
  {
    hide ScriptLines.CommandAt, FindPair, Trim;
    var t := Trim(line);
    TrimIsTrimmed(line);
    TrimOfTrimmed(t);
    ReturnFirst(t);
    assert "return" in LINE_COMMANDS by {
      assert LINE_COMMANDS[9] == "return";
    }
  }

  lemma ReturnFirst(t: string)
    requires IsReturn(t)
    ensures t != "" && t[0] != ';' && t[0] != '#' && t[0] != '{'
  {
    assert ScriptLines.LowerChar(t[0]) == 'r' by {
      assert ScriptLines.Lower(t[0..0 + |"return"|])[0] == 'r';
    }
  }

  // ---- stacks ----------------------------------------------------------------------------------------

  function LineCount(triggers: seq<Spaced>): nat {
    if triggers == [] then 0 else |triggers[0].gap| + 1 + LineCount(triggers[1..])
  }

  lemma StackFollows(triggers: seq<Spaced>, after: seq<string>, layout: Trigger.Layout)
    requires triggers != []
    ensures AllStacked(triggers, layout) ==> TriggerFollows(TriggersOnto(triggers, after))
  {
    hide ParseLine, HasInlineBody, IsCommentOrEmpty, LooksLikeTrigger, IsAssignment;
    if AllStacked(triggers, layout) {
      assert IsStacked(triggers[0], layout);
      ScanGap(triggers[0].gap, [triggers[0].line] + TriggersOnto(triggers[1..], after), 0, layout);
    }
  }

  /** The first trigger of a stack, as the scan meets it. */
  lemma ScanSpaced(t: Spaced, rest: seq<string>, at: nat, layout: Trigger.Layout)
    requires IsStacked(t, layout)
    ensures var here := at + |t.gap|;
            Scan(t.gap + ([t.line] + rest), at, false, layout)
            == Before(Stacked(here, LineHotstring(t.line, layout)),
                      if TriggerFollows(rest) then Scan(rest, here + 1, false, layout) else ScanBody(rest, here + 1, layout))
  {
    hide Scan, ScanBody, TriggerFollows, IsSkipped, OpensComment, ParseLine, HasInlineBody, IsAssignment, IsCommentOrEmpty;
    ScanGap(t.gap, [t.line] + rest, at, layout);
    ScanFirst(t.line, rest, at + |t.gap|, layout);
  }

  /** What the loop has when it comes to a trigger of a stack: the trigger becomes pending. */
  lemma PendingSpaced(hotstrings: seq<Hotstring>, pending: seq<Hotstring>, t: Spaced, rest: seq<string>, at: nat,
                      layout: Trigger.Layout, globals: map<string, string>)
    requires IsStacked(t, layout)
    ensures var here := at + |t.gap|;
            var start := Scan(t.gap + ([t.line] + rest), at, false, layout);
            var later := if TriggerFollows(rest) then Scan(rest, here + 1, false, layout) else ScanBody(rest, here + 1, layout);
            && Finish(hotstrings, pending, start) == Finish(hotstrings, pending + [LineHotstring(t.line, layout)], later)
            && AssignedIn(start, globals) == AssignedIn(later, globals)
  {
    hide Scan, ScanBody, Finish, AssignedIn, TriggerFollows, IsStacked, LineHotstring, IsTriggerLine;
    ScanSpaced(t, rest, at, layout);
    var here := at + |t.gap|;
    assert IsTriggerLine(t.line, layout) by { StackedIsTrigger(t, layout); }
    var h := LineHotstring(t.line, layout);
    var later := if TriggerFollows(rest) then Scan(rest, here + 1, false, layout) else ScanBody(rest, here + 1, layout);
    FinishStacked(hotstrings, pending, here, h, later);
    AssignedBefore(Stacked(here, h), later, globals);
  }

  lemma StackedIsTrigger(t: Spaced, layout: Trigger.Layout)
    requires IsStacked(t, layout)
    ensures IsTriggerLine(t.line, layout)
  {
    hide IsTriggerLine, HasInlineBody, ParseLine;
  }

  /** Every trigger of a stack becomes pending; then the body is read. */
  lemma {:induction false} ScanStack(hotstrings: seq<Hotstring>, pending: seq<Hotstring>, triggers: seq<Spaced>, after: seq<string>,
                                     at: nat, layout: Trigger.Layout, globals: map<string, string>)
    requires triggers != []
    ensures AllStacked(triggers, layout) && !TriggerFollows(after) ==>
              var start, behind := Scan(TriggersOnto(triggers, after), at, false, layout),
                                   ScanBody(after, at + LineCount(triggers), layout);
              && Finish(hotstrings, pending, start)
                 == Finish(hotstrings, pending + StackHotstrings(triggers, layout), behind)
              && AssignedIn(start, globals) == AssignedIn(behind, globals)
    decreases |triggers|
  {
    hide Scan, ScanBody, Finish, AssignedIn, TriggerFollows, IsStacked, LineHotstring, IsTriggerLine;
    if AllStacked(triggers, layout) && !TriggerFollows(after) {
      var first := triggers[0];
      assert IsStacked(first, layout);
      StackedIsTrigger(first, layout);
      var h := LineHotstring(first.line, layout);
      var rest := TriggersOnto(triggers[1..], after);
      var at1 := at + |first.gap|;
      PendingSpaced(hotstrings, pending, first, rest, at, layout, globals);
      if |triggers| == 1 {
        assert StackHotstrings(triggers, layout) == [h] + [];
        assert pending + [h] == pending + ([h] + []);
      } else {
        StackFollows(triggers[1..], after, layout);
        ScanStack(hotstrings, pending + [h], triggers[1..], after, at1 + 1, layout, globals);
        assert pending + [h] + StackHotstrings(triggers[1..], layout) == pending + ([h] + StackHotstrings(triggers[1..], layout));
      }
    }
  }

  lemma ScanBodyOf(body: seq<string>, ending: Option<string>, after: seq<string>, at: nat, layout: Trigger.Layout)
    requires IsBody(body, ending)
    requires ending.None? && after != [] ==> !AllGap(body) && LooksLikeTrigger(Trim(after[0]))
    ensures !TriggerFollows(body + EndingOnto(ending, after))
    ensures ScanBody(body + EndingOnto(ending, after), at, layout)
         == Before(Shared(ReadBody(body, ending.Some?).value),
                   Scan(after, at + |body| + (if ending.Some? then 1 else 0), false, layout))
  {
    hide Scan, ReadBody, LooksLikeTrigger, IsReturn, IsCommentOrEmpty, AllGap, DepthThrough, DepthAfter;
    var tail := EndingOnto(ending, after);
    CollectBody(body, 0, tail);
    NoTriggerInBody(body, tail);
    CollectTail(ending, after);
    assert (body + tail)[..|body|] == body;
    if ending.Some? {
      assert (body + tail)[|body| + 1..] == after;
    } else {
      assert (body + tail)[|body|..] == after;
    }
  }

  lemma CollectTail(ending: Option<string>, after: seq<string>)
    requires ending.Some? ==> IsReturn(Trim(ending.value))
    requires ending.None? && after != [] ==> LooksLikeTrigger(Trim(after[0]))
    ensures Collect(EndingOnto(ending, after), 0) == Collected(0, ending.Some?)
    ensures ending.Some? || after == [] ==> !TriggerFollows(EndingOnto(ending, after))
  {
    hide LooksLikeTrigger, IsReturn, IsCommentOrEmpty;
    if ending.Some? {
      ReturnIsNoTrigger(ending.value);
    } else if after != [] {
      TriggerIsNoReturn(after[0]);
    }
  }

  lemma TriggerIsNoReturn(line: string)
    requires LooksLikeTrigger(Trim(line))
    ensures !IsReturn(Trim(line)) && DepthAfter(Trim(line), 0) == 0
  {
    hide FindPair, Trim, IsReturn, IsTriggerName;
    if IsReturn(Trim(line)) {
      ReturnIsNoTrigger(line);
    } else {
      TrimIsTrimmed(line);
      TrimOfTrimmed(Trim(line));
    }
  }

  lemma BodyIsRead(body: seq<string>, ending: Option<string>)
    requires IsBody(body, ending)
    ensures ReadBody(body, ending.Some?).Ok?
  {
  }

  // ---- the whole file -----------------------------------------------------------------------------------

  lemma ScanSection(hotstrings: seq<Hotstring>, globals: map<string, string>, s: Section, after: seq<string>, at: nat,
                    layout: Trigger.Layout) returns (next: nat)
    requires IsSection(s, layout) && EndsBody(s, after)
    ensures Finish(hotstrings, [], Scan(SectionOnto(s, after), at, false, layout))
         == Finish(hotstrings + SectionMeaning(s, layout), [], Scan(after, next, false, layout))
    ensures AssignedIn(Scan(SectionOnto(s, after), at, false, layout), globals)
         == AssignedIn(Scan(after, next, false, layout), SectionGlobals(s, globals))
  {
    hide AssignedIn, IsAssignment, AssignmentOf, Scan, ScanBody, Finish, IsSkipped, OpensComment, HasPair, ParseLine, HasInlineBody, ReadBody, IsBody, AllStacked,
         TriggersOnto, StackHotstrings, TriggerFollows, WithBodies;
    next := at + 1;
    assert hotstrings + [] == hotstrings;
    match s {
      case Skip(line) => ScanFirst(line, after, at, layout);
      case Assignment(line) =>
        ScanFirst(line, after, at, layout);
        FinishGlobal(hotstrings, [], Trim(line), Scan(after, next, false, layout));
        AssignedBefore(AssignmentOf(Trim(line)), Scan(after, next, false, layout), globals);
      case Comment(open, inner, close) =>
        ScanFirst(open, inner + ([close] + after), at, layout);
        ScanComment(inner, close, after, at + 1, layout);
        next := at + |inner| + 2;
      case Single(line) =>
        ScanFirst(line, after, at, layout);
        AssignedBefore(Inline(at, LineHotstring(line, layout)), Scan(after, next, false, layout), globals);
        FinishInline(hotstrings, [], at, LineHotstring(line, layout), Scan(after, next, false, layout));
        assert hotstrings + WithBodies([], EMPTY_TEMPLATE) == hotstrings;
      case Stack(triggers, body, ending) =>
        BodyIsRead(body, ending);
        var tail := body + EndingOnto(ending, after);
        var behind := at + LineCount(triggers);
        ScanBodyOf(body, ending, after, behind, layout);
        ScanStack(hotstrings, [], triggers, tail, at, layout, globals);
        next := behind + |body| + (if ending.Some? then 1 else 0);
        assert [] + StackHotstrings(triggers, layout) == StackHotstrings(triggers, layout);
        AssignedBefore(Shared(ReadBody(body, ending.Some?).value), Scan(after, next, false, layout), globals);
        FinishShared(hotstrings, StackHotstrings(triggers, layout), ReadBody(body, ending.Some?).value,
                     Scan(after, next, false, layout));
    }
  }

  lemma {:induction false} ScanFile(hotstrings: seq<Hotstring>, globals: map<string, string>, sections: seq<Section>, at: nat,
                                    layout: Trigger.Layout)
    requires IsFile(sections, layout)
    ensures Finish(hotstrings, [], Scan(FileLines(sections), at, false, layout))
         == Ok(hotstrings + FileMeaning(sections, layout))
    ensures AssignedIn(Scan(FileLines(sections), at, false, layout), globals) == FileGlobals(sections, globals)
    decreases |sections|
  {
    hide IsSection, EndsBody, SectionMeaning, SectionGlobals, SectionOnto, Scan, Finish, AssignedIn;
    if sections == [] {
      NothingLeft(hotstrings, globals, at, layout);
    } else {
      var next := ScanSection(hotstrings, globals, sections[0], FileLines(sections[1..]), at, layout);
      var meaning := SectionMeaning(sections[0], layout);
      ScanFile(hotstrings + meaning, SectionGlobals(sections[0], globals), sections[1..], next, layout);
      assert hotstrings + meaning + FileMeaning(sections[1..], layout) == hotstrings + FileMeaning(sections, layout);
    }
  }

  lemma NothingLeft(hotstrings: seq<Hotstring>, globals: map<string, string>, at: nat, layout: Trigger.Layout)
    ensures AssignedIn(Scan([], at, false, layout), globals) == globals
    ensures Finish(hotstrings, [], Scan([], at, false, layout)) == Ok(hotstrings + [])
  {
    assert hotstrings + [] + [] == hotstrings + [];
  }

  /** A file of sections is read as what its sections mean, in the order of its lines, and its global
      variables are those of its assignments. */
  lemma FileMeansSections(sections: seq<Section>, layout: Trigger.Layout)
    requires IsFile(sections, layout)
    ensures Script(FileLines(sections), layout)
         == if FileMeaning(sections, layout) == [] then Err else Ok(FileMeaning(sections, layout))
    ensures ScriptGlobals(FileLines(sections), layout) == FileGlobals(sections, map[])
  {
    hide Scan, IsFile, AssignedIn, FileGlobals;
    var scan := Scan(FileLines(sections), 0, false, layout);
    ScanFile([], map[], sections, 0, layout);
    FinishNothing(scan);
    assert [] + FileMeaning(sections, layout) == FileMeaning(sections, layout);
  }

  // ---- any file: one hotstring for each accepted trigger line, in order ------------------------------------

  predicate IsTriggerItem(item: Item) { item.Inline? || item.Stacked? }

  function TriggersOf(items: seq<Item>): seq<Item> {
    if items == [] then [] else (if IsTriggerItem(items[0]) then [items[0]] else []) + TriggersOf(items[1..])
  }

  /** The k-th hotstring is the k-th accepted trigger: its own replacement, or some body. */
  lemma {:induction false} OneForEachTrigger(items: seq<Item>, k: nat)
    ensures |Resolve(items)| == |TriggersOf(items)|
    ensures k < |Resolve(items)| ==>
              var item, h := TriggersOf(items)[k], Resolve(items)[k];
              IsTriggerItem(item) && if item.Inline? then h == item.hotstring
                               else h == WithBody(item.hotstring, Template(h.job.commands, h.job.text, h.job.tail))
  {
    hide BodyBehind;
    if items != [] {
      var first := if IsTriggerItem(items[0]) then 1 else 0;
      OneForEachTrigger(items[1..], if k >= first then k - first else 0);
    }
  }

  /** The accepted triggers are lines of the file that look like triggers, in the order of the file. */
  ghost predicate InOrder(triggers: seq<Item>, lines: seq<string>, at: nat, layout: Trigger.Layout) {
    && (forall k :: 0 <= k < |triggers| ==>
          IsTriggerItem(triggers[k]) && at <= triggers[k].at < at + |lines|
          && LooksLikeTrigger(Trim(lines[triggers[k].at - at]))
          && ParseLine(Trim(lines[triggers[k].at - at]), layout) == Ok(triggers[k].hotstring))
    && (forall j, k :: 0 <= j < k < |triggers| ==> triggers[j].at < triggers[k].at)
  }

  lemma InOrderLater(triggers: seq<Item>, lines: seq<string>, at: nat, n: nat, layout: Trigger.Layout)
    requires n <= |lines| && InOrder(triggers, lines[n..], at + n, layout)
    ensures InOrder(triggers, lines, at, layout)
  {
    hide LooksLikeTrigger, ParseLine, Trim;
    forall k | 0 <= k < |triggers|
      ensures LooksLikeTrigger(Trim(lines[triggers[k].at - at]))
           && ParseLine(Trim(lines[triggers[k].at - at]), layout) == Ok(triggers[k].hotstring)
    {
      assert lines[n..][triggers[k].at - (at + n)] == lines[triggers[k].at - at];
    }
  }

  lemma InOrderFirst(item: Item, triggers: seq<Item>, lines: seq<string>, at: nat, layout: Trigger.Layout)
    requires lines != [] && InOrder(triggers, lines[1..], at + 1, layout)
    requires IsTriggerItem(item) && item.at == at && LooksLikeTrigger(Trim(lines[0]))
    requires ParseLine(Trim(lines[0]), layout) == Ok(item.hotstring)
    ensures InOrder([item] + triggers, lines, at, layout)
  {
    hide LooksLikeTrigger, ParseLine, Trim;
    InOrderLater(triggers, lines, at, 1, layout);
  }

  predicate LeavesOpen(t: string, inComment: bool) {
    if inComment then !HasPair(t, '*', '/') else OpensComment(t) && !HasPair(t[2..], '*', '/')
  }

  lemma {:induction false} AcceptedInOrder(lines: seq<string>, at: nat, inComment: bool, layout: Trigger.Layout)
    requires Scan(lines, at, inComment, layout).Ok?
    ensures InOrder(TriggersOf(Scan(lines, at, inComment, layout).value), lines, at, layout)
    decreases |lines|, 0
  {
    hide InOrder, TriggerFollows, OpensComment, HasPair, HasInlineBody, ParseLine, ScanBody, LooksLikeTrigger, IsAssignment,
         IsCommentOrEmpty;
    if lines == [] {
      NoTriggers(lines, at, layout);
    } else {
      var t := Trim(lines[0]);
      var rest := lines[1..];
      if inComment || OpensComment(t) || IsSkipped(t) {
        var c := LeavesOpen(t, inComment);
        AcceptedInOrder(rest, at + 1, c, layout);
        InOrderLater(TriggersOf(Scan(rest, at + 1, c, layout).value), lines, at, 1, layout);
      } else if IsAssignment(t) {
        AcceptedInOrder(rest, at + 1, false, layout);
        var later := Scan(rest, at + 1, false, layout).value;
        InOrderLater(TriggersOf(later), lines, at, 1, layout);
        NoTriggerItem(AssignmentOf(t), later);
      } else {
        var items := Scan(lines, at, false, layout).value;
        assert items[0].hotstring == ParseLine(t, layout).value;
        if HasInlineBody(items[0].hotstring) || TriggerFollows(rest) {
          AcceptedInOrder(rest, at + 1, false, layout);
          assert items[1..] == Scan(rest, at + 1, false, layout).value;
        } else {
          AcceptedBehindBody(rest, at + 1, layout);
          assert items[1..] == ScanBody(rest, at + 1, layout).value;
        }
        InOrderFirst(items[0], TriggersOf(items[1..]), lines, at, layout);
      }
    }
  }

  lemma NoTriggers(lines: seq<string>, at: nat, layout: Trigger.Layout)
    ensures InOrder(TriggersOf([]), lines, at, layout)
  {
  }

  lemma {:induction false} AcceptedBehindBody(lines: seq<string>, at: nat, layout: Trigger.Layout)
    requires ScanBody(lines, at, layout).Ok?
    ensures InOrder(TriggersOf(ScanBody(lines, at, layout).value), lines, at, layout)
    decreases |lines|, 1
  {
    hide InOrder, Scan, ReadBody, Collect, TriggersOf;
    var c := Collect(lines, 0);
    var n := if c.sawReturn then c.count + 1 else c.count;
    AcceptedInOrder(lines[n..], at + n, false, layout);
    var later := Scan(lines[n..], at + n, false, layout).value;
    InOrderLater(TriggersOf(later), lines, at, n, layout);
    NoTriggerItem(Shared(ReadBody(lines[..c.count], c.sawReturn).value), later);
  }

  lemma NoTriggerItem(item: Item, items: seq<Item>)
    requires !IsTriggerItem(item)
    ensures TriggersOf([item] + items) == TriggersOf(items)
  {
    assert ([item] + items)[1..] == items;
  }

  // ---- any script: its hotstrings, in order, with their bodies ---------------------------------------------

  /** What the trigger at position `i` becomes. */
  function Meant(items: seq<Item>, i: nat): Hotstring
    requires i < |items| && IsTriggerItem(items[i])
  {
    if items[i].Inline? then items[i].hotstring else WithBody(items[i].hotstring, BodyBehind(items[i + 1..]))
  }

  /** How many triggers stand in front of position `i`. */
  function Place(items: seq<Item>, i: nat): nat
    requires i <= |items|
  {
    |TriggersOf(items[..i])|
  }

  lemma {:induction false} ResolvedAt(items: seq<Item>, i: nat)
    requires i < |items| && IsTriggerItem(items[i])
    ensures Place(items, i) < |TriggersOf(items)| == |Resolve(items)|
    ensures TriggersOf(items)[Place(items, i)] == items[i] && Resolve(items)[Place(items, i)] == Meant(items, i)
  {
    hide BodyBehind;
    OneForEachTrigger(items, 0);
    if i == 0 {
      assert items[..0] == [];
    } else {
      ResolvedAt(items[1..], i - 1);
      assert items[..i][1..] == items[1..][..i - 1] && items[..i][0] == items[0];
      assert items[1..][i - 1] == items[i] && items[1..][i..] == items[i + 1..];
    }
  }

  /** Two triggers of one stack: from the first up to the second there are only stacked triggers and
      assignments. */
  ghost predicate SameStack(items: seq<Item>, i: nat, j: nat) {
    && i <= j < |items| && items[i].Stacked? && items[j].Stacked?
    && forall k :: i <= k < j ==> items[k].Stacked? || items[k].Global?
  }

  lemma {:induction false} StackSharesBody(items: seq<Item>, i: nat, j: nat)
    requires i <= j < |items| && items[j].Stacked?
    requires forall k :: i <= k < j ==> items[k].Stacked? || items[k].Global?
    ensures BodyBehind(items[i..]) == BodyBehind(items[j + 1..])
    decreases j - i
  {
    assert items[i..][1..] == items[i + 1..];
    if i < j {
      StackSharesBody(items, i + 1, j);
    }
  }

  function BodyOf(h: Hotstring): Template { Template(h.job.commands, h.job.text, h.job.tail) }

  /** On any file: the hotstrings are the accepted trigger lines, one for each and in their order; each has the
      replacement of its line or the body behind it; and the triggers of a stack have the same body. */
  lemma ScriptHotstrings(lines: seq<string>, layout: Trigger.Layout)
    requires Script(lines, layout).Ok?
    ensures var items, hs := Scan(lines, 0, false, layout).value, Script(lines, layout).value;
            && |hs| == |TriggersOf(items)| && InOrder(TriggersOf(items), lines, 0, layout)
            && (forall i :: 0 <= i < |items| && IsTriggerItem(items[i]) ==>
                  Place(items, i) < |hs| && hs[Place(items, i)] == Meant(items, i))
            && (forall i, j :: SameStack(items, i, j) ==>
                  Place(items, i) < |hs| && Place(items, j) < |hs|
                  && BodyOf(hs[Place(items, i)]) == BodyOf(hs[Place(items, j)]))
  {
    hide Scan, InOrder, Place, Meant, TriggersOf, Resolve, BodyBehind;
    var items, hs := Scan(lines, 0, false, layout).value, Script(lines, layout).value;
    OneForEachTrigger(items, 0);
    AcceptedInOrder(lines, 0, false, layout);
    forall i | 0 <= i < |items| && IsTriggerItem(items[i])
      ensures Place(items, i) < |hs| && hs[Place(items, i)] == Meant(items, i)
    {
      ResolvedAt(items, i);
    }
    forall i, j | SameStack(items, i, j)
      ensures Place(items, i) < |hs| && Place(items, j) < |hs|
           && BodyOf(hs[Place(items, i)]) == BodyOf(hs[Place(items, j)])
    {
      ResolvedAt(items, i);
      ResolvedAt(items, j);
      SameBody(items, i, j);
    }
  }

  lemma SameBody(items: seq<Item>, i: nat, j: nat)
    requires SameStack(items, i, j)
    ensures BodyOf(Meant(items, i)) == BodyOf(Meant(items, j))
  {
    hide BodyBehind;
    if i < j {
      StackSharesBody(items, i + 1, j);
    }
  }

  // ---- the options of a trigger line -------------------------------------------------------------------------

  lemma {:induction false} FindPairBehind(s: string, rest: string)
    requires ':' !in s
    ensures FindPair(s + rest, ':', ':') == |s| + FindPair(rest, ':', ':')
  {
    if s == "" {
      assert s + rest == rest;
    } else {
      assert (s + rest)[0] == s[0] && (s + rest)[1..] == s[1..] + rest;
      FindPairBehind(s[1..], rest);
    }
  }

  function OptionLine(options: string, trigger: string, replacement: string): string {
    ":" + (options + (":" + (trigger + ("::" + replacement))))
  }

  lemma FirstPair(options: string, trigger: string, replacement: string)
    requires ':' !in options && ':' !in trigger
    ensures FindPair(OptionLine(options, trigger, replacement), ':', ':')
         == if options == "" then 0 else if trigger == "" then |options| + 1 else |options| + |trigger| + 2
  {
    var behind := ":" + (trigger + ("::" + replacement));
    var line := OptionLine(options, trigger, replacement);
    assert line[1..] == options + behind && behind[1..] == trigger + ("::" + replacement);
    FindPairBehind(options, behind);
    FindPairBehind(trigger, "::" + replacement);
    if options != "" {
      assert line[1] == options[0];
    }
    if trigger != "" {
      assert behind[1] == trigger[0];
    }
  }

  lemma {:induction false} LastColon(front: string, name: string)
    requires ':' !in name
    ensures RFind(front + (":" + name), ':') == |front|
  {
    var s := front + (":" + name);
    if name == "" {
      assert s[|s| - 1] == ':';
    } else {
      assert s[|s| - 1] == name[|name| - 1];
      assert s[..|s| - 1] == front + (":" + name[..|name| - 1]);
      LastColon(front, name[..|name| - 1]);
    }
  }

  /** A line `:options:trigger::replacement` is split as written if and only if both the options and the
      trigger are there; `::trigger::replacement` is not. */
  lemma OptionsAreNeeded(options: string, trigger: string, replacement: string)
    requires ':' !in options && ':' !in trigger
    ensures SplitTrigger(OptionLine(options, trigger, replacement)) == Ok((trigger, replacement))
       <==> options != "" && trigger != ""
  {
    hide RFind, FindPair, OptionLine;
    var line := OptionLine(options, trigger, replacement);
    FirstPair(options, trigger, replacement);
    OptionLineParts(options, trigger, replacement);
    if options != "" {
      if trigger == "" {
        LastColon("", options);
      } else {
        LastColon(":" + options, trigger);
      }
    }
  }

  /** `::trigger::replacement` without another colon is read as the trigger `replacement` that stands for
      the whole of `trigger::replacement`. */
  lemma EmptyOptions(trigger: string, replacement: string)
    requires ':' !in trigger && ':' !in replacement
    ensures SplitTrigger(OptionLine("", trigger, replacement)) == Ok((replacement, trigger + ("::" + replacement)))
  {
    hide RFind, FindPair;
    var line := OptionLine("", trigger, replacement);
    FirstPair("", trigger, replacement);
    var front := "::" + (trigger + ":");
    assert line == front + (":" + replacement);
    LastColon(front, replacement);
    assert line[|front| + 1..] == replacement && line[2..] == trigger + ("::" + replacement);
  }

  lemma OptionLineParts(options: string, trigger: string, replacement: string)
    ensures var line, sep := OptionLine(options, trigger, replacement), |options| + |trigger| + 2;
            && |line| == sep + 2 + |replacement| && line[0] == ':'
            && line[..|options| + 1] == "" + (":" + options)
            && line[..sep] == ":" + options + (":" + trigger)
            && line[|options| + 2..sep] == trigger && line[sep + 2..] == replacement
  {
  }
}
