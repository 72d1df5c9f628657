/** What the lines of a script file are, said of their text, and what bodies and assignments mean
    (src/AhkParser.cpp:155-484). */
module FileText {
  import opened Wrappers
  import opened Text
  import opened ScriptLines
  import ScriptLayout
  import ScriptParser
  import ScriptPrinter
  import ScriptRoundTrip
  import opened ScriptIgnored
  import opened Matching
  import Replacement
  import opened FileScan
  import opened FileSections
  import HotkeyLines
  import Interpolation
  import Trigger

  // ---- kinds of lines ---------------------------------------------------------------------------

  /** The commands that end the search for a trigger; `showmarkdown` is none of them. */
  const ACTION_WORDS: set<string> := {
    "sendinput", "sendmessage", "random", "return", "cancel", "sleep", "pause", "input", "else", "if"
  }

  /** An action: a lone brace, or one of the words in any letter case. */
  ghost predicate Acts(t: string) { t == "{" || t == "}" || exists w :: w in ACTION_WORDS && HasWord(Lower(t), w) }

  lemma BoundaryIsLower(c: char)
    ensures IsBoundary(LowerChar(c)) <==> IsBoundary(c)
  {
  }

  lemma LowerFront(t: string, n: nat)
    requires n <= |t|
    ensures Lower(t[0..n]) == Lower(t)[..n]
  {
    hide Lower;
    assert forall i :: 0 <= i < n ==> Lower(t[0..n])[i] == Lower(t)[i];
  }

  lemma CommandIsWord(t: string, w: string)
    ensures CommandAt(t, 0, w) <==> HasWord(Lower(t), w)
  {
    hide Lower;
    if |w| <= |t| {
      LowerFront(t, |w|);
    }
    if |w| < |t| {
      assert t[0 + |w|..][0] == t[|w|] && Lower(t)[|w|] == LowerChar(t[|w|]);
      BoundaryIsLower(t[|w|]);
    }
  }

  lemma SameWords(w: string)
    ensures w in LINE_COMMANDS <==> w in ACTION_WORDS
  {
    var c := LINE_COMMANDS;
    assert c[0] == "sendinput" && c[1] == "sleep" && c[2] == "random" && c[3] == "cancel" && c[4] == "pause";
    assert c[5] == "if" && c[6] == "else" && c[7] == "sendmessage" && c[8] == "input" && c[9] == "return";
  }

  lemma ActionTextMeans(t: string)
    ensures IsActionText(t) <==> Acts(t)
  {
    hide CommandAt, HasWord, Lower, LINE_COMMANDS, ACTION_WORDS;
    forall w: string ensures (w in LINE_COMMANDS <==> w in ACTION_WORDS) && (CommandAt(t, 0, w) <==> HasWord(Lower(t), w)) {
      SameWords(w);
      CommandIsWord(t, w);
    }
    var found := FirstCommand(t, LINE_COMMANDS);
    if found.Some? {
      assert found.value in ACTION_WORDS && HasWord(Lower(t), found.value);
    }
  }

  lemma ReturnMeans(t: string)
    ensures IsReturn(t) <==> HasWord(Lower(t), "return")
  {
    CommandIsWord(t, "return");
  }

  /** What opens and closes a comment over several lines, and what makes a line a comment of its own. */
  lemma {:induction false} PairMeans(t: string, a: char, b: char)
    ensures HasPair(t, a, b) <==> exists front, back :: t == front + ([a] + ([b] + back))
  {
    var i := FindPair(t, a, b);
    if i < |t| {
      assert t == t[..i] + ([a] + ([b] + t[i + 2..]));
    }
    if exists front, back :: t == front + ([a] + ([b] + back)) {
      var front, back :| t == front + ([a] + ([b] + back));
      PairFound(front, a, b, back);
    }
  }

  lemma {:induction false} PairFound(front: string, a: char, b: char, back: string)
    ensures HasPair(front + ([a] + ([b] + back)), a, b)
  {
    var t := front + ([a] + ([b] + back));
    if front != "" {
      assert t[1..] == front[1..] + ([a] + ([b] + back));
      PairFound(front[1..], a, b, back);
    } else {
      assert t[0] == a && t[1] == b;
    }
  }

  /** A comment over several lines opens with the two bytes in front of a line; a line of its own starts with `;` or `#`. */
  lemma CommentMeans(t: string)
    ensures OpensComment(t) <==> "/*" <= t
    ensures IsCommentOrEmpty(t) <==> Trim(t) == "" || ";" <= Trim(t) || "#" <= Trim(t)
  {
    hide Trim;
  }

  /** A line is a trigger line exactly when it is no action and has a `::`, and either starts with a colon or
      has a name without braces and commas in front of its first `::`. */
  lemma TriggerLineMeans(line: string)
    ensures var t := Trim(line);
            LooksLikeTrigger(line) <==>
              t != "" && !Acts(t)
              && exists a, b :: HotkeyLines.NoPair(a) && t == a + ("::" + b)
                                && (t[0] == ':' || (Trim(a) != "" && forall c :: c in Trim(a) ==> c !in "{},"))
  {
    hide Acts, IsActionText, Trim, FindPair;
    var t := Trim(line);
    ActionTextMeans(t);
    var sep := FindPair(t, ':', ':');
    if sep < |t| {
      var a, b := t[..sep], t[sep + 2..];
      FirstPairIsFirst(t);
      assert t == a + ("::" + b);
      assert Trim(t[..sep]) == Trim(a);
    }
    forall a, b | HotkeyLines.NoPair(a) && t == a + ("::" + b)
      ensures sep == |a| && t[..sep] == a && t[sep + 2..] == b
    {
      HotkeyLines.PairBehind(a, "::" + b);
      HotkeyLines.PairAtStart(b);
    }
  }

  lemma {:induction false} FirstPairIsFirst(t: string)
    requires FindPair(t, ':', ':') < |t|
    ensures HotkeyLines.NoPair(t[..FindPair(t, ':', ':')])
  {
    var sep := FindPair(t, ':', ':');
    if sep > 0 {
      FirstPairIsFirst(t[1..]);
      var a := t[..sep];
      assert t[1..][..sep - 1] == a[1..];
      forall i, j | 0 <= i && j == i + 1 < |a|
        ensures a[i] != ':' || a[j] != ':'
      {
        if i > 0 {
          assert a[i] == a[1..][i - 1] && a[j] == a[1..][j - 1];
        }
      }
    }
  }

  // ---- assignments ----------------------------------------------------------------------------------

  /** The text `name = value`, with or without blanks around the sign. */
  ghost predicate Assigns(t: string, name: string, value: string) {
    && name != "" && '=' !in name && All(name, c => !IsSpace(c)) && Trimmed(value)
    && exists gap1, gap2 :: All(gap1, IsBlank) && All(gap2, IsBlank) && t == name + (gap1 + ("=" + (gap2 + value)))
  }

  /** Such a text is an assignment exactly when it has no `::`, and it gives the name the value. */
  lemma AssignmentReads(t: string, name: string, value: string)
    requires Assigns(t, name, value)
    ensures IsAssignment(t) <==> !HasPair(t, ':', ':')
    ensures AssignmentOf(t) == Global(name, value)
  {
    hide Trim, HasPair, Find, IsVariableName, Trimmed, IsSpace;
    var gap1, gap2 :| All(gap1, IsBlank) && All(gap2, IsBlank) && t == name + (gap1 + ("=" + (gap2 + value)));
    SignFound(name, gap1, gap2 + value);
    AroundSign(name, gap1, gap2, value);
    NameIsVariable(name);
  }

  lemma SignFound(name: string, gap1: string, rest: string)
    requires '=' !in name && All(gap1, IsBlank)
    ensures var t, n := name + (gap1 + ("=" + rest)), |name| + |gap1|;
            n < |t| && Find(t, '=') == n && t[..n] == name + gap1 && t[n + 1..] == rest
  {
    hide Find;
    var t, n := name + (gap1 + ("=" + rest)), |name| + |gap1|;
    assert t[..n] == name + gap1 && t[n] == '=' && t[n + 1..] == rest;
    FindAt(t, '=', n);
  }

  lemma AroundSign(name: string, gap1: string, gap2: string, value: string)
    requires All(name, c => !IsSpace(c)) && Trimmed(value) && All(gap1, IsBlank) && All(gap2, IsBlank)
    ensures Trim(name + gap1) == name && Trim(gap2 + value) == value
  {
    hide Trim, Trimmed;
    ScriptLayout.BlankIsTrailing(gap1);
    NameIsTrimmed(name);
    TrimDecorated("", name, gap1);
    assert "" + name + gap1 == name + gap1;
    TrimDecorated(gap2, value, "");
    assert gap2 + value + "" == gap2 + value;
  }

  lemma NameIsVariable(name: string)
    requires name != "" && All(name, c => !IsSpace(c))
    ensures IsVariableName(name)
  {
    hide Run;
    RunAppend(name, "", c => !IsSpace(c));
    assert name + "" == name;
  }

  lemma NameIsTrimmed(name: string)
    requires All(name, c => !IsSpace(c))
    ensures Trimmed(name)
  {
  }

  /** The line is an assignment of the file exactly when it has no `::` and is no comment. */
  lemma AssignmentLine(line: string, name: string, value: string)
    requires Assigns(Trim(line), name, value)
    ensures IsAssignmentLine(line) <==>
              !HasPair(Trim(line), ':', ':') && name[0] != ';' && name[0] != '#' && !OpensComment(Trim(line))
    ensures SectionGlobals(FileSections.Assignment(line), map[]) == map[name := value]
  {
    hide IsAssignment, AssignmentOf, LooksLikeTrigger, OpensComment, HasPair;
    var t := Trim(line);
    AssignmentReads(t, name, value);
    assert t[0] == name[0];
    TrimIsTrimmed(line);
    TrimOfTrimmed(t);
  }

  /** No assignment of the sections is to the name. */
  ghost predicate Unassigned(sections: seq<Section>, name: string) {
    forall i :: 0 <= i < |sections| && sections[i].Assignment? ==> AssignmentOf(Trim(sections[i].line)).name != name
  }

  lemma {:induction false} GlobalsAppend(a: seq<Section>, b: seq<Section>, globals: map<string, string>)
    ensures FileGlobals(a + b, globals) == FileGlobals(b, FileGlobals(a, globals))
    decreases |a|
  {
    hide SectionGlobals;
    if a == [] {
      assert a + b == b;
    } else {
      assert (a + b)[0] == a[0] && (a + b)[1..] == a[1..] + b;
      GlobalsAppend(a[1..], b, SectionGlobals(a[0], globals));
    }
  }

  lemma {:induction false} UnassignedKeeps(sections: seq<Section>, name: string, globals: map<string, string>)
    requires Unassigned(sections, name) && name in globals
    ensures name in FileGlobals(sections, globals) && FileGlobals(sections, globals)[name] == globals[name]
    decreases |sections|
  {
    hide AssignmentOf, Trim;
    if sections != [] {
      assert Unassigned(sections[1..], name);
      UnassignedKeeps(sections[1..], name, SectionGlobals(sections[0], globals));
    }
  }

  /** In a file the last assignment `name = value` decides what `%name%` is filled in with. */
  lemma GlobalIsFilledIn(before: seq<Section>, line: string, behind: seq<Section>, layout: Trigger.Layout, name: string,
                         value: string, k: nat, clock: Interpolation.Clock)
    requires IsFile(before + ([FileSections.Assignment(line)] + behind), layout)
    requires Assigns(Trim(line), name, value) && Unassigned(behind, name)
    requires All(name, Interpolation.IsNameChar) && !("A_" <= name)
    ensures var globals := ScriptGlobals(FileLines(before + ([FileSections.Assignment(line)] + behind)), layout);
            Interpolation.Substitute("%" + (name + "%"), k, globals, clock) == value
  {
    hide IsFile, Script, ScriptGlobals, FileLines, FileMeaning, FileGlobals, AssignmentOf, Trim, Interpolation.Substitute,
         Unassigned, Assigns;
    var here := FileSections.Assignment(line);
    var sections := before + ([here] + behind);
    FileMeansSections(sections, layout);
    GlobalsAppend(before, [here] + behind, map[]);
    var g := FileGlobals(before, map[]);
    GlobalsFirst(here, behind, g);
    AssignmentReads(Trim(line), name, value);
    UnassignedKeeps(behind, name, g[name := value]);
    assert name != "" by { AssignsName(Trim(line), name, value); }
    Interpolation.StoredValue(name, k, FileGlobals(sections, map[]), clock);
  }

  lemma AssignsName(t: string, name: string, value: string)
    requires Assigns(t, name, value)
    ensures name != ""
  {
  }

  lemma GlobalsFirst(s: Section, behind: seq<Section>, globals: map<string, string>)
    ensures FileGlobals([s] + behind, globals) == FileGlobals(behind, SectionGlobals(s, globals))
  {
    assert ([s] + behind)[1..] == behind;
  }

  // ---- bodies -----------------------------------------------------------------------------------------

  /** The lines of the file that the raw lines of a block are. */
  function BodyLines(rs: seq<ScriptLayout.RawLine>): (lines: seq<string>)
    ensures |lines| == |rs|
  {
    if rs == [] then [] else [ScriptLayout.LineText(rs[0])] + BodyLines(rs[1..])
  }

  lemma {:induction false} JoinedTail(rs: seq<ScriptLayout.RawLine>)
    ensures JoinTail(BodyLines(rs)) + "\n" == "\n" + ScriptLayout.BlockText(rs)
  {
    hide ScriptLayout.LineText;
    if rs != [] {
      JoinedTail(rs[1..]);
      var line := ScriptLayout.LineText(rs[0]);
      assert BodyLines(rs)[1..] == BodyLines(rs[1..]);
      assert "\n" + line + JoinTail(BodyLines(rs[1..])) + "\n" == "\n" + (line + (JoinTail(BodyLines(rs[1..])) + "\n"));
    }
  }

  lemma JoinIsBlock(rs: seq<ScriptLayout.RawLine>)
    ensures if rs == [] then Join(BodyLines(rs)) == ScriptLayout.BlockText(rs) == ""
            else Join(BodyLines(rs)) + "\n" == ScriptLayout.BlockText(rs)
  {
    hide ScriptLayout.LineText;
    if rs != [] {
      JoinedTail(rs[1..]);
      var line := ScriptLayout.LineText(rs[0]);
      assert BodyLines(rs)[1..] == BodyLines(rs[1..]);
      assert line + JoinTail(BodyLines(rs[1..])) + "\n" == line + (JoinTail(BodyLines(rs[1..])) + "\n");
    }
  }

  lemma {:induction false} DropBefore(s: string, rest: string)
    ensures ScriptLayout.DropReturns(s + rest) == ScriptLayout.DropReturns(s) + ScriptLayout.DropReturns(rest)
  {
    if s == "" {
      assert s + rest == rest;
    } else {
      assert (s + rest)[0] == s[0] && (s + rest)[1..] == s[1..] + rest;
      DropBefore(s[1..], rest);
    }
  }

  /** A body whose lines stand for a command tree is that tree, when a `return` ends it or one of its lines
      is an action; the lines may be indented, commented and typed in any letter case. */
  lemma ActionBody(rs: seq<ScriptLayout.RawLine>, ns: seq<ScriptRoundTrip.Node>, sawReturn: bool)
    requires ScriptLayout.ValidBlock(rs) && ScriptRoundTrip.ValidNodes(ns)
    requires ScriptLayout.BlockMeaning(rs) == ScriptRoundTrip.LinesOnto(ns, [])
    requires sawReturn || exists i :: 0 <= i < |rs| && Acts(Trim(ScriptLayout.LineText(rs[i])))
    ensures ReadBody(BodyLines(rs), sawReturn) == Ok(Template(ScriptRoundTrip.Erase(ns), "", []))
  {
    hide ScriptLayout.BlockText, ScriptLayout.BlockMeaning, ScriptRoundTrip.LinesOnto, ScriptRoundTrip.Erase, Join,
         ScriptParser.ParseActionBlock, Acts, Trim, IsActionText, ScriptLayout.LineText, ScriptLayout.DropReturns,
         ScriptRoundTrip.ValidNodes, ScriptLayout.ValidBlock;
    var text := Join(BodyLines(rs));
    JoinIsBlock(rs);
    ScriptPrinter.NoReturns(rs);
    DropBefore(text, "\n");
    OneBreak();
    ScriptRoundTrip.TextRoundTrip(text, rs, ns);
    if !sawReturn {
      var i :| 0 <= i < |rs| && Acts(Trim(ScriptLayout.LineText(rs[i])));
      ActingLine(rs, i);
    }
  }

  lemma OneBreak()
    ensures ScriptLayout.DropReturns("\n") == "\n"
  {
  }

  lemma {:induction false} BodyLineAt(rs: seq<ScriptLayout.RawLine>, i: nat)
    requires i < |rs|
    ensures BodyLines(rs)[i] == ScriptLayout.LineText(rs[i])
  {
    hide ScriptLayout.LineText;
    if i > 0 {
      BodyLineAt(rs[1..], i - 1);
    }
  }

  lemma ActingLine(rs: seq<ScriptLayout.RawLine>, i: nat)
    requires i < |rs| && Acts(Trim(ScriptLayout.LineText(rs[i])))
    ensures AnyAction(BodyLines(rs))
  {
    hide Acts, Trim, IsActionText, ScriptLayout.LineText;
    var t := Trim(ScriptLayout.LineText(rs[i]));
    BodyLineAt(rs, i);
    ActionTextMeans(t);
    assert t != "" by { NothingActs(t); }
    assert LooksLikeAction(BodyLines(rs)[i]);
  }

  lemma NothingActs(t: string)
    requires Acts(t)
    ensures t != ""
  {
    assert Lower("") == "";
  }

  /** Any other body is a text with tail keys, line breaks included. */
  lemma TextBody(lines: seq<string>)
    requires forall i :: 0 <= i < |lines| ==> !Acts(Trim(lines[i]))
    ensures ReadBody(lines, false)
         == var r := Replacement.Read(Join(lines));
            if r.Err? then Err else Ok(Template([], r.value.text, r.value.tail))
  {
    hide Acts, Trim, IsActionText, Replacement.Read, Join;
    forall i | 0 <= i < |lines|
      ensures !LooksLikeAction(lines[i])
    {
      ActionTextMeans(Trim(lines[i]));
    }
  }

  // ---- where a body ends ----------------------------------------------------------------------------------

  /** The lines of a body by their braces: what stands between lone braces may be anything. */
  datatype Nested = Line(text: string) | Group(open: string, inner: seq<Nested>, close: string)

  ghost predicate Brace(line: string, c: char) { Trim(line) == [c] }

  /** Outside of all braces there is neither a `return` nor a trigger line. */
  ghost predicate WellNested(ns: seq<Nested>, outside: bool)
    decreases ns
  {
    ns == [] || (WellNestedOne(ns[0], outside) && WellNested(ns[1..], outside))
  }

  ghost predicate WellNestedOne(n: Nested, outside: bool)
    decreases n
  {
    match n
    case Line(text) =>
      !Brace(text, '{') && !Brace(text, '}')
      && (outside ==> !HasWord(Lower(Trim(text)), "return") && !LooksLikeTrigger(Trim(text)))
    case Group(open, inner, close) => Brace(open, '{') && Brace(close, '}') && WellNested(inner, false)
  }

  function NestedOnto(ns: seq<Nested>, rest: seq<string>): seq<string>
    decreases ns
  {
    if ns == [] then rest
    else
      match ns[0]
      case Line(text) => [text] + NestedOnto(ns[1..], rest)
      case Group(open, inner, close) => [open] + NestedOnto(inner, [close] + NestedOnto(ns[1..], rest))
  }

  lemma DepthStep(line: string, rest: seq<string>, depth: nat)
    ensures DepthThrough([line] + rest, depth)
         == var d := if Brace(line, '{') then depth + 1 else if Brace(line, '}') && depth > 0 then depth - 1 else depth;
            if d == 0 && (HasWord(Lower(Trim(line)), "return") || LooksLikeTrigger(Trim(line))) then None
            else DepthThrough(rest, d)
  {
    hide IsReturn, HasWord, Lower, Trim, LooksLikeTrigger;
    ReturnMeans(Trim(line));
    assert ([line] + rest)[1..] == rest;
  }

  lemma CloseBraceIsPlain()
    ensures !HasWord(Lower("}"), "return") && !LooksLikeTrigger("}")
  {
    TrimOfTrimmed("}");
  }

  /** Behind well-nested lines the depth is what it was before them. */
  lemma {:induction false} NestedDepth(ns: seq<Nested>, rest: seq<string>, depth: nat)
    requires WellNested(ns, depth == 0)
    ensures DepthThrough(NestedOnto(ns, rest), depth) == DepthThrough(rest, depth)
    decreases ns
  {
    hide DepthThrough, HasWord, Lower, LooksLikeTrigger, Trim;
    if ns != [] {
      var later := NestedOnto(ns[1..], rest);
      NestedDepth(ns[1..], rest, depth);
      match ns[0]
      case Line(text) => DepthStep(text, later, depth);
      case Group(open, inner, close) =>
        DepthStep(open, NestedOnto(inner, [close] + later), depth);
        NestedDepth(inner, [close] + later, depth + 1);
        DepthStep(close, later, depth + 1);
        CloseBraceIsPlain();
    }
  }

  /** A body of well-nested lines is collected as a whole, up to the `return` that ends it. */
  lemma NestedBody(ns: seq<Nested>, ending: string)
    requires WellNested(ns, true) && HasWord(Lower(Trim(ending)), "return")
    requires ReadBody(NestedOnto(ns, []), true).Ok?
    ensures IsBody(NestedOnto(ns, []), Some(ending))
  {
    hide ReadBody, HasWord, Lower, Trim, LooksLikeTrigger, IsReturn;
    NestedDepth(ns, [], 0);
    ReturnMeans(Trim(ending));
    assert DepthThrough([], 0) == Some(0);
  }
}
