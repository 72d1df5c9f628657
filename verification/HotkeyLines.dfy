/** Lines `Key::replacement` and `Mod & Key::replacement`, and which triggers are erased
    (src/AhkParser.cpp:20-153, src/Daemon.cpp:267-283). */
module HotkeyLines {
  import opened Wrappers
  import opened Text
  import opened Keys
  import opened Matching
  import opened Macro
  import opened MacroPlain
  import MacroSafety
  import opened FileScan
  import opened FileSections
  import Replacement
  import Trigger

  // ---- how a line is split ----------------------------------------------------------------

  /** No two colons stand side by side. */
  ghost predicate NoDouble(a: string) { forall i, j :: 0 <= i && j == i + 1 < |a| ==> a[i] != ':' || a[j] != ':' }

  /** No `::` starts in the text, wherever it stands in front of another `::`. */
  ghost predicate NoPair(a: string) { (a != "" ==> a[|a| - 1] != ':') && NoDouble(a) }

  lemma {:induction false} PairBehind(a: string, rest: string)
    requires NoPair(a)
    ensures FindPair(a + rest, ':', ':') == |a| + FindPair(rest, ':', ':')
  {
    if a == "" {
      assert a + rest == rest;
    } else {
      var s := a + rest;
      assert s[0] == a[0] && s[1..] == a[1..] + rest;
      if a[0] == ':' {
        assert s[1] == a[1];
      }
      assert NoPair(a[1..]) by {
        forall i, j | 0 <= i && j == i + 1 < |a[1..]|
          ensures a[1..][i] != ':' || a[1..][j] != ':'
        {
          assert a[1..][i] == a[i + 1] && a[1..][j] == a[j + 1];
        }
      }
      PairBehind(a[1..], rest);
    }
  }

  /** A line that does not start with a colon is split at its first `::`. */
  lemma SplitHotkey(a: string, b: string)
    requires a != "" && a[0] != ':' && NoPair(a)
    ensures SplitTrigger(a + ("::" + b)) == Ok((a, b))
  {
    hide FindPair, RFind;
    var line := a + ("::" + b);
    PairBehind(a, "::" + b);
    PairAtStart(b);
    assert line[..|a|] == a && line[|a| + 2..] == b && line[0] == a[0];
  }

  lemma PairAtStart(b: string)
    ensures FindPair("::" + b, ':', ':') == 0
  {
  }

  // ---- hotkeys as they are written -----------------------------------------------------------

  /** A key by its name, or by the characters that it and perhaps others type. */
  datatype KeyText = Named(name: string) | Typed(chars: seq<string>) {
    ghost predicate Valid(layout: Trigger.Layout) {
      match this
      case Named(name) => SpecialKey(name).Ok?
      case Typed(chars) => chars != [] && Trigger.AllMapped(chars, layout)
    }

    function Text(): string { if Named? then name else Trigger.Concat(chars) }

    ghost function Codes(layout: Trigger.Layout): seq<int>
      requires Valid(layout)
    {
      match this
      case Named(name) => [SpecialKey(name).value]
      case Typed(chars) => Trigger.LayoutKeys(chars, layout)
    }
  }

  datatype Hotkey =
    | Alone(key: KeyText, trail: string)
    | With(modifier: string, gap1: string, gap2: string, key: KeyText, trail: string)
  {
    ghost predicate Valid(layout: Trigger.Layout) {
      && key.Valid(layout) && All(trail, IsBlank)
      && (With? ==> modifier != "" && Trimmed(modifier) && '&' !in modifier && modifier[0] != ':'
                    && NoDouble(modifier) && All(gap1, IsBlank) && All(gap2, IsBlank))
    }

    function Text(): string {
      match this
      case Alone(key, _) => key.Text()
      case With(modifier, gap1, gap2, key, _) => modifier + gap1 + ("&" + (gap2 + key.Text()))
    }

    /** The modifier asked for; a name that is none asks for nothing. */
    ghost function Modifiers(): seq<int> {
      match this
      case Alone(_, _) => []
      case With(modifier, _, _, _, _) => if ModifierKey(modifier).Ok? then [ModifierKey(modifier).value] else []
    }

    function Line(replacement: string): string { Text() + trail + ("::" + replacement) }
  }

  /** No byte of a key text is a colon, an ampersand or white space. */
  lemma KeyBytes(k: KeyText, layout: Trigger.Layout)
    requires Trigger.ValidLayout(layout) && k.Valid(layout)
    ensures var t := k.Text();
            t != "" && ':' !in t && '&' !in t && Trimmed(t) && t[0] != ';' && t[0] != '#' && t[0] != '/'
  {
    hide SpecialKey, Trigger.IsTriggerByte;
    match k
    case Named(name) =>
      SpecialKeyNames(name);
    case Typed(chars) =>
      hide Trigger.IsLayoutChar;
      assert forall i :: 0 <= i < |chars| ==> Trigger.IsLayoutChar(chars[i]);
      Trigger.BytesOfChars(chars);
      Trigger.TriggerByteStartsNoWord();
      TriggerBytes();
      assert Trigger.IsLayoutChar(chars[0]);
      LayoutCharIsText(chars[0]);
  }

  lemma LayoutCharIsText(ch: string)
    requires Trigger.IsLayoutChar(ch)
    ensures ch != ""
  {
  }

  lemma TriggerBytes()
    ensures forall c :: Trigger.IsTriggerByte(c) ==> !IsTrailing(c) && c !in "&:;#/"
  {
  }

  lemma KeyIsRead(k: KeyText, layout: Trigger.Layout)
    requires Trigger.ValidLayout(layout) && k.Valid(layout)
    ensures Trigger.ParseTrigger(k.Text(), layout) == Ok((k.Codes(layout), []))
  {
    match k
    case Named(name) =>
      hide SpecialKey, IsKeyName;
      SpecialKeyNames(name);
      Trigger.WordIsTrimmed(name);
    case Typed(chars) => Trigger.TriggerOfChars(chars, layout);
  }

  lemma HotkeyText(h: Hotkey, layout: Trigger.Layout)
    requires Trigger.ValidLayout(layout) && h.Valid(layout)
    ensures var t := h.Text(); t != "" && t[0] != ':' && NoPair(t) && Trimmed(t)
  {
    hide SpecialKey, Trigger.AllMapped, KeyText.Text;
    KeyBytes(h.key, layout);
    var t, k := h.Text(), h.key.Text();
    assert t[|t| - 1] == k[|k| - 1];
    assert t[0] == if h.Alone? then k[0] else h.modifier[0];
    forall i, j | 0 <= i && j == i + 1 < |t|
      ensures t[i] != ':' || t[j] != ':'
    {
      if h.With? && j < |h.modifier| {
        assert t[i] == h.modifier[i] && t[j] == h.modifier[j];
      } else {
        BehindModifier(h, layout, j);
      }
    }
  }

  lemma BehindModifier(h: Hotkey, layout: Trigger.Layout, j: nat)
    requires Trigger.ValidLayout(layout) && h.Valid(layout) && j < |h.Text()| && (h.With? ==> |h.modifier| <= j)
    ensures h.Text()[j] != ':'
  {
    hide SpecialKey, Trigger.AllMapped, KeyText.Text;
    KeyBytes(h.key, layout);
  }

  lemma HotkeyIsRead(h: Hotkey, layout: Trigger.Layout)
    requires Trigger.ValidLayout(layout) && h.Valid(layout)
    ensures Trigger.ParseTrigger(h.Text(), layout) == Ok((h.key.Codes(layout), h.Modifiers()))
  {
    hide SpecialKey, ModifierKey, Trigger.ParseTrigger, KeyText.Codes, KeyText.Text, Trigger.AllMapped;
    KeyBytes(h.key, layout);
    KeyIsRead(h.key, layout);
    if h.With? {
      TrimDecorated("", h.modifier, h.gap1);
      assert "" + h.modifier + h.gap1 == h.modifier + h.gap1;
      Trigger.ModifierBefore(h.modifier + h.gap1, h.gap2, h.key.Text(), layout);
    }
  }

  /** A hotkey line has its key and its modifier; its replacement is what stands behind the first `::`,
      and it never erases anything. */
  lemma LineOfHotkey(h: Hotkey, replacement: string, layout: Trigger.Layout)
    requires Trigger.ValidLayout(layout) && h.Valid(layout)
    ensures var r, body := ParseLine(h.Line(replacement), layout), Replacement.Read(replacement);
            && (r.Ok? <==> body.Ok?)
            && (r.Ok? ==> r.value.modifiers == h.Modifiers() && r.value.job
                          == Job(false, h.key.Codes(layout), [], body.value.text, body.value.tail))
  {
    hide SplitTrigger, Trigger.ParseTrigger, Replacement.Read, Hotkey.Text, Hotkey.Modifiers, KeyText.Codes, Hotkey.Valid;
    HotkeyText(h, layout);
    HotkeyIsRead(h, layout);
    BlankTrail(h, layout);
    assert NoPair(h.Text() + h.trail) by { TrailKeepsPairs(h.Text(), h.trail); }
    var a := h.Text() + h.trail;
    assert a[0] == h.Text()[0];
    SplitHotkey(a, replacement);
    TrimDecorated("", h.Text(), h.trail);
    assert "" + h.Text() + h.trail == a;
    assert h.Line(replacement)[0] == a[0];
  }

  lemma TrailKeepsPairs(t: string, trail: string)
    requires NoPair(t) && ':' !in trail
    ensures NoPair(t + trail)
  {
    var a := t + trail;
    assert a != "" ==> a[|a| - 1] == if trail != "" then trail[|trail| - 1] else t[|t| - 1];
    forall i, j | 0 <= i && j == i + 1 < |a|
      ensures a[i] != ':' || a[j] != ':'
    {
      if j < |t| {
        assert a[i] == t[i] && a[j] == t[j];
      } else {
        assert a[j] == trail[j - |t|];
      }
    }
  }

  lemma BlankTrail(h: Hotkey, layout: Trigger.Layout)
    requires h.Valid(layout)
    ensures All(h.trail, IsTrailing) && ':' !in h.trail
  {
  }

  // ---- what a hotkey does ---------------------------------------------------------------------

  /** Unstopped, a job that erases nothing is its commands, executed plainly, from the state it starts in. */
  lemma RunsItsCommands(e: Env, s: Start, job: Job)
    requires NeverStops(e) && !job.eraseTrigger && job.commands != []
    ensures Core(ExecuteMacro(e, Fresh(s), job)) == ExecuteAllPlain(e, Core(Fresh(s)), job.commands)
  {
    hide Effects, ExecuteAll, ExecuteAllPlain;
    CoreOfLoad(e, Fresh(s));
    CoreFields(Fresh(s));
    ExecuteAllIsPlain(e, AfterLoad(e, Fresh(s)), job.commands);
  }

  /** Unstopped, a hotkey whose body is a list of commands starts with the first of them, also when devices
      fail; one whose body is a text pastes it and sends the tail keys.  No backspace comes first. */
  lemma HotkeyRuns(h: Hotkey, replacement: string, layout: Trigger.Layout, body: Template, e: Env, s: Start)
    requires Trigger.ValidLayout(layout) && h.Valid(layout) && NeverStops(e)
    requires Replacement.Read(replacement).Ok?
    ensures ParseLine(h.Line(replacement), layout).Ok?
    ensures var job := WithBody(ParseLine(h.Line(replacement), layout).value, body).job;
            var last := Core(ExecuteMacro(e, Fresh(s), job));
            if body.commands != [] then last == ExecuteAllPlain(e, Core(Fresh(s)), body.commands)
            else MacroSafety.Works(e) ==>
              last.effects == if body.text == "" then [] else [Paste(body.text)] + TailEffects(body.tail)
  {
    hide ParseLine, Hotkey.Line, Effects, ExecuteMacro, ExecuteAllPlain, TailEffects, MacroSafety.Works, Replacement.Read,
         Hotkey.Modifiers, KeyText.Codes, Hotkey.Valid;
    LineOfHotkey(h, replacement, layout);
    var job := WithBody(ParseLine(h.Line(replacement), layout).value, body).job;
    if body.commands != [] {
      RunsItsCommands(e, s, job);
    } else if MacroSafety.Works(e) {
      UnstoppedMacro(e, s, job);
      NoTaps();
      var own := if body.text == "" then [] else [Paste(body.text)] + TailEffects(body.tail);
      assert [] + own == own;
    }
  }

  /** In every script that is accepted, the k-th hotstring erases its trigger if and only if the k-th trigger
      line starts with a colon. */
  lemma OnlyColonLinesErase(lines: seq<string>, layout: Trigger.Layout, k: nat)
    requires Script(lines, layout).Ok? && k < |Script(lines, layout).value|
    ensures var triggers := TriggersOf(Scan(lines, 0, false, layout).value);
            && k < |triggers| && IsTriggerItem(triggers[k]) && triggers[k].at < |lines| && Trim(lines[triggers[k].at]) != ""
            && (Script(lines, layout).value[k].job.eraseTrigger <==> Trim(lines[triggers[k].at])[0] == ':')
  {
    hide Scan, ParseLine, LooksLikeTrigger, Trim;
    var items := Scan(lines, 0, false, layout).value;
    OneForEachTrigger(items, k);
    AcceptedInOrder(lines, 0, false, layout);
    var line := Trim(lines[TriggersOf(items)[k].at - 0]);
    assert LooksLikeTrigger(line);
    TriggerIsText(line);
    ErasesIfColon(line, layout);
  }

  lemma TriggerIsText(line: string)
    requires LooksLikeTrigger(line)
    ensures line != ""
  {
    TrimOfTrimmed("");
  }

  lemma ErasesIfColon(line: string, layout: Trigger.Layout)
    requires ParseLine(line, layout).Ok?
    ensures ParseLine(line, layout).value.job.eraseTrigger <==> line != "" && line[0] == ':'
  {
    hide SplitTrigger, Trigger.ParseTrigger, Replacement.Read;
  }
}
