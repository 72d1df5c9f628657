/** The virtual keyboard and the clipboard pipeline (src/UinputKeyboard.cpp:93-135,
    src/Clipboard.cpp:74-100). */
module Desktop {
  import opened Keys
  import opened Macro
  import MacroSafety

  /** What the rest of the system observes, in order: key events, their reports, clipboard writes. */
  datatype Event = KeyDown(code: int) | KeyUp(code: int) | Report | Clip(text: string)

  function TapEvents(code: int): seq<Event> { [KeyDown(code), Report, KeyUp(code), Report] }

  function Downs(codes: seq<int>): (xs: seq<Event>)
    ensures |xs| == |codes|
  {
    if codes == [] then [] else [KeyDown(codes[0])] + Downs(codes[1..])
  }

  /** Released in reverse order. */
  function Ups(codes: seq<int>): (xs: seq<Event>)
    ensures |xs| == |codes|
  {
    if codes == [] then [] else Ups(codes[1..]) + [KeyUp(codes[0])]
  }

  function ComboEvents(modifiers: seq<int>, code: int): (xs: seq<Event>)
    ensures |xs| == 2 * |modifiers| + 4
  {
    Downs(modifiers) + [KeyDown(code), Report, KeyUp(code)] + Ups(modifiers) + [Report]
  }

  /** The combination of a paste. */
  function PasteCombo(): (xs: seq<Event>)
    ensures |xs| == COMBO_WRITES
  {
    ComboEvents([KEY_LEFTCTRL], KEY_V)
  }

  /** Save, set, paste, restore. */
  function PasteEvents(text: string, saved: string): seq<Event> {
    [Clip(text)] + PasteCombo() + [Clip(saved)]
  }

  /** What a failing device call leaves in the history: the writes before the one that fails, and the
      clipboard writes, of which the restoring one happens also when a key event fails. */
  function FailedEvents(e: Env, call: Effect, writes: nat, sets: nat, clip: string): seq<Event> {
    match call
    case Tap(code) => TapEvents(code)[..WriteRun(e.writeFails, writes, TAP_WRITES)]
    case Paste(text) =>
      if e.setFails(sets) then [Clip(e.torn(sets))]
      else
        [Clip(text)] + PasteCombo()[..WriteRun(e.writeFails, writes, COMBO_WRITES)]
        + [Clip(if e.setFails(sets + 1) then e.torn(sets + 1) else clip)]
    case _ => []
  }

  // ---- what a history leaves behind ----------------------------------------------------

  function HeldStep(x: Event, held: set<int>): set<int> {
    match x
    case KeyDown(c) => held + {c}
    case KeyUp(c) => held - {c}
    case _ => held
  }

  function Held(events: seq<Event>, held: set<int>): set<int> {
    if events == [] then held else Held(events[1..], HeldStep(events[0], held))
  }

  function ClipAfter(events: seq<Event>, clip: string): string {
    if events == [] then clip
    else ClipAfter(events[1..], if events[0].Clip? then events[0].text else clip)
  }

  lemma {:induction false} HeldAppend(a: seq<Event>, b: seq<Event>, held: set<int>)
    ensures Held(a + b, held) == Held(b, Held(a, held))
  {
    if a == [] {
      assert a + b == b;
    } else {
      assert (a + b)[0] == a[0] && (a + b)[1..] == a[1..] + b;
      HeldAppend(a[1..], b, HeldStep(a[0], held));
    }
  }

  lemma {:induction false} ClipAppend(a: seq<Event>, b: seq<Event>, clip: string)
    ensures ClipAfter(a + b, clip) == ClipAfter(b, ClipAfter(a, clip))
  {
    if a == [] {
      assert a + b == b;
    } else {
      assert (a + b)[0] == a[0] && (a + b)[1..] == a[1..] + b;
      ClipAppend(a[1..], b, if a[0].Clip? then a[0].text else clip);
    }
  }

  lemma HeldOne(x: Event, rest: seq<Event>, held: set<int>)
    ensures Held([x] + rest, held) == Held(rest, HeldStep(x, held))
    ensures forall clip :: ClipAfter([x] + rest, clip) == ClipAfter(rest, if x.Clip? then x.text else clip)
  {
    assert ([x] + rest)[1..] == rest;
  }

  lemma {:induction false} DownsHold(codes: seq<int>, held: set<int>)
    ensures Held(Downs(codes), held) == held + set c | c in codes
    ensures forall clip :: ClipAfter(Downs(codes), clip) == clip
  {
    if codes != [] {
      HeldOne(KeyDown(codes[0]), Downs(codes[1..]), held);
      DownsHold(codes[1..], held + {codes[0]});
      assert forall c :: c in codes <==> c == codes[0] || c in codes[1..];
    }
  }

  lemma {:induction false} UpsRelease(codes: seq<int>, held: set<int>)
    ensures Held(Ups(codes), held) == held - set c | c in codes
    ensures forall clip :: ClipAfter(Ups(codes), clip) == clip
  {
    if codes != [] {
      UpsRelease(codes[1..], held);
      HeldAppend(Ups(codes[1..]), [KeyUp(codes[0])], held);
      HeldOne(KeyUp(codes[0]), [], Held(Ups(codes[1..]), held));
      assert [KeyUp(codes[0])] + [] == [KeyUp(codes[0])];
      forall clip ensures ClipAfter(Ups(codes), clip) == clip {
        ClipAppend(Ups(codes[1..]), [KeyUp(codes[0])], clip);
      }
      assert forall c :: c in codes <==> c == codes[0] || c in codes[1..];
    }
  }

  lemma TapReleases(code: int, held: set<int>, clip: string)
    requires code !in held
    ensures Held(TapEvents(code), held) == held && ClipAfter(TapEvents(code), clip) == clip
  {
    var e := TapEvents(code);
    assert e == [KeyDown(code)] + ([Report] + ([KeyUp(code)] + ([Report] + [])));
    HeldOne(KeyDown(code), [Report] + ([KeyUp(code)] + ([Report] + [])), held);
    HeldOne(Report, [KeyUp(code)] + ([Report] + []), held + {code});
    HeldOne(KeyUp(code), [Report] + [], held + {code});
    HeldOne(Report, [], held + {code} - {code});
  }

  /** A combination leaves every key of its own released and the clipboard alone. */
  lemma ComboReleases(modifiers: seq<int>, code: int, clip: string)
    ensures Held(ComboEvents(modifiers, code), {}) == {} && ClipAfter(ComboEvents(modifiers, code), clip) == clip
  {
    var mods := set c | c in modifiers;
    var middle := [KeyDown(code), Report, KeyUp(code)];
    DownsHold(modifiers, {});
    assert {} + mods == mods;
    HeldAppend(Downs(modifiers), middle, {});
    assert middle == [KeyDown(code)] + ([Report] + ([KeyUp(code)] + []));
    HeldOne(KeyDown(code), [Report] + ([KeyUp(code)] + []), mods);
    HeldOne(Report, [KeyUp(code)] + [], mods + {code});
    HeldOne(KeyUp(code), [], mods + {code});
    var after := Downs(modifiers) + middle;
    assert Held(after, {}) == mods + {code} - {code};
    assert mods + {code} - {code} - mods == {};
    assert ClipAfter(middle, clip) == clip;
    UpsRelease(modifiers, Held(after, {}));
    HeldAppend(after, Ups(modifiers), {});
    HeldAppend(after + Ups(modifiers), [Report], {});
    HeldOne(Report, [], Held(after + Ups(modifiers), {}));
    assert [Report] + [] == [Report];
    ClipAppend(Downs(modifiers), middle, clip);
    ClipAppend(after, Ups(modifiers), clip);
    ClipAppend(after + Ups(modifiers), [Report], clip);
  }

  lemma PasteRestores(text: string, saved: string, clip: string)
    ensures Held(PasteEvents(text, saved), {}) == {} && ClipAfter(PasteEvents(text, saved), clip) == saved
  {
    var combo := PasteCombo();
    ComboReleases([KEY_LEFTCTRL], KEY_V, text);
    HeldAppend([Clip(text)] + combo, [Clip(saved)], {});
    HeldAppend([Clip(text)], combo, {});
    ClipAppend([Clip(text)] + combo, [Clip(saved)], clip);
    ClipAppend([Clip(text)], combo, clip);
    HeldOne(Clip(text), [], {});
    HeldOne(Clip(saved), [], {});
    assert [Clip(text)] + [] == [Clip(text)] && [Clip(saved)] + [] == [Clip(saved)];
  }

  // ---- the trace of a macro ---------------------------------------------------------------

  /** The events of one effect, while the clipboard holds `clip`. */
  function EffectEvents(e: Env, f: Effect, clip: string): seq<Event> {
    match f
    case Tap(code) => TapEvents(code)
    case Paste(text) => PasteEvents(text, clip)
    case Failed(call, writes, sets) => FailedEvents(e, call, writes, sets, clip)
    case _ => []
  }

  function Trace(e: Env, fs: seq<Effect>, clip: string): seq<Event> {
    if fs == [] then [] else Trace(e, fs[..|fs| - 1], clip) + EffectEvents(e, fs[|fs| - 1], clip)
  }

  ghost predicate NoneFailed(fs: seq<Effect>) { forall i :: 0 <= i < |fs| ==> !fs[i].Failed? }

  lemma {:induction false} TraceIsClean(e: Env, fs: seq<Effect>, clip: string)
    requires NoneFailed(fs)
    ensures Held(Trace(e, fs, clip), {}) == {} && ClipAfter(Trace(e, fs, clip), clip) == clip
  {
    if fs != [] {
      var before := fs[..|fs| - 1];
      var f := fs[|fs| - 1];
      TraceIsClean(e, before, clip);
      HeldAppend(Trace(e, before, clip), EffectEvents(e, f, clip), {});
      ClipAppend(Trace(e, before, clip), EffectEvents(e, f, clip), clip);
      match f
      case Tap(code) => TapReleases(code, {}, clip);
      case Paste(text) => PasteRestores(text, clip, clip);
      case _ =>
    }
  }

  lemma {:induction false} UnfailedEffects(log: seq<Entry>)
    requires MacroSafety.Unfailed(log)
    ensures NoneFailed(Effects(log))
  {
    if log != [] {
      assert log[0].Done? ==> !log[0].effect.Failed?;
      UnfailedEffects(log[1..]);
    }
  }

  /** While the devices work, every macro run, finished or stopped at any load, ends with the clipboard as
      it began and every key it pressed released. */
  lemma CleanFinish(e: Env, s: Start, job: Job, clip: string)
    requires MacroSafety.Works(e)
    ensures var trace := Trace(e, Effects(ExecuteMacro(e, Fresh(s), job).log), clip);
            Held(trace, {}) == {} && ClipAfter(trace, clip) == clip
  {
    hide ExecuteMacro, Effects, Trace, Held, ClipAfter;
    MacroSafety.MacroContinues(e, Fresh(s), job);
    UnfailedEffects(ExecuteMacro(e, Fresh(s), job).log);
    TraceIsClean(e, Effects(ExecuteMacro(e, Fresh(s), job).log), clip);
  }

  // ---- what an application sees ---------------------------------------------------------------

  /** A key that goes down: with which keys held, and with what in the clipboard. */
  datatype Stroke = Stroke(code: int, held: set<int>, clip: string)

  /** Applications get the events of the keyboard with the next report. */
  function Seen(events: seq<Event>, held: set<int>, pending: seq<Stroke>, clip: string): seq<Stroke> {
    if events == [] then []
    else
      match events[0]
      case KeyDown(code) => Seen(events[1..], held + {code}, pending + [Stroke(code, held, clip)], clip)
      case KeyUp(code) => Seen(events[1..], held - {code}, pending, clip)
      case Report => pending + Seen(events[1..], held, [], clip)
      case Clip(text) => Seen(events[1..], held, pending, text)
  }

  /** What a list of effects is meant to look like: every tap is one stroke with nothing held, and every paste
      is Control (29) and then, with it held, V (47), while the clipboard holds the text. */
  ghost function Intended(fs: seq<Effect>, clip: string): seq<Stroke> {
    if fs == [] then []
    else
      Intended(fs[..|fs| - 1], clip) + StrokesOf(fs[|fs| - 1], clip)
  }

  ghost function StrokesOf(f: Effect, clip: string): seq<Stroke> {
    match f
    case Tap(code) => [Stroke(code, {}, clip)]
    case Paste(text) => [Stroke(29, {}, text), Stroke(47, {29}, text)]
    case _ => []
  }

  lemma SeenStep(x: Event, rest: seq<Event>, held: set<int>, pending: seq<Stroke>, clip: string)
    ensures Seen([x] + rest, held, pending, clip)
         == if x.KeyDown? then Seen(rest, held + {x.code}, pending + [Stroke(x.code, held, clip)], clip)
            else if x.KeyUp? then Seen(rest, held - {x.code}, pending, clip)
            else if x.Report? then pending + Seen(rest, held, [], clip)
            else Seen(rest, held, pending, x.text)
  {
    assert ([x] + rest)[1..] == rest;
  }

  lemma TapIsSeen(code: int, rest: seq<Event>, clip: string)
    ensures Seen(TapEvents(code) + rest, {}, [], clip) == [Stroke(code, {}, clip)] + Seen(rest, {}, [], clip)
  {
    hide Seen;
    var r1 := [Report] + rest;
    var r2 := [KeyUp(code)] + r1;
    var r3 := [Report] + r2;
    assert TapEvents(code) + rest == [KeyDown(code)] + r3;
    SeenStep(KeyDown(code), r3, {}, [], clip);
    assert {} + {code} == {code} && [] + [Stroke(code, {}, clip)] == [Stroke(code, {}, clip)];
    SeenStep(Report, r2, {code}, [Stroke(code, {}, clip)], clip);
    SeenStep(KeyUp(code), r1, {code}, [], clip);
    assert {code} - {code} == {};
    SeenStep(Report, rest, {}, [], clip);
    assert [] + Seen(rest, {}, [], clip) == Seen(rest, {}, [], clip);
  }

  lemma PasteIsSeen(text: string, rest: seq<Event>, clip: string)
    ensures Seen(PasteEvents(text, clip) + rest, {}, [], clip)
         == [Stroke(29, {}, text), Stroke(47, {29}, text)] + Seen(rest, {}, [], clip)
  {
    hide Seen, PasteCombo;
    PasteComboIs();
    var r1 := [Clip(clip)] + rest;
    var r2 := [Report] + r1;
    var r3 := [KeyUp(29)] + r2;
    var r4 := [KeyUp(47)] + r3;
    var r5 := [Report] + r4;
    var r6 := [KeyDown(47)] + r5;
    var r7 := [KeyDown(29)] + r6;
    assert PasteEvents(text, clip) + rest == [Clip(text)] + r7;
    SeenStep(Clip(text), r7, {}, [], clip);
    SeenStep(KeyDown(29), r6, {}, [], text);
    assert {} + {29} == {29} && [] + [Stroke(29, {}, text)] == [Stroke(29, {}, text)];
    SeenStep(KeyDown(47), r5, {29}, [Stroke(29, {}, text)], text);
    SeenStep(Report, r4, {29} + {47}, [Stroke(29, {}, text)] + [Stroke(47, {29}, text)], text);
    SeenStep(KeyUp(47), r3, {29} + {47}, [], text);
    assert {29} + {47} - {47} == {29};
    SeenStep(KeyUp(29), r2, {29}, [], text);
    assert {29} - {29} == {};
    SeenStep(Report, r1, {}, [], text);
    SeenStep(Clip(clip), rest, {}, [], text);
    assert [Stroke(29, {}, text)] + [Stroke(47, {29}, text)] == [Stroke(29, {}, text), Stroke(47, {29}, text)];
    assert [] + Seen(rest, {}, [], clip) == Seen(rest, {}, [], clip);
  }

  lemma EffectIsSeen(e: Env, f: Effect, rest: seq<Event>, clip: string)
    requires !f.Failed?
    ensures Seen(EffectEvents(e, f, clip) + rest, {}, [], clip) == StrokesOf(f, clip) + Seen(rest, {}, [], clip)
  {
    hide Seen, TapEvents, PasteEvents;
    if f.Tap? {
      TapIsSeen(f.code, rest, clip);
    } else if f.Paste? {
      PasteIsSeen(f.text, rest, clip);
    } else {
      assert [] + rest == rest && [] + Seen(rest, {}, [], clip) == Seen(rest, {}, [], clip);
    }
  }

  /** Applications see exactly what the effects are meant to look like. */
  lemma {:induction false} TraceIsSeen(e: Env, fs: seq<Effect>, rest: seq<Event>, clip: string)
    requires NoneFailed(fs)
    ensures Seen(Trace(e, fs, clip) + rest, {}, [], clip) == Intended(fs, clip) + Seen(rest, {}, [], clip)
    decreases |fs|
  {
    hide Seen, EffectEvents, StrokesOf, Held, ClipAfter;
    if fs == [] {
      assert [] + rest == rest;
      assert [] + Seen(rest, {}, [], clip) == Seen(rest, {}, [], clip);
    } else {
      var before, f := fs[..|fs| - 1], fs[|fs| - 1];
      var events := EffectEvents(e, f, clip);
      TraceIsSeen(e, before, events + rest, clip);
      assert Trace(e, fs, clip) + rest == Trace(e, before, clip) + (events + rest);
      EffectIsSeen(e, f, rest, clip);
      assert Intended(fs, clip) == Intended(before, clip) + StrokesOf(f, clip);
    }
  }

  /** While the devices work, applications see of any macro run, finished or stopped at any load, the strokes
      that its effects are meant to be, with their own clipboard text in every other stroke. */
  lemma MacroIsSeen(e: Env, s: Start, job: Job, clip: string)
    requires MacroSafety.Works(e)
    ensures var fs := Effects(ExecuteMacro(e, Fresh(s), job).log);
            Seen(Trace(e, fs, clip), {}, [], clip) == Intended(fs, clip)
  {
    hide ExecuteMacro, Effects, Trace, Intended;
    MacroSafety.MacroContinues(e, Fresh(s), job);
    UnfailedEffects(ExecuteMacro(e, Fresh(s), job).log);
    var fs := Effects(ExecuteMacro(e, Fresh(s), job).log);
    TraceIsSeen(e, fs, [], clip);
    assert Trace(e, fs, clip) + [] == Trace(e, fs, clip);
    assert Seen([], {}, [], clip) == [] && Intended(fs, clip) + [] == Intended(fs, clip);
  }

  // ---- failing devices -----------------------------------------------------------------------

  lemma {:induction false} NoClipInside(xs: seq<Event>, clip: string)
    requires forall i :: 0 <= i < |xs| ==> !xs[i].Clip?
    ensures ClipAfter(xs, clip) == clip
  {
    if xs != [] {
      NoClipInside(xs[1..], clip);
    }
  }

  lemma FailedPasteClip(e: Env, text: string, writes: nat, sets: nat, clip: string)
    requires !e.setFails(sets) && !e.setFails(sets + 1)
    ensures ClipAfter(FailedEvents(e, Paste(text), writes, sets, clip), clip) == clip
  {
    var part := PasteCombo()[..WriteRun(e.writeFails, writes, COMBO_WRITES)];
    var last := [Clip(clip)];
    NoClipInside(part, text);
    ClipAppend([Clip(text)] + part, last, clip);
    ClipAppend([Clip(text)], part, clip);
  }

  /** Even when writes to the keyboard device fail, a macro leaves the clipboard as it was, as long as the
      clipboard itself can be written. */
  lemma {:induction false} TraceKeepsClip(e: Env, fs: seq<Effect>, clip: string)
    requires forall k: nat :: !e.setFails(k)
    ensures ClipAfter(Trace(e, fs, clip), clip) == clip
  {
    if fs != [] {
      var before := fs[..|fs| - 1];
      var f := fs[|fs| - 1];
      hide FailedEvents, ClipAfter;
      TraceKeepsClip(e, before, clip);
      ClipAppend(Trace(e, before, clip), EffectEvents(e, f, clip), clip);
      EffectKeepsClip(e, f, clip);
    }
  }

  lemma EffectKeepsClip(e: Env, f: Effect, clip: string)
    requires forall k: nat :: !e.setFails(k)
    ensures ClipAfter(EffectEvents(e, f, clip), clip) == clip
  {
    hide WriteRun;
    match f
    case Tap(code) => NoClipInside(TapEvents(code), clip);
    case Paste(text) => PasteRestores(text, clip, clip);
    case Failed(call, writes, sets) =>
      if call.Paste? {
        FailedPasteClip(e, call.text, writes, sets, clip);
      } else if call.Tap? {
        NoClipInside(FailedEvents(e, call, writes, sets, clip), clip);
      }
    case _ =>
  }

  /** What a failing tap leaves held: its key, exactly when the press was written and the release was not. */
  lemma FailedTapHolds(e: Env, code: int, writes: nat, sets: nat, clip: string)
    ensures Held(FailedEvents(e, Tap(code), writes, sets, clip), {})
            == if 1 <= WriteRun(e.writeFails, writes, TAP_WRITES) <= 2 then {code} else {}
  {
    var k := WriteRun(e.writeFails, writes, TAP_WRITES);
    hide WriteRun;
    var all := TapEvents(code);
    var down, up := KeyDown(code), KeyUp(code);
    if k == 1 {
      assert all[..1] == [down] + [];
      HeldOne(down, [], {});
    } else if k == 2 {
      assert all[..2] == [down] + ([Report] + []);
      HeldOne(down, [Report] + [], {});
      HeldOne(Report, [], {} + {code});
    } else if k == 3 {
      assert all[..3] == [down] + ([Report] + ([up] + []));
      HeldOne(down, [Report] + ([up] + []), {});
      HeldOne(Report, [up] + [], {} + {code});
      HeldOne(up, [], {} + {code});
    } else if k == 4 {
      assert all[..4] == all;
      TapReleases(code, {}, clip);
    }
  }

  lemma PasteComboIs()
    ensures PasteCombo() == [KeyDown(KEY_LEFTCTRL), KeyDown(KEY_V), Report, KeyUp(KEY_V), KeyUp(KEY_LEFTCTRL), Report]
  {
    assert Downs([KEY_LEFTCTRL]) == [KeyDown(KEY_LEFTCTRL)] + Downs([]);
    assert Ups([KEY_LEFTCTRL]) == Ups([]) + [KeyUp(KEY_LEFTCTRL)];
  }

  lemma HeldSnoc(xs: seq<Event>, x: Event)
    ensures Held(xs + [x], {}) == HeldStep(x, Held(xs, {}))
  {
    HeldAppend(xs, [x], {});
    HeldOne(x, [], Held(xs, {}));
    assert [x] + [] == [x];
  }

  /** What the first `k` events of the combination leave held. */
  lemma {:induction false} ComboHolds(k: nat)
    requires k <= COMBO_WRITES
    ensures Held(PasteCombo()[..k], {})
            == if k == 1 || k == 4 then {KEY_LEFTCTRL} else if k == 2 || k == 3 then {KEY_LEFTCTRL, KEY_V} else {}
  {
    PasteComboIs();
    hide PasteCombo;
    if k > 0 {
      ComboHolds(k - 1);
      HeldSnoc(PasteCombo()[..k - 1], PasteCombo()[k - 1]);
      assert PasteCombo()[..k] == PasteCombo()[..k - 1] + [PasteCombo()[k - 1]];
    }
  }

  /** What a failing paste leaves held: Ctrl, exactly when it was pressed and not released, and with it V. */
  lemma FailedPasteHolds(e: Env, text: string, writes: nat, sets: nat, clip: string)
    ensures var k := if e.setFails(sets) then 0 else WriteRun(e.writeFails, writes, COMBO_WRITES);
            Held(FailedEvents(e, Paste(text), writes, sets, clip), {})
            == if k == 1 || k == 4 then {KEY_LEFTCTRL} else if k == 2 || k == 3 then {KEY_LEFTCTRL, KEY_V} else {}
  {
    hide PasteCombo, WriteRun;
    var k := WriteRun(e.writeFails, writes, COMBO_WRITES);
    var part := PasteCombo()[..k];
    var last := Clip(if e.setFails(sets + 1) then e.torn(sets + 1) else clip);
    if e.setFails(sets) {
      HeldOne(Clip(e.torn(sets)), [], {});
      assert [Clip(e.torn(sets))] + [] == [Clip(e.torn(sets))];
    } else {
      ComboHolds(k);
      HeldOne(Clip(text), part, {});
      HeldSnoc([Clip(text)] + part, last);
    }
  }

  // ---- the devices ---------------------------------------------------------------------------

  /** From the history `before`, with `n` writes tried, the events `xs` were written up to the first write
      that fails. */
  ghost predicate Wrote(fails: nat -> bool, before: seq<Event>, n: nat, xs: seq<Event>, after: seq<Event>, m: nat, ok: bool) {
    var k := WriteRun(fails, n, |xs|);
    after == before + xs[..k] && m == NextWrite(fails, n, |xs|) && (ok <==> k == |xs|)
  }

  lemma {:induction false} RunSplits(fails: nat -> bool, from: nat, a: nat, b: nat)
    ensures var k := WriteRun(fails, from, a);
            WriteRun(fails, from, a + b) == if k < a then k else a + WriteRun(fails, from + a, b)
    decreases a
  {
    if a > 0 && !fails(from) {
      RunSplits(fails, from + 1, a - 1, b);
    }
  }

  lemma WroteBoth(fails: nat -> bool, e0: seq<Event>, n0: nat, xs: seq<Event>, e1: seq<Event>, n1: nat, ys: seq<Event>,
                  e2: seq<Event>, n2: nat, ok: bool)
    requires Wrote(fails, e0, n0, xs, e1, n1, true) && Wrote(fails, e1, n1, ys, e2, n2, ok)
    ensures Wrote(fails, e0, n0, xs + ys, e2, n2, ok)
  {
    hide WriteRun;
    RunSplits(fails, n0, |xs|, |ys|);
    var k := WriteRun(fails, n1, |ys|);
    assert xs[..|xs|] == xs && (xs + ys)[..|xs| + k] == xs + ys[..k];
  }

  lemma WroteLess(fails: nat -> bool, e0: seq<Event>, n0: nat, xs: seq<Event>, e1: seq<Event>, n1: nat, ys: seq<Event>)
    requires Wrote(fails, e0, n0, xs, e1, n1, false)
    ensures Wrote(fails, e0, n0, xs + ys, e1, n1, false)
  {
    hide WriteRun;
    RunSplits(fails, n0, |xs|, |ys|);
    var k := WriteRun(fails, n0, |xs|);
    assert (xs + ys)[..k] == xs[..k];
  }

  lemma WroteNothing(fails: nat -> bool, events: seq<Event>, n: nat)
    ensures Wrote(fails, events, n, [], events, n, true)
  {
    assert events + [] == events;
  }

  class Devices {
    /** The k-th write to the keyboard device fails, the k-th write to the clipboard fails, and what it
        then leaves there. */
    const fails: nat -> bool
    const setFails: nat -> bool
    const torn: nat -> string
    var events: seq<Event>
    var writes: nat
    var sets: nat
    var clip: string

    constructor (fails: nat -> bool, setFails: nat -> bool, torn: nat -> string, clip: string)
      ensures this.fails == fails && this.setFails == setFails && this.torn == torn
      ensures events == [] && writes == 0 && sets == 0 && this.clip == clip
    {
      this.fails, this.setFails, this.torn := fails, setFails, torn;
      events, writes, sets, this.clip := [], 0, 0, clip;
    }

    /** One write; false stands for the exception. */
    method Emit(x: Event) returns (ok: bool)
      modifies this`events, this`writes
      ensures Wrote(fails, old(events), old(writes), [x], events, writes, ok)
    {
      assert WriteRun(fails, writes, 1) == if fails(writes) then 0 else 1 + WriteRun(fails, writes + 1, 0);
      assert [x][..0] == [] && [x][..1] == [x] && events + [] == events;
      ok := !fails(writes);
      writes := writes + 1;
      if ok {
        events := events + [x];
      }
    }

    /** Writes until one fails. */
    method EmitAll(xs: seq<Event>) returns (ok: bool)
      modifies this`events, this`writes
      ensures Wrote(fails, old(events), old(writes), xs, events, writes, ok)
    {
      hide Wrote;
      ok := true;
      WroteNothing(fails, events, writes);
      assert xs[..0] == [];
      for i := 0 to |xs|
        invariant ok && Wrote(fails, old(events), old(writes), xs[..i], events, writes, true)
      {
        ghost var e1, n1 := events, writes;
        ok := Emit(xs[i]);
        assert xs[..i + 1] == xs[..i] + [xs[i]];
        WroteBoth(fails, old(events), old(writes), xs[..i], e1, n1, [xs[i]], events, writes, ok);
        if !ok {
          WroteLess(fails, old(events), old(writes), xs[..i + 1], events, writes, xs[i + 1..]);
          assert xs[..i + 1] + xs[i + 1..] == xs;
          return;
        }
      }
      assert xs[..|xs|] == xs;
    }

    method TapKey(code: int) returns (ok: bool)
      modifies this`events, this`writes
      ensures Wrote(fails, old(events), old(writes), TapEvents(code), events, writes, ok)
    {
      ok := EmitAll([KeyDown(code), Report, KeyUp(code), Report]);
    }

    /** The loop that presses the modifiers in order. */
    method PressAll(codes: seq<int>) returns (ok: bool)
      modifies this`events, this`writes
      ensures Wrote(fails, old(events), old(writes), Downs(codes), events, writes, ok)
    {
      hide Wrote, Downs;
      ok := true;
      WroteNothing(fails, events, writes);
      DownsOfOne(0);
      assert codes[..0] == [];
      for i := 0 to |codes|
        invariant ok && Wrote(fails, old(events), old(writes), Downs(codes[..i]), events, writes, true)
      {
        DownsStep(codes, i);
        ghost var e1, n1 := events, writes;
        ok := Emit(KeyDown(codes[i]));
        WroteBoth(fails, old(events), old(writes), Downs(codes[..i]), e1, n1, [KeyDown(codes[i])], events, writes, ok);
        if !ok {
          DownsSplit(codes, i + 1);
          WroteLess(fails, old(events), old(writes), Downs(codes[..i + 1]), events, writes, Downs(codes[i + 1..]));
          return;
        }
      }
      assert codes[..|codes|] == codes;
    }

    /** The loop that releases them in reverse order. */
    method ReleaseAll(codes: seq<int>) returns (ok: bool)
      modifies this`events, this`writes
      ensures Wrote(fails, old(events), old(writes), Ups(codes), events, writes, ok)
    {
      hide Wrote;
      ok := true;
      WroteNothing(fails, events, writes);
      assert codes[|codes|..] == [];
      var i := |codes|;
      while i > 0
        invariant 0 <= i <= |codes| && ok
        invariant Wrote(fails, old(events), old(writes), Ups(codes[i..]), events, writes, true)
      {
        i := i - 1;
        UpsFrom(codes, i);
        ghost var e1, n1 := events, writes;
        ok := Emit(KeyUp(codes[i]));
        WroteBoth(fails, old(events), old(writes), Ups(codes[i + 1..]), e1, n1, [KeyUp(codes[i])], events, writes, ok);
        if !ok {
          WroteLess(fails, old(events), old(writes), Ups(codes[i..]), events, writes, Ups(codes[..i]));
          return;
        }
      }
      assert codes[0..] == codes;
    }

    /** Modifiers down in order, the key, modifiers up in reverse order. */
    method HoldComboAndTap(modifiers: seq<int>, code: int) returns (ok: bool)
      modifies this`events, this`writes
      ensures Wrote(fails, old(events), old(writes), ComboEvents(modifiers, code), events, writes, ok)
    {
      hide Downs, Ups, Wrote;
      ghost var e0, n0 := events, writes;
      ghost var middle, downs, ups := [KeyDown(code), Report, KeyUp(code)], Downs(modifiers), Ups(modifiers);
      assert ComboEvents(modifiers, code) == downs + (middle + ups + [Report]) == downs + middle + (ups + [Report])
          == downs + middle + ups + [Report];
      ok := PressAll(modifiers);
      if !ok {
        WroteLess(fails, e0, n0, downs, events, writes, middle + ups + [Report]);
        return;
      }
      ghost var e1, n1 := events, writes;
      ok := EmitAll([KeyDown(code), Report, KeyUp(code)]);
      WroteBoth(fails, e0, n0, downs, e1, n1, middle, events, writes, ok);
      if !ok {
        WroteLess(fails, e0, n0, downs + middle, events, writes, ups + [Report]);
        return;
      }
      ghost var e2, n2 := events, writes;
      ok := ReleaseAll(modifiers);
      WroteBoth(fails, e0, n0, downs + middle, e2, n2, ups, events, writes, ok);
      if !ok {
        WroteLess(fails, e0, n0, downs + middle + ups, events, writes, [Report]);
        return;
      }
      ghost var e3, n3 := events, writes;
      ok := Emit(Report);
      WroteBoth(fails, e0, n0, downs + middle + ups, e3, n3, [Report], events, writes, ok);
    }

    method GetText() returns (text: string)
      ensures text == clip
    {
      text := clip;
    }

    /** False stands for the exception of a missing or failing clipboard program. */
    method SetText(text: string) returns (ok: bool)
      modifies this`events, this`sets, this`clip
      ensures ok == !setFails(old(sets)) && sets == old(sets) + 1
      ensures clip == (if ok then text else torn(old(sets))) && events == old(events) + [Clip(clip)]
    {
      ok := !setFails(sets);
      clip := if ok then text else torn(sets);
      sets := sets + 1;
      events := events + [Clip(clip)];
    }

    /** Save, set, paste, restore.  The clipboard is restored also when the device fails, and the
        exception of that restoring is swallowed. */
    method PasteTextSynchronously(text: string) returns (ok: bool)
      modifies this
      ensures setFails(old(sets)) ==>
                !ok && writes == old(writes) && sets == old(sets) + 1 && clip == torn(old(sets))
                && events == old(events) + [Clip(clip)]
      ensures !setFails(old(sets)) ==>
                var k := WriteRun(fails, old(writes), COMBO_WRITES);
                && ok == (k == COMBO_WRITES && !setFails(old(sets) + 1))
                && writes == NextWrite(fails, old(writes), COMBO_WRITES) && sets == old(sets) + 2
                && clip == (if setFails(old(sets) + 1) then torn(old(sets) + 1) else old(clip))
                && events == old(events) + ([Clip(text)] + PasteCombo()[..k] + [Clip(clip)])
    {
      hide WriteRun, NextWrite, ComboEvents;
      var saved := GetText();
      ok := SetText(text);
      if !ok {
        return;
      }
      ghost var part := PasteCombo()[..WriteRun(fails, writes, COMBO_WRITES)];
      ok := HoldComboAndTap([KEY_LEFTCTRL], KEY_V);
      assert events == old(events) + [Clip(text)] + part;
      if !ok {
        var ignored := SetText(saved);
        assert old(events) + [Clip(text)] + part + [Clip(clip)] == old(events) + ([Clip(text)] + part + [Clip(clip)]);
        return;
      }
      ok := SetText(saved);
      assert old(events) + [Clip(text)] + part + [Clip(clip)] == old(events) + ([Clip(text)] + part + [Clip(clip)]);
    }
  }

  lemma {:induction false} DownsAppend(a: seq<int>, b: seq<int>)
    ensures Downs(a + b) == Downs(a) + Downs(b)
  {
    if a == [] {
      assert a + b == b;
    } else {
      assert (a + b)[0] == a[0] && (a + b)[1..] == a[1..] + b;
      DownsAppend(a[1..], b);
    }
  }

  lemma DownsSplit(codes: seq<int>, k: nat)
    requires k <= |codes|
    ensures Downs(codes) == Downs(codes[..k]) + Downs(codes[k..])
  {
    hide Downs;
    assert codes == codes[..k] + codes[k..];
    DownsAppend(codes[..k], codes[k..]);
  }

  lemma DownsStep(codes: seq<int>, i: nat)
    requires i < |codes|
    ensures Downs(codes[..i + 1]) == Downs(codes[..i]) + [KeyDown(codes[i])]
  {
    hide Downs;
    assert codes[..i + 1] == codes[..i] + [codes[i]];
    DownsAppend(codes[..i], [codes[i]]);
    DownsOfOne(codes[i]);
  }

  lemma DownsOfOne(code: int)
    ensures Downs([]) == [] && Downs([code]) == [KeyDown(code)]
  {
    assert [code][1..] == [];
  }

  lemma {:induction false} UpsAppend(a: seq<int>, b: seq<int>)
    ensures Ups(a + b) == Ups(b) + Ups(a)
  {
    if a == [] {
      assert a + b == b && Ups(b) + [] == Ups(b);
    } else {
      assert (a + b)[0] == a[0] && (a + b)[1..] == a[1..] + b;
      UpsAppend(a[1..], b);
    }
  }

  lemma UpsFrom(codes: seq<int>, i: nat)
    requires i < |codes|
    ensures Ups(codes[i..]) == Ups(codes[i + 1..]) + [KeyUp(codes[i])]
    ensures Ups(codes) == Ups(codes[i..]) + Ups(codes[..i])
  {
    assert codes[i..][1..] == codes[i + 1..];
    assert codes == codes[..i] + codes[i..];
    UpsAppend(codes[..i], codes[i..]);
  }
}
