/** A run that is never stopped does what the non-interruptible execution does
    (src/commands/IfCommand.cpp:332-376, src/commands/SendInputCommand.cpp:117-174,
    src/commands/SleepCommand.cpp:18-40, include/ahkunix/commands/Command.hpp:22-31). */
module MacroPlain {
  import opened Wrappers
  import opened Keys
  import opened SendInput
  import opened ScriptParser
  import opened Macro
  import opened MacroSafety

  ghost predicate NeverStops(e: Env) { forall k: nat :: !e.stop(k) }

  lemma CoreOfLoad(e: Env, st: State)
    ensures Core(AfterLoad(e, st)) == Core(st)
  {
    hide Effects;
    EffectsOne(st.log, Load(e.stop(st.loads)));
  }

  lemma CoreOfEffects(e: Env, st: State, f: Effect)
    ensures Core(Emit(e, st, f)) == EmitPlain(e, Core(st), f) && Core(Perform(e, st, f)) == PerformPlain(e, Core(st), f)
  {
    hide Effects, DeviceCall, Logged;
    EffectsOne(st.log, Done(Logged(e, st.writes, st.sets, f)));
  }

  lemma {:induction false} SleepCheckedPlain(e: Env, st: State, ms: nat)
    requires NeverStops(e)
    ensures var r := SleepChecked(e, st, ms); r.1 && Core(r.0) == Core(st).(slept := st.slept + ms)
    decreases ms
  {
    hide Effects;
    CoreOfLoad(e, st);
    if ms > 0 {
      SleepCheckedPlain(e, AfterLoad(e, st).(slept := st.slept + Slice(ms)), ms - Slice(ms));
    }
  }

  lemma {:induction false} SleepCommandPlain(e: Env, st: State, ms: nat)
    requires NeverStops(e)
    ensures Core(SleepCommand(e, st, ms)) == Core(st).(slept := st.slept + ms)
    decreases ms
  {
    hide Effects;
    if ms > 0 {
      CoreOfLoad(e, st);
      SleepCommandPlain(e, AfterLoad(e, st).(slept := st.slept + Slice(ms)), ms - Slice(ms));
    }
  }

  lemma {:induction false} TapRepeatIsPlain(e: Env, st: State, code: int, n: nat, ms: nat)
    requires NeverStops(e)
    ensures var r := TapRepeat(e, st, code, n, ms);
            Core(r.0) == TapRepeatPlain(e, Core(st), code, n, ms) && (r.1 <==> n == 0 || !r.0.threw)
    decreases n
  {
    hide Effects, SleepChecked, DeviceCall;
    if n > 0 {
      CoreOfLoad(e, st);
      var st2 := Emit(e, AfterLoad(e, st), Tap(code));
      CoreOfEffects(e, AfterLoad(e, st), Tap(code));
      if !st2.threw {
        SleepCheckedPlain(e, st2, ms);
        TapRepeatIsPlain(e, SleepChecked(e, st2, ms).0, code, n - 1, ms);
      }
    }
  }

  lemma {:induction false} SendPartsIsPlain(e: Env, st: State, parts: seq<Part>)
    requires NeverStops(e)
    ensures Core(SendParts(e, st, parts)) == SendPartsPlain(e, Core(st), parts)
    decreases |parts|
  {
    hide Effects, TapRepeat, PasteEffect, Core;
    if parts != [] {
      var st1 := AfterLoad(e, st);
      CoreOfLoad(e, st);
      match parts[0]
      case Key(code, count) =>
        var n := if count < 0 then 0 else count;
        TapRepeatIsPlain(e, st1, code, n, 5);
        var st2 := TapRepeat(e, st1, code, n, 5).0;
        CoreFields(st2);
        if !st2.threw {
          SendPartsIsPlain(e, st2, parts[1..]);
        }
      case Chunk(text) =>
        CoreFields(st1);
        var f := PasteEffect(e, st1.draws, st1.strs, text);
        CoreOfEffects(e, st1, f);
        var st2 := if text == "" then st1 else Perform(e, st1, f);
        CoreFields(st2);
        if !st2.threw {
          SendPartsIsPlain(e, st2, parts[1..]);
        }
    }
  }

  lemma CoreFields(st: State)
    ensures Core(st).draws == st.draws && Core(st).strs == st.strs && Core(st).ints == st.ints && Core(st).threw == st.threw
  {
  }

  lemma OnceIsPlain(e: Env, st: State, c: Command)
    ensures Core(Once(e, st, c)) == OncePlain(e, Core(st), c)
  {
    hide Effects, OnceEffect;
    match OnceEffect(e, st.draws, c)
    case None =>
    case Some(f) => CoreOfEffects(e, st, f);
  }

  lemma {:induction false} ExecuteIsPlain(e: Env, st: State, c: Command)
    requires NeverStops(e)
    ensures Core(Execute(e, st, c)) == ExecutePlain(e, Core(st), c)
    decreases c
  {
    hide Effects, SendParts, SendPartsPlain, SleepCommand, Once, OncePlain, Verdict;
    match c
    case Send(parts) => SendPartsIsPlain(e, st, parts);
    case Sleep(ms) => SleepCommandPlain(e, st, ms);
    case Cancel =>
    case If(condition, thenBranch, elseBranch) =>
      var st1 := AfterLoad(e, st);
      CoreOfLoad(e, st);
      var verdict := Verdict(e, st1.draws, st1.ints, condition);
      if verdict.Some? {
        ExecuteAllIsPlain(e, st1.(draws := st1.draws + 1), if verdict.value then thenBranch else elseBranch);
      }
    case _ =>
      CoreOfLoad(e, st);
      OnceIsPlain(e, AfterLoad(e, st), c);
  }

  /** Never stopped, the interruptible execution equals the plain one: the same effects in the same
      order, the same variables and draws, the same time slept, the same exception. */
  lemma {:induction false} ExecuteAllIsPlain(e: Env, st: State, cs: seq<Command>)
    requires NeverStops(e)
    ensures Core(ExecuteAll(e, st, cs)) == ExecuteAllPlain(e, Core(st), cs)
    decreases cs
  {
    hide Effects, Execute, ExecutePlain;
    if cs != [] {
      CoreOfLoad(e, st);
      var st1 := AfterLoad(e, st);
      ExecuteIsPlain(e, st1, cs[0]);
      if !Execute(e, st1, cs[0]).threw {
        ExecuteAllIsPlain(e, Execute(e, st1, cs[0]), cs[1..]);
      }
    }
  }

  // ---- erasing the trigger -----------------------------------------------------------------

  function Taps(code: int, n: nat): seq<Effect> { seq(n, _ => Tap(code)) }

  function Backspaces(n: nat): seq<Effect> { Taps(KEY_BACKSPACE, n) }

  /** All the taps, or some of them and then one whose device call throws, which ends the macro. */
  ghost predicate TapsOrFails(fs: seq<Effect>, code: int, n: nat) {
    fs == Taps(code, n)
    || (0 < |fs| <= n && fs[..|fs| - 1] == Taps(code, |fs| - 1) && fs[|fs| - 1].Failed?)
  }

  lemma TapsGrow(fs: seq<Effect>, code: int, n: nat)
    requires n > 0 && TapsOrFails(fs, code, n - 1)
    ensures TapsOrFails([Tap(code)] + fs, code, n)
  {
    var all := [Tap(code)] + fs;
    assert Taps(code, n) == [Tap(code)] + Taps(code, n - 1);
    if fs != Taps(code, n - 1) {
      assert all[..|all| - 1] == [Tap(code)] + fs[..|fs| - 1];
      assert Taps(code, |fs|) == [Tap(code)] + Taps(code, |fs| - 1);
    }
  }

  lemma {:induction false} TapRepeatSends(e: Env, p: Plain, code: int, n: nat, ms: nat) returns (fs: seq<Effect>)
    requires !p.threw
    ensures var q := TapRepeatPlain(e, p, code, n, ms);
            && q.effects == p.effects + fs && TapsOrFails(fs, code, n) && (Works(e) ==> !q.threw)
            && (!q.threw ==> fs == Taps(code, n) && q.slept == p.slept + n * ms)
            && (q.threw ==> fs != [] && fs[|fs| - 1].Failed?)
            && (q.draws, q.sets, q.ints, q.strs) == (p.draws, p.sets, p.ints, p.strs)
    decreases n
  {
    hide DeviceCall;
    if n == 0 {
      fs := [];
      assert p.effects + fs == p.effects;
    } else {
      var p1 := EmitPlain(e, p, Tap(code));
      TapCall(e, p.writes, p.sets, code);
      if Works(e) {
        WorkingCall(e, p.writes, p.sets, Tap(code));
      }
      if p1.threw {
        fs := [Failed(Tap(code), p.writes, p.sets)];
        assert fs[..0] == Taps(code, 0);
      } else {
        var rest := TapRepeatSends(e, p1.(slept := p.slept + ms), code, n - 1, ms);
        fs := [Tap(code)] + rest;
        TapsGrow(rest, code, n);
        assert p.effects + [Tap(code)] + rest == p.effects + fs;
        assert !TapRepeatPlain(e, p, code, n, ms).threw ==> fs == Taps(code, n);
      }
    }
  }

  lemma TapCall(e: Env, writes: nat, sets: nat, code: int)
    ensures var c := DeviceCall(e, writes, sets, Tap(code));
            c.sets == sets && Logged(e, writes, sets, Tap(code)) == if c.ok then Tap(code) else Failed(Tap(code), writes, sets)
  {
  }

  /** An unstopped macro starts with one backspace for each trigger key, or with none; or the device
      throws during one of them, and that is the end of the macro. */
  ghost predicate ErasesOrFails(fs: seq<Effect>, n: nat) {
    Backspaces(n) <= fs || (fs != [] && fs[|fs| - 1].Failed? && TapsOrFails(fs, KEY_BACKSPACE, n))
  }

  lemma UnstoppedErase(e: Env, s: Start, job: Job)
    requires NeverStops(e)
    ensures var n := if job.eraseTrigger then |job.triggerKeys| else 0;
            var fs := Effects(ExecuteMacro(e, Fresh(s), job).log);
            ErasesOrFails(fs, n) && (Works(e) ==> Backspaces(n) <= fs)
  {
    hide Effects, TapRepeat, TapRepeatPlain, ExecuteAll, LegacyReplacement, Taps, Works, Continues;
    var st := Fresh(s);
    var n := if job.eraseTrigger then |job.triggerKeys| else 0;
    NoEffects();
    NoTaps();
    var last := ExecuteMacro(e, st, job);
    if job.eraseTrigger && n > 0 {
      TapRepeatIsPlain(e, st, KEY_BACKSPACE, n, 8);
      var st1 := TapRepeat(e, st, KEY_BACKSPACE, n, 8).0;
      CoreFields(st1);
      CoreFields(st);
      var fs := TapRepeatSends(e, Core(st), KEY_BACKSPACE, n, 8);
      assert [] + fs == fs;
      if !st1.threw {
        MacroContinues(e, st1, job.(eraseTrigger := false));
        assert last == ExecuteMacro(e, st1, job.(eraseTrigger := false));
        LogGrows(e, st1, last);
        EffectsPrefix(st1.log, last.log);
      }
    }
  }

  lemma LogGrows(e: Env, a: State, b: State)
    requires Continues(e, a, b)
    ensures a.log <= b.log
  {
  }

  lemma NoTaps()
    ensures Backspaces(0) == []
  {
  }

  /** The taps of the tail keys, in order; a count below one stands for none. */
  function TailEffects(tail: seq<(int, int)>): seq<Effect> {
    if tail == [] then []
    else Taps(tail[0].0, if tail[0].1 < 0 then 0 else tail[0].1) + TailEffects(tail[1..])
  }

  lemma {:induction false} TailTapsSend(e: Env, st: State, code: int, n: nat)
    requires NeverStops(e) && Works(e) && !st.threw
    ensures var r := TailTaps(e, st, code, n);
            r.1 && !r.0.threw && Effects(r.0.log) == Effects(st.log) + Taps(code, n)
    decreases n
  {
    hide Effects, DeviceCall;
    if n == 0 {
      assert Effects(st.log) + [] == Effects(st.log);
    } else {
      CoreOfLoad(e, st);
      CoreOfEffects(e, AfterLoad(e, st), Tap(code));
      WorkingCall(e, st.writes, st.sets, Tap(code));
      TailTapsSend(e, Emit(e, AfterLoad(e, st), Tap(code)), code, n - 1);
      assert Taps(code, n) == [Tap(code)] + Taps(code, n - 1);
    }
  }

  lemma {:induction false} TailKeysSend(e: Env, st: State, tail: seq<(int, int)>)
    requires NeverStops(e) && Works(e) && !st.threw
    ensures Effects(TailKeys(e, st, tail).log) == Effects(st.log) + TailEffects(tail)
    decreases |tail|
  {
    hide Effects, TailTaps, Taps;
    if tail == [] {
      assert Effects(st.log) + [] == Effects(st.log);
    } else {
      var n := if tail[0].1 < 0 then 0 else tail[0].1;
      TailTapsSend(e, st, tail[0].0, n);
      TailKeysSend(e, TailTaps(e, st, tail[0].0, n).0, tail[1..]);
      assert Effects(st.log) + Taps(tail[0].0, n) + TailEffects(tail[1..])
          == Effects(st.log) + (Taps(tail[0].0, n) + TailEffects(tail[1..]));
    }
  }

  lemma LegacySends(e: Env, st: State, text: string, tail: seq<(int, int)>)
    requires NeverStops(e) && Works(e) && !st.threw
    ensures Effects(LegacyReplacement(e, st, text, tail).log) == Effects(st.log) + ([Paste(text)] + TailEffects(tail))
  {
    hide Effects, TailKeys, TailEffects, DeviceCall;
    CoreOfLoad(e, st);
    WorkingCall(e, st.writes, st.sets, Paste(text));
    CoreOfEffects(e, AfterLoad(e, st), Paste(text));
    TailKeysSend(e, Emit(e, AfterLoad(e, st), Paste(text)), tail);
    assert Effects(st.log) + [Paste(text)] + TailEffects(tail) == Effects(st.log) + ([Paste(text)] + TailEffects(tail));
  }

  /** All that an unstopped macro does while the devices work: the backspaces, and then the commands as
      their plain execution does them, or the text followed by the tail keys, or nothing. */
  lemma UnstoppedMacro(e: Env, s: Start, job: Job)
    requires NeverStops(e) && Works(e)
    ensures var n := if job.eraseTrigger then |job.triggerKeys| else 0;
            var last := Core(ExecuteMacro(e, Fresh(s), job));
            if job.commands != [] then
              last == ExecuteAllPlain(e, Plain(Backspaces(n), 0, 8 * n, s.writes + TAP_WRITES * n, s.sets, s.ints, s.strs, false),
                                      job.commands)
            else last.effects == Backspaces(n) + (if job.text == "" then [] else [Paste(job.text)] + TailEffects(job.tail))
  {
    hide Effects, TapRepeat, TapRepeatPlain, ExecuteAll, ExecuteAllPlain, LegacyReplacement, TailEffects, Taps, Works;
    var st := Fresh(s);
    var n := |job.triggerKeys|;
    NoEffects();
    NoTaps();
    if job.eraseTrigger {
      TapRepeatIsPlain(e, st, KEY_BACKSPACE, n, 8);
      CoreFields(TapRepeat(e, st, KEY_BACKSPACE, n, 8).0);
      var fs := TapRepeatSends(e, Core(st), KEY_BACKSPACE, n, 8);
      assert [] + fs == fs;
      TapRepeatWrites(e, Core(st), KEY_BACKSPACE, n, 8);
    }
    var st1 := if job.eraseTrigger then TapRepeat(e, st, KEY_BACKSPACE, n, 8).0 else st;
    var k := if job.eraseTrigger then n else 0;
    assert Core(st1) == Plain(Backspaces(k), 0, 8 * k, s.writes + TAP_WRITES * k, s.sets, s.ints, s.strs, false);
    CoreOfLoad(e, st1);
    CoreFields(st1);
    var st2 := AfterLoad(e, st1);
    if job.commands != [] {
      ExecuteAllIsPlain(e, st2, job.commands);
    } else if job.text != "" {
      LegacySends(e, st2, job.text, job.tail);
    } else {
      assert Effects(st2.log) + [] == Effects(st2.log);
    }
  }

  lemma {:induction false} TapRepeatWrites(e: Env, p: Plain, code: int, n: nat, ms: nat)
    requires Works(e) && !p.threw
    ensures TapRepeatPlain(e, p, code, n, ms).writes == p.writes + TAP_WRITES * n
    decreases n
  {
    if n > 0 {
      WorkingCall(e, p.writes, p.sets, Tap(code));
      var p1 := EmitPlain(e, p, Tap(code));
      TapRepeatWrites(e, p1.(slept := p.slept + ms), code, n - 1, ms);
    }
  }

  lemma NoEffects()
    ensures Effects([]) == []
  {
  }

  /** A hotstring that has tail keys but no text does nothing beyond erasing: the legacy replacement
      is entered only for a non-empty text. */
  lemma TailKeysNeedText(e: Env, st: State, job: Job)
    requires job.commands == [] && job.text == ""
    ensures ExecuteMacro(e, st, job) == ExecuteMacro(e, st, job.(tail := []))
  {
    hide TapRepeat;
  }
}
