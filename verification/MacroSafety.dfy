/** What stopping a macro can and cannot do (src/Daemon.cpp:267-336). */
module MacroSafety {
  import opened Wrappers
  import opened Keys
  import opened SendInput
  import opened ScriptParser
  import opened Macro

  // ---- logs ---------------------------------------------------------------------------

  /** Every effect directly follows a load that saw no stop. */
  ghost predicate Guarded(log: seq<Entry>) {
    forall i :: 0 <= i < |log| && log[i].Done? ==> i > 0 && log[i - 1] == Load(false)
  }

  /** The flag is set from now on. */
  ghost predicate Frozen(e: Env, st: State) { forall k: nat :: k >= st.loads ==> e.stop(k) }

  /** Once set, the flag stays set. */
  ghost predicate StaysSet(e: Env) { forall i: nat, j: nat :: i <= j && e.stop(i) ==> e.stop(j) }

  /** The same effects and the same variables. */
  predicate Quiet(a: State, b: State) {
    Effects(b.log) == Effects(a.log) && b.ints == a.ints && b.strs == a.strs && b.threw == a.threw
  }

  function Loads(log: seq<Entry>): seq<bool> {
    if log == [] then [] else (if log[0].Load? then [log[0].stop] else []) + Loads(log[1..])
  }

  /** The loads of the log are what the flag held, in order. */
  ghost predicate Faithful(e: Env, st: State) {
    |Loads(st.log)| == st.loads && forall k :: 0 <= k < st.loads ==> Loads(st.log)[k] == e.stop(k)
  }

  /** No write to the device or to the clipboard fails. */
  ghost predicate Works(e: Env) { forall k: nat :: !e.writeFails(k) && !e.setFails(k) }

  /** No effect of the log has failed. */
  ghost predicate Unfailed(log: seq<Entry>) {
    forall i :: 0 <= i < |log| && log[i].Done? ==> !log[i].effect.Failed?
  }

  /** `b` continues `a`: the log only grows, effects stay guarded, nothing happens once the flag is set, and
      nothing fails while the devices work. */
  ghost predicate Continues(e: Env, a: State, b: State) {
    && a.log <= b.log && a.loads <= b.loads
    && (Guarded(a.log) ==> Guarded(b.log))
    && (Faithful(e, a) ==> Faithful(e, b))
    && (Frozen(e, a) ==> Quiet(a, b))
    && (Works(e) && Unfailed(a.log) ==> Unfailed(b.log))
  }

  lemma {:induction false} EffectsAppend(a: seq<Entry>, b: seq<Entry>)
    ensures Effects(a + b) == Effects(a) + Effects(b)
  {
    if a == [] {
      assert a + b == b;
    } else {
      assert (a + b)[0] == a[0] && (a + b)[1..] == a[1..] + b;
      EffectsAppend(a[1..], b);
    }
  }

  lemma {:induction false} LoadsAppend(a: seq<Entry>, b: seq<Entry>)
    ensures Loads(a + b) == Loads(a) + Loads(b)
  {
    if a == [] {
      assert a + b == b;
    } else {
      assert (a + b)[0] == a[0] && (a + b)[1..] == a[1..] + b;
      LoadsAppend(a[1..], b);
    }
  }

  lemma LoadsOne(log: seq<Entry>, x: Entry)
    ensures Loads(log + [x]) == Loads(log) + if x.Load? then [x.stop] else []
  {
    LoadsAppend(log, [x]);
    assert [x][1..] == [];
  }

  lemma EffectsOne(log: seq<Entry>, x: Entry)
    ensures Effects(log + [x]) == Effects(log) + if x.Done? then [x.effect] else []
  {
    EffectsAppend(log, [x]);
    assert [x][1..] == [];
  }

  lemma EffectsPrefix(a: seq<Entry>, b: seq<Entry>)
    requires a <= b
    ensures Effects(a) <= Effects(b)
  {
    assert b == a + b[|a|..];
    EffectsAppend(a, b[|a|..]);
  }

  lemma ContinuesTransitive(e: Env, a: State, b: State, c: State)
    requires Continues(e, a, b) && Continues(e, b, c)
    ensures Continues(e, a, c)
  {
    hide Guarded, Effects, Faithful, Works, Unfailed;
  }

  lemma ContinuesItself(e: Env, a: State)
    ensures Continues(e, a, a)
  {
  }

  lemma LoadContinues(e: Env, st: State)
    ensures Continues(e, st, AfterLoad(e, st))
  {
    hide Effects, Loads;
    EffectsOne(st.log, Load(e.stop(st.loads)));
    LoadsOne(st.log, Load(e.stop(st.loads)));
  }

  /** A change of the counters alone. */
  lemma CountersContinue(e: Env, a: State, draws: nat, slept: nat)
    ensures Continues(e, a, a.(draws := draws, slept := slept))
  {
  }

  lemma WorkingCall(e: Env, writes: nat, sets: nat, f: Effect)
    requires Works(e)
    ensures DeviceCall(e, writes, sets, f).ok && Logged(e, writes, sets, f) == f
  {
  }

  /** An effect right after a load that saw no stop. */
  lemma EffectContinues(e: Env, st: State, next: State, f: Effect)
    requires !Sees(e, st) && !f.Failed? && next.loads == st.loads + 1
    requires next.log == AfterLoad(e, st).log + [Done(Logged(e, st.writes, st.sets, f))]
    ensures Continues(e, st, next)
  {
    hide Effects, Loads, Logged, Works;
    var mid := AfterLoad(e, st).log;
    LoadsOne(st.log, Load(false));
    LoadsOne(mid, Done(Logged(e, st.writes, st.sets, f)));
    if Works(e) {
      WorkingCall(e, st.writes, st.sets, f);
    }
    assert Loads(mid) + [] == Loads(mid);
    assert mid[|mid| - 1] == Load(false);
    if Guarded(st.log) {
      forall i | 0 <= i < |next.log| && next.log[i].Done?
        ensures i > 0 && next.log[i - 1] == Load(false)
      {
        if i < |st.log| {
          assert st.log[i].Done?;
        }
      }
    }
  }

  // ---- every piece of execution continues its start --------------------------------------

  lemma {:induction false} SleepCheckedContinues(e: Env, st: State, ms: nat)
    ensures Continues(e, st, SleepChecked(e, st, ms).0)
    decreases ms
  {
    hide Continues, Effects;
    var st1 := AfterLoad(e, st);
    LoadContinues(e, st);
    if !Sees(e, st) && ms > 0 {
      var st2 := st1.(slept := st.slept + Slice(ms));
      CountersContinue(e, st1, st1.draws, st.slept + Slice(ms));
      ContinuesTransitive(e, st, st1, st2);
      SleepCheckedContinues(e, st2, ms - Slice(ms));
      ContinuesTransitive(e, st, st2, SleepChecked(e, st, ms).0);
    }
  }

  lemma {:induction false} SleepCommandContinues(e: Env, st: State, ms: nat)
    ensures Continues(e, st, SleepCommand(e, st, ms))
    decreases ms
  {
    hide Continues, Effects;
    if ms == 0 {
      ContinuesItself(e, st);
    } else {
      var st1 := AfterLoad(e, st);
      LoadContinues(e, st);
      if !Sees(e, st) {
        var st2 := st1.(slept := st.slept + Slice(ms));
        CountersContinue(e, st1, st1.draws, st.slept + Slice(ms));
        ContinuesTransitive(e, st, st1, st2);
        SleepCommandContinues(e, st2, ms - Slice(ms));
        ContinuesTransitive(e, st, st2, SleepCommand(e, st, ms));
      }
    }
  }

  lemma {:induction false} TapRepeatContinues(e: Env, st: State, code: int, n: nat, ms: nat)
    ensures Continues(e, st, TapRepeat(e, st, code, n, ms).0)
    decreases n
  {
    hide Continues, Effects, SleepChecked, DeviceCall;
    if n == 0 {
      ContinuesItself(e, st);
    } else {
      LoadContinues(e, st);
      if !Sees(e, st) {
        var st2 := Emit(e, AfterLoad(e, st), Tap(code));
        EffectContinues(e, st, st2, Tap(code));
        if !st2.threw {
          var (st3, ok) := SleepChecked(e, st2, ms);
          SleepCheckedContinues(e, st2, ms);
          ContinuesTransitive(e, st, st2, st3);
          if ok {
            TapRepeatContinues(e, st3, code, n - 1, ms);
            ContinuesTransitive(e, st, st3, TapRepeat(e, st, code, n, ms).0);
          }
        }
      }
    }
  }

  lemma {:induction false} SendPartsContinues(e: Env, st: State, parts: seq<Part>)
    ensures Continues(e, st, SendParts(e, st, parts))
    decreases |parts|
  {
    hide Continues, Effects, TapRepeat, PasteEffect, DeviceCall;
    if parts == [] {
      ContinuesItself(e, st);
    } else {
      var st1 := AfterLoad(e, st);
      LoadContinues(e, st);
      if !Sees(e, st) {
        match parts[0]
        case Key(code, count) =>
          var n := if count < 0 then 0 else count;
          var (st2, ok) := TapRepeat(e, st1, code, n, 5);
          TapRepeatContinues(e, st1, code, n, 5);
          ContinuesTransitive(e, st, st1, st2);
          if ok && !st2.threw {
            SendPartsContinues(e, st2, parts[1..]);
            ContinuesTransitive(e, st, st2, SendParts(e, st, parts));
          }
        case Chunk(text) =>
          var f := PasteEffect(e, st1.draws, st1.strs, text);
          var st2 := if text == "" then st1 else Perform(e, st1, f);
          assert !f.Failed? by { PasteIsCall(e, st1.draws, st1.strs, text); }
          if text != "" {
            EffectContinues(e, st, st2, f);
          }
          if !st2.threw {
            SendPartsContinues(e, st2, parts[1..]);
            ContinuesTransitive(e, st, st2, SendParts(e, st, parts));
          }
      }
    }
  }

  lemma PasteIsCall(e: Env, draws: nat, strs: map<string, string>, text: string)
    ensures PasteEffect(e, draws, strs, text).Paste?
  {
  }

  lemma OnceIsCall(e: Env, draws: nat, c: Command)
    ensures OnceEffect(e, draws, c).Some? ==>
              var f := OnceEffect(e, draws, c).value; !f.Tap? && !f.Paste? && !f.Failed?
  {
  }

  lemma OnceContinues(e: Env, st: State, c: Command)
    requires !Sees(e, st)
    ensures Continues(e, st, Once(e, AfterLoad(e, st), c))
  {
    hide Continues, Effects, OnceEffect;
    var st1 := AfterLoad(e, st);
    LoadContinues(e, st);
    match OnceEffect(e, st1.draws, c)
    case None =>
    case Some(f) =>
      OnceIsCall(e, st1.draws, c);
      EffectContinues(e, st, Perform(e, st1, f), f);
  }

  /** An exception right after a load that saw no stop. */
  lemma ThrowContinues(e: Env, st: State)
    requires !Sees(e, st)
    ensures Continues(e, st, AfterLoad(e, st).(threw := true))
  {
    hide Effects, Loads;
    LoadsOne(st.log, Load(false));
  }

  lemma {:induction false} ExecuteContinues(e: Env, st: State, c: Command)
    ensures Continues(e, st, Execute(e, st, c))
    decreases c
  {
    hide Continues, Effects, SendParts, SleepCommand, Once, Verdict;
    match c
    case Send(parts) => SendPartsContinues(e, st, parts);
    case Sleep(ms) => SleepCommandContinues(e, st, ms);
    case Cancel => ContinuesItself(e, st);
    case If(condition, thenBranch, elseBranch) =>
      var st1 := AfterLoad(e, st);
      LoadContinues(e, st);
      if !Sees(e, st) {
        var verdict := Verdict(e, st1.draws, st1.ints, condition);
        if verdict.None? {
          ThrowContinues(e, st);
        } else {
          var st2 := st1.(draws := st1.draws + 1);
          CountersContinue(e, st1, st1.draws + 1, st1.slept);
          ContinuesTransitive(e, st, st1, st2);
          ExecuteAllContinues(e, st2, if verdict.value then thenBranch else elseBranch);
          ContinuesTransitive(e, st, st2, Execute(e, st, c));
        }
      }
    case _ =>
      LoadContinues(e, st);
      if !Sees(e, st) {
        OnceContinues(e, st, c);
      }
  }

  lemma {:induction false} ExecuteAllContinues(e: Env, st: State, cs: seq<Command>)
    ensures Continues(e, st, ExecuteAll(e, st, cs))
    decreases cs
  {
    hide Continues, Effects, Execute;
    if cs == [] {
      ContinuesItself(e, st);
    } else {
      var st1 := AfterLoad(e, st);
      LoadContinues(e, st);
      if !Sees(e, st) {
        var st2 := Execute(e, st1, cs[0]);
        ExecuteContinues(e, st1, cs[0]);
        ContinuesTransitive(e, st, st1, st2);
        if !st2.threw {
          ExecuteAllContinues(e, st2, cs[1..]);
          ContinuesTransitive(e, st, st2, ExecuteAll(e, st, cs));
        }
      }
    }
  }

  lemma {:induction false} TailTapsContinues(e: Env, st: State, code: int, n: nat)
    ensures Continues(e, st, TailTaps(e, st, code, n).0)
    decreases n
  {
    hide Continues, Effects;
    if n == 0 {
      ContinuesItself(e, st);
    } else {
      LoadContinues(e, st);
      if !Sees(e, st) {
        var st2 := Emit(e, AfterLoad(e, st), Tap(code));
        EffectContinues(e, st, st2, Tap(code));
        if !st2.threw {
          TailTapsContinues(e, st2, code, n - 1);
          ContinuesTransitive(e, st, st2, TailTaps(e, st, code, n).0);
        }
      }
    }
  }

  lemma {:induction false} TailKeysContinues(e: Env, st: State, tail: seq<(int, int)>)
    ensures Continues(e, st, TailKeys(e, st, tail))
    decreases |tail|
  {
    hide Continues, Effects, TailTaps;
    if tail == [] {
      ContinuesItself(e, st);
    } else {
      var n := if tail[0].1 < 0 then 0 else tail[0].1;
      var (st1, ok) := TailTaps(e, st, tail[0].0, n);
      TailTapsContinues(e, st, tail[0].0, n);
      if ok {
        TailKeysContinues(e, st1, tail[1..]);
        ContinuesTransitive(e, st, st1, TailKeys(e, st, tail));
      }
    }
  }

  lemma LegacyContinues(e: Env, st: State, text: string, tail: seq<(int, int)>)
    ensures Continues(e, st, LegacyReplacement(e, st, text, tail))
  {
    hide Continues, Effects, TailKeys;
    LoadContinues(e, st);
    if !Sees(e, st) {
      var st2 := Emit(e, AfterLoad(e, st), Paste(text));
      EffectContinues(e, st, st2, Paste(text));
      if !st2.threw {
        TailKeysContinues(e, st2, tail);
        ContinuesTransitive(e, st, st2, LegacyReplacement(e, st, text, tail));
      }
    }
  }

  lemma MacroContinues(e: Env, st: State, job: Job)
    ensures Continues(e, st, ExecuteMacro(e, st, job))
  {
    hide Continues, Effects, TapRepeat, ExecuteAll, LegacyReplacement;
    var (st1, ok) := if job.eraseTrigger then TapRepeat(e, st, KEY_BACKSPACE, |job.triggerKeys|, 8) else (st, true);
    if job.eraseTrigger {
      TapRepeatContinues(e, st, KEY_BACKSPACE, |job.triggerKeys|, 8);
    } else {
      ContinuesItself(e, st);
    }
    if ok {
      var st2 := AfterLoad(e, st1);
      LoadContinues(e, st1);
      ContinuesTransitive(e, st, st1, st2);
      if !Sees(e, st1) {
        if job.commands != [] {
          ExecuteAllContinues(e, st2, job.commands);
          ContinuesTransitive(e, st, st2, ExecuteAll(e, st2, job.commands));
        } else if job.text != "" {
          LegacyContinues(e, st2, job.text, job.tail);
          ContinuesTransitive(e, st, st2, LegacyReplacement(e, st2, job.text, job.tail));
        }
      }
    }
  }

  // ---- at most one effect after the flag is set --------------------------------------------

  /** Every load from position `p` on sees the flag set. */
  ghost predicate SetFrom(log: seq<Entry>, p: nat) {
    forall i :: p <= i < |log| && log[i].Load? ==> log[i].stop
  }

  /** Wherever in its run the flag becomes true, at most one effect follows; it needs no assumption
      about what the loads saw before. */
  lemma AtMostOneEffectAfterStop(e: Env, s: Start, job: Job, p: nat)
    requires var log := ExecuteMacro(e, Fresh(s), job).log; p <= |log| && SetFrom(log, p)
    ensures var log := ExecuteMacro(e, Fresh(s), job).log; |Effects(log[p..])| <= 1
  {
    hide ExecuteMacro, Effects;
    MacroContinues(e, Fresh(s), job);
    GuardedTail(ExecuteMacro(e, Fresh(s), job).log, p);
  }

  lemma GuardedTail(log: seq<Entry>, p: nat)
    requires p <= |log| && Guarded(log) && SetFrom(log, p)
    ensures |Effects(log[p..])| <= 1
  {
    if p < |log| {
      assert log[p..][0] == log[p] && log[p..][1..] == log[p + 1..];
      NoEffectBehindStop(log, p + 1);
    }
  }

  lemma {:induction false} NoEffectBehindStop(log: seq<Entry>, p: nat)
    requires 0 < p <= |log| && Guarded(log) && SetFrom(log, p - 1)
    ensures Effects(log[p..]) == []
    decreases |log| - p
  {
    if p < |log| {
      assert log[p..][0] == log[p] && log[p..][1..] == log[p + 1..];
      NoEffectBehindStop(log, p + 1);
      assert log[p].Done? ==> log[p - 1] == Load(false);
      assert !log[p].Done?;
    }
  }

  /** The log behind its m-th load. */
  function AfterLoads(log: seq<Entry>, m: nat): seq<Entry> {
    if m == 0 || log == [] then log else AfterLoads(log[1..], if log[0].Load? then m - 1 else m)
  }

  lemma {:induction false} AfterLoadsIsTail(log: seq<Entry>, m: nat)
    ensures var rest := AfterLoads(log, m); |rest| <= |log| && rest == log[|log| - |rest|..]
    decreases |log|
  {
    hide Loads;
    if m > 0 && log != [] {
      AfterLoadsIsTail(log[1..], if log[0].Load? then m - 1 else m);
      var rest := AfterLoads(log, m);
      assert log[1..][|log| - 1 - |rest|..] == log[|log| - |rest|..];
    }
  }

  lemma {:induction false} LoadsBehind(log: seq<Entry>, m: nat)
    ensures m <= |Loads(log)| ==> Loads(AfterLoads(log, m)) == Loads(log)[m..]
    ensures m > |Loads(log)| ==> AfterLoads(log, m) == []
    decreases |log|
  {
    if m > 0 && log != [] {
      var n := if log[0].Load? then m - 1 else m;
      LoadsBehind(log[1..], n);
      if log[0].Load? && m <= |Loads(log)| {
        assert Loads(log) == [log[0].stop] + Loads(log[1..]);
        assert Loads(log)[m..] == Loads(log[1..])[n..];
      } else if !log[0].Load? {
        assert Loads(log) == [] + Loads(log[1..]) == Loads(log[1..]);
      }
    }
  }

  lemma {:induction false} LoadIsListed(log: seq<Entry>, i: nat) returns (k: nat)
    requires i < |log| && log[i].Load?
    ensures k < |Loads(log)| && Loads(log)[k] == log[i].stop
  {
    if i == 0 {
      k := 0;
    } else {
      var j := LoadIsListed(log[1..], i - 1);
      k := if log[0].Load? then j + 1 else j;
    }
  }

  /** When every load but the first `m` sees the flag, at most one effect follows the m-th load. */
  lemma StopLimitsEffects(e: Env, s: Start, job: Job, m: nat)
    requires forall k: nat :: k >= m ==> e.stop(k)
    ensures |Effects(AfterLoads(ExecuteMacro(e, Fresh(s), job).log, m))| <= 1
  {
    hide ExecuteMacro, Effects, AfterLoads, Loads;
    var st := ExecuteMacro(e, Fresh(s), job);
    MacroContinues(e, Fresh(s), job);
    assert Loads([]) == [] by { NoLoads(); }
    AfterLoadsIsTail(st.log, m);
    LoadsBehind(st.log, m);
    var rest := AfterLoads(st.log, m);
    var p := |st.log| - |rest|;
    forall i | p <= i < |st.log| && st.log[i].Load?
      ensures st.log[i].stop
    {
      assert rest[i - p] == st.log[i];
      var k := LoadIsListed(rest, i - p);
      assert Loads(rest)[k] == Loads(st.log)[m..][k];
    }
    GuardedTail(st.log, p);
  }

  lemma NoLoads()
    ensures Loads([]) == []
  {
  }
}
