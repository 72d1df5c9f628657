/** A stopped run does a prefix of the unstopped run (src/Daemon.cpp:267-336). */
module MacroPrefix {
  import opened Wrappers
  import opened Keys
  import opened SendInput
  import opened ScriptParser
  import opened Macro
  import opened MacroSafety

  /** The same world with a flag that is never set. */
  function Unstopped(e: Env): Env { e.(stop := (k: nat) => false) }

  /** Two worlds that differ in the stop flag only. */
  ghost predicate SameWorld(e: Env, u: Env) {
    && u.random == e.random && u.clock == e.clock && u.counter == e.counter && u.undefined == e.undefined
    && u.writeFails == e.writeFails && u.setFails == e.setFails && u.torn == e.torn
  }

  /** `u` is the same world as `e`, stopped no earlier: a load that sees no stop under `e` sees none under `u`. */
  ghost predicate Later(e: Env, u: Env) { SameWorld(e, u) && forall k: nat :: u.stop(k) ==> e.stop(k) }

  /** Some load of the run has seen the flag. */
  ghost predicate Stopped(e: Env, st: State) { exists k: nat :: k < st.loads && e.stop(k) }

  /** `a` is a run under `e`, `b` the same run under the later `u`: they are equal, or `a` has been stopped
      and its effects are a prefix of those of `b`. */
  ghost predicate Follows(e: Env, a: State, b: State) {
    a == b || (Stopped(e, a) && Effects(a.log) <= Effects(b.log))
  }

  /** The same for a step that also says whether to go on. */
  ghost predicate FollowsFlag(e: Env, a: (State, bool), b: (State, bool)) {
    a == b || (Stopped(e, a.0) && Effects(a.0.log) <= Effects(b.0.log))
  }

  lemma StoppedIsFrozen(e: Env, st: State)
    requires StaysSet(e) && Stopped(e, st)
    ensures Frozen(e, st)
  {
  }

  /** Whatever follows a stopped state keeps the relation. */
  lemma StaysBehind(e: Env, u: Env, a: State, b: State, a': State, b': State)
    requires StaysSet(e) && Stopped(e, a) && Effects(a.log) <= Effects(b.log)
    requires Continues(e, a, a') && Continues(u, b, b')
    ensures Stopped(e, a') && Effects(a'.log) <= Effects(b'.log)
  {
    hide Effects, Guarded, Works, Unfailed, Faithful;
    StoppedIsFrozen(e, a);
    EffectsPrefix(b.log, b'.log);
  }

  /** A load that sees the flag: the run under `e` stops here. */
  lemma StopsHere(e: Env, u: Env, st: State, b: State)
    requires Sees(e, st) && Continues(u, st, b)
    ensures Stopped(e, AfterLoad(e, st)) && Effects(AfterLoad(e, st).log) <= Effects(b.log)
  {
    hide Effects, Guarded, Works, Unfailed, Faithful;
    EffectsOne(st.log, Load(true));
    EffectsPrefix(st.log, b.log);
    assert st.loads < AfterLoad(e, st).loads;
  }

  lemma SameLoad(e: Env, u: Env, st: State)
    requires Later(e, u) && !Sees(e, st)
    ensures AfterLoad(e, st) == AfterLoad(u, st) && !Sees(u, st)
  {
  }

  /** The devices are the same. */
  lemma SameEmit(e: Env, u: Env, st: State, f: Effect)
    requires Later(e, u)
    ensures Emit(e, st, f) == Emit(u, st, f) && Perform(e, st, f) == Perform(u, st, f)
  {
  }

  lemma {:induction false} SleepCheckedFollows(e: Env, u: Env, st: State, ms: nat)
    requires StaysSet(e) && Later(e, u)
    ensures FollowsFlag(e, SleepChecked(e, st, ms), SleepChecked(u, st, ms))
    decreases ms
  {
    hide Continues, Effects, Stopped, Later, DeviceCall;
    if Sees(e, st) {
      SleepCheckedContinues(u, st, ms);
      StopsHere(e, u, st, SleepChecked(u, st, ms).0);
    } else {
      SameLoad(e, u, st);
      if ms > 0 {
        SleepCheckedFollows(e, u, AfterLoad(e, st).(slept := st.slept + Slice(ms)), ms - Slice(ms));
      }
    }
  }

  lemma {:induction false} SleepCommandFollows(e: Env, u: Env, st: State, ms: nat)
    requires StaysSet(e) && Later(e, u)
    ensures Follows(e, SleepCommand(e, st, ms), SleepCommand(u, st, ms))
    decreases ms
  {
    hide Continues, Effects, Stopped, Later, DeviceCall;
    if ms > 0 {
      if Sees(e, st) {
        SleepCommandContinues(u, st, ms);
        StopsHere(e, u, st, SleepCommand(u, st, ms));
      } else {
        SameLoad(e, u, st);
        SleepCommandFollows(e, u, AfterLoad(e, st).(slept := st.slept + Slice(ms)), ms - Slice(ms));
      }
    }
  }

  lemma {:induction false} TapRepeatFollows(e: Env, u: Env, st: State, code: int, n: nat, ms: nat)
    requires StaysSet(e) && Later(e, u)
    ensures FollowsFlag(e, TapRepeat(e, st, code, n, ms), TapRepeat(u, st, code, n, ms))
    decreases n
  {
    hide Continues, Effects, Stopped, Later, DeviceCall, SleepChecked;
    if n > 0 {
      if Sees(e, st) {
        TapRepeatContinues(u, st, code, n, ms);
        StopsHere(e, u, st, TapRepeat(u, st, code, n, ms).0);
      } else {
        SameLoad(e, u, st);
        var st2 := Emit(e, AfterLoad(e, st), Tap(code));
        SameEmit(e, u, AfterLoad(e, st), Tap(code));
        if !st2.threw {
          var a, b := SleepChecked(e, st2, ms), SleepChecked(u, st2, ms);
          SleepCheckedFollows(e, u, st2, ms);
          if a == b {
            if a.1 {
              TapRepeatFollows(e, u, a.0, code, n - 1, ms);
            }
          } else {
            TapRepeatContinues(e, a.0, code, n - 1, ms);
            TapRepeatContinues(u, b.0, code, n - 1, ms);
            ContinuesItself(e, a.0);
            ContinuesItself(u, b.0);
            StaysBehind(e, u, a.0, b.0, TapRepeat(e, st, code, n, ms).0, TapRepeat(u, st, code, n, ms).0);
          }
        }
      }
    }
  }

  lemma SamePaste(e: Env, u: Env, draws: nat, strs: map<string, string>, text: string)
    requires Later(e, u)
    ensures PasteEffect(e, draws, strs, text) == PasteEffect(u, draws, strs, text)
  {
    hide Interpolation.InterpolateOr;
    assert ClockAt(e, draws) == ClockAt(u, draws);
  }

  lemma {:induction false} SendPartsFollows(e: Env, u: Env, st: State, parts: seq<Part>)
    requires StaysSet(e) && Later(e, u)
    ensures Follows(e, SendParts(e, st, parts), SendParts(u, st, parts))
    decreases |parts|
  {
    hide Continues, Effects, Stopped, Later, DeviceCall, TapRepeat, PasteEffect;
    if parts != [] {
      if Sees(e, st) {
        SendPartsContinues(u, st, parts);
        StopsHere(e, u, st, SendParts(u, st, parts));
      } else {
        SameLoad(e, u, st);
        var st1 := AfterLoad(e, st);
        match parts[0]
        case Key(code, count) =>
          var n := if count < 0 then 0 else count;
          var a, b := TapRepeat(e, st1, code, n, 5), TapRepeat(u, st1, code, n, 5);
          TapRepeatFollows(e, u, st1, code, n, 5);
          if a == b {
            if a.1 && !a.0.threw {
              SendPartsFollows(e, u, a.0, parts[1..]);
            }
          } else {
            SendPartsContinues(e, a.0, parts[1..]);
            SendPartsContinues(u, b.0, parts[1..]);
            ContinuesItself(e, a.0);
            ContinuesItself(u, b.0);
            StaysBehind(e, u, a.0, b.0, SendParts(e, st, parts), SendParts(u, st, parts));
          }
        case Chunk(text) =>
          SamePaste(e, u, st1.draws, st1.strs, text);
          var f := PasteEffect(e, st1.draws, st1.strs, text);
          var st2 := if text == "" then st1 else Perform(e, st1, f);
          SameEmit(e, u, st1, f);
          if !st2.threw {
            SendPartsFollows(e, u, st2, parts[1..]);
          }
      }
    }
  }

  lemma SameDecisions(e: Env, u: Env, st: State, condition: string, c: Command)
    requires Later(e, u)
    ensures Verdict(e, st.draws, st.ints, condition) == Verdict(u, st.draws, st.ints, condition)
    ensures Once(e, st, c) == Once(u, st, c)
  {
    hide Conditions.ParseCondition;
  }

  lemma {:induction false} ExecuteFollows(e: Env, u: Env, st: State, c: Command)
    requires StaysSet(e) && Later(e, u)
    ensures Follows(e, Execute(e, st, c), Execute(u, st, c))
    decreases c
  {
    hide Continues, Effects, Stopped, Later, DeviceCall, SendParts, SleepCommand, Once, Verdict;
    match c
    case Send(parts) => SendPartsFollows(e, u, st, parts);
    case Sleep(ms) => SleepCommandFollows(e, u, st, ms);
    case Cancel =>
    case If(condition, thenBranch, elseBranch) =>
      if Sees(e, st) {
        ExecuteContinues(u, st, c);
        StopsHere(e, u, st, Execute(u, st, c));
      } else {
        SameLoad(e, u, st);
        var st1 := AfterLoad(e, st);
        SameDecisions(e, u, st1, condition, c);
        var verdict := Verdict(e, st1.draws, st1.ints, condition);
        if verdict.Some? {
          ExecuteAllFollows(e, u, st1.(draws := st1.draws + 1), if verdict.value then thenBranch else elseBranch);
        }
      }
    case _ =>
      if Sees(e, st) {
        ExecuteContinues(u, st, c);
        StopsHere(e, u, st, Execute(u, st, c));
      } else {
        SameLoad(e, u, st);
        SameDecisions(e, u, AfterLoad(e, st), "", c);
      }
  }

  lemma {:induction false} ExecuteAllFollows(e: Env, u: Env, st: State, cs: seq<Command>)
    requires StaysSet(e) && Later(e, u)
    ensures Follows(e, ExecuteAll(e, st, cs), ExecuteAll(u, st, cs))
    decreases cs
  {
    hide Continues, Effects, Stopped, Later, DeviceCall, Execute;
    if cs != [] {
      if Sees(e, st) {
        ExecuteAllContinues(u, st, cs);
        StopsHere(e, u, st, ExecuteAll(u, st, cs));
      } else {
        SameLoad(e, u, st);
        var st1 := AfterLoad(e, st);
        var a, b := Execute(e, st1, cs[0]), Execute(u, st1, cs[0]);
        ExecuteFollows(e, u, st1, cs[0]);
        if a == b {
          if !a.threw {
            ExecuteAllFollows(e, u, a, cs[1..]);
          }
        } else {
          ExecuteAllContinues(e, a, cs[1..]);
          ExecuteAllContinues(u, b, cs[1..]);
          ContinuesItself(e, a);
          ContinuesItself(u, b);
          StaysBehind(e, u, a, b, ExecuteAll(e, st, cs), ExecuteAll(u, st, cs));
        }
      }
    }
  }

  lemma {:induction false} TailTapsFollows(e: Env, u: Env, st: State, code: int, n: nat)
    requires StaysSet(e) && Later(e, u)
    ensures FollowsFlag(e, TailTaps(e, st, code, n), TailTaps(u, st, code, n))
    decreases n
  {
    hide Continues, Effects, Stopped, Later, DeviceCall;
    if n > 0 {
      if Sees(e, st) {
        TailTapsContinues(u, st, code, n);
        StopsHere(e, u, st, TailTaps(u, st, code, n).0);
      } else {
        SameLoad(e, u, st);
        SameEmit(e, u, AfterLoad(e, st), Tap(code));
        var st2 := Emit(e, AfterLoad(e, st), Tap(code));
        if !st2.threw {
          TailTapsFollows(e, u, st2, code, n - 1);
        }
      }
    }
  }

  lemma {:induction false} TailKeysFollows(e: Env, u: Env, st: State, tail: seq<(int, int)>)
    requires StaysSet(e) && Later(e, u)
    ensures Follows(e, TailKeys(e, st, tail), TailKeys(u, st, tail))
    decreases |tail|
  {
    hide Continues, Effects, Stopped, Later, DeviceCall, TailTaps;
    if tail != [] {
      var n := if tail[0].1 < 0 then 0 else tail[0].1;
      var a, b := TailTaps(e, st, tail[0].0, n), TailTaps(u, st, tail[0].0, n);
      TailTapsFollows(e, u, st, tail[0].0, n);
      if a == b {
        if a.1 {
          TailKeysFollows(e, u, a.0, tail[1..]);
        }
      } else {
        TailKeysContinues(e, a.0, tail[1..]);
        TailKeysContinues(u, b.0, tail[1..]);
        ContinuesItself(e, a.0);
        ContinuesItself(u, b.0);
        StaysBehind(e, u, a.0, b.0, TailKeys(e, st, tail), TailKeys(u, st, tail));
      }
    }
  }

  lemma LegacyFollows(e: Env, u: Env, st: State, text: string, tail: seq<(int, int)>)
    requires StaysSet(e) && Later(e, u)
    ensures Follows(e, LegacyReplacement(e, st, text, tail), LegacyReplacement(u, st, text, tail))
  {
    hide Continues, Effects, Stopped, Later, DeviceCall, TailKeys;
    if Sees(e, st) {
      LegacyContinues(u, st, text, tail);
      StopsHere(e, u, st, LegacyReplacement(u, st, text, tail));
    } else {
      SameLoad(e, u, st);
      SameEmit(e, u, AfterLoad(e, st), Paste(text));
      var st2 := Emit(e, AfterLoad(e, st), Paste(text));
      if !st2.threw {
        TailKeysFollows(e, u, st2, tail);
      }
    }
  }

  /** The part of a macro behind the erasing of its trigger. */
  function Body(e: Env, st: State, job: Job): State {
    var st2 := AfterLoad(e, st);
    if Sees(e, st) then st2
    else if job.commands != [] then ExecuteAll(e, st2, job.commands)
    else if job.text != "" then LegacyReplacement(e, st2, job.text, job.tail)
    else st2
  }

  lemma BodyContinues(e: Env, st: State, job: Job)
    ensures Continues(e, st, Body(e, st, job))
  {
    hide ExecuteMacro, ExecuteAll, LegacyReplacement;
    MacroContinues(e, st, job.(eraseTrigger := false));
    assert ExecuteMacro(e, st, job.(eraseTrigger := false)) == Body(e, st, job) by { BodyIsMacro(e, st, job); }
  }

  lemma BodyIsMacro(e: Env, st: State, job: Job)
    ensures ExecuteMacro(e, st, job.(eraseTrigger := false)) == Body(e, st, job)
  {
    hide ExecuteAll, LegacyReplacement;
  }

  lemma BodyFollows(e: Env, u: Env, st: State, job: Job)
    requires StaysSet(e) && Later(e, u)
    ensures Follows(e, Body(e, st, job), Body(u, st, job))
  {
    hide Continues, Effects, Stopped, Later, DeviceCall, ExecuteAll, LegacyReplacement;
    if Sees(e, st) {
      BodyContinues(u, st, job);
      StopsHere(e, u, st, Body(u, st, job));
    } else {
      SameLoad(e, u, st);
      ExecuteAllFollows(e, u, AfterLoad(e, st), job.commands);
      LegacyFollows(e, u, AfterLoad(e, st), job.text, job.tail);
    }
  }

  lemma MacroFollows(e: Env, u: Env, st: State, job: Job)
    requires StaysSet(e) && Later(e, u)
    ensures Follows(e, ExecuteMacro(e, st, job), ExecuteMacro(u, st, job))
  {
    hide Continues, Effects, Stopped, Later, DeviceCall, TapRepeat, Body;
    var n := |job.triggerKeys|;
    MacroParts(e, st, job);
    MacroParts(u, st, job);
    if !job.eraseTrigger {
      BodyFollows(e, u, st, job);
    } else {
      var a, b := TapRepeat(e, st, KEY_BACKSPACE, n, 8), TapRepeat(u, st, KEY_BACKSPACE, n, 8);
      TapRepeatFollows(e, u, st, KEY_BACKSPACE, n, 8);
      if a == b {
        if a.1 {
          BodyFollows(e, u, a.0, job);
        }
      } else {
        BodyContinues(e, a.0, job);
        BodyContinues(u, b.0, job);
        ContinuesItself(e, a.0);
        ContinuesItself(u, b.0);
        StaysBehind(e, u, a.0, b.0, ExecuteMacro(e, st, job), ExecuteMacro(u, st, job));
      }
    }
  }

  lemma MacroParts(e: Env, st: State, job: Job)
    ensures ExecuteMacro(e, st, job)
            == if !job.eraseTrigger then Body(e, st, job)
               else
                 var r := TapRepeat(e, st, KEY_BACKSPACE, |job.triggerKeys|, 8);
                 if r.1 then Body(e, r.0, job) else r.0
  {
    hide TapRepeat, ExecuteAll, LegacyReplacement;
  }

  /** When the flag stays set once set, the effects of a macro are a prefix of those of the same macro
      stopped later; a run that no load has stopped is the same run. */
  lemma EarlierStopIsPrefix(e: Env, u: Env, s: Start, job: Job)
    requires StaysSet(e) && Later(e, u)
    ensures var a, b := ExecuteMacro(e, Fresh(s), job), ExecuteMacro(u, Fresh(s), job);
            Effects(a.log) <= Effects(b.log) && (a == b || Stopped(e, a))
  {
    hide ExecuteMacro, Effects, Stopped, Later;
    MacroFollows(e, u, Fresh(s), job);
  }

  /** The same against the run that is never stopped. */
  lemma StoppedRunIsPrefix(e: Env, s: Start, job: Job)
    requires StaysSet(e)
    ensures var a := ExecuteMacro(e, Fresh(s), job);
            var b := ExecuteMacro(Unstopped(e), Fresh(s), job);
            Effects(a.log) <= Effects(b.log) && (a == b || Stopped(e, a))
  {
    hide ExecuteMacro, Effects, Stopped;
    EarlierStopIsPrefix(e, Unstopped(e), s, job);
  }
}
