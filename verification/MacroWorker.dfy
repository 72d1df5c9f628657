/** The loops that run a macro on the worker thread, each proved to do what `Macro` says
    (src/Daemon.cpp:27-43 and 267-336, src/commands/SendInputCommand.cpp:117-154,
    src/commands/SleepCommand.cpp:25-40, src/commands/IfCommand.cpp:349-376). */
module MacroWorker {
  import opened Wrappers
  import opened Keys
  import opened SendInput
  import opened ScriptParser
  import opened Macro
  import opened MacroSafety
  import opened Desktop
  import Conditions
  import Interpolation

  lemma TraceGrows(e: Env, fs: seq<Effect>, f: Effect, clip: string)
    ensures Trace(e, fs + [f], clip) == Trace(e, fs, clip) + EffectEvents(e, f, clip)
  {
    assert (fs + [f])[..|fs|] == fs;
  }

  class Worker {
    const env: Env
    const devices: Devices
    const context: Interpolation.Context
    /** What the devices had done before the macro, and what the clipboard held. */
    ghost const before: seq<Event>
    ghost const clip: string
    var st: State

    /** The device history is the trace of the effects logged so far; the variables are in the context. */
    ghost predicate Valid()
      reads this, devices, context
    {
      && env.writeFails == devices.fails && env.setFails == devices.setFails && env.torn == devices.torn
      && st.writes == devices.writes && st.sets == devices.sets
      && st.ints == context.ints && st.strs == context.strs
      && devices.events == before + Trace(env, Effects(st.log), clip)
      && (!st.threw ==> devices.clip == clip)
    }

    /** Valid, and no exception is on its way out of the macro. */
    ghost predicate Ready()
      reads this, devices, context
    {
      Valid() && !st.threw
    }

    constructor (env: Env, devices: Devices, context: Interpolation.Context)
      requires env.writeFails == devices.fails && env.setFails == devices.setFails && env.torn == devices.torn
      ensures Ready() && this.env == env && this.devices == devices && this.context == context
      ensures st == Fresh(Start(devices.writes, devices.sets, context.ints, context.strs))
    {
      this.env, this.devices, this.context, before, clip := env, devices, context, devices.events, devices.clip;
      st := Fresh(Start(devices.writes, devices.sets, context.ints, context.strs));
      new;
      assert Effects([]) == [] && Trace(env, [], clip) == [];
    }

    method LoadFlag() returns (stop: bool)
      requires Ready()
      modifies this`st
      ensures Ready() && st == AfterLoad(env, old(st)) && stop == Sees(env, old(st))
    {
      hide Effects, Trace;
      EffectsOne(st.log, Load(env.stop(st.loads)));
      assert Effects(st.log) + [] == Effects(st.log);
      stop := env.stop(st.loads);
      st := AfterLoad(env, st);
    }

    /** A tap on the device, in the log, and the exception of a failing one. */
    method TapOnce(code: int)
      requires Ready()
      modifies this`st, devices
      ensures Valid() && st == Emit(env, old(st), Tap(code))
    {
      hide Effects, Trace, TapEvents, WriteRun, NextWrite;
      var f := Logged(env, st.writes, st.sets, Tap(code));
      EffectsOne(st.log, Done(f));
      TraceGrows(env, Effects(st.log), f, clip);
      var ok := devices.TapKey(code);
      assert TapEvents(code)[..TAP_WRITES] == TapEvents(code) by { TapLength(code); }
      TapLength(code);
      st := Emit(env, st, Tap(code));
    }

    /** A paste on the devices and in the log. */
    method PasteOnce(text: string)
      requires Ready()
      modifies this`st, devices
      ensures Valid() && st == Emit(env, old(st), Paste(text))
    {
      hide Effects, Trace, ComboEvents, WriteRun, NextWrite;
      var f := Logged(env, st.writes, st.sets, Paste(text));
      EffectsOne(st.log, Done(f));
      TraceGrows(env, Effects(st.log), f, clip);
      assert PasteCombo()[..COMBO_WRITES] == PasteCombo();
      var ok := devices.PasteTextSynchronously(text);
      st := Emit(env, st, Paste(text));
    }

    method SleepInterruptible(ms: nat) returns (ok: bool)
      requires Ready()
      modifies this`st
      ensures Ready() && (st, ok) == SleepChecked(env, old(st), ms)
    {
      hide Effects, Trace, Ready;
      var remaining := ms;
      while remaining > 0
        invariant Ready() && SleepChecked(env, st, remaining) == SleepChecked(env, old(st), ms)
      {
        var stop := LoadFlag();
        if stop {
          return false;
        }
        var slice := Slice(remaining);
        Slept(slice);
        remaining := remaining - slice;
      }
      var stop := LoadFlag();
      ok := !stop;
    }

    method Slept(ms: nat)
      requires Ready()
      modifies this`st
      ensures Ready() && st == old(st).(slept := old(st).slept + ms)
    {
      st := st.(slept := st.slept + ms);
    }

    method Drew()
      requires Valid()
      modifies this`st
      ensures Valid() && st == old(st).(draws := old(st).draws + 1)
    {
      st := st.(draws := st.draws + 1);
    }

    method RunSleep(ms: nat)
      requires Ready()
      modifies this`st
      ensures Ready() && st == SleepCommand(env, old(st), ms)
    {
      hide Effects, Trace, Ready;
      var remaining := ms;
      while remaining > 0
        invariant Ready() && SleepCommand(env, st, remaining) == SleepCommand(env, old(st), ms)
      {
        var stop := LoadFlag();
        if stop {
          return;
        }
        var slice := Slice(remaining);
        Slept(slice);
        remaining := remaining - slice;
      }
    }

    /** False when a load saw the stop, or when the device threw. */
    method TapRepeatedly(code: int, n: nat, ms: nat) returns (ok: bool)
      requires Ready()
      modifies this`st, devices
      ensures Valid() && (st, ok) == TapRepeat(env, old(st), code, n, ms) && (ok ==> Ready())
    {
      hide Effects, Trace, Valid, SleepChecked, DeviceCall, Logged;
      for i := 0 to n
        invariant Ready() && TapRepeat(env, st, code, n - i, ms) == TapRepeat(env, old(st), code, n, ms)
      {
        var stop := LoadFlag();
        if stop {
          return false;
        }
        TapOnce(code);
        if st.threw {
          return false;
        }
        ok := SleepInterruptible(ms);
        if !ok {
          return;
        }
      }
      ok := true;
    }

    /** `SendInputCommand::execute_interruptible`. */
    method RunSend(parts: seq<Part>)
      requires Ready()
      modifies this`st, devices
      ensures Valid() && st == SendParts(env, old(st), parts)
    {
      hide Effects, Trace, Valid, TapRepeat, PasteEffect, DeviceCall, Logged;
      assert parts[0..] == parts;
      for i := 0 to |parts|
        invariant Ready() && SendParts(env, st, parts[i..]) == SendParts(env, old(st), parts)
      {
        assert parts[i..][0] == parts[i] && parts[i..][1..] == parts[i + 1..];
        var stop := LoadFlag();
        if stop {
          return;
        }
        match parts[i]
        case Key(code, count) =>
          var ok := TapRepeatedly(code, if count < 0 then 0 else count, 5);
          if !ok {
            return;
          }
        case Chunk(text) =>
          if text != "" {
            PasteInterpolated(text);
            if st.threw {
              return;
            }
          }
      }
      assert parts[|parts|..] == [];
    }

    /** Interpolate and paste. */
    method PasteInterpolated(text: string)
      requires Ready()
      modifies this`st, devices
      ensures Valid() && st == Perform(env, old(st), PasteEffect(env, old(st).draws, old(st).strs, text))
    {
      hide Effects, Trace, Interpolation.InterpolateOr, DeviceCall, Logged;
      var final := context.InterpolateText(text, ClockAt(env, st.draws), env.undefined(st.draws));
      PasteOnce(final);
      Drew();
    }

    /** An effect without a device call, and the variable it writes. */
    method WriteVariable(f: Effect)
      requires Ready() && !f.Tap? && !f.Paste? && !f.Failed?
      modifies this`st, context
      ensures Ready() && st == Perform(env, old(st), f)
    {
      hide Effects, Trace;
      EffectsOne(st.log, Done(f));
      TraceGrows(env, Effects(st.log), f, clip);
      assert devices.events + [] == devices.events;
      if f.SetInt? {
        context.SetVariable(f.name, f.value);
      } else if f.SetStr? {
        context.SetVariableStr(f.name, f.text);
      }
      st := Perform(env, st, f);
    }

    /** `evaluate_condition`; `None` stands for its exception. */
    method EvaluateCondition(condition: string) returns (verdict: Option<bool>)
      requires Ready()
      ensures verdict == Verdict(env, st.draws, st.ints, condition)
    {
      hide Effects, Trace, Conditions.ParseCondition;
      var parsed := Conditions.ParseCondition(condition);
      match parsed
      case None => verdict := None;
      case Some(Drawn(min, max, op, value)) =>
        var lo, hi := min, max;
        if lo > hi {
          lo, hi := hi, lo;
        }
        verdict := Some(op.Holds(env.random(st.draws, lo, hi), value));
      case Some(Compared(name, op, value)) =>
        var left := context.GetVariable(name);
        verdict := Some(op.Holds(left, value));
    }

    /** `execute_interruptible` of one command. */
    method RunCommand(c: Command)
      requires Ready()
      modifies this`st, devices, context
      ensures Valid() && st == Execute(env, old(st), c)
      decreases c, 0
    {
      hide Effects, Trace, Valid, SendParts, SleepCommand, Verdict, ExecuteAll, OnceEffect, DeviceCall, Logged;
      match c
      case Send(parts) => RunSend(parts);
      case Sleep(ms) => RunSleep(ms);
      case Cancel =>
      case If(condition, thenBranch, elseBranch) =>
        var stop := LoadFlag();
        if stop {
          return;
        }
        var verdict := EvaluateCondition(condition);
        if verdict.None? {
          Throw();
          return;
        }
        Drew();
        RunCommands(if verdict.value then thenBranch else elseBranch);
      case _ =>
        var stop := LoadFlag();
        if stop {
          return;
        }
        var f := OnceEffect(env, st.draws, c);
        OnceIsCall(env, st.draws, c);
        if f.Some? {
          WriteVariable(f.value);
        }
    }

    method Throw()
      requires Valid()
      modifies this`st
      ensures Valid() && st == old(st).(threw := true)
    {
      st := st.(threw := true);
    }

    /** The loop over commands, of a branch or of the whole macro. */
    method RunCommands(cs: seq<Command>)
      requires Ready()
      modifies this`st, devices, context
      ensures Valid() && st == ExecuteAll(env, old(st), cs)
      decreases cs, 1
    {
      hide Effects, Trace, Valid, Execute;
      assert cs[0..] == cs;
      for i := 0 to |cs|
        invariant Ready() && ExecuteAll(env, st, cs[i..]) == ExecuteAll(env, old(st), cs)
      {
        assert cs[i..][0] == cs[i] && cs[i..][1..] == cs[i + 1..];
        var stop := LoadFlag();
        if stop {
          return;
        }
        RunCommand(cs[i]);
        if st.threw {
          return;
        }
      }
      assert cs[|cs|..] == [];
    }

    method RunTailKey(code: int, count: int) returns (ok: bool)
      requires Ready()
      modifies this`st, devices
      ensures Valid() && (st, ok) == TailTaps(env, old(st), code, if count < 0 then 0 else count) && (ok ==> Ready())
    {
      hide Effects, Trace, Valid, DeviceCall, Logged;
      var n := if count < 0 then 0 else count;
      for i := 0 to n
        invariant Ready() && TailTaps(env, st, code, n - i) == TailTaps(env, old(st), code, n)
      {
        var stop := LoadFlag();
        if stop {
          return false;
        }
        TapOnce(code);
        if st.threw {
          return false;
        }
      }
      ok := true;
    }

    /** `execute_legacy_replacement`. */
    method RunLegacyReplacement(text: string, tail: seq<(int, int)>)
      requires Ready()
      modifies this`st, devices
      ensures Valid() && st == LegacyReplacement(env, old(st), text, tail)
    {
      hide Effects, Trace, Valid, TailTaps, DeviceCall, Logged;
      var stop := LoadFlag();
      if stop {
        return;
      }
      PasteOnce(text);
      if st.threw {
        return;
      }
      ghost var start := st;
      assert tail[0..] == tail;
      for i := 0 to |tail|
        invariant Ready() && TailKeys(env, st, tail[i..]) == TailKeys(env, start, tail)
      {
        assert tail[i..][0] == tail[i] && tail[i..][1..] == tail[i + 1..];
        var ok := RunTailKey(tail[i].0, tail[i].1);
        if !ok {
          return;
        }
      }
      assert tail[|tail|..] == [];
    }

    /** `execute_macro`: the run the safety theorems are about, and the events it causes; an exception of
        the devices or of a condition ends it. */
    method RunMacro(job: Job)
      requires Ready()
      modifies this`st, devices, context
      ensures Valid() && st == ExecuteMacro(env, old(st), job)
    {
      hide Effects, Trace, Valid, TapRepeat, ExecuteAll, LegacyReplacement;
      if job.eraseTrigger {
        var ok := TapRepeatedly(KEY_BACKSPACE, |job.triggerKeys|, 8);
        if !ok {
          return;
        }
      }
      var stop := LoadFlag();
      if stop {
        return;
      }
      if job.commands != [] {
        RunCommands(job.commands);
        return;
      }
      if job.text != "" {
        RunLegacyReplacement(job.text, job.tail);
      }
    }
  }

  lemma TapLength(code: int)
    ensures |TapEvents(code)| == TAP_WRITES
  {
  }
}
