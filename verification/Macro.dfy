/** What a macro does, load by load: the interruptible execution of every command
    (src/Daemon.cpp:267-336, src/commands/IfCommand.cpp:349-376,
    src/commands/SendInputCommand.cpp:117-154, src/commands/SleepCommand.cpp:25-40,
    include/ahkunix/commands/Command.hpp:22-31). */
module Macro {
  import opened Wrappers
  import opened Keys
  import opened SendInput
  import opened ScriptParser
  import opened Conditions
  import Interpolation
  import Decimal

  /** What a macro does to the world outside its own control flow.  A tap or a paste whose device call
      throws is `Failed`, with the numbers of the writes and of the clipboard writes it started at. */
  datatype Effect =
    | Tap(code: int)
    | Paste(text: string)
    | SetInt(name: string, value: int)
    | SetStr(name: string, text: string)
    | Show(path: string)
    | Failed(call: Effect, writes: nat, sets: nat)

  /** The history of a run: loads of the stop flag and effects, in program order. */
  datatype Entry = Load(stop: bool) | Done(effect: Effect)

  /** Everything a run reads that it does not write: random draws, the clock, the counter files, what
      undefined arithmetic gives, what the k-th load of the stop flag sees, which writes to the keyboard
      device and to the clipboard throw, and what a throwing one leaves in the clipboard. */
  datatype Env = Env(
    random: (nat, int, int) -> int,
    clock: (nat, nat, string) -> string,
    counter: (nat, string) -> int,
    undefined: nat -> string,
    stop: nat -> bool,
    writeFails: nat -> bool,
    setFails: nat -> bool,
    torn: nat -> string)

  datatype State = State(
    log: seq<Entry>,
    loads: nat,
    draws: nat,
    slept: nat,
    writes: nat,
    sets: nat,
    ints: map<string, int>,
    strs: map<string, string>,
    threw: bool)

  /** What a macro starts with: the variables, and how many writes went before. */
  datatype Start = Start(writes: nat, sets: nat, ints: map<string, int>, strs: map<string, string>)

  function Fresh(s: Start): State { State([], 0, 0, 0, s.writes, s.sets, s.ints, s.strs, false) }

  /** One load of the stop flag; what it sees is `Sees`. */
  function AfterLoad(e: Env, st: State): State {
    st.(log := st.log + [Load(e.stop(st.loads))], loads := st.loads + 1)
  }

  predicate Sees(e: Env, st: State) { e.stop(st.loads) }

  // ---- device calls -----------------------------------------------------------------

  /** How many of the next `n` writes come before the first one that fails. */
  function WriteRun(fails: nat -> bool, from: nat, n: nat): (k: nat)
    ensures k <= n
    ensures forall i :: from <= i < from + k ==> !fails(i)
    ensures k < n ==> fails(from + k)
    decreases n
  {
    if n == 0 || fails(from) then 0 else 1 + WriteRun(fails, from + 1, n - 1)
  }

  /** The number of the next write, after `n` of them were tried up to the first that fails. */
  function NextWrite(fails: nat -> bool, from: nat, n: nat): nat {
    var k := WriteRun(fails, from, n);
    if k == n then from + n else from + k + 1
  }

  const TAP_WRITES: nat := 4
  const COMBO_WRITES: nat := 6

  datatype Call = Call(ok: bool, writes: nat, sets: nat)

  /** Whether the device call of an effect returns, and the numbers of the next writes.  A paste writes
      the clipboard before and after its six key events, also when one of those fails. */
  function DeviceCall(e: Env, writes: nat, sets: nat, f: Effect): Call {
    match f
    case Tap(_) =>
      Call(WriteRun(e.writeFails, writes, TAP_WRITES) == TAP_WRITES, NextWrite(e.writeFails, writes, TAP_WRITES), sets)
    case Paste(_) =>
      if e.setFails(sets) then Call(false, writes, sets + 1)
      else
        Call(WriteRun(e.writeFails, writes, COMBO_WRITES) == COMBO_WRITES && !e.setFails(sets + 1),
             NextWrite(e.writeFails, writes, COMBO_WRITES), sets + 2)
    case _ => Call(true, writes, sets)
  }

  /** What is logged of an effect. */
  function Logged(e: Env, writes: nat, sets: nat, f: Effect): Effect {
    if DeviceCall(e, writes, sets, f).ok then f else Failed(f, writes, sets)
  }

  /** An effect; when its device call throws, so does the macro. */
  function Emit(e: Env, st: State, f: Effect): State {
    var call := DeviceCall(e, st.writes, st.sets, f);
    st.(log := st.log + [Done(Logged(e, st.writes, st.sets, f))], writes := call.writes, sets := call.sets,
        threw := st.threw || !call.ok)
  }

  function Written(ints: map<string, int>, f: Effect): map<string, int> {
    if f.SetInt? then ints[f.name := f.value] else ints
  }

  function WrittenStr(strs: map<string, string>, f: Effect): map<string, string> {
    if f.SetStr? then strs[f.name := f.text] else strs
  }

  /** An effect that reads the oracles, and the variable it may write. */
  function Perform(e: Env, st: State, f: Effect): State {
    Emit(e, st, f).(draws := st.draws + 1, ints := Written(st.ints, f), strs := WrittenStr(st.strs, f))
  }

  function Slice(ms: nat): nat { if ms < 10 then ms else 10 }

  /** `sleep_interruptible`: the flag is loaded before every slice and once more at the end. */
  function SleepChecked(e: Env, st: State, ms: nat): (State, bool)
    decreases ms
  {
    var st1 := AfterLoad(e, st);
    if Sees(e, st) then (st1, false)
    else if ms == 0 then (st1, true)
    else SleepChecked(e, st1.(slept := st.slept + Slice(ms)), ms - Slice(ms))
  }

  /** `SleepCommand::execute_interruptible`: no load once nothing remains. */
  function SleepCommand(e: Env, st: State, ms: nat): State
    decreases ms
  {
    if ms == 0 then st
    else
      var st1 := AfterLoad(e, st);
      if Sees(e, st) then st1
      else SleepCommand(e, st1.(slept := st.slept + Slice(ms)), ms - Slice(ms))
  }

  /** Load, tap and sleep, `n` times: a special key (5 ms) or the erasing of the trigger (8 ms). */
  function TapRepeat(e: Env, st: State, code: int, n: nat, ms: nat): (State, bool)
    decreases n
  {
    if n == 0 then (st, true)
    else
      var st1 := AfterLoad(e, st);
      if Sees(e, st) then (st1, false)
      else
        var st2 := Emit(e, st1, Tap(code));
        if st2.threw then (st2, false)
        else
          var (st3, ok) := SleepChecked(e, st2, ms);
          if !ok then (st3, false) else TapRepeat(e, st3, code, n - 1, ms)
  }

  function ClockAt(e: Env, draws: nat): Interpolation.Clock { (k: nat, name: string) => e.clock(draws, k, name) }

  function PasteEffect(e: Env, draws: nat, strs: map<string, string>, text: string): Effect {
    Paste(Interpolation.InterpolateOr(text, strs, ClockAt(e, draws), e.undefined(draws)))
  }

  function SendParts(e: Env, st: State, parts: seq<Part>): State
    decreases |parts|
  {
    if parts == [] then st
    else
      var st1 := AfterLoad(e, st);
      if Sees(e, st) then st1
      else
        match parts[0]
        case Key(code, count) =>
          var (st2, ok) := TapRepeat(e, st1, code, if count < 0 then 0 else count, 5);
          if ok && !st2.threw then SendParts(e, st2, parts[1..]) else st2
        case Chunk(text) =>
          var st2 := if text == "" then st1 else Perform(e, st1, PasteEffect(e, st1.draws, st1.strs, text));
          if st2.threw then st2 else SendParts(e, st2, parts[1..])
  }

  /** `random_range` after the bounds were put in order. */
  function DrawBetween(e: Env, draws: nat, a: int, b: int): int {
    if a > b then e.random(draws, b, a) else e.random(draws, a, b)
  }

  /** `evaluate_condition`: `None` stands for the exception of a malformed condition. */
  function Verdict(e: Env, draws: nat, ints: map<string, int>, condition: string): Option<bool> {
    match ParseCondition(condition)
    case None => None
    case Some(Compared(name, op, value)) => Some(op.Holds(if name in ints then ints[name] else 0, value))
    case Some(Drawn(a, b, op, value)) => Some(op.Holds(DrawBetween(e, draws, a, b), value))
  }

  /** What a command does that is checked once and then executed as a whole. */
  function OnceEffect(e: Env, draws: nat, c: Command): Option<Effect> {
    match c
    case Random(name, a, b) => Some(SetInt(name, DrawBetween(e, draws, a, b)))
    case Increment(name) => Some(SetStr(name, Decimal.ToString(e.counter(draws, name))))
    case ShowMarkdown(path) => Some(Show(path))
    case _ => None
  }

  function Once(e: Env, st: State, c: Command): State {
    match OnceEffect(e, st.draws, c)
    case None => st
    case Some(f) => Perform(e, st, f)
  }

  /** `execute_interruptible` of one command. */
  function Execute(e: Env, st: State, c: Command): State
    decreases c
  {
    match c
    case Send(parts) => SendParts(e, st, parts)
    case Sleep(ms) => SleepCommand(e, st, ms)
    case Cancel => st
    case If(condition, thenBranch, elseBranch) =>
      var st1 := AfterLoad(e, st);
      if Sees(e, st) then st1
      else
        (match Verdict(e, st1.draws, st1.ints, condition)
         case None => st1.(threw := true)
         case Some(ok) => ExecuteAll(e, st1.(draws := st1.draws + 1), if ok then thenBranch else elseBranch))
    case _ =>
      var st1 := AfterLoad(e, st);
      if Sees(e, st) then st1 else Once(e, st1, c)
  }

  /** The command loop: a load before every command; an exception leaves the loop. */
  function ExecuteAll(e: Env, st: State, cs: seq<Command>): State
    decreases cs
  {
    if cs == [] then st
    else
      var st1 := AfterLoad(e, st);
      if Sees(e, st) then st1
      else
        var st2 := Execute(e, st1, cs[0]);
        if st2.threw then st2 else ExecuteAll(e, st2, cs[1..])
  }

  /** Load and tap, `n` times, without a pause: one tail key. */
  function TailTaps(e: Env, st: State, code: int, n: nat): (State, bool)
    decreases n
  {
    if n == 0 then (st, true)
    else
      var st1 := AfterLoad(e, st);
      if Sees(e, st) then (st1, false)
      else
        var st2 := Emit(e, st1, Tap(code));
        if st2.threw then (st2, false) else TailTaps(e, st2, code, n - 1)
  }

  function TailKeys(e: Env, st: State, tail: seq<(int, int)>): State
    decreases |tail|
  {
    if tail == [] then st
    else
      var (st1, ok) := TailTaps(e, st, tail[0].0, if tail[0].1 < 0 then 0 else tail[0].1);
      if ok then TailKeys(e, st1, tail[1..]) else st1
  }

  /** `execute_legacy_replacement`. */
  function LegacyReplacement(e: Env, st: State, text: string, tail: seq<(int, int)>): State {
    var st1 := AfterLoad(e, st);
    if Sees(e, st) then st1
    else
      var st2 := Emit(e, st1, Paste(text));
      if st2.threw then st2 else TailKeys(e, st2, tail)
  }

  /** What the worker executes of a hotstring. */
  datatype Job = Job(eraseTrigger: bool, triggerKeys: seq<int>, commands: seq<Command>, text: string, tail: seq<(int, int)>)

  /** `execute_macro`. */
  function ExecuteMacro(e: Env, st: State, job: Job): State {
    var (st1, ok) := if job.eraseTrigger then TapRepeat(e, st, KEY_BACKSPACE, |job.triggerKeys|, 8) else (st, true);
    if !ok then st1
    else
      var st2 := AfterLoad(e, st1);
      if Sees(e, st1) then st2
      else if job.commands != [] then ExecuteAll(e, st2, job.commands)
      else if job.text != "" then LegacyReplacement(e, st2, job.text, job.tail)
      else st2
  }

  // ---- the non-interruptible execution ------------------------------------------------

  /** A run without loads. */
  datatype Plain = Plain(
    effects: seq<Effect>,
    draws: nat,
    slept: nat,
    writes: nat,
    sets: nat,
    ints: map<string, int>,
    strs: map<string, string>,
    threw: bool)

  function Effects(log: seq<Entry>): seq<Effect> {
    if log == [] then [] else (if log[0].Done? then [log[0].effect] else []) + Effects(log[1..])
  }

  function Core(st: State): Plain {
    Plain(Effects(st.log), st.draws, st.slept, st.writes, st.sets, st.ints, st.strs, st.threw)
  }

  function EmitPlain(e: Env, p: Plain, f: Effect): Plain {
    var call := DeviceCall(e, p.writes, p.sets, f);
    p.(effects := p.effects + [Logged(e, p.writes, p.sets, f)], writes := call.writes, sets := call.sets,
       threw := p.threw || !call.ok)
  }

  function PerformPlain(e: Env, p: Plain, f: Effect): Plain {
    EmitPlain(e, p, f).(draws := p.draws + 1, ints := Written(p.ints, f), strs := WrittenStr(p.strs, f))
  }

  function TapRepeatPlain(e: Env, p: Plain, code: int, n: nat, ms: nat): Plain
    decreases n
  {
    if n == 0 then p
    else
      var p1 := EmitPlain(e, p, Tap(code));
      if p1.threw then p1 else TapRepeatPlain(e, p1.(slept := p1.slept + ms), code, n - 1, ms)
  }

  /** `SendInputCommand::execute`. */
  function SendPartsPlain(e: Env, p: Plain, parts: seq<Part>): Plain
    decreases |parts|
  {
    if parts == [] then p
    else
      match parts[0]
      case Key(code, count) =>
        var p1 := TapRepeatPlain(e, p, code, if count < 0 then 0 else count, 5);
        if p1.threw then p1 else SendPartsPlain(e, p1, parts[1..])
      case Chunk(text) =>
        var p1 := if text == "" then p else PerformPlain(e, p, PasteEffect(e, p.draws, p.strs, text));
        if p1.threw then p1 else SendPartsPlain(e, p1, parts[1..])
  }

  function OncePlain(e: Env, p: Plain, c: Command): Plain {
    match OnceEffect(e, p.draws, c)
    case None => p
    case Some(f) => PerformPlain(e, p, f)
  }

  /** `execute` of one command: it never loads the flag. */
  function ExecutePlain(e: Env, p: Plain, c: Command): Plain
    decreases c
  {
    match c
    case Send(parts) => SendPartsPlain(e, p, parts)
    case Sleep(ms) => p.(slept := p.slept + ms)
    case Cancel => p
    case If(condition, thenBranch, elseBranch) =>
      (match Verdict(e, p.draws, p.ints, condition)
       case None => p.(threw := true)
       case Some(ok) => ExecuteAllPlain(e, p.(draws := p.draws + 1), if ok then thenBranch else elseBranch))
    case _ => OncePlain(e, p, c)
  }

  function ExecuteAllPlain(e: Env, p: Plain, cs: seq<Command>): Plain
    decreases cs
  {
    if cs == [] then p
    else
      var p1 := ExecutePlain(e, p, cs[0]);
      if p1.threw then p1 else ExecuteAllPlain(e, p1, cs[1..])
  }
}
