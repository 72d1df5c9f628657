/** The three threads of the daemon, one step per critical section or load of the stop flag
    (src/Daemon.cpp:61-265). */
module DaemonModel {
  import opened Wrappers
  import Macro
  import opened Matching

  datatype RawEvent = RawEvent(isKey: bool, code: int, value: int)

  // ---- what each mutex protects ----------------------------------------------------------

  /** Under `mutex_`. */
  datatype Matcher = Matcher(ring: seq<int>, capacity: nat, hotstrings: seq<Hotstring>, pressed: set<int>)

  /** Under `macro_mutex_`, with the atomic stop flag. */
  datatype Tasks = Tasks(queue: seq<Macro.Job>, stopRequested: bool, workerStop: bool)

  /** `forward` writes key events only. */
  function Forwarded(ev: RawEvent): seq<RawEvent> { if ev.isKey then [ev] else [] }

  predicate IsPress(ev: RawEvent) { ev.isKey && ev.value == 1 }

  function PressedBy(pressed: set<int>, ev: RawEvent): set<int> {
    if !ev.isKey || !IsModifier(ev.code) then pressed
    else if ev.value == 1 then pressed + {ev.code}
    else if ev.value == 0 then pressed - {ev.code}
    else pressed
  }

  /** The first critical section of `handle_event`. */
  function HandleKey(m: Matcher, ev: RawEvent): Matcher {
    m.(pressed := PressedBy(m.pressed, ev), ring := if IsPress(ev) then Push(m.ring, m.capacity, ev.code) else m.ring)
  }

  /** The matcher after a reload, and the one of a new daemon. */
  function Loaded(hs: seq<Hotstring>): Matcher { Matcher([], RingCapacity(hs), hs, {}) }

  /** `find_match`. */
  function Found(m: Matcher): Option<Hotstring> {
    match BestOf(m.hotstrings, m.ring, m.pressed)
    case None => None
    case Some(i) => Some(m.hotstrings[i])
  }

  /** `is_interrupt_macro`: only top-level commands count. */
  predicate IsInterrupt(job: Macro.Job) { exists i :: 0 <= i < |job.commands| && job.commands[i].Cancel? }

  function SubmitTo(t: Tasks, job: Macro.Job): Tasks { if t.workerStop then t else t.(queue := t.queue + [job]) }

  function RequestStop(t: Tasks): Tasks { t.(queue := [], stopRequested := true) }

  function CloseTasks(t: Tasks): Tasks { t.(queue := [], workerStop := true) }

  function TakeFrom(t: Tasks): Tasks
    requires t.queue != []
  {
    t.(queue := t.queue[1..], stopRequested := false)
  }

  // ---- where each thread stands ------------------------------------------------------------

  /** The `run()` thread: it handles one event at a time and shuts the worker down at the end. */
  datatype EventThread =
    | Polling
    | Forwarding(ev: RawEvent)
    | Finding
    | Interrupting
    | Submitting(hotstring: Hotstring)
    | Clearing
    | Closing          // entered stop_macro_worker
    | Emptied          // behind its request_macro_stop
    | Joining          // behind its second critical section
    | Gone

  /** The reloading thread. */
  datatype IpcThread = Idle | Loading

  /** The worker; `seen` is what the loads of the flag have seen during the job. */
  datatype WorkerThread = Waiting | Running(job: Macro.Job, index: nat, seen: seq<bool>) | Finished

  datatype Fate = Queued | Started | Dropped

  /** A job that has returned, and what its loads of the flag saw. */
  datatype Outcome = Outcome(index: nat, seen: seq<bool>)

  /** What happened so far; no thread reads it. */
  datatype History = History(
    received: seq<RawEvent>,    // every event read from the physical keyboard
    resetAt: nat,               // how many there were when the ring was last emptied
    loadedAt: nat,              // how many there were when the script was loaded
    used: seq<(nat, nat)>,      // the range of key presses of every match
    submitted: seq<Macro.Job>,        // every job that entered the queue
    fates: seq<Fate>,           // what became of it
    started: seq<nat>,          // the jobs started, in order
    returned: seq<Outcome>,     // the jobs that returned
    forwarded: seq<RawEvent>)   // every event written to the virtual keyboard

  datatype Config = Config(
    matcher: Matcher,
    tasks: Tasks,
    event: EventThread,
    ipc: IpcThread,
    worker: WorkerThread,
    history: History)

  datatype Action =
    | KeyEvent(ev: RawEvent) | Forward | Find | Interrupt | Submit | ClearRing
    | BeginShutdown | StopForShutdown | CloseQueue | Join
    | ReloadStop | ReloadSwap(hotstrings: seq<Hotstring>) | ReloadFails
    | Take | LoadFlag | Return | Exit

  predicate Enabled(c: Config, a: Action) {
    match a
    case KeyEvent(_) => c.event.Polling?
    case Forward => c.event.Forwarding?
    case Find => c.event.Finding?
    case Interrupt => c.event.Interrupting?
    case Submit => c.event.Submitting?
    case ClearRing => c.event.Clearing?
    case BeginShutdown => c.event.Polling?
    case StopForShutdown => c.event.Closing?
    case CloseQueue => c.event.Emptied?
    case Join => c.event.Joining? && c.worker.Finished?
    case ReloadStop => c.ipc.Idle?
    case ReloadSwap(_) => c.ipc.Loading?
    case ReloadFails => c.ipc.Loading?
    case Take => c.worker.Waiting? && !c.tasks.workerStop && c.tasks.queue != []
    case LoadFlag => c.worker.Running?
    case Return => c.worker.Running?
    case Exit => c.worker.Waiting? && c.tasks.workerStop
  }

  /** The codes of the key presses among the events: key events of value 1, neither releases (0) nor
      auto-repeats (2). */
  function Presses(events: seq<RawEvent>): seq<int> {
    if events == [] then []
    else
      var ev := events[|events| - 1];
      Presses(events[..|events| - 1]) + if ev == RawEvent(true, ev.code, 1) then [ev.code] else []
  }

  function DropQueued(fates: seq<Fate>): (r: seq<Fate>)
    ensures |r| == |fates|
    ensures forall i :: 0 <= i < |fates| ==> r[i] == if fates[i].Queued? then Dropped else fates[i]
  {
    if fates == [] then [] else [if fates[0].Queued? then Dropped else fates[0]] + DropQueued(fates[1..])
  }

  function Dropping(h: History): History { h.(fates := DropQueued(h.fates)) }

  function Apply(c: Config, a: Action): Config
    requires Enabled(c, a)
  {
    var h := c.history;
    match a
    case KeyEvent(ev) =>
      c.(matcher := HandleKey(c.matcher, ev), event := Forwarding(ev),
         history := h.(received := h.received + [ev]))
    case Forward =>
      c.(event := if IsPress(c.event.ev) then Finding else Polling,
         history := h.(forwarded := h.forwarded + Forwarded(c.event.ev)))
    case Find => ApplyFind(c)
    case Interrupt => c.(tasks := RequestStop(c.tasks), event := Clearing, history := Dropping(h))
    case Submit => ApplySubmit(c)
    case ClearRing =>
      c.(matcher := c.matcher.(ring := []), event := Polling, history := h.(resetAt := |h.received|))
    case BeginShutdown => c.(event := Closing)
    case StopForShutdown => c.(tasks := RequestStop(c.tasks), event := Emptied, history := Dropping(h))
    case CloseQueue => c.(tasks := CloseTasks(c.tasks), event := Joining, history := Dropping(h))
    case Join => c.(event := Gone)
    case ReloadStop => c.(tasks := RequestStop(c.tasks), ipc := Loading, history := Dropping(h))
    case ReloadSwap(hs) =>
      c.(matcher := Loaded(hs), ipc := Idle, history := h.(resetAt := |h.received|, loadedAt := |h.received|))
    case ReloadFails => c.(ipc := Idle)
    case Take => ApplyTake(c)
    case LoadFlag => c.(worker := c.worker.(seen := c.worker.seen + [c.tasks.stopRequested]))
    case Return =>
      c.(worker := Waiting, history := h.(returned := h.returned + [Outcome(c.worker.index, c.worker.seen)]))
    case Exit => c.(worker := Finished)
  }

  function ApplyFind(c: Config): Config {
    match Found(c.matcher)
    case None => c.(event := Polling)
    case Some(hotstring) =>
      var end := |Presses(c.history.received)|;
      var start := end - |hotstring.Trigger()|;
      c.(event := if IsInterrupt(hotstring.job) then Interrupting else Submitting(hotstring),
         history := c.history.(used := c.history.used + [(if start < 0 then 0 else start, end)]))
  }

  function ApplySubmit(c: Config): Config
    requires c.event.Submitting?
  {
    var job := c.event.hotstring.job;
    c.(tasks := SubmitTo(c.tasks, job), event := Clearing,
       history := if c.tasks.workerStop then c.history
                  else c.history.(submitted := c.history.submitted + [job], fates := c.history.fates + [Queued]))
  }

  function ApplyTake(c: Config): Config
    requires c.tasks.queue != []
  {
    var h := c.history;
    var index := |h.submitted| - |c.tasks.queue|;
    if 0 <= index < |h.fates| then
      c.(tasks := TakeFrom(c.tasks), worker := Running(c.tasks.queue[0], index, []),
         history := h.(fates := h.fates[index := Started], started := h.started + [index]))
    else c
  }

  function Initial(hs: seq<Hotstring>): Config {
    Config(Loaded(hs), Tasks([], false, false), Polling, Idle, Waiting, History([], 0, 0, [], [], [], [], [], []))
  }

  /** The configuration after a sequence of steps, if each was enabled. */
  function Run(c: Config, actions: seq<Action>): Option<Config>
    decreases |actions|
  {
    if actions == [] then Some(c)
    else if Enabled(c, actions[0]) then Run(Apply(c, actions[0]), actions[1..])
    else None
  }

  lemma {:induction false} RunAppend(c: Config, a: seq<Action>, b: seq<Action>)
    requires Run(c, a).Some?
    ensures Run(c, a + b) == Run(Run(c, a).value, b)
    decreases |a|
  {
    hide Enabled, Apply;
    if a == [] {
      assert a + b == b;
    } else {
      assert (a + b)[0] == a[0] && (a + b)[1..] == a[1..] + b;
      RunAppend(Apply(c, a[0]), a[1..], b);
    }
  }

  lemma RunOne(c: Config, a: Action)
    requires Enabled(c, a)
    ensures Run(c, [a]) == Some(Apply(c, a))
  {
    hide Enabled, Apply;
    assert [a][1..] == [];
  }

  lemma RunCons(c: Config, a: Action, rest: seq<Action>)
    requires Enabled(c, a)
    ensures Run(c, [a] + rest) == Run(Apply(c, a), rest)
  {
    hide Enabled, Apply;
    assert ([a] + rest)[1..] == rest;
  }

  lemma RunFive(c: Config, a1: Action, a2: Action, a3: Action, a4: Action, a5: Action)
    requires Enabled(c, a1) && Enabled(Apply(c, a1), a2) && Enabled(Apply(Apply(c, a1), a2), a3)
    requires Enabled(Apply(Apply(Apply(c, a1), a2), a3), a4)
    requires Enabled(Apply(Apply(Apply(Apply(c, a1), a2), a3), a4), a5)
    ensures Run(c, [a1, a2, a3, a4, a5]) == Some(Apply(Apply(Apply(Apply(Apply(c, a1), a2), a3), a4), a5))
  {
    hide Enabled, Apply;
    var c1 := Apply(c, a1);
    var c2 := Apply(c1, a2);
    var c3 := Apply(c2, a3);
    var c4 := Apply(c3, a4);
    RunOne(c4, a5);
    RunCons(c3, a4, [a5]);
    RunCons(c2, a3, [a4, a5]);
    RunCons(c1, a2, [a3, a4, a5]);
    RunCons(c, a1, [a2, a3, a4, a5]);
  }

  // ---- matching: the ring against the whole history --------------------------------------------

  /** The keys pressed since the ring was last emptied. */
  ghost function Recent(h: History): seq<int>
    requires h.resetAt <= |h.received|
  {
    Presses(h.received[h.resetAt..])
  }

  /** The events since the script was loaded. */
  ghost function SinceLoad(h: History): seq<RawEvent>
    requires h.loadedAt <= |h.received|
  {
    h.received[h.loadedAt..]
  }

  lemma PressesGrow(events: seq<RawEvent>, from: nat, ev: RawEvent)
    requires from <= |events|
    ensures (events + [ev])[from..] == events[from..] + [ev]
    ensures Presses((events + [ev])[from..]) ==
            Presses(events[from..]) + if ev == RawEvent(true, ev.code, 1) then [ev.code] else []
  {
    var all := events[from..] + [ev];
    assert (events + [ev])[from..] == all;
    assert all[..|all| - 1] == events[from..];
  }

  lemma {:induction false} PressesAppend(a: seq<RawEvent>, b: seq<RawEvent>)
    ensures Presses(a + b) == Presses(a) + Presses(b)
    decreases |b|
  {
    var n := |b|;
    if n == 0 {
      assert a + b == a;
    } else {
      PressesAppend(a, b[..n - 1]);
      assert (a + b)[..|a + b| - 1] == a + b[..n - 1];
    }
  }

  /** Where the event thread stands between the presses it waits for. */
  ghost predicate EventInv(c: Config) {
    var n := |c.history.received|;
    && (c.event.Forwarding? ==> n > 0 && c.history.received[n - 1] == c.event.ev)
    && (c.event.Finding? ==> n > 0 && c.history.received[n - 1] == RawEvent(true, c.history.received[n - 1].code, 1))
  }

  /** The modifier was pressed and not released since the script was loaded. */
  ghost predicate HeldDown(events: seq<RawEvent>, code: int) {
    exists i :: 0 <= i < |events| && events[i] == RawEvent(true, code, 1)
                && forall j :: i < j < |events| ==> events[j] != RawEvent(true, code, 0)
  }

  ghost predicate MatcherInv(c: Config) {
    var m, h := c.matcher, c.history;
    && h.resetAt <= |h.received| && h.loadedAt <= |h.received| && EventInv(c)
    && m.ring == LastKeys(Recent(h), m.capacity)
    && m.capacity >= 24 && Fits(m.hotstrings, m.capacity)
    && (forall code :: code in m.pressed <==> IsModifier(code) && HeldDown(SinceLoad(h), code))
  }

  lemma PressedFollows(pressed: set<int>, events: seq<RawEvent>, ev: RawEvent)
    requires forall code :: code in pressed <==> IsModifier(code) && HeldDown(events, code)
    ensures forall code :: code in PressedBy(pressed, ev) <==> IsModifier(code) && HeldDown(events + [ev], code)
  {
    hide IsModifier;
    forall code
      ensures code in PressedBy(pressed, ev) <==> IsModifier(code) && HeldDown(events + [ev], code)
    {
      HeldDownGrows(events, ev, code);
    }
  }

  lemma HeldDownGrows(events: seq<RawEvent>, ev: RawEvent, code: int)
    ensures HeldDown(events + [ev], code) <==>
              ev == RawEvent(true, code, 1) || (HeldDown(events, code) && ev != RawEvent(true, code, 0))
  {
    var all := events + [ev];
    var n := |events|;
    if ev == RawEvent(true, code, 1) {
      assert all[n] == ev;
    } else if HeldDown(events, code) && ev != RawEvent(true, code, 0) {
      var i :| 0 <= i < n && events[i] == RawEvent(true, code, 1)
               && forall j :: i < j < n ==> events[j] != RawEvent(true, code, 0);
      assert all[i] == events[i];
    }
    if HeldDown(all, code) && ev != RawEvent(true, code, 1) {
      var i :| 0 <= i < |all| && all[i] == RawEvent(true, code, 1)
               && forall j :: i < j < |all| ==> all[j] != RawEvent(true, code, 0);
      assert i < n && all[n] == ev;
      assert forall j :: 0 <= j < n ==> events[j] == all[j];
    }
  }

  lemma EventStep(c: Config, a: Action)
    requires EventInv(c) && Enabled(c, a)
    ensures EventInv(Apply(c, a))
  {
    hide HandleKey, Loaded, RequestStop, SubmitTo, TakeFrom, CloseTasks, BestOf, DropQueued, IsInterrupt, Presses;
  }

  lemma KeyEventStep(c: Config, ev: RawEvent)
    requires MatcherInv(c) && c.event.Polling?
    ensures MatcherInv(Apply(c, KeyEvent(ev)))
  {
    hide IsModifier, HeldDown, LastKeys, Push, Fits, PressedBy, Presses;
    var h := c.history;
    PressedFollows(c.matcher.pressed, SinceLoad(h), ev);
    PushKeepsLast(Recent(h), c.matcher.capacity, ev.code);
    PressesGrow(h.received, h.resetAt, ev);
    PressesGrow(h.received, h.loadedAt, ev);
    assert Recent(h) + [] == Recent(h);
  }

  lemma MatcherStep(c: Config, a: Action)
    requires MatcherInv(c) && Enabled(c, a)
    ensures MatcherInv(Apply(c, a))
  {
    hide IsModifier, HeldDown, LastKeys, Push, RingCapacity, BestOf, Fits, DropQueued, IsInterrupt, EventInv, HandleKey, Presses;
    EventStep(c, a);
    var h := c.history;
    if a.KeyEvent? {
      KeyEventStep(c, a.ev);
    } else if a.ReloadSwap? {
      CapacityFits(a.hotstrings);
      NothingYet(RingCapacity(a.hotstrings));
      assert h.received[|h.received|..] == [];
    } else if a.ClearRing? {
      NothingYet(c.matcher.capacity);
      assert h.received[|h.received|..] == [];
    }
  }

  lemma NothingYet(capacity: nat)
    ensures LastKeys([], capacity) == [] && Presses([]) == [] && forall code :: !HeldDown([], code)
  {
  }

  /** In every reachable configuration `find_match` on the bounded ring and the set of pressed keys
      gives what the specification gives on the whole history since the last reset. */
  lemma {:induction false} MatcherInvariant(c: Config, actions: seq<Action>)
    requires MatcherInv(c) && Run(c, actions).Some?
    ensures MatcherInv(Run(c, actions).value)
    decreases |actions|
  {
    hide MatcherInv, Enabled, Apply;
    if actions != [] {
      MatcherStep(c, actions[0]);
      MatcherInvariant(Apply(c, actions[0]), actions[1..]);
    }
  }

  lemma InitialMatcher(hs: seq<Hotstring>)
    ensures MatcherInv(Initial(hs))
  {
    hide LastKeys, HeldDown, RingCapacity;
    CapacityFits(hs);
    NothingYet(RingCapacity(hs));
  }

  /** The specification on the unbounded history. */
  ghost predicate Chosen(h: History, hs: seq<Hotstring>, i: nat)
    requires h.resetAt <= |h.received| && h.loadedAt <= |h.received|
  {
    && i < |hs| && Qualifies(h, hs[i])
    && forall j :: 0 <= j < |hs| && Qualifies(h, hs[j]) ==>
                     |hs[j].Trigger()| < |hs[i].Trigger()| || (|hs[j].Trigger()| == |hs[i].Trigger()| && i <= j)
  }

  /** The trigger ends the keys pressed since the last reset, and every modifier is held on one side. */
  ghost predicate Qualifies(h: History, hotstring: Hotstring)
    requires h.resetAt <= |h.received| && h.loadedAt <= |h.received|
  {
    && (exists earlier :: Recent(h) == earlier + hotstring.Trigger())
    && forall k :: 0 <= k < |hotstring.modifiers| ==> HeldOnASide(SinceLoad(h), hotstring.modifiers[k])
  }

  ghost predicate HeldOnASide(events: seq<RawEvent>, code: int) {
    (IsModifier(code) && HeldDown(events, code)) || (IsModifier(Counterpart(code)) && HeldDown(events, Counterpart(code)))
  }

  /** In every reachable configuration a search starts the hotstring chosen by the specification: its job is
      submitted, unless one of its commands is a Cancel; then everything is stopped.  Without one nothing starts. */
  lemma FindStarts(hs: seq<Hotstring>, actions: seq<Action>, c: Config, i: nat)
    requires Run(Initial(hs), actions) == Some(c) && Enabled(c, Find)
    ensures c.history.resetAt <= |c.history.received| && c.history.loadedAt <= |c.history.received|
    ensures Chosen(c.history, c.matcher.hotstrings, i) ==>
              var h := c.matcher.hotstrings[i];
              Apply(c, Find).event == if exists k :: 0 <= k < |h.job.commands| && h.job.commands[k].Cancel?
                                      then Interrupting else Submitting(h)
    ensures (forall j: nat :: !Chosen(c.history, c.matcher.hotstrings, j)) ==> Apply(c, Find).event == Polling
  {
    hide Run, Initial, BestOf, Chosen;
    FindRefines(hs, actions, c, i);
    var best := BestOf(c.matcher.hotstrings, c.matcher.ring, c.matcher.pressed);
    if best.Some? {
      FindRefines(hs, actions, c, best.value);
    }
  }

  /** `find_match` runs exactly for the presses: an event of any other kind or value leaves the ring and
      the tasks as they are and starts no match. */
  lemma OnlyPressesMatch(c: Config, ev: RawEvent)
    requires c.event.Polling?
    ensures var d := Apply(Apply(c, KeyEvent(ev)), Forward);
            if ev == RawEvent(true, ev.code, 1) then
              d.event == Finding && d.matcher.ring == Push(c.matcher.ring, c.matcher.capacity, ev.code)
            else
              d.event == Polling && d.matcher.ring == c.matcher.ring && d.tasks == c.tasks
  {
    hide Push;
  }

  /** A match is looked for only when the last event read is a press. */
  lemma FindFollowsPress(hs: seq<Hotstring>, actions: seq<Action>, c: Config)
    requires Run(Initial(hs), actions) == Some(c) && Enabled(c, Find)
    ensures c.history.received != []
    ensures var ev := c.history.received[|c.history.received| - 1]; ev == RawEvent(true, ev.code, 1)
  {
    hide Run, Initial, LastKeys, Fits, HeldDown;
    InitialMatcher(hs);
    MatcherInvariant(Initial(hs), actions);
  }

  lemma FindRefines(hs: seq<Hotstring>, actions: seq<Action>, c: Config, i: nat)
    requires Run(Initial(hs), actions) == Some(c)
    ensures c.history.resetAt <= |c.history.received| && c.history.loadedAt <= |c.history.received|
    ensures BestOf(c.matcher.hotstrings, c.matcher.ring, c.matcher.pressed) == Some(i)
       <==> Chosen(c.history, c.matcher.hotstrings, i)
  {
    hide Run, Initial, BestOf, HeldDown, LastKeys, EndsWith, Fits;
    InitialMatcher(hs);
    MatcherInvariant(Initial(hs), actions);
    var m, recent := c.matcher, Recent(c.history);
    BestOnRing(m.hotstrings, recent, m.capacity, m.pressed);
    assert forall code :: ModifierHeld(m.pressed, code) <==> HeldOnASide(SinceLoad(c.history), code);
    assert forall j :: 0 <= j < |m.hotstrings| ==>
        (Matches(m.hotstrings[j], recent, m.pressed) <==> Qualifies(c.history, m.hotstrings[j])) by {
      forall j | 0 <= j < |m.hotstrings|
        ensures EndsWith(recent, m.hotstrings[j].Trigger()) <==>
                exists earlier :: recent == earlier + m.hotstrings[j].Trigger()
      {
        EndsWithMeaning(recent, m.hotstrings[j].Trigger());
      }
    }
    if BestOf(m.hotstrings, recent, m.pressed) == Some(i) {
      BestOfIsBest(m.hotstrings, recent, m.pressed);
    }
    if Chosen(c.history, m.hotstrings, i) {
      assert IsBest(m.hotstrings, recent, m.pressed, i);
      BestIsUnique(m.hotstrings, recent, m.pressed, i);
    }
  }
}
