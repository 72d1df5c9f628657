/** Jobs, stops and shutdown over every interleaving of the three threads (src/Daemon.cpp:61-265). */
module DaemonSafety {
  import opened Wrappers
  import opened Macro
  import MacroSafety
  import opened MacroPrefix
  import opened Matching
  import opened DaemonModel

  // ---- conservation of jobs -----------------------------------------------------------------

  /** The first submitted job that is still in the queue. */
  function FirstQueued(c: Config): int { |c.history.submitted| - |c.tasks.queue| }

  ghost predicate Increasing(xs: seq<nat>) { forall i, j :: 0 <= i < j < |xs| ==> xs[i] < xs[j] }

  /** The submitted jobs split, in order: those before `FirstQueued` were started or dropped, those
      behind it are the queue; the started ones are listed once, in the order of submission. */
  ghost predicate JobsInv(c: Config) {
    var h, first := c.history, FirstQueued(c);
    && |h.fates| == |h.submitted| && 0 <= first
    && c.tasks.queue == h.submitted[first..]
    && (forall i :: 0 <= i < |h.fates| ==> (h.fates[i].Queued? <==> i >= first))
    && Increasing(h.started)
    && (forall i :: i in h.started <==> 0 <= i < |h.fates| && h.fates[i].Started?)
  }

  /** One job at a time: the job the worker runs is the one it started last. */
  ghost predicate WorkerInv(c: Config) {
    c.worker.Running? ==>
      var h := c.history;
      h.started != [] && h.started[|h.started| - 1] == c.worker.index < |h.submitted|
      && h.submitted[c.worker.index] == c.worker.job
  }

  /** No job with a top-level Cancel is ever queued. */
  ghost predicate InterruptInv(c: Config) {
    && (forall i :: 0 <= i < |c.history.submitted| ==> !IsInterrupt(c.history.submitted[i]))
    && (c.event.Submitting? ==> !IsInterrupt(c.event.hotstring.job))
  }

  lemma JobsAfterDrop(c: Config, t: Tasks)
    requires JobsInv(c) && t.queue == []
    ensures JobsInv(c.(tasks := t, history := Dropping(c.history)))
  {
    hide DropQueued;
    var h := c.history;
    assert h.submitted[|h.submitted|..] == [];
  }

  lemma JobsAfterSubmit(c: Config)
    requires JobsInv(c) && c.event.Submitting?
    ensures JobsInv(ApplySubmit(c))
  {
    var job, h, first := c.event.hotstring.job, c.history, FirstQueued(c);
    if !c.tasks.workerStop {
      assert (h.submitted + [job])[first..] == h.submitted[first..] + [job];
    }
  }

  lemma JobsAfterTake(c: Config)
    requires JobsInv(c) && c.tasks.queue != []
    ensures JobsInv(ApplyTake(c)) && WorkerInv(ApplyTake(c))
    ensures ApplyTake(c).history.started == c.history.started + [FirstQueued(c) as nat]
  {
    var h, first := c.history, FirstQueued(c);
    var fates := h.fates[first := Started];
    var started := h.started + [first];
    assert h.submitted[first..][1..] == h.submitted[first + 1..];
    forall i | i in h.started ensures i < first {
      assert h.fates[i].Started?;
    }
    forall i, j | 0 <= i < j < |started| ensures started[i] < started[j] {
      assert started[i] in h.started;
    }
    forall i ensures i in started <==> 0 <= i < |fates| && fates[i].Started? {
      assert i in started <==> i in h.started || i == first;
    }
  }

  lemma {:induction false} JobsStep(c: Config, a: Action)
    requires JobsInv(c) && WorkerInv(c) && Enabled(c, a)
    ensures JobsInv(Apply(c, a)) && WorkerInv(Apply(c, a))
  {
    hide IsInterrupt, BestOf, HandleKey, Loaded, DropQueued, JobsInv, WorkerInv;
    if a.Interrupt? || a.StopForShutdown? || a.ReloadStop? || a.CloseQueue? {
      JobsAfterDrop(c, Apply(c, a).tasks);
      SameJobs(c.(tasks := Apply(c, a).tasks, history := Dropping(c.history)), Apply(c, a));
      SameWorker(c, Apply(c, a));
    } else if a.Submit? {
      JobsAfterSubmit(c);
      SubmitKeepsWorker(c);
    } else if a.Take? {
      JobsAfterTake(c);
    } else {
      SameJobs(c, Apply(c, a));
      SameWorker(c, Apply(c, a));
    }
  }

  lemma SameJobs(c: Config, d: Config)
    requires JobsInv(c) && d.tasks.queue == c.tasks.queue && d.history.submitted == c.history.submitted
    requires d.history.fates == c.history.fates && d.history.started == c.history.started
    ensures JobsInv(d)
  {
  }

  lemma SameWorker(c: Config, d: Config)
    requires WorkerInv(c) && d.history.submitted == c.history.submitted && d.history.started == c.history.started
    requires d.worker.Running? ==> c.worker.Running? && d.worker.job == c.worker.job && d.worker.index == c.worker.index
    ensures WorkerInv(d)
  {
  }

  lemma SubmitKeepsWorker(c: Config)
    requires WorkerInv(c) && c.event.Submitting?
    ensures WorkerInv(ApplySubmit(c))
  {
  }

  /** Job conservation in every reachable configuration. */
  lemma {:induction false} JobsInvariant(c: Config, actions: seq<Action>)
    requires JobsInv(c) && WorkerInv(c) && Run(c, actions).Some?
    ensures JobsInv(Run(c, actions).value) && WorkerInv(Run(c, actions).value)
    decreases |actions|
  {
    hide JobsInv, WorkerInv, Enabled, Apply;
    if actions != [] {
      JobsStep(c, actions[0]);
      JobsInvariant(Apply(c, actions[0]), actions[1..]);
    }
  }

  lemma {:induction false} InterruptStep(c: Config, a: Action)
    requires InterruptInv(c) && Enabled(c, a)
    ensures InterruptInv(Apply(c, a))
  {
    hide IsInterrupt, BestOf, HandleKey, Loaded, DropQueued;
  }

  lemma {:induction false} InterruptsNeverQueued(c: Config, actions: seq<Action>)
    requires InterruptInv(c) && Run(c, actions).Some?
    ensures InterruptInv(Run(c, actions).value)
    decreases |actions|
  {
    hide InterruptInv, Enabled, Apply;
    if actions != [] {
      InterruptStep(c, actions[0]);
      InterruptsNeverQueued(Apply(c, actions[0]), actions[1..]);
    }
  }

  /** Job conservation from the start of the daemon. */
  lemma Conservation(hs: seq<Hotstring>, actions: seq<Action>, c: Config)
    requires Run(Initial(hs), actions) == Some(c)
    ensures JobsInv(c) && WorkerInv(c)
    ensures forall i :: 0 <= i < |c.tasks.queue| ==> !IsInterrupt(c.tasks.queue[i])
  {
    hide IsInterrupt, Loaded;
    JobsInvariant(Initial(hs), actions);
    InterruptsNeverQueued(Initial(hs), actions);
  }

  // ---- a requested stop is never lost -----------------------------------------------------------

  predicate IsStop(a: Action) { a.Interrupt? || a.StopForShutdown? || a.ReloadStop? }

  /** From a stop until the job returns the flag stays set, whatever the other threads do. */
  lemma {:induction false} FlagStaysSet(c: Config, actions: seq<Action>)
    requires c.worker.Running? && c.tasks.stopRequested && Run(c, actions).Some? && Return !in actions
    ensures var d := Run(c, actions).value;
            && d.tasks.stopRequested && d.worker.Running? && d.worker.job == c.worker.job
            && d.worker.index == c.worker.index
            && c.worker.seen <= d.worker.seen
            && forall k :: |c.worker.seen| <= k < |d.worker.seen| ==> d.worker.seen[k]
    decreases |actions|
  {
    hide IsInterrupt, BestOf, HandleKey, Loaded, DropQueued, ApplyFind;
    if actions != [] {
      var a := actions[0];
      assert a != Return;
      FlagKept(c, a);
      FlagStaysSet(Apply(c, a), actions[1..]);
    }
  }

  // ---- and a job starts without one -----------------------------------------------------------------

  /** In every reachable state a job starts with the flag clear and nothing seen. */
  lemma JobStartsClear(hs: seq<Hotstring>, actions: seq<Action>, c: Config)
    requires Run(Initial(hs), actions) == Some(c) && Enabled(c, Take)
    ensures var d := Apply(c, Take);
            !d.tasks.stopRequested
            && d.worker.Running? && d.worker.job == c.tasks.queue[0] && d.worker.seen == []
            && d.worker.index == |c.history.submitted| - |c.tasks.queue|
  {
    hide Run, Initial, IsInterrupt;
    Conservation(hs, actions, c);
  }

  ghost predicate Undisturbed(c: Config) {
    c.worker.Running? && !c.tasks.stopRequested && forall k :: 0 <= k < |c.worker.seen| ==> !c.worker.seen[k]
  }

  lemma StaysUndisturbed(c: Config, a: Action)
    requires Undisturbed(c) && Enabled(c, a) && a != Return && !IsStop(a)
    ensures var d := Apply(c, a);
            Undisturbed(d) && d.worker.job == c.worker.job && d.worker.index == c.worker.index
  {
    hide IsInterrupt, BestOf, HandleKey, Loaded, DropQueued;
  }

  /** As long as nothing stops it, no load of a job sees the flag set, whatever happened before it started. */
  lemma {:induction false} NothingSeenWithoutStop(c: Config, actions: seq<Action>)
    requires Undisturbed(c) && Run(c, actions).Some?
    requires forall i :: 0 <= i < |actions| ==> actions[i] != Return && !IsStop(actions[i])
    ensures var d := Run(c, actions).value;
            Undisturbed(d) && d.worker.job == c.worker.job && d.worker.index == c.worker.index
    decreases |actions|
  {
    hide Undisturbed, Enabled, Apply;
    if actions != [] {
      StaysUndisturbed(c, actions[0]);
      NothingSeenWithoutStop(Apply(c, actions[0]), actions[1..]);
    }
  }

  lemma FlagKept(c: Config, a: Action)
    requires c.worker.Running? && c.tasks.stopRequested && Enabled(c, a) && a != Return
    ensures var d := Apply(c, a);
            && d.tasks.stopRequested && d.worker.Running? && d.worker.job == c.worker.job
            && d.worker.index == c.worker.index
            && d.worker.seen == if a.LoadFlag? then c.worker.seen + [true] else c.worker.seen
  {
    hide IsInterrupt, BestOf, HandleKey, Loaded, DropQueued;
  }

  lemma {:induction false} DroppedStaysDropped(c: Config, actions: seq<Action>, i: nat)
    requires JobsInv(c) && WorkerInv(c) && i < |c.history.fates| && c.history.fates[i].Dropped? && Run(c, actions).Some?
    ensures var d := Run(c, actions).value; i < |d.history.fates| && d.history.fates[i].Dropped?
    decreases |actions|
  {
    hide JobsInv, WorkerInv, Enabled, Apply;
    if actions != [] {
      JobsStep(c, actions[0]);
      DroppedKept(c, actions[0], i);
      DroppedStaysDropped(Apply(c, actions[0]), actions[1..], i);
    }
  }

  lemma DroppedKept(c: Config, a: Action, i: nat)
    requires JobsInv(c) && i < |c.history.fates| && c.history.fates[i].Dropped? && Enabled(c, a)
    ensures i < |Apply(c, a).history.fates| && Apply(c, a).history.fates[i].Dropped?
  {
    hide IsInterrupt, BestOf, HandleKey, Loaded, DropQueued;
  }

  /** A job that is queued when a stop is requested never starts, in any continuation. */
  lemma QueuedJobsNeverStart(c: Config, stop: Action, actions: seq<Action>, i: nat)
    requires JobsInv(c) && WorkerInv(c) && IsStop(stop) && Enabled(c, stop)
    requires FirstQueued(c) <= i < |c.history.submitted|
    requires Run(Apply(c, stop), actions).Some?
    ensures i !in Run(Apply(c, stop), actions).value.history.started
  {
    hide Run, DropQueued, Apply, JobsInv, WorkerInv;
    JobsStep(c, stop);
    assert c.history.fates[i].Queued? by { QueuedAt(c, i); }
    StopDrops(c, stop, i);
    DroppedStaysDropped(Apply(c, stop), actions, i);
    JobsInvariant(Apply(c, stop), actions);
    NotStarted(Run(Apply(c, stop), actions).value, i);
  }

  lemma QueuedAt(c: Config, i: nat)
    requires JobsInv(c) && FirstQueued(c) <= i < |c.history.submitted|
    ensures i < |c.history.fates| && c.history.fates[i].Queued?
  {
  }

  lemma StopDrops(c: Config, stop: Action, i: nat)
    requires IsStop(stop) && Enabled(c, stop) && i < |c.history.fates| && c.history.fates[i].Queued?
    ensures var d := Apply(c, stop);
            i < |d.history.fates| && d.history.fates[i].Dropped? && d.tasks.stopRequested && d.tasks.queue == []
  {
  }

  lemma NotStarted(c: Config, i: nat)
    requires JobsInv(c) && i < |c.history.fates| && c.history.fates[i].Dropped?
    ensures i !in c.history.started
  {
  }

  // ---- what the loads of a job see -------------------------------------------------------------

  ghost predicate OnceTrueAlwaysTrue(seen: seq<bool>) { forall i, j :: 0 <= i <= j < |seen| && seen[i] ==> seen[j] }

  /** During a job the flag is only ever set. */
  ghost predicate SeenInv(c: Config) {
    c.worker.Running? ==>
      OnceTrueAlwaysTrue(c.worker.seen) && (true in c.worker.seen ==> c.tasks.stopRequested)
  }

  lemma {:induction false} SeenStep(c: Config, a: Action)
    requires SeenInv(c) && Enabled(c, a)
    ensures SeenInv(Apply(c, a))
  {
    hide IsInterrupt, BestOf, HandleKey, Loaded, DropQueued;
    if a.LoadFlag? {
      var seen := c.worker.seen;
      forall i, j | 0 <= i <= j < |seen| + 1 && (seen + [c.tasks.stopRequested])[i]
        ensures (seen + [c.tasks.stopRequested])[j]
      {
        if j == |seen| && i < |seen| {
          assert true in seen;
        }
      }
    }
  }

  lemma {:induction false} SeenInvariant(c: Config, actions: seq<Action>)
    requires SeenInv(c) && Run(c, actions).Some?
    ensures SeenInv(Run(c, actions).value)
    decreases |actions|
  {
    hide SeenInv, Enabled, Apply;
    if actions != [] {
      SeenStep(c, actions[0]);
      SeenInvariant(Apply(c, actions[0]), actions[1..]);
    }
  }

  /** What the k-th load of a job sees: what it saw, or what the flag holds `now`. */
  function Schedule(seen: seq<bool>, now: bool): nat -> bool {
    (k: nat) => if k < |seen| then seen[k] else now
  }

  /** Until it returns a job only adds to what it has seen. */
  lemma {:induction false} SeenGrows(c: Config, actions: seq<Action>)
    requires c.worker.Running? && Run(c, actions).Some? && Return !in actions
    ensures var d := Run(c, actions).value;
            && d.worker.Running? && d.worker.job == c.worker.job && d.worker.index == c.worker.index
            && c.worker.seen <= d.worker.seen
    decreases |actions|
  {
    if actions != [] {
      var a := actions[0];
      assert a != Return;
      SeenKept(c, a);
      hide Apply;
      SeenGrows(Apply(c, a), actions[1..]);
    }
  }

  lemma SeenKept(c: Config, a: Action)
    requires c.worker.Running? && Enabled(c, a) && a != Return
    ensures var d := Apply(c, a);
            && d.worker.Running? && d.worker.job == c.worker.job && d.worker.index == c.worker.index
            && c.worker.seen <= d.worker.seen
  {
    hide IsInterrupt, BestOf, HandleKey, Loaded, DropQueued;
  }

  lemma ScheduleStaysSet(e: Env, seen: seq<bool>, now: bool)
    requires OnceTrueAlwaysTrue(seen) && (true in seen ==> now) && e.stop == Schedule(seen, now)
    ensures MacroSafety.StaysSet(e)
  {
    forall i: nat, j: nat | i <= j && e.stop(i) ensures e.stop(j) {
      if i < |seen| {
        assert seen[i];
      }
    }
  }

  /** What the running job has done is what it does when the next load sees the flag.  Whatever the threads
      do, that is a prefix of its unstopped run. */
  lemma JobDoesPrefix(hs: seq<Hotstring>, actions: seq<Action>, c: Config, e: Env, s: Start)
    requires Run(Initial(hs), actions) == Some(c) && c.worker.Running?
    requires e.stop == Schedule(c.worker.seen, true)
    ensures var job := c.worker.job;
            Effects(ExecuteMacro(e, Fresh(s), job).log) <= Effects(ExecuteMacro(Unstopped(e), Fresh(s), job).log)
  {
    hide ExecuteMacro, Effects, Run, Initial, Stopped;
    assert SeenInv(Initial(hs)) by { NotRunning(hs); }
    SeenInvariant(Initial(hs), actions);
    ScheduleStaysSet(e, c.worker.seen, true);
    StoppedRunIsPrefix(e, s, c.worker.job);
  }

  /** What a job has done only grows, up to its return. */
  lemma JobGrows(hs: seq<Hotstring>, actions: seq<Action>, c: Config, more: seq<Action>, d: Config, e: Env, u: Env, s: Start)
    requires Run(Initial(hs), actions) == Some(c) && c.worker.Running?
    requires Run(c, more) == Some(d) && Return !in more
    requires SameWorld(e, u) && e.stop == Schedule(c.worker.seen, true)
    requires d.worker.Running? ==> u.stop == Schedule(d.worker.seen, true)
    ensures d.worker.Running? && d.worker.job == c.worker.job
    ensures Effects(ExecuteMacro(e, Fresh(s), c.worker.job).log) <= Effects(ExecuteMacro(u, Fresh(s), c.worker.job).log)
  {
    hide ExecuteMacro, Effects, Run, Initial, Stopped, SameWorld;
    assert SeenInv(Initial(hs)) by { NotRunning(hs); }
    SeenInvariant(Initial(hs), actions);
    SeenGrows(c, more);
    ScheduleStaysSet(e, c.worker.seen, true);
    forall k: nat | u.stop(k) ensures e.stop(k) {
      if k < |c.worker.seen| {
        assert d.worker.seen[k] == c.worker.seen[k];
      }
    }
    EarlierStopIsPrefix(e, u, s, c.worker.job);
  }

  lemma NotRunning(hs: seq<Hotstring>)
    ensures SeenInv(Initial(hs))
  {
  }

  /** A stop requested while a job runs lets it do at most one more effect: `c` is the moment of the
      request, the other configuration any later moment of the same job. */
  lemma StopEndsJob(c: Config, stop: Action, actions: seq<Action>, e: Env, s: Start)
    requires c.worker.Running? && IsStop(stop) && Enabled(c, stop)
    requires Run(Apply(c, stop), actions).Some? && Return !in actions
    requires var d := Run(Apply(c, stop), actions).value;
             d.worker.Running? && e.stop == Schedule(d.worker.seen, d.tasks.stopRequested)
    ensures |Effects(MacroSafety.AfterLoads(ExecuteMacro(e, Fresh(s), c.worker.job).log, |c.worker.seen|))| <= 1
  {
    hide ExecuteMacro, Effects, Run, MacroSafety.AfterLoads, DropQueued;
    FlagStaysSet(Apply(c, stop), actions);
    var m := |c.worker.seen|;
    assert forall k: nat :: k >= m ==> e.stop(k);
    MacroSafety.StopLimitsEffects(e, s, c.worker.job, m);
  }

  // ---- shutdown ------------------------------------------------------------------------------------

  /** The run thread has left the critical section of `request_macro_stop` in `stop_macro_worker`. */
  predicate ShuttingDown(c: Config) { c.event.Emptied? || c.event.Joining? || c.event.Gone? }

  ghost predicate ShutdownInv(c: Config) {
    && (ShuttingDown(c) ==> c.tasks.queue == [] && (c.worker.Running? ==> c.tasks.stopRequested))
    && (c.tasks.workerStop <==> c.event.Joining? || c.event.Gone?)
    && (c.worker.Finished? ==> c.tasks.workerStop)
  }

  lemma {:induction false} ShutdownStep(c: Config, a: Action)
    requires ShutdownInv(c) && Enabled(c, a)
    ensures ShutdownInv(Apply(c, a))
    ensures ShuttingDown(c) ==> ShuttingDown(Apply(c, a)) && Apply(c, a).history.started == c.history.started
  {
    hide IsInterrupt, BestOf, HandleKey, Loaded, DropQueued;
  }

  /** During shutdown no new job starts in any interleaving, and the flag of the running job is set. */
  lemma {:induction false} NoStartDuringShutdown(c: Config, actions: seq<Action>)
    requires ShutdownInv(c) && Run(c, actions).Some?
    ensures var d := Run(c, actions).value;
            && ShutdownInv(d)
            && (ShuttingDown(c) ==> ShuttingDown(d) && d.history.started == c.history.started && Take !in actions)
    decreases |actions|
  {
    hide ShutdownInv, Apply;
    if actions != [] {
      ShutdownStep(c, actions[0]);
      NoStartDuringShutdown(Apply(c, actions[0]), actions[1..]);
      assert forall i :: 0 <= i < |actions| ==> actions[i] == if i == 0 then actions[0] else actions[1..][i - 1];
      if ShuttingDown(c) {
        NothingToTake(c);
      }
    }
  }

  lemma NothingToTake(c: Config)
    requires ShutdownInv(c) && ShuttingDown(c)
    ensures !Enabled(c, Take)
  {
  }

  /** Once the worker is closed and idle, leaving its loop is its only step, and it is enabled. */
  lemma WorkerLeaves(hs: seq<Hotstring>, actions: seq<Action>, c: Config)
    requires Run(Initial(hs), actions) == Some(c) && c.event.Joining? && c.worker.Waiting?
    ensures Enabled(c, Exit) && !Enabled(c, Take) && !Enabled(c, LoadFlag) && !Enabled(c, Return)
    ensures Enabled(Apply(c, Exit), Join)
  {
    hide Run, Loaded;
    NoStartDuringShutdown(Initial(hs), actions);
  }

  /** `submit_macro` never meets a closed worker: it is called by the thread that closes it. */
  lemma SubmitIsNeverRejected(hs: seq<Hotstring>, actions: seq<Action>, c: Config)
    requires Run(Initial(hs), actions) == Some(c) && c.event.Submitting?
    ensures SubmitTo(c.tasks, c.event.hotstring.job).queue == c.tasks.queue + [c.event.hotstring.job]
  {
    hide Run, Loaded;
    NoStartDuringShutdown(Initial(hs), actions);
  }

  // ---- transparent forwarding ----------------------------------------------------------------------

  /** The key events among the events, in order. */
  ghost function KeyEvents(events: seq<RawEvent>): seq<RawEvent> {
    if events == [] then []
    else
      var n := |events| - 1;
      KeyEvents(events[..n]) + if events[n].isKey then [events[n]] else []
  }

  lemma KeyEventsGrow(events: seq<RawEvent>, ev: RawEvent)
    ensures KeyEvents(events + [ev]) == KeyEvents(events) + if ev.isKey then [ev] else []
  {
    assert (events + [ev])[..|events|] == events;
  }

  /** Every key event was forwarded, in order, but for the one being handled. */
  ghost predicate ForwardInv(c: Config) {
    KeyEvents(c.history.received) == c.history.forwarded + if c.event.Forwarding? then Forwarded(c.event.ev) else []
  }

  lemma {:induction false} ForwardStep(c: Config, a: Action)
    requires ForwardInv(c) && Enabled(c, a)
    ensures ForwardInv(Apply(c, a))
  {
    hide IsInterrupt, BestOf, HandleKey, Loaded, DropQueued, KeyEvents, Presses, RequestStop, SubmitTo,
         CloseTasks, TakeFrom;
    if a.Forward? {
      assert c.history.forwarded + Forwarded(c.event.ev) + [] == c.history.forwarded + Forwarded(c.event.ev);
    } else if a.KeyEvent? {
      KeyEventsGrow(c.history.received, a.ev);
      assert KeyEvents(c.history.received) + Forwarded(a.ev) == c.history.forwarded + [] + Forwarded(a.ev);
    }
  }

  lemma {:induction false} ForwardInvariant(c: Config, actions: seq<Action>)
    requires ForwardInv(c) && Run(c, actions).Some?
    ensures ForwardInv(Run(c, actions).value)
    decreases |actions|
  {
    hide ForwardInv, Enabled, Apply;
    if actions != [] {
      ForwardStep(c, actions[0]);
      ForwardInvariant(Apply(c, actions[0]), actions[1..]);
    }
  }

  /** No key is swallowed: an event is forwarded before anything is matched, queued or stopped for it. */
  lemma EveryKeyIsForwarded(hs: seq<Hotstring>, actions: seq<Action>, c: Config)
    requires Run(Initial(hs), actions) == Some(c)
    ensures var read := KeyEvents(c.history.received);
            c.history.forwarded <= read && |read| <= |c.history.forwarded| + 1
    ensures !c.event.Forwarding? ==> c.history.forwarded == KeyEvents(c.history.received)
  {
    hide Run, Loaded;
    ForwardInvariant(Initial(hs), actions);
  }

  // ---- no key press serves two matches -------------------------------------------------------------

  /** The ranges of presses that were matched do not overlap; a new match starts behind them. */
  ghost predicate UsedInv(c: Config) {
    var h := c.history;
    && (forall i :: 0 <= i < |h.used| ==> h.used[i].0 <= h.used[i].1 <= |Presses(h.received)|)
    && (forall i, j :: 0 <= i < j < |h.used| ==> h.used[i].1 <= h.used[j].0)
    && h.resetAt <= |h.received|
    && (!c.event.Interrupting? && !c.event.Submitting? && !c.event.Clearing? ==>
          forall i :: 0 <= i < |h.used| ==> h.used[i].1 <= |Presses(h.received[..h.resetAt])|)
  }

  lemma {:induction false} UsedStep(c: Config, a: Action)
    requires UsedInv(c) && MatcherInv(c) && Enabled(c, a)
    ensures UsedInv(Apply(c, a))
  {
    hide IsInterrupt, BestOf, HandleKey, Loaded, DropQueued, HeldDown, LastKeys, Fits, Presses, Recent, EventInv;
    var h := c.history;
    if a.Find? && Found(c.matcher).Some? {
      FindRange(c);
    } else if a.KeyEvent? {
      PressesGrow(h.received, 0, a.ev);
      assert h.received[0..] == h.received && (h.received + [a.ev])[0..] == h.received + [a.ev];
      assert (h.received + [a.ev])[..h.resetAt] == h.received[..h.resetAt];
    } else {
      assert h.received[..|h.received|] == h.received;
    }
  }

  lemma FindRange(c: Config)
    requires MatcherInv(c) && Found(c.matcher).Some?
    ensures var h := c.history;
            |Found(c.matcher).value.Trigger()| <= |Presses(h.received)| - |Presses(h.received[..h.resetAt])|
  {
    hide HeldDown, Fits;
    var h := c.history;
    BestOfIsBest(c.matcher.hotstrings, c.matcher.ring, c.matcher.pressed);
    PressesAppend(h.received[..h.resetAt], h.received[h.resetAt..]);
    assert h.received[..h.resetAt] + h.received[h.resetAt..] == h.received;
  }

  lemma {:induction false} PressesUsedOnce(c: Config, actions: seq<Action>)
    requires UsedInv(c) && MatcherInv(c) && Run(c, actions).Some?
    ensures UsedInv(Run(c, actions).value)
    decreases |actions|
  {
    hide UsedInv, MatcherInv, Enabled, Apply;
    if actions != [] {
      UsedStep(c, actions[0]);
      MatcherStep(c, actions[0]);
      PressesUsedOnce(Apply(c, actions[0]), actions[1..]);
    }
  }

  /** From the start of the daemon on, every key press belongs to at most one match. */
  lemma NoPressServesTwoMatches(hs: seq<Hotstring>, actions: seq<Action>, c: Config, i: nat, j: nat, k: nat)
    requires Run(Initial(hs), actions) == Some(c) && i < j < |c.history.used|
    ensures !(c.history.used[i].0 <= k < c.history.used[i].1 && c.history.used[j].0 <= k < c.history.used[j].1)
  {
    hide Run, MatcherInv;
    InitialMatcher(hs);
    PressesUsedOnce(Initial(hs), actions);
  }
}
