/** When a reload and a shutdown are clean.  A job of the old script can start after a reload, and a job can
    start after the shutdown was entered; here is exactly when (src/Daemon.cpp:61-77 and 212-245). */
module DaemonGaps {
  import opened Wrappers
  import Macro
  import opened Matching
  import opened DaemonModel
  import opened DaemonSafety

  const OLD_JOB: Macro.Job := Macro.Job(true, [30], [], "x", [])
  const OLD_SCRIPT: seq<Hotstring> := [Hotstring([], OLD_JOB)]
  const PRESS: RawEvent := RawEvent(true, 30, 1)

  /** What one press of the trigger does on the run thread. */
  const TYPED: seq<Action> := [KeyEvent(PRESS), Forward, Find, Submit, ClearRing]

  lemma OldScriptFound()
    ensures BestOf(OLD_SCRIPT, [30], {}) == Some(0)
  {
    assert OLD_SCRIPT[..0] == [];
  }

  lemma TypedRuns(c: Config)
    requires c.event.Polling? && c.matcher.hotstrings == OLD_SCRIPT && c.matcher.ring == [] && c.matcher.pressed == {}
    requires c.matcher.capacity > 0 && !c.tasks.workerStop && c.tasks.queue == []
    ensures var r := Run(c, TYPED);
            && r.Some? && r.value.tasks.queue == [OLD_JOB] && r.value.event.Polling?
            && r.value.worker == c.worker && r.value.ipc == c.ipc && !r.value.tasks.workerStop
            && r.value.history.submitted == c.history.submitted + [OLD_JOB]
            && r.value.history.fates == c.history.fates + [Queued]
  {
    hide BestOf, Run;
    OldScriptFound();
    var c1 := Apply(c, KeyEvent(PRESS));
    assert c1.matcher.ring == [30] && c1.matcher.pressed == {};
    var c2 := Apply(c1, Forward);
    var c3 := Apply(c2, Find);
    assert c3.event == Submitting(OLD_SCRIPT[0]);
    var c4 := Apply(c3, Submit);
    var c5 := Apply(c4, ClearRing);
    RunFive(c, KeyEvent(PRESS), Forward, Find, Submit, ClearRing);
  }

  /** A reload stops the macros before it parses and swaps, so a job of the old script that is typed
      in between starts when the new script is already loaded. */
  lemma OldJobStartsAfterReload()
    ensures var r := Run(Initial(OLD_SCRIPT), [ReloadStop] + (TYPED + [ReloadSwap([]), Take]));
            r.Some? && r.value.matcher.hotstrings == [] && r.value.worker.Running? && r.value.worker.job == OLD_JOB
  {
    hide Run, TYPED;
    var c0 := Initial(OLD_SCRIPT);
    CapacityFits(OLD_SCRIPT);
    var c1 := Apply(c0, ReloadStop);
    RunCons(c0, ReloadStop, TYPED + [ReloadSwap([]), Take]);
    TypedRuns(c1);
    RunAppend(c1, TYPED, [ReloadSwap([]), Take]);
    var c2 := Run(c1, TYPED).value;
    assert [ReloadSwap([])] + [Take] == [ReloadSwap([]), Take];
    RunCons(c2, ReloadSwap([]), [Take]);
    RunOne(Apply(c2, ReloadSwap([])), Take);
  }

  /** Between entering `stop_macro_worker` and its first critical section a queued job can still start. */
  lemma JobStartsWhileClosing()
    ensures var r := Run(Initial(OLD_SCRIPT), TYPED + [BeginShutdown, Take]);
            r.Some? && r.value.event.Closing? && r.value.worker.Running?
  {
    hide Run, TYPED;
    var c0 := Initial(OLD_SCRIPT);
    CapacityFits(OLD_SCRIPT);
    TypedRuns(c0);
    RunAppend(c0, TYPED, [BeginShutdown, Take]);
    var c1 := Run(c0, TYPED).value;
    assert [BeginShutdown] + [Take] == [BeginShutdown, Take];
    RunCons(c1, BeginShutdown, [Take]);
    RunOne(Apply(c1, BeginShutdown), Take);
  }

  // ---- exactly when ----------------------------------------------------------------------------

  /** A queued job can always be started: by the idle worker, or when the running job has returned. */
  lemma QueuedCanStart(c: Config) returns (more: seq<Action>)
    requires JobsInv(c) && WorkerInv(c) && ShutdownInv(c) && c.tasks.queue != []
    ensures Run(c, more).Some? && Take in more
    ensures 0 <= FirstQueued(c) < |c.history.submitted| && FirstQueued(c) as nat !in c.history.started
    ensures FirstQueued(c) as nat in Run(c, more).value.history.started
  {
    hide Run;
    var first := FirstQueued(c);
    assert c.history.fates[first].Queued?;
    if c.worker.Running? {
      var c1 := Apply(c, Return);
      JobsStep(c, Return);
      JobsAfterTake(c1);
      RunOne(c1, Take);
      RunCons(c, Return, [Take]);
      more := [Return] + [Take];
    } else {
      JobsAfterTake(c);
      RunOne(c, Take);
      more := [Take];
    }
  }

  /** What every reachable configuration keeps. */
  lemma Reached(hs: seq<Hotstring>, actions: seq<Action>, c: Config)
    requires Run(Initial(hs), actions) == Some(c)
    ensures JobsInv(c) && WorkerInv(c) && ShutdownInv(c)
  {
    hide Run, Loaded, JobsInv, WorkerInv, ShutdownInv;
    Conservation(hs, actions, c);
    assert ShutdownInv(Initial(hs)) by { StartsOpen(hs); }
    NoStartDuringShutdown(Initial(hs), actions);
  }

  lemma StartsOpen(hs: seq<Hotstring>)
    ensures ShutdownInv(Initial(hs))
  {
    hide Loaded;
  }

  /** The jobs found before a moment: the submitted ones, and the one about to be submitted. */
  function JobsFound(c: Config): nat { |c.history.submitted| + if c.event.Submitting? then 1 else 0 }

  /** Between `c` and `d` a job started that was found before `c`. */
  ghost predicate StartedOld(c: Config, d: Config) {
    exists i :: i in d.history.started && i !in c.history.started && i < JobsFound(c)
  }

  /** The configuration after the swap and further steps. */
  ghost function ReloadRun(c: Config, hs: seq<Hotstring>, more: seq<Action>): Option<Config>
    requires c.ipc.Loading?
  {
    Run(Apply(c, ReloadSwap(hs)), more)
  }

  /** A reload lets a job of the old script start if and only if, at the swap, a job is queued or about to
      be submitted. */
  lemma ReloadIsClean(hs0: seq<Hotstring>, actions: seq<Action>, c: Config, hs: seq<Hotstring>)
    requires Run(Initial(hs0), actions) == Some(c) && c.ipc.Loading?
    ensures (exists more :: ReloadRun(c, hs, more).Some? && StartedOld(c, ReloadRun(c, hs, more).value))
       <==> c.tasks.queue != [] || c.event.Submitting?
  {
    hide Run, JobsInv, WorkerInv, ShutdownInv, StartedOld, Loaded;
    Reached(hs0, actions, c);
    var c1 := Apply(c, ReloadSwap(hs));
    SwapKeepsJobs(c, hs);
    if c.tasks.queue != [] || c.event.Submitting? {
      var more := OldCanStart(c, c1);
      assert ReloadRun(c, hs, more) == Run(c1, more);
    } else {
      forall more | ReloadRun(c, hs, more).Some? ensures !StartedOld(c, ReloadRun(c, hs, more).value) {
        NoOldStarts(c, c1, more);
      }
    }
  }

  /** `c1` is `c` with another script. */
  ghost predicate OnlySwapped(c: Config, c1: Config) {
    && JobsInv(c1) && WorkerInv(c1) && ShutdownInv(c1)
    && c1.tasks == c.tasks && c1.event == c.event && c1.worker == c.worker
    && c1.history.submitted == c.history.submitted && c1.history.fates == c.history.fates
    && c1.history.started == c.history.started
  }

  lemma SwapKeepsJobs(c: Config, hs: seq<Hotstring>)
    requires JobsInv(c) && WorkerInv(c) && ShutdownInv(c) && c.ipc.Loading?
    ensures OnlySwapped(c, Apply(c, ReloadSwap(hs)))
  {
    hide JobsInv, WorkerInv, Loaded;
    JobsStep(c, ReloadSwap(hs));
    ShutdownStep(c, ReloadSwap(hs));
  }

  lemma OldCanStart(c: Config, c1: Config) returns (more: seq<Action>)
    requires OnlySwapped(c, c1) && (c.tasks.queue != [] || c.event.Submitting?)
    ensures Run(c1, more).Some? && StartedOld(c, Run(c1, more).value)
  {
    hide Run, JobsInv, WorkerInv, ShutdownInv;
    if c1.event.Submitting? {
      var c2 := Apply(c1, Submit);
      JobsStep(c1, Submit);
      ShutdownStep(c1, Submit);
      assert c2.tasks.queue != [] && |c2.history.submitted| == |c1.history.submitted| + 1 by { SubmitQueues(c1); }
      var rest := QueuedCanStart(c2);
      RunCons(c1, Submit, rest);
      more := [Submit] + rest;
      assert FirstQueued(c2) as nat in Run(c1, more).value.history.started;
    } else {
      more := QueuedCanStart(c1);
      assert FirstQueued(c1) as nat in Run(c1, more).value.history.started;
    }
  }

  lemma SubmitQueues(c: Config)
    requires ShutdownInv(c) && c.event.Submitting?
    ensures var d := Apply(c, Submit);
            d.tasks.queue != [] && |d.history.submitted| == |c.history.submitted| + 1
            && d.history.started == c.history.started
  {
  }

  lemma NoOldStarts(c: Config, c1: Config, more: seq<Action>)
    requires OnlySwapped(c, c1) && c.tasks.queue == [] && !c.event.Submitting? && Run(c1, more).Some?
    ensures !StartedOld(c, Run(c1, more).value)
  {
    hide Run, WorkerInv, ShutdownInv;
    var d := Run(c1, more).value;
    JobsInvariant(c1, more);
    forall i: nat | i < JobsFound(c) && i !in c.history.started ensures i !in d.history.started {
      assert !c1.history.fates[i].Started? && !c1.history.fates[i].Queued?;
      DroppedStaysDropped(c1, more, i);
      NotStarted(d, i);
    }
  }

  /** After a clean swap, up to the next one, every job that starts is the job of a hotstring of the new script. */
  lemma CleanReloadRunsNewScript(hs0: seq<Hotstring>, actions: seq<Action>, c: Config, hs: seq<Hotstring>, more: seq<Action>, d: Config)
    requires Run(Initial(hs0), actions) == Some(c) && c.ipc.Loading?
    requires c.tasks.queue == [] && !c.event.Submitting?
    requires Run(Apply(c, ReloadSwap(hs)), more) == Some(d) && forall a :: a in more ==> !a.ReloadSwap?
    ensures forall i :: i in d.history.started && i !in c.history.started ==>
                          i < |d.history.submitted| && IsJobOf(hs, d.history.submitted[i])
  {
    hide Run, JobsInv, WorkerInv, ShutdownInv, Loaded, IsJobOf;
    Reached(hs0, actions, c);
    var c1 := Apply(c, ReloadSwap(hs));
    SwapKeepsJobs(c, hs);
    NoOldStarts(c, c1, more);
    assert NewJobs(c1, hs, |c.history.submitted|) by { SwapLoads(hs); }
    NewJobsInvariant(c1, more, hs, |c.history.submitted|);
    JobsInvariant(c1, more);
    forall i | i in d.history.started && i !in c.history.started
      ensures i < |d.history.submitted| && IsJobOf(hs, d.history.submitted[i])
    {
      StartedIsSubmitted(d, i);
      assert i >= |c.history.submitted|;
    }
  }

  lemma SwapLoads(hs: seq<Hotstring>)
    ensures Loaded(hs).hotstrings == hs
  {
  }

  lemma StartedIsSubmitted(c: Config, i: nat)
    requires JobsInv(c) && i in c.history.started
    ensures i < |c.history.submitted|
  {
  }

  ghost predicate IsJobOf(hs: seq<Hotstring>, job: Macro.Job) { exists k :: 0 <= k < |hs| && hs[k].job == job }

  /** The jobs from the n-th on, and the one about to be submitted, are jobs of the script. */
  ghost predicate NewJobs(c: Config, hs: seq<Hotstring>, n: nat) {
    && c.matcher.hotstrings == hs && n <= |c.history.submitted|
    && (c.event.Submitting? ==> IsJobOf(hs, c.event.hotstring.job))
    && forall i :: n <= i < |c.history.submitted| ==> IsJobOf(hs, c.history.submitted[i])
  }

  lemma NewJobsStep(c: Config, a: Action, hs: seq<Hotstring>, n: nat)
    requires NewJobs(c, hs, n) && Enabled(c, a) && !a.ReloadSwap?
    ensures NewJobs(Apply(c, a), hs, n)
  {
    hide IsInterrupt, BestOf, DropQueued, IsJobOf, Loaded;
    if a.Find? && Found(c.matcher).Some? {
      assert IsJobOf(hs, Found(c.matcher).value.job) by { FoundIsOfScript(c.matcher); }
    }
  }

  lemma FoundIsOfScript(m: Matcher)
    requires Found(m).Some?
    ensures IsJobOf(m.hotstrings, Found(m).value.job)
  {
    hide BestOf;
    var i := BestOf(m.hotstrings, m.ring, m.pressed).value;
    assert m.hotstrings[i] == Found(m).value;
  }

  lemma {:induction false} NewJobsInvariant(c: Config, actions: seq<Action>, hs: seq<Hotstring>, n: nat)
    requires NewJobs(c, hs, n) && Run(c, actions).Some? && forall a :: a in actions ==> !a.ReloadSwap?
    ensures NewJobs(Run(c, actions).value, hs, n)
    decreases |actions|
  {
    hide NewJobs, Enabled, Apply;
    if actions != [] {
      NewJobsStep(c, actions[0], hs, n);
      NewJobsInvariant(Apply(c, actions[0]), actions[1..], hs, n);
    }
  }

  /** From the entry of `stop_macro_worker` on a job can start if and only if one is queued at the entry. */
  lemma ClosingIsClean(hs: seq<Hotstring>, actions: seq<Action>, c: Config)
    requires Run(Initial(hs), actions) == Some(c) && c.event.Closing?
    ensures (exists more :: Run(c, more).Some? && Take in more) <==> c.tasks.queue != []
  {
    hide Run, JobsInv, WorkerInv, ShutdownInv;
    Reached(hs, actions, c);
    if c.tasks.queue != [] {
      var more := QueuedCanStart(c);
    } else {
      forall more | Run(c, more).Some? ensures Take !in more {
        NoTakeWhileClosing(c, more);
      }
    }
  }

  lemma {:induction false} NoTakeWhileClosing(c: Config, actions: seq<Action>)
    requires (c.event.Closing? || ShuttingDown(c)) && c.tasks.queue == [] && Run(c, actions).Some?
    ensures Take !in actions
    decreases |actions|
  {
    hide Apply;
    if actions != [] {
      ClosingStep(c, actions[0]);
      NoTakeWhileClosing(Apply(c, actions[0]), actions[1..]);
      assert forall i :: 0 <= i < |actions| ==> actions[i] == if i == 0 then actions[0] else actions[1..][i - 1];
    }
  }

  lemma ClosingStep(c: Config, a: Action)
    requires (c.event.Closing? || ShuttingDown(c)) && c.tasks.queue == [] && Enabled(c, a)
    ensures var d := Apply(c, a); (d.event.Closing? || ShuttingDown(d)) && d.tasks.queue == [] && a != Take
  {
    hide IsInterrupt, BestOf, HandleKey, Loaded, DropQueued;
  }
}
