/** Runs in which the worker follows the macro it executes: a job returns when its macro has nothing left to
    do, and not before (src/Daemon.cpp:230-336). */
module DaemonJobs {
  import opened Wrappers
  import opened Macro
  import MacroSafety
  import opened MacroPrefix
  import Matching
  import opened DaemonModel
  import opened DaemonSafety

  /** What one job reads: its world, and the variables it starts with. */
  datatype Input = Input(env: Env, start: Start)

  /** What a job has done after its loads saw `seen`: it goes on to the next load, and does nothing behind it. */
  function DoneSoFar(input: Input, job: Job, seen: seq<bool>): State {
    ExecuteMacro(input.env.(stop := Schedule(seen, true)), Fresh(input.start), job)
  }

  /** The macro makes no further load, and so has nothing left to do. */
  predicate HasFinished(input: Input, job: Job, seen: seq<bool>) { DoneSoFar(input, job, seen).loads <= |seen| }

  /** The worker loads the flag only while its macro goes on, and returns only when it has finished. */
  predicate Obeys(inputs: nat -> Input, c: Config, a: Action) {
    c.worker.Running? ==>
      var finished := HasFinished(inputs(c.worker.index), c.worker.job, c.worker.seen);
      (a.LoadFlag? ==> !finished) && (a.Return? ==> finished)
  }

  predicate ObeysAll(inputs: nat -> Input, c: Config, actions: seq<Action>)
    decreases |actions|
  {
    actions == []
    || (Enabled(c, actions[0]) && Obeys(inputs, c, actions[0]) && ObeysAll(inputs, Apply(c, actions[0]), actions[1..]))
  }

  /** Whatever the flag would have held later, a finished macro has done all it does. */
  lemma FinishedIsWhole(input: Input, job: Job, seen: seq<bool>, u: Env)
    requires OnceTrueAlwaysTrue(seen) && HasFinished(input, job, seen)
    requires SameWorld(input.env, u) && MacroSafety.StaysSet(u) && forall k :: 0 <= k < |seen| ==> u.stop(k) == seen[k]
    ensures Effects(DoneSoFar(input, job, seen).log) == Effects(ExecuteMacro(u, Fresh(input.start), job).log)
  {
    hide ExecuteMacro, Effects, SameWorld;
    var e := input.env.(stop := Schedule(seen, true));
    ScheduleStaysSet(e, seen, true);
    assert SameWorld(e, u) && SameWorld(u, e) by { SameFlagless(input.env, e, u); }
    EarlierStopIsPrefix(e, u, input.start, job);
    if true in seen {
      var i :| 0 <= i < |seen| && seen[i];
      assert u.stop(i);
      assert forall k: nat :: k >= i ==> u.stop(k);
      EarlierStopIsPrefix(u, e, input.start, job);
    }
  }

  lemma SameFlagless(a: Env, e: Env, u: Env)
    requires SameWorld(a, u) && e == a.(stop := e.stop)
    ensures SameWorld(e, u) && SameWorld(u, e)
  {
  }

  ghost predicate HasReturned(returned: seq<Outcome>, i: nat) { exists k :: 0 <= k < |returned| && returned[k].index == i }

  /** Every job that returned had finished, and every started job has returned or is running. */
  ghost predicate ReturnedInv(inputs: nat -> Input, c: Config) {
    var h := c.history;
    && (forall k :: 0 <= k < |h.returned| ==> IsOutcome(inputs, h, h.returned[k]))
    && (forall i :: i in h.started ==> (c.worker.Running? && i == c.worker.index) || HasReturned(h.returned, i))
  }

  ghost predicate IsOutcome(inputs: nat -> Input, h: History, r: Outcome) {
    r.index < |h.submitted| && OnceTrueAlwaysTrue(r.seen) && HasFinished(inputs(r.index), h.submitted[r.index], r.seen)
  }

  lemma ReturnedKept(inputs: nat -> Input, c: Config, d: Config)
    requires ReturnedInv(inputs, c)
    requires d.history.returned == c.history.returned && d.history.started == c.history.started
    requires c.history.submitted <= d.history.submitted
    requires c.worker.Running? ==> d.worker.Running? && d.worker.index == c.worker.index
    ensures ReturnedInv(inputs, d)
  {
    hide HasFinished, HasReturned;
  }

  lemma ReturnedAfterReturn(inputs: nat -> Input, c: Config)
    requires ReturnedInv(inputs, c) && WorkerInv(c) && SeenInv(c) && c.worker.Running? && Obeys(inputs, c, Return)
    ensures ReturnedInv(inputs, Apply(c, Return))
  {
    hide HasFinished;
    var d := Apply(c, Return);
    var n := |c.history.returned|;
    assert d.history.returned[n] == Outcome(c.worker.index, c.worker.seen);
    forall i | i in d.history.started ensures HasReturned(d.history.returned, i) {
      if i != c.worker.index {
        assert HasReturned(c.history.returned, i);
        var k :| 0 <= k < n && c.history.returned[k].index == i;
        assert d.history.returned[k].index == i;
      }
    }
  }

  lemma ReturnedAfterTake(inputs: nat -> Input, c: Config)
    requires ReturnedInv(inputs, c) && Enabled(c, Take)
    ensures ReturnedInv(inputs, Apply(c, Take))
  {
    hide HasFinished, HasReturned;
  }

  lemma ReturnedStep(inputs: nat -> Input, c: Config, a: Action)
    requires ReturnedInv(inputs, c) && WorkerInv(c) && SeenInv(c) && Enabled(c, a) && Obeys(inputs, c, a)
    ensures ReturnedInv(inputs, Apply(c, a))
  {
    hide IsInterrupt, Matching.BestOf, HandleKey, Loaded, DropQueued, ReturnedInv, WorkerInv, SeenInv, Obeys;
    if a.Return? {
      ReturnedAfterReturn(inputs, c);
    } else if a.Take? {
      ReturnedAfterTake(inputs, c);
    } else {
      ReturnedKept(inputs, c, Apply(c, a));
    }
  }

  lemma {:induction false} ReturnedInvariant(inputs: nat -> Input, c: Config, actions: seq<Action>)
    requires ReturnedInv(inputs, c) && JobsInv(c) && WorkerInv(c) && SeenInv(c) && ObeysAll(inputs, c, actions)
    ensures Run(c, actions).Some? && ReturnedInv(inputs, Run(c, actions).value)
    decreases |actions|
  {
    hide ReturnedInv, JobsInv, WorkerInv, SeenInv, Enabled, Apply, Obeys;
    if actions != [] {
      var a := actions[0];
      ReturnedStep(inputs, c, a);
      JobsStep(c, a);
      SeenStep(c, a);
      ReturnedInvariant(inputs, Apply(c, a), actions[1..]);
    }
  }

  /** In every such run, a job that started and no longer runs has done the whole of its macro: whatever the
      flag held behind its last load, its effects are those of the macro, and without a stop among its loads
      they are those of the unstopped macro. */
  lemma StartedJobsAreWhole(hs: seq<Matching.Hotstring>, actions: seq<Action>, c: Config, inputs: nat -> Input, i: nat) returns (seen: seq<bool>)
    requires Run(Initial(hs), actions) == Some(c) && ObeysAll(inputs, Initial(hs), actions)
    requires i in c.history.started && !(c.worker.Running? && c.worker.index == i)
    ensures Outcome(i, seen) in c.history.returned && i < |c.history.submitted|
    ensures forall u :: SameWorld(inputs(i).env, u) && MacroSafety.StaysSet(u) && (forall k :: 0 <= k < |seen| ==> u.stop(k) == seen[k]) ==>
              Effects(DoneSoFar(inputs(i), c.history.submitted[i], seen).log)
              == Effects(ExecuteMacro(u, Fresh(inputs(i).start), c.history.submitted[i]).log)
    ensures true !in seen ==>
              Effects(DoneSoFar(inputs(i), c.history.submitted[i], seen).log)
              == Effects(ExecuteMacro(Unstopped(inputs(i).env), Fresh(inputs(i).start), c.history.submitted[i]).log)
  {
    hide ExecuteMacro, Effects, DoneSoFar, HasFinished, Run, ObeysAll, Loaded, SameWorld;
    ReturnedInvariant(inputs, Initial(hs), actions);
    assert HasReturned(c.history.returned, i);
    var k :| 0 <= k < |c.history.returned| && c.history.returned[k].index == i;
    assert IsOutcome(inputs, c.history, c.history.returned[k]);
    seen := c.history.returned[k].seen;
    var input, job := inputs(i), c.history.submitted[i];
    forall u | SameWorld(input.env, u) && MacroSafety.StaysSet(u) && (forall k :: 0 <= k < |seen| ==> u.stop(k) == seen[k])
      ensures Effects(DoneSoFar(input, job, seen).log) == Effects(ExecuteMacro(u, Fresh(input.start), job).log)
    {
      FinishedIsWhole(input, job, seen, u);
    }
    if true !in seen {
      UnstoppedWorld(input.env);
      FinishedIsWhole(input, job, seen, Unstopped(input.env));
    }
  }

  lemma UnstoppedWorld(e: Env)
    ensures SameWorld(e, Unstopped(e)) && MacroSafety.StaysSet(Unstopped(e)) && forall k: nat :: !Unstopped(e).stop(k)
  {
  }
}
