/** The methods of the daemon, each proved to do what its step of `DaemonModel` does to the shared
    state (src/Daemon.cpp:46-265). */
module Daemon {
  import opened Wrappers
  import Macro
  import opened Matching
  import opened DaemonModel

  /** `handle_event` without interference: what one event does to the shared state. */
  function HandleEvent(m: Matcher, t: Tasks, ev: RawEvent): (Matcher, Tasks) {
    var m1 := HandleKey(m, ev);
    if !IsPress(ev) then (m1, t)
    else
      match Found(m1)
      case None => (m1, t)
      case Some(h) => (m1.(ring := []), if IsInterrupt(h.job) then RequestStop(t) else SubmitTo(t, h.job))
  }

  /** The steps of the run thread for one event, when no other thread gets in between. */
  function EventSteps(m: Matcher, ev: RawEvent): seq<Action> {
    if !IsPress(ev) then [KeyEvent(ev), Forward]
    else
      match Found(HandleKey(m, ev))
      case None => [KeyEvent(ev), Forward, Find]
      case Some(h) => [KeyEvent(ev), Forward, Find, if IsInterrupt(h.job) then Interrupt else Submit, ClearRing]
  }

  /** `HandleEvent` is what the steps of the model do one after the other. */
  lemma HandleEventIsRun(c: Config, ev: RawEvent)
    requires c.event.Polling?
    ensures var d := Run(c, EventSteps(c.matcher, ev));
            d.Some? && d.value.event.Polling? && (d.value.matcher, d.value.tasks) == HandleEvent(c.matcher, c.tasks, ev)
  {
    hide Run, HandleKey, IsInterrupt, BestOf, DropQueued, Found;
    var c1 := Apply(c, KeyEvent(ev));
    var c2 := Apply(c1, Forward);
    if !IsPress(ev) {
      RunOne(c1, Forward);
      RunCons(c, KeyEvent(ev), [Forward]);
      assert [KeyEvent(ev)] + [Forward] == [KeyEvent(ev), Forward];
    } else if Found(c1.matcher).None? {
      FindsNothing(c2);
      RunOne(c2, Find);
      RunCons(c1, Forward, [Find]);
      RunCons(c, KeyEvent(ev), [Forward, Find]);
      assert [Forward] + [Find] == [Forward, Find];
      assert [KeyEvent(ev)] + [Forward, Find] == [KeyEvent(ev), Forward, Find];
    } else {
      var h := Found(c1.matcher).value;
      FindsOne(c2);
      RunFive(c, KeyEvent(ev), Forward, Find, if IsInterrupt(h.job) then Interrupt else Submit, ClearRing);
    }
  }

  lemma FindsNothing(c: Config)
    requires c.event.Finding? && Found(c.matcher).None?
    ensures Apply(c, Find) == c.(event := Polling)
  {
  }

  lemma FindsOne(c: Config)
    requires c.event.Finding? && Found(c.matcher).Some?
    ensures var d, h := Apply(c, Find), Found(c.matcher).value;
            d.matcher == c.matcher && d.tasks == c.tasks
            && d.event == if IsInterrupt(h.job) then Interrupting else Submitting(h)
  {
  }

  class Daemon {
    var ring: RingBuffer
    var hotstrings: seq<Hotstring>
    var pressed: set<int>
    var queue: seq<Macro.Job>
    var stopRequested: bool
    var workerStop: bool

    function MatcherView(): Matcher
      reads this, ring
    {
      Matcher(ring.keys, ring.capacity, hotstrings, pressed)
    }

    function TasksView(): Tasks
      reads this
    {
      Tasks(queue, stopRequested, workerStop)
    }

    constructor (hotstrings: seq<Hotstring>)
      ensures MatcherView() == Loaded(hotstrings) && TasksView() == Tasks([], false, false) && fresh(ring)
    {
      this.hotstrings, pressed, queue, stopRequested, workerStop := hotstrings, {}, [], false, false;
      var capacity := ComputeRingCapacity(hotstrings);
      ring := new RingBuffer(capacity);
    }

    /** The first critical section of `handle_event`. */
    method RecordKey(ev: RawEvent)
      requires ring.capacity > 0
      modifies this`pressed, ring
      ensures MatcherView() == HandleKey(old(MatcherView()), ev)
    {
      if ev.isKey {
        if IsModifier(ev.code) {
          if ev.value == 1 {
            pressed := pressed + {ev.code};
          } else if ev.value == 0 {
            pressed := pressed - {ev.code};
          }
        }
        if ev.value == 1 {
          ring.PushKey(ev.code);
        }
      }
    }

    method FindMatchingHotstring() returns (best: Option<Hotstring>)
      ensures best == Found(MatcherView())
    {
      var i := FindMatch(hotstrings, ring, pressed);
      best := if i.None? then None else Some(hotstrings[i.value]);
    }

    /** `is_interrupt_macro`. */
    method IsInterruptMacro(job: Macro.Job) returns (r: bool)
      ensures r == IsInterrupt(job)
    {
      for i := 0 to |job.commands|
        invariant forall k :: 0 <= k < i ==> !job.commands[k].Cancel?
      {
        if job.commands[i].Cancel? {
          return true;
        }
      }
      r := false;
    }

    method SubmitMacro(job: Macro.Job)
      modifies this`queue
      ensures TasksView() == SubmitTo(old(TasksView()), job)
    {
      if workerStop {
        return;
      }
      queue := queue + [job];
    }

    method RequestMacroStop()
      modifies this`queue, this`stopRequested
      ensures TasksView() == RequestStop(old(TasksView()))
    {
      queue := [];
      stopRequested := true;
    }

    /** Both critical sections of `stop_macro_worker`; joining the thread is a step of the model. */
    method StopMacroWorker()
      modifies this`queue, this`stopRequested, this`workerStop
      ensures TasksView() == CloseTasks(RequestStop(old(TasksView())))
    {
      RequestMacroStop();
      workerStop := true;
      queue := [];
    }

    /** The critical section of the worker loop, once its wait condition holds; `None` ends the loop. */
    method TakeJob() returns (job: Option<Macro.Job>)
      requires workerStop || queue != []
      modifies this`queue, this`stopRequested
      ensures old(workerStop) ==> job == None && TasksView() == old(TasksView())
      ensures !old(workerStop) ==> job == Some(old(queue)[0]) && TasksView() == TakeFrom(old(TasksView()))
    {
      if workerStop {
        return None;
      }
      job := Some(queue[0]);
      queue := queue[1..];
      stopRequested := false;
    }

    method HandleOneEvent(ev: RawEvent)
      requires ring.capacity > 0
      modifies this`pressed, this`queue, this`stopRequested, ring
      ensures (MatcherView(), TasksView()) == HandleEvent(old(MatcherView()), old(TasksView()), ev)
    {
      RecordKey(ev);
      if !IsPress(ev) {
        return;
      }
      var matched := FindMatchingHotstring();
      if matched.None? {
        return;
      }
      var interrupt := IsInterruptMacro(matched.value.job);
      if interrupt {
        RequestMacroStop();
        ring.Clear();
        return;
      }
      SubmitMacro(matched.value.job);
      ring.Clear();
    }

    /** `reload_script`: the macros are stopped even when the new script does not parse. */
    method ReloadScript(parsed: Result<seq<Hotstring>>)
      modifies this
      ensures TasksView() == RequestStop(old(TasksView()))
      ensures MatcherView() == if parsed.Ok? then Loaded(parsed.value) else old(MatcherView())
    {
      RequestMacroStop();
      if parsed.Err? {
        return;
      }
      var capacity := ComputeRingCapacity(parsed.value);
      var newRing := new RingBuffer(capacity);
      hotstrings := parsed.value;
      ring := newRing;
      pressed := {};
    }
  }
}
