/**
 The Engine object of internal/agent/engine.go.  Its methods are the atomic stretches of Start,
 Stop, Trigger, loop, runDueTasks, runTaskByName, executeTask and setTaskResult; each is proved to
 be one action of EngineState, whose every interleaving EngineRuns covers.
 */
module TaskEngine {
  import opened Text
  import opened EngineState

  datatype TriggerResult = Accepted | TaskNotFound | TaskDisabled | QueueFull

  class Engine {
    var tasks: seq<Task>
    var triggerCh: seq<string>
    var done: bool
    var cancelled: bool
    var started: bool
    var stopped: bool
    var wg: int
    var loop: Loop
    var now: int

    // The other goroutines, and what happened so far.
    ghost var launching: bool
    ghost var stop: Stopper
    ghost var working: multiset<nat>
    ghost var reporting: nat
    ghost var log: seq<Event>

    ghost function View(): State
      reads this
    {
      State(tasks, triggerCh, started, stopped, cancelled, done, wg, launching, stop, loop, working, reporting, now, log)
    }

    constructor (time: int)
      ensures View() == Init(time)
    {
      tasks, triggerCh, done, cancelled, started, stopped, wg := [], [], false, false, false, false, 0;
      loop, now, launching, stop, working, reporting, log := Absent, time, false, NotStopping, multiset{}, 0, [];
    }

    method Register(name: string, enabled: bool, interval: int)
      modifies this
      ensures View() == Next(old(View()), EngineState.Register(name, enabled, interval))
    {
      tasks := tasks + [Task(name, enabled, interval, Idle, None, "", 0, 0)];
    }

    // Start, up to its unlock; `won` tells the call that goes on to launch the scheduler.
    method StartLocks() returns (won: bool)
      modifies this
      ensures View() == Next(old(View()), EngineState.StartLocks) && won == !old(started)
    {
      if started {
        return false;
      }
      started, launching := true, true;
      return true;
    }

    // The rest of Start.
    method StartLaunches()
      requires launching
      modifies this
      ensures View() == Next(old(View()), EngineState.StartLaunches)
    {
      wg := wg + 1;
      loop, launching := Due, false;
    }

    // Stop, up to its unlock; only the call that won goes on to shut down and wait.
    method StopLocks() returns (won: bool)
      modifies this
      ensures View() == Next(old(View()), EngineState.StopLocks) && won == (old(started) && !old(stopped))
    {
      if !started || stopped {
        return false;
      }
      stopped, stop := true, Cancelling;
      return true;
    }

    method StopCancels()
      requires stop == Cancelling
      modifies this
      ensures View() == Next(old(View()), EngineState.StopCancels)
    {
      cancelled, stop := true, Closing;
    }

    method StopCloses()
      requires stop == Closing
      modifies this
      ensures View() == Next(old(View()), EngineState.StopCloses)
    {
      done, stop := true, Waiting;
    }

    // wg.Wait lets Stop return.
    method StopReturns()
      requires stop == Waiting && wg == 0
      modifies this
      ensures View() == Next(old(View()), EngineState.StopReturns)
    {
      stop := Returned;
    }

    method Trigger(name: string) returns (r: TriggerResult)
      modifies this
      ensures View() == Next(old(View()), Triggers(name))
      ensures r == TaskNotFound <==> forall t :: t in tasks ==> t.name != name
      ensures r == Accepted ==> triggerCh == old(triggerCh) + [name]
      ensures r != Accepted ==> triggerCh == old(triggerCh)
      ensures r == QueueFull ==> |triggerCh| >= 8
      ensures r == Accepted ==> |triggerCh| <= 8
      ensures r in {Accepted, QueueFull} <==>
                First(tasks, name).Some? && tasks[First(tasks, name).value].enabled
    {
      for i := 0 to |tasks|
        invariant unchanged(this)
        invariant forall j :: 0 <= j < i ==> tasks[j].name != name
      {
        if tasks[i].name == name {
          FirstIs(tasks, name, i);
          if !tasks[i].enabled {
            return TaskDisabled;
          }
          if |triggerCh| < QUEUE {
            triggerCh := triggerCh + [name];
            return Accepted;
          }
          return QueueFull;
        }
      }
      FirstIsNone(tasks, name);
      return TaskNotFound;
    }

    // The lock region of runDueTasks.
    method ReadsDue()
      requires loop == Due
      modifies this
      ensures View() == Next(old(View()), EngineState.ReadsDue)
    {
      var snapshot: seq<nat> := [];
      for i := 0 to |tasks|
        invariant unchanged(this)
        invariant snapshot == DueTasks(tasks, now, i)
      {
        var t := tasks[i];
        if !t.enabled {
          continue;
        }
        if t.state == Running {
          continue;
        }
        if t.lastRun.Some? && now - t.lastRun.value < t.interval {
          continue;
        }
        snapshot := snapshot + [i];
      }
      loop := Batch(snapshot);
    }

    // One turn of runDueTasks' loop over its snapshot, up to executeTask.
    method TakesNext()
      requires loop.Batch?
      modifies this
      ensures View() == Next(old(View()), EngineState.TakesNext)
    {
      if loop.todo == [] || done {
        loop := Select;
        return;
      }
      loop := Execute(loop.todo[0], Some(loop.todo[1..]));
    }

    // The lock region of executeTask.
    method Executes()
      requires loop.Execute? && loop.task < |tasks|
      modifies this
      ensures View() == Next(old(View()), EngineState.Executes)
    {
      hide Next, AfterExecute;
      ExecutesIs(View());
      var i, rest := loop.task, loop.rest;
      loop := AfterExecute(rest);
      if stopped || tasks[i].state == Running {
        return;
      }
      tasks := tasks[i := tasks[i].(state := Running)];
      wg := wg + 1;
      working, log := working + multiset{i}, log + [Began(i, now, rest.Some?)];
    }

    // The scheduler's select, one case each.
    method Ticks()
      requires loop == Select
      modifies this
      ensures View() == Next(old(View()), EngineState.Ticks)
    {
      loop := Due;
    }

    method Receives()
      requires loop == Select && triggerCh != []
      modifies this
      ensures View() == Next(old(View()), EngineState.Receives)
    {
      loop, triggerCh := Find(triggerCh[0]), triggerCh[1..];
    }

    method Exits()
      requires loop == Select && done
      modifies this
      ensures View() == Next(old(View()), EngineState.Exits)
    {
      loop, wg := Gone, wg - 1;
    }

    // The lock region of runTaskByName.
    method Finds()
      requires loop.Find?
      modifies this
      ensures View() == Next(old(View()), EngineState.Finds)
    {
      var name := loop.name;
      for i := 0 to |tasks|
        invariant unchanged(this)
        invariant forall j :: 0 <= j < i ==> tasks[j].name != name
      {
        if tasks[i].name == name {
          FirstIs(tasks, name, i);
          loop := Execute(i, None);
          return;
        }
      }
      FirstIsNone(tasks, name);
      loop := Select;
    }

    // setTaskResult, at the end of a task goroutine; a panic arrives here as an error.
    method SetTaskResult(i: nat, err: Option<string>)
      requires i < |tasks| && i in working
      modifies this
      ensures View() == Next(old(View()), TaskEnds(i, err))
    {
      hide Next;
      EndsIs(View(), i, err);
      var t := tasks[i];
      t := t.(lastRun := Some(now), runCount := t.runCount + 1);
      if err.Some? {
        t := t.(state := Failed, lastErr := err.value, errCount := t.errCount + 1);
      } else {
        t := t.(state := Idle, lastErr := "");
      }
      tasks := tasks[i := t];
      working, reporting, log := working - multiset{i}, reporting + 1, log + [Ended(i, now, err == None)];
    }

    // The deferred wg.Done of a task goroutine.
    method TaskReports()
      requires reporting > 0
      modifies this
      ensures View() == Next(old(View()), EngineState.TaskReports)
    {
      wg, reporting := wg - 1, reporting - 1;
    }
  }

  lemma ExecutesIs(s: State)
    requires s.loop.Execute? && s.loop.task < |s.tasks|
    ensures Next(s, Executes) == Execute1(s, s.loop.task, s.loop.rest)
  {
    hide Execute1;
  }

  lemma EndsIs(s: State, i: nat, err: Option<string>)
    requires i < |s.tasks| && i in s.working
    ensures Next(s, TaskEnds(i, err)) == Ends(s, i, err)
  {
    hide Ends;
  }

  lemma {:induction false} FirstIs(tasks: seq<Task>, name: string, i: nat)
    requires i < |tasks| && tasks[i].name == name && forall j :: 0 <= j < i ==> tasks[j].name != name
    ensures First(tasks, name) == Some(i)
  {
    if i > 0 {
      FirstIs(tasks[1..], name, i - 1);
    }
  }

  lemma {:induction false} FirstIsNone(tasks: seq<Task>, name: string)
    requires forall j :: 0 <= j < |tasks| ==> tasks[j].name != name
    ensures First(tasks, name) == None
  {
    if tasks != [] {
      FirstIsNone(tasks[1..], name);
    }
  }
}
