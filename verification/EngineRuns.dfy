/**
 What holds in every interleaving of the scheduler's actions.
 */
module EngineRuns {
  import opened Text
  import opened EngineState

  /* ---------- Counting events ---------- */

  function Begins(log: seq<Event>, i: nat): nat {
    if log == [] then 0
    else Begins(log[..|log| - 1], i) + if log[|log| - 1].Began? && log[|log| - 1].task == i then 1 else 0
  }

  function Completions(log: seq<Event>, i: nat): nat {
    if log == [] then 0
    else Completions(log[..|log| - 1], i) + if log[|log| - 1].Ended? && log[|log| - 1].task == i then 1 else 0
  }

  function Failures(log: seq<Event>, i: nat): nat {
    if log == [] then 0
    else
      var e := log[|log| - 1];
      Failures(log[..|log| - 1], i) + if e.Ended? && e.task == i && !e.ok then 1 else 0
  }

  // The latest completion of a task.
  function LastEnd(log: seq<Event>, i: nat): (r: Option<Event>)
    ensures r.Some? ==> r.value.Ended? && r.value.task == i && r.value in log
  {
    if log == [] then None
    else
      var e := log[|log| - 1];
      if e.Ended? && e.task == i then Some(e) else LastEnd(log[..|log| - 1], i)
  }

  lemma CountAppend(log: seq<Event>, e: Event, i: nat)
    ensures Begins(log + [e], i) == Begins(log, i) + if e.Began? && e.task == i then 1 else 0
    ensures Completions(log + [e], i) == Completions(log, i) + if e.Ended? && e.task == i then 1 else 0
    ensures Failures(log + [e], i) == Failures(log, i) + if e.Ended? && e.task == i && !e.ok then 1 else 0
    ensures LastEnd(log + [e], i) == if e.Ended? && e.task == i then Some(e) else LastEnd(log, i)
  {
    assert (log + [e])[..|log|] == log;
  }

  lemma {:induction false} CountNone(log: seq<Event>, i: nat)
    requires forall e :: e in log ==> e.task != i
    ensures Begins(log, i) == 0 && Completions(log, i) == 0 && Failures(log, i) == 0 && LastEnd(log, i) == None
  {
    if log != [] {
      assert log[|log| - 1] in log;
      CountNone(log[..|log| - 1], i);
    }
  }

  /* ---------- Invariants ---------- */

  // A task is marked running exactly while one goroutine runs it.
  predicate OneRun(s: State) {
    && (forall i :: i in s.working ==> i < |s.tasks|)
    && forall i :: 0 <= i < |s.tasks| ==> s.working[i] == if s.tasks[i].state == Running then 1 else 0
  }

  // The counters count completed runs and failed runs.
  ghost predicate Counted(s: State) {
    && (forall e :: e in s.log ==> e.task < |s.tasks|)
    && forall i :: 0 <= i < |s.tasks| ==>
         && s.tasks[i].runCount == Completions(s.log, i) && s.tasks[i].errCount == Failures(s.log, i)
         && Begins(s.log, i) == Completions(s.log, i) + s.working[i]
  }

  // A task's record is that of its latest completion.
  ghost predicate Recorded(s: State) {
    && (forall e :: e in s.log ==> e.task < |s.tasks|)
    && forall i :: 0 <= i < |s.tasks| ==>
         match LastEnd(s.log, i)
         case None => s.tasks[i].lastRun == None && s.tasks[i].lastErr == "" && s.tasks[i].state != Failed
         case Some(e) =>
           && s.tasks[i].lastRun == Some(e.at) && (e.ok ==> s.tasks[i].lastErr == "")
           && (s.tasks[i].state != Running ==> (s.tasks[i].state == Failed <==> !e.ok))
  }

  predicate EnabledName(s: State, name: string) {
    First(s.tasks, name).Some? && s.tasks[First(s.tasks, name).value].enabled
  }

  // A task the scheduler holds is enabled; one it took from a snapshot is also still due.
  predicate Held(s: State, i: nat, scheduled: bool) {
    i < |s.tasks| && s.tasks[i].enabled && (scheduled ==> IsDue(s.tasks[i], s.now))
  }

  predicate Rising(todo: seq<nat>) {
    forall i, j :: 0 <= i < j < |todo| ==> todo[i] < todo[j]
  }

  predicate LoopHolds(s: State) {
    match s.loop
    case Batch(todo) => Rising(todo) && forall i :: i in todo ==> Held(s, i, true)
    case Execute(i, Some(rest)) => Rising([i] + rest) && Held(s, i, true) && forall j :: j in rest ==> Held(s, j, true)
    case Execute(i, None) => Held(s, i, false)
    case Find(name) => EnabledName(s, name)
    case _ => true
  }

  // The queue is bounded and holds names of enabled tasks only.
  predicate QueueHolds(s: State) {
    |s.queue| <= QUEUE && forall name :: name in s.queue ==> EnabledName(s, name)
  }

  // The task's record is at least as recent as a completion.
  predicate NoLater(s: State, e: Event)
    requires e.task < |s.tasks|
  {
    s.tasks[e.task].lastRun.Some? && e.at <= s.tasks[e.task].lastRun.value
  }

  // A scheduled run starts no sooner than the interval after an earlier completion of its task.
  predicate Spaced(tasks: seq<Task>, earlier: Event, later: Event)
  {
    earlier.Ended? && later.Began? && later.scheduled && earlier.task == later.task && later.task < |tasks| ==>
      later.at - earlier.at >= tasks[later.task].interval
  }

  // Only enabled tasks ever run, and a scheduled run keeps its interval from every earlier completion.
  ghost predicate LogHolds(s: State) {
    && (forall e :: e in s.log ==> e.task < |s.tasks| && (e.Began? ==> s.tasks[e.task].enabled))
    && (forall e :: e in s.log && e.Ended? ==> NoLater(s, e))
    && forall j, k :: 0 <= j < k < |s.log| ==> Spaced(s.tasks, s.log[j], s.log[k])
  }

  // The wait group counts the scheduler and every task goroutine.
  predicate Balanced(s: State) {
    s.wg == (if Live(s.loop) then 1 else 0) + |s.working| + s.reporting
  }

  predicate Flags(s: State) {
    && (s.stopped <==> s.stop != NotStopping) && (s.stopped ==> s.started)
    && (s.cancelled <==> s.stop in {Closing, Waiting, Returned})
    && (s.doneClosed <==> s.stop in {Waiting, Returned})
    && (s.launching ==> s.started)
    && (s.loop == Absent <==> s.launching || !s.started)
    && (s.loop == Gone ==> s.doneClosed)
  }

  // A task goroutine still unfinished means the shutting-down Stop has not returned.
  predicate StopHolds(s: State) {
    s.stop == Returned ==> s.working == multiset{} && s.reporting == 0
  }

  // No record lies in the future.
  predicate Recent(s: State) {
    forall i :: 0 <= i < |s.tasks| && s.tasks[i].lastRun.Some? ==> s.tasks[i].lastRun.value <= s.now
  }

  ghost predicate Inv(s: State) {
    && Recent(s) && OneRun(s) && Counted(s) && Recorded(s) && LoopHolds(s) && QueueHolds(s) && LogHolds(s)
    && Balanced(s) && Flags(s) && StopHolds(s)
  }

  /* ---------- Facts about the lock regions ---------- */

  lemma {:induction false} FirstAppend(tasks: seq<Task>, t: Task, name: string)
    requires First(tasks, name).Some?
    ensures First(tasks + [t], name) == First(tasks, name)
  {
    if tasks[0].name != name {
      assert (tasks + [t])[1..] == tasks[1..] + [t];
      FirstAppend(tasks[1..], t, name);
    }
  }

  // First depends on the names only.
  lemma {:induction false} FirstSameNames(a: seq<Task>, b: seq<Task>, name: string)
    requires |a| == |b| && forall i :: 0 <= i < |a| ==> a[i].name == b[i].name
    ensures First(a, name) == First(b, name)
  {
    if a != [] {
      FirstSameNames(a[1..], b[1..], name);
    }
  }

  lemma {:induction false} DueTasksAre(tasks: seq<Task>, now: int, n: nat)
    requires n <= |tasks|
    ensures var due := DueTasks(tasks, now, n);
            && Rising(due) && forall i: nat :: i in due <==> i < n && IsDue(tasks[i], now)
  {
    hide IsDue;
    if n > 0 {
      DueTasksAre(tasks, now, n - 1);
      var (before, due) := (DueTasks(tasks, now, n - 1), DueTasks(tasks, now, n));
      assert forall i :: 0 <= i < |before| ==> before[i] in before;
      assert forall i: nat :: i in due <==> i in before || (i == n - 1 && IsDue(tasks[n - 1], now));
    }
  }

  /* ---------- The four things an action can do to the tasks ---------- */

  datatype Effect = Nothing | Adds(t: Task) | Starts(i: nat, scheduled: bool) | Completes(i: nat, err: Option<string>)

  ghost predicate Has(s: State, s': State, e: Effect) {
    s.now <= s'.now && match e
    case Nothing => s'.tasks == s.tasks && s'.working == s.working && s'.log == s.log
    case Adds(t) =>
      && s'.tasks == s.tasks + [t] && s'.working == s.working && s'.log == s.log
      && t.state == Idle && t.lastRun == None && t.lastErr == "" && t.runCount == 0 && t.errCount == 0
    case Starts(i, scheduled) =>
      && i < |s.tasks| && s.tasks[i].state != Running && !s.stopped && s.loop.Execute? && s.loop.task == i
      && scheduled == s.loop.rest.Some? && s'.loop == AfterExecute(s.loop.rest)
      && s'.tasks == s.tasks[i := s.tasks[i].(state := Running)]
      && s'.working == s.working + multiset{i} && s'.log == s.log + [Began(i, s.now, scheduled)]
    case Completes(i, err) =>
      && i < |s.tasks| && i in s.working && s'.tasks == s.tasks[i := SetResult(s.tasks[i], s.now, err)]
      && s'.working == s.working - multiset{i} && s'.log == s.log + [Ended(i, s.now, err == None)]
  }

  lemma EffectOf(s: State, a: Action) returns (e: Effect)
    ensures Has(s, Next(s, a), e)
    ensures e.Starts? ==> a == Executes
  {
    hide First, LoopNext, Ends, Queued;
    e := Nothing;
    match a
    case Register(name, enabled, interval) => e := Adds(Task(name, enabled, interval, Idle, None, "", 0, 0));
    case TaskEnds(i, err) => e := EndsEffect(s, i, err);
    case Triggers(name) => TriggerIsQuiet(s, name);
    case ReadsDue => LoopIsQuiet(s, a);
    case TakesNext => LoopIsQuiet(s, a);
    case Executes => e := ExecuteEffect(s);
    case Ticks => LoopIsQuiet(s, a);
    case Receives => LoopIsQuiet(s, a);
    case Finds => LoopIsQuiet(s, a);
    case Exits => LoopIsQuiet(s, a);
    case _ =>
  }

  lemma EndsEffect(s: State, i: nat, err: Option<string>) returns (e: Effect)
    ensures Has(s, Ends(s, i, err), e) && !e.Starts?
  {
    e := if i in s.working && i < |s.tasks| then Completes(i, err) else Nothing;
  }

  lemma TriggerIsQuiet(s: State, name: string)
    ensures Has(s, Queued(s, name), Nothing)
  {
    hide First;
  }

  lemma LoopIsQuiet(s: State, a: Action)
    requires a != Executes
    ensures Has(s, LoopNext(s, a), Nothing)
  {
    hide First, DueTasks;
  }

  lemma ExecuteEffect(s: State) returns (e: Effect)
    ensures Has(s, LoopNext(s, Executes), e)
  {
    hide First, DueTasks;
    e := Nothing;
    if s.loop.Execute? && s.loop.task < |s.tasks| && !s.stopped && s.tasks[s.loop.task].state != Running {
      e := Starts(s.loop.task, s.loop.rest.Some?);
    }
  }

  // How the scheduler goroutine moves.
  ghost predicate LoopMoves(s: State, s': State) {
    var quiet := s'.tasks == s.tasks && s'.now == s.now;
    || s'.loop == s.loop
    || (quiet && s.loop == Due && s'.loop == Batch(DueTasks(s.tasks, s.now, |s.tasks|)))
    || (quiet && s.loop.Batch? && s.loop.todo != [] && s'.loop == Execute(s.loop.todo[0], Some(s.loop.todo[1..])))
    || (s.loop.Execute? && s'.loop == AfterExecute(s.loop.rest))
    || (quiet && s.loop.Find? && First(s.tasks, s.loop.name).Some?
        && s'.loop == Execute(First(s.tasks, s.loop.name).value, None))
    || (s.loop == Select && s.queue != [] && s'.loop == Find(s.queue[0]))
    || s'.loop in {Due, Select, Gone}
  }

  lemma StepMoves(s: State, a: Action)
    ensures LoopMoves(s, Next(s, a))
  {
    hide First, DueTasks;
  }

  // What never changes about a task.
  predicate Kept(s: State, s': State) {
    && |s.tasks| <= |s'.tasks| && s.now <= s'.now
    && forall i :: 0 <= i < |s.tasks| ==>
         s'.tasks[i].name == s.tasks[i].name && s'.tasks[i].enabled == s.tasks[i].enabled
         && s'.tasks[i].interval == s.tasks[i].interval
  }

  lemma StepKeeps(s: State, a: Action)
    ensures Kept(s, Next(s, a))
  {
    hide Next;
    var e := EffectOf(s, a);
  }

  lemma {:induction false} EnabledNameKept(s: State, s': State, name: string)
    requires Kept(s, s') && EnabledName(s, name)
    ensures EnabledName(s', name)
    decreases |s'.tasks|
  {
    if |s.tasks| == |s'.tasks| {
      FirstSameNames(s.tasks, s'.tasks, name);
    } else {
      var n := |s'.tasks| - 1;
      EnabledNameKept(s, s'.(tasks := s'.tasks[..n]), name);
      assert s'.tasks == s'.tasks[..n] + [s'.tasks[n]];
      FirstAppend(s'.tasks[..n], s'.tasks[n], name);
    }
  }

  /* ---------- Every action keeps the invariant ---------- */

  lemma OneRunKept(s: State, s': State, e: Effect)
    requires OneRun(s) && Has(s, s', e)
    ensures OneRun(s')
  {
  }

  lemma BalancedKept(s: State, a: Action)
    requires Balanced(s) && Flags(s)
    ensures Balanced(Next(s, a))
  {
    hide First, DueTasks;
  }

  lemma FlagsKept(s: State, a: Action)
    requires Flags(s)
    ensures Flags(Next(s, a))
  {
    hide First, DueTasks;
  }

  lemma StopKept(s: State, a: Action)
    requires StopHolds(s) && Balanced(s) && Flags(s)
    ensures StopHolds(Next(s, a))
  {
    hide First, DueTasks;
  }

  ghost predicate QueueStep(s: State, q: seq<string>) {
    || q == s.queue || (s.queue != [] && q == s.queue[1..])
    || (|s.queue| < QUEUE && exists name :: q == s.queue + [name] && EnabledName(s, name))
  }

  lemma QueueMoves(s: State, a: Action)
    ensures QueueStep(s, Next(s, a).queue)
  {
    hide First, LoopNext, Queued, QueueStep;
    LoopQueue(s, a);
    if a.Triggers? {
      TriggerQueue(s, a.name);
    }
    SameQueue(s);
  }

  lemma SameQueue(s: State)
    ensures QueueStep(s, s.queue)
  {
  }

  lemma TriggerQueue(s: State, name: string)
    ensures QueueStep(s, Queued(s, name).queue)
  {
    hide First;
    assert Queued(s, name).queue != s.queue ==> EnabledName(s, name);
  }

  lemma LoopQueue(s: State, a: Action)
    ensures QueueStep(s, LoopNext(s, a).queue)
  {
    hide First, DueTasks, EnabledName;
  }

  lemma QueueKept(s: State, a: Action)
    requires QueueHolds(s)
    ensures QueueHolds(Next(s, a))
  {
    hide Next, EnabledName, Kept;
    var s' := Next(s, a);
    StepKeeps(s, a);
    QueueMoves(s, a);
    forall name | name in s'.queue
      ensures EnabledName(s', name)
    {
      EnabledNameKept(s, s', name);
    }
  }

  lemma CountedKept(s: State, s': State, e: Effect)
    requires Counted(s) && OneRun(s) && Has(s, s', e)
    ensures Counted(s')
  {
    hide Begins, Completions, Failures;
    forall i | 0 <= i < |s'.tasks|
      ensures s'.tasks[i].runCount == Completions(s'.log, i) && s'.tasks[i].errCount == Failures(s'.log, i)
      ensures Begins(s'.log, i) == Completions(s'.log, i) + s'.working[i]
    {
      if |s'.log| > |s.log| {
        CountAppend(s.log, s'.log[|s.log|], i);
      }
      if i >= |s.tasks| {
        CountNone(s.log, i);
      }
    }
  }

  lemma RecordedKept(s: State, s': State, e: Effect)
    requires Recorded(s) && OneRun(s) && Has(s, s', e)
    ensures Recorded(s')
  {
    hide Begins, Completions, Failures, LastEnd;
    forall i | 0 <= i < |s'.tasks|
      ensures |s'.log| > |s.log| ==>
                LastEnd(s'.log, i) == if s'.log[|s.log|].Ended? && s'.log[|s.log|].task == i then Some(s'.log[|s.log|])
                                      else LastEnd(s.log, i)
      ensures i >= |s.tasks| ==> LastEnd(s.log, i) == None
    {
      if |s'.log| > |s.log| {
        CountAppend(s.log, s'.log[|s.log|], i);
      }
      if i >= |s.tasks| {
        CountNone(s.log, i);
      }
    }
  }

  lemma LogKept(s: State, s': State, e: Effect)
    requires LogHolds(s) && LoopHolds(s) && Has(s, s', e) && Recent(s)
    ensures LogHolds(s') && Recent(s')
  {
    hide Rising, EnabledName;
    if e.Starts? {
      assert Held(s, e.i, e.scheduled);
      forall j | 0 <= j < |s.log|
        ensures Spaced(s.tasks, s.log[j], s'.log[|s.log|])
      {
        assert s.log[j] in s.log;
      }
    }
  }

  // A task not marked running keeps its record, and so stays due.
  lemma HeldKept(s: State, s': State, e: Effect, i: nat, scheduled: bool)
    requires OneRun(s) && Held(s, i, scheduled) && Has(s, s', e)
    requires e.Starts? ==> i != e.i
    ensures Held(s', i, scheduled)
  {
  }

  lemma LoopKept(s: State, s': State, e: Effect)
    requires LoopHolds(s) && QueueHolds(s) && OneRun(s) && Has(s, s', e) && LoopMoves(s, s') && Kept(s, s')
    ensures LoopHolds(s')
  {
    hide First, DueTasks, IsDue, OneRun, Rising, Kept, Held, Has, EnabledName;
    StartsLeaveExecute(s, s', e);
    if s'.loop == s.loop {
      SameLoopKept(s, s', e);
    } else if s'.loop in {Due, Select, Gone} {
    } else if s.loop == Due {
      SnapshotHeld(s, s');
    } else if s.loop.Batch? && s.loop.todo != [] {
      BatchTaken(s, s', s.loop.todo);
    } else if s.loop.Execute? && s.loop.rest.Some? {
      RisingTail(s.loop.task, s.loop.rest.value);
      RestKept(s, s', e, s.loop.rest.value);
    } else if s.loop.Find? {
      FoundHeld(s, s');
    } else if s.loop == Select && s.queue != [] {
      assert s.queue[0] in s.queue;
      EnabledNameKept(s, s', s.queue[0]);
    }
  }

  lemma StartsLeaveExecute(s: State, s': State, e: Effect)
    requires Has(s, s', e)
    ensures e.Starts? ==> s.loop.Execute? && s.loop.task == e.i && s'.loop != s.loop
  {
  }

  lemma FoundHeld(s: State, s': State)
    requires s.loop.Find? && EnabledName(s, s.loop.name) && s'.tasks == s.tasks
    ensures First(s.tasks, s.loop.name).Some? && Held(s', First(s.tasks, s.loop.name).value, false)
  {
  }

  lemma SnapshotHeld(s: State, s': State)
    requires s'.tasks == s.tasks && s'.now == s.now
    ensures var due := DueTasks(s.tasks, s.now, |s.tasks|); Rising(due) && forall i :: i in due ==> Held(s', i, true)
  {
    hide DueTasks, Rising;
    DueTasksAre(s.tasks, s.now, |s.tasks|);
  }

  lemma BatchTaken(s: State, s': State, todo: seq<nat>)
    requires todo != [] && s'.tasks == s.tasks && s'.now == s.now && forall i :: i in todo ==> Held(s, i, true)
    ensures [todo[0]] + todo[1..] == todo && Held(s', todo[0], true) && forall i :: i in todo[1..] ==> Held(s', i, true)
  {
    assert todo[0] in todo;
    assert forall i :: i in todo[1..] ==> i in todo;
  }

  lemma RisingTail(i: nat, todo: seq<nat>)
    requires Rising([i] + todo)
    ensures Rising(todo) && i !in todo
  {
    var all := [i] + todo;
    forall k | 0 <= k < |todo|
      ensures all[k + 1] == todo[k] && i < todo[k]
    {
      assert all[0] < all[k + 1];
    }
  }

  lemma RestKept(s: State, s': State, e: Effect, todo: seq<nat>)
    requires OneRun(s) && Has(s, s', e) && (forall i :: i in todo ==> Held(s, i, true))
    requires e.Starts? ==> e.i !in todo
    ensures forall i :: i in todo ==> Held(s', i, true)
  {
    hide OneRun, Has, Held;
    forall i | i in todo
      ensures Held(s', i, true)
    {
      HeldKept(s, s', e, i, true);
    }
  }

  lemma SameLoopKept(s: State, s': State, e: Effect)
    requires LoopHolds(s) && OneRun(s) && Has(s, s', e) && s'.loop == s.loop && !e.Starts? && Kept(s, s')
    ensures LoopHolds(s')
  {
    hide OneRun, Has, Held, Rising, EnabledName, Kept;
    match s.loop
    case Batch(todo) => RestKept(s, s', e, todo);
    case Execute(i, rest) =>
      HeldKept(s, s', e, i, rest.Some?);
      if rest.Some? {
        RestKept(s, s', e, rest.value);
      }
    case Find(name) => EnabledNameKept(s, s', name);
    case _ =>
  }

  lemma InvKept(s: State, a: Action)
    requires Inv(s)
    ensures Inv(Next(s, a))
  {
    hide OneRun, Counted, Recorded, LoopHolds, QueueHolds, LogHolds, Balanced, Flags, StopHolds, Recent, Next, Has,
         Kept, LoopMoves;
    var e := EffectOf(s, a);
    OneRunKept(s, Next(s, a), e);
    CountedKept(s, Next(s, a), e);
    RecordedKept(s, Next(s, a), e);
    LogKept(s, Next(s, a), e);
    StepKeeps(s, a);
    StepMoves(s, a);
    LoopKept(s, Next(s, a), e);
    QueueKept(s, a);
    BalancedKept(s, a);
    FlagsKept(s, a);
    StopKept(s, a);
  }

  lemma InitHolds(now: int)
    ensures Inv(Init(now))
  {
  }

  lemma {:induction false} InvAlways(s: State, actions: seq<Action>)
    requires Inv(s)
    ensures Inv(Run(s, actions))
    decreases |actions|
  {
    hide Inv, Next;
    if actions != [] {
      InvKept(s, actions[0]);
      InvAlways(Next(s, actions[0]), actions[1..]);
    }
  }

  /* ---------- Theorems ---------- */

  // In every interleaving from a fresh engine: a task has at most one run in progress and is marked
  // running exactly then; only enabled tasks run and only their names wait in the queue; a scheduled
  // run keeps its interval; and the counters equal the completed and the failed runs.
  lemma EveryInterleavingIsSafe(now: int, actions: seq<Action>)
    ensures var s := Run(Init(now), actions);
            && OneRun(s) && QueueHolds(s) && LogHolds(s) && Counted(s) && Recorded(s)
            && Balanced(s) && Flags(s) && StopHolds(s)
  {
    hide Init, Run, OneRun, QueueHolds, LogHolds, Counted, Recorded, Balanced, Flags, StopHolds, LoopHolds, Recent;
    InitHolds(now);
    InvAlways(Init(now), actions);
  }

  // After Stop has taken the lock no run begins; what was running may still end.
  lemma {:induction false} StoppedStartsNothing(s: State, actions: seq<Action>)
    requires s.stopped
    ensures var r := Run(s, actions);
            && r.stopped && s.log <= r.log && forall k :: |s.log| <= k < |r.log| ==> r.log[k].Ended?
    decreases |actions|
  {
    hide Next, Has;
    if actions != [] {
      OnlyEnds(s, actions[0]);
      StoppedStartsNothing(Next(s, actions[0]), actions[1..]);
    }
  }

  lemma OnlyEnds(s: State, a: Action)
    requires s.stopped
    ensures Next(s, a).stopped && s.log <= Next(s, a).log
    ensures forall k :: |s.log| <= k < |Next(s, a).log| ==> Next(s, a).log[k].Ended?
  {
    hide Next;
    var e := EffectOf(s, a);
    StaysStopped(s, a);
  }

  lemma StaysStopped(s: State, a: Action)
    ensures s.stopped ==> Next(s, a).stopped
    ensures s.stop == Returned && s.stopped ==> Next(s, a).stop == Returned
    ensures s.started && !s.launching ==> Next(s, a).started && !Next(s, a).launching
  {
    hide First, DueTasks;
  }

  // Once the shutting-down Stop has returned, no task runs and none ever starts again.
  lemma {:induction false} ReturnedIsFinal(s: State, actions: seq<Action>)
    requires Inv(s) && s.stop == Returned
    ensures var r := Run(s, actions); r.stop == Returned && r.working == multiset{} && r.reporting == 0 && r.log == s.log
    decreases |actions|
  {
    hide Next, Has, OneRun, Counted, Recorded, LoopHolds, QueueHolds, LogHolds, Balanced, Recent;
    if actions != [] {
      StaysStopped(s, actions[0]);
      InvKept(s, actions[0]);
      NothingHappens(s, actions[0]);
      ReturnedIsFinal(Next(s, actions[0]), actions[1..]);
    }
  }

  lemma NothingHappens(s: State, a: Action)
    requires s.stopped && s.working == multiset{}
    ensures Next(s, a).log == s.log
  {
    hide Next;
    var e := EffectOf(s, a);
  }

  // When Stop returns the scheduler goroutine is not running; it stays that way in every
  // continuation exactly when no Start call is still on its way to launching it.
  lemma StopEndsTheLoopExactly(s: State)
    requires Inv(s) && s.stop == Waiting && s.wg == 0
    ensures !Live(Next(s, StopReturns).loop)
    ensures (forall actions :: !Live(Run(Next(s, StopReturns), actions).loop)) <==> !s.launching
  {
    hide OneRun, Counted, Recorded, LoopHolds, QueueHolds, LogHolds, Recent, StopHolds, Run, First, DueTasks;
    var r := Next(s, StopReturns);
    if s.launching {
      OneAction(r, StartLaunches);
      LaunchIsLive(r);
      assert Live(Run(r, [StartLaunches]).loop);
    } else {
      forall actions
        ensures !Live(Run(r, actions).loop)
      {
        LoopStaysGone(r, actions);
      }
    }
  }

  lemma LaunchIsLive(s: State)
    requires s.launching
    ensures Live(Next(s, StartLaunches).loop)
  {
    hide First, DueTasks;
  }

  lemma OneAction(s: State, a: Action)
    ensures Run(s, [a]) == Next(s, a)
  {
    hide Next;
    assert Run(Next(s, a), []) == Next(s, a);
    assert [a][1..] == [];
  }

  lemma {:induction false} LoopStaysGone(s: State, actions: seq<Action>)
    requires s.started && !s.launching && !Live(s.loop)
    ensures !Live(Run(s, actions).loop)
    decreases |actions|
  {
    hide Next;
    if actions != [] {
      StaysGone(s, actions[0]);
      LoopStaysGone(Next(s, actions[0]), actions[1..]);
    }
  }

  lemma StaysGone(s: State, a: Action)
    requires s.started && !s.launching && !Live(s.loop)
    ensures var r := Next(s, a); r.started && !r.launching && !Live(r.loop)
  {
    hide First, DueTasks;
  }

  // A Stop that begins after Start has returned also ends the scheduler for good.
  lemma {:induction false} StartedFirst(s: State, actions: seq<Action>)
    requires Inv(s) && s.started && !s.launching && (s.stop == Returned ==> !Live(s.loop))
    ensures Run(s, actions).stop == Returned ==> !Live(Run(s, actions).loop)
    decreases |actions|
  {
    hide Next, Inv;
    if actions != [] {
      var r := Next(s, actions[0]);
      InvKept(s, actions[0]);
      StaysStopped(s, actions[0]);
      ReturnsWhenGone(s, actions[0]);
      StartedFirst(r, actions[1..]);
    }
  }

  lemma ReturnsWhenGone(s: State, a: Action)
    requires Inv(s) && s.started && !s.launching && (s.stop == Returned ==> !Live(s.loop))
    ensures Next(s, a).stop == Returned ==> !Live(Next(s, a).loop)
  {
    hide OneRun, Counted, Recorded, LoopHolds, QueueHolds, LogHolds, Recent, StopHolds, First, DueTasks;
  }

  // Such a Start exists: one that is overtaken by Stop launches the scheduler after Stop returned.
  lemma OvertakenStart(now: int)
    ensures var s := Run(Init(now), [StartLocks, StopLocks, StopCancels, StopCloses, StopReturns, StartLaunches]);
            s.stop == Returned && Live(s.loop) && s.working == multiset{}
  {
    var s := Init(now);
    TwoActions(s, StartLocks, StopLocks, [StopCancels, StopCloses, StopReturns, StartLaunches]);
    var t := Next(Next(s, StartLocks), StopLocks);
    TwoActions(t, StopCancels, StopCloses, [StopReturns, StartLaunches]);
    var u := Next(Next(t, StopCancels), StopCloses);
    TwoActions(u, StopReturns, StartLaunches, []);
  }

  lemma TwoActions(s: State, a: Action, b: Action, rest: seq<Action>)
    ensures Run(s, [a, b] + rest) == Run(Next(Next(s, a), b), rest)
  {
    hide Next;
    assert ([a, b] + rest)[1..] == [b] + rest;
    assert ([b] + rest)[1..] == rest;
  }

  /* ---------- What the scheduler does start ---------- */

  // The scheduler works off its snapshot without a pause.
  function WorkOff(n: nat): seq<Action> {
    if n == 0 then [] else [TakesNext, Executes] + WorkOff(n - 1)
  }

  function Begun(todo: seq<nat>, at: int): seq<Event> {
    if todo == [] then [] else [Began(todo[0], at, true)] + Begun(todo[1..], at)
  }

  // Unless it is stopped, one pass starts every due task, in order of registration, and no other.
  lemma DuePassStartsAllDue(s: State)
    requires Inv(s) && s.loop == Due && !s.stopped
    ensures var due := DueTasks(s.tasks, s.now, |s.tasks|);
            var r := Run(s, [ReadsDue] + WorkOff(|due|));
            && r.loop == Batch([]) && r.log == s.log + Begun(due, s.now) && r.working == s.working + multiset(due)
            && forall i: nat :: i in due <==> i < |s.tasks| && IsDue(s.tasks[i], s.now)
  {
    hide Next, DueTasks, Inv;
    var due := DueTasks(s.tasks, s.now, |s.tasks|);
    DueTasksAre(s.tasks, s.now, |s.tasks|);
    ReadsDueIs(s);
    var t := Next(s, ReadsDue);
    InvKept(s, ReadsDue);
    assert ([ReadsDue] + WorkOff(|due|))[1..] == WorkOff(|due|);
    BatchStartsAll(t, due);
  }

  lemma ReadsDueIs(s: State)
    requires s.loop == Due && Inv(s) && !s.stopped
    ensures Next(s, ReadsDue) == s.(loop := Batch(DueTasks(s.tasks, s.now, |s.tasks|))) && !s.doneClosed
  {
    hide DueTasks, OneRun, Counted, Recorded, LoopHolds, QueueHolds, LogHolds, Balanced, StopHolds, Recent;
  }

  lemma {:induction false} BatchStartsAll(s: State, todo: seq<nat>)
    requires Inv(s) && s.loop == Batch(todo) && !s.stopped && !s.doneClosed
    ensures var r := Run(s, WorkOff(|todo|));
            r.loop == Batch([]) && r.log == s.log + Begun(todo, s.now) && r.working == s.working + multiset(todo)
    decreases |todo|
  {
    hide Next, Inv;
    if todo != [] {
      TakeAndExecute(s, todo);
      var t := Next(Next(s, TakesNext), Executes);
      InvKept(s, TakesNext);
      InvKept(Next(s, TakesNext), Executes);
      TwoActions(s, TakesNext, Executes, WorkOff(|todo| - 1));
      BatchStartsAll(t, todo[1..]);
      assert todo == [todo[0]] + todo[1..];
    }
  }

  lemma TakeAndExecute(s: State, todo: seq<nat>)
    requires Inv(s) && s.loop == Batch(todo) && todo != [] && !s.stopped && !s.doneClosed
    ensures var t := Next(Next(s, TakesNext), Executes);
            && t.loop == Batch(todo[1..]) && t.now == s.now && !t.stopped && !t.doneClosed
            && t.log == s.log + [Began(todo[0], s.now, true)] && t.working == s.working + multiset{todo[0]}
  {
    hide First, DueTasks, Rising, OneRun, Counted, Recorded, QueueHolds, LogHolds, Balanced, StopHolds, Recent, Flags;
    assert Held(s, todo[0], true);
  }

  // An accepted trigger that the scheduler receives starts its task, unless the task is running or the
  // engine stopped.
  lemma TriggeredTaskStarts(s: State, name: string)
    requires Inv(s) && s.loop == Select && s.queue != [] && s.queue[0] == name && !s.stopped
    ensures var r := Run(s, [Receives, Finds] + [Executes]);
            First(s.tasks, name).Some? &&
            var i := First(s.tasks, name).value;
            && s.tasks[i].enabled && r.queue == s.queue[1..] && r.loop == Select
            && r.log == if s.tasks[i].state == Running then s.log else s.log + [Began(i, s.now, false)]
  {
    hide Next, Run, Inv, First, Execute1;
    ReceivedIsFound(s, name);
    TwoActions(s, Receives, Finds, [Executes]);
    OneAction(Next(Next(s, Receives), Finds), Executes);
    ExecutedOnce(Next(Next(s, Receives), Finds));
  }

  lemma ReceivedIsFound(s: State, name: string)
    requires Inv(s) && s.loop == Select && s.queue != [] && s.queue[0] == name
    ensures First(s.tasks, name).Some? && s.tasks[First(s.tasks, name).value].enabled
    ensures Next(Next(s, Receives), Finds) == s.(queue := s.queue[1..], loop := Execute(First(s.tasks, name).value, None))
  {
    hide Counted, Recorded, LogHolds, Balanced, Flags, StopHolds, Recent, OneRun, LoopHolds, First, DueTasks;
    assert EnabledName(s, name);
  }

  lemma ExecutedOnce(s: State)
    requires s.loop.Execute? && s.loop.task < |s.tasks| && s.loop.rest == None && !s.stopped
    ensures var (i, r) := (s.loop.task, Next(s, Executes));
            && r.queue == s.queue && r.loop == Select
            && r.log == if s.tasks[i].state == Running then s.log else s.log + [Began(i, s.now, false)]
  {
    hide First, DueTasks;
  }

  // In terms of the past alone: a pass of a running engine begins a task exactly when it is enabled, no
  // run of it is in progress, and it never completed or its latest completion, a failed one like any
  // other, is at least its interval old.
  lemma PassBeginsExactly(s: State, i: nat)
    requires Inv(s) && s.loop == Due && !s.stopped
    ensures Next(s, ReadsDue).loop.Batch?
    ensures var r := Run(s, [ReadsDue] + WorkOff(|Next(s, ReadsDue).loop.todo|));
            && s.log <= r.log && r.loop == Batch([])
            && (Began(i, s.now, true) in r.log[|s.log|..] <==>
                  && i < |s.tasks| && s.tasks[i].enabled && s.working[i] == 0
                  && match LastEnd(s.log, i)
                     case None => true
                     case Some(e) => s.now - e.at >= s.tasks[i].interval)
  {
    hide Inv, Run, Next, DueTasks, LastEnd, WorkOff;
    var due := DueTasks(s.tasks, s.now, |s.tasks|);
    ReadsDueIs(s);
    DuePassStartsAllDue(s);
    BegunAre(due, s.now);
    assert (s.log + Begun(due, s.now))[|s.log|..] == Begun(due, s.now);
    if i < |s.tasks| {
      DueByThePast(s, i);
    }
  }

  lemma {:induction false} BegunAre(todo: seq<nat>, at: int)
    ensures forall e :: e in Begun(todo, at) <==> e.Began? && e.task in todo && e.at == at && e.scheduled
  {
    if todo != [] {
      BegunAre(todo[1..], at);
      assert forall i :: i in todo <==> i == todo[0] || i in todo[1..];
    }
  }

  // What the record of a task says about it is what the past says.
  lemma DueByThePast(s: State, i: nat)
    requires Inv(s) && i < |s.tasks|
    ensures IsDue(s.tasks[i], s.now) <==>
              && s.tasks[i].enabled && s.working[i] == 0
              && match LastEnd(s.log, i)
                 case None => true
                 case Some(e) => s.now - e.at >= s.tasks[i].interval
  {
    hide Counted, LoopHolds, QueueHolds, LogHolds, Balanced, Flags, StopHolds, Recent, LastEnd;
  }

  // The end of a run is recorded with its time and its error.
  lemma EndIsRecorded(s: State, i: nat, err: Option<string>)
    requires Inv(s) && i in s.working
    ensures i < |s.tasks|
    ensures var (t, r) := (s.tasks[i], Next(s, TaskEnds(i, err)).tasks[i]);
            && r.name == t.name && r.enabled == t.enabled && r.interval == t.interval
            && r.lastRun == Some(s.now) && r.runCount == t.runCount + 1
            && (if err == None then r.state == Idle && r.lastErr == "" && r.errCount == t.errCount
                else r.state == Failed && r.lastErr == err.value && r.errCount == t.errCount + 1)
  {
    hide Counted, Recorded, LoopHolds, QueueHolds, LogHolds, Balanced, Flags, StopHolds, Recent, LoopNext;
  }

  /* ---------- Stop can always return ---------- */

  // Ends and reports whatever runs.
  lemma {:induction false} DrainsWork(s: State) returns (actions: seq<Action>)
    requires Inv(s)
    ensures var r := Run(s, actions);
            && Inv(r) && r.working == multiset{} && r.reporting == 0 && r.loop == s.loop && r.stop == s.stop
            && r.launching == s.launching && r.started == s.started
    decreases |s.working|, s.reporting
  {
    hide Inv, Run, Next, LoopNext;
    if s.working != multiset{} {
      var i :| i in s.working;
      var a := TaskEnds(i, None);
      InvKept(s, a);
      EndShrinks(s, i);
      var rest := DrainsWork(Next(s, a));
      actions := [a] + rest;
      RunFirst(s, a, rest);
    } else if s.reporting > 0 {
      InvKept(s, TaskReports);
      ReportShrinks(s);
      var rest := DrainsWork(Next(s, TaskReports));
      actions := [TaskReports] + rest;
      RunFirst(s, TaskReports, rest);
    } else {
      actions := [];
      RunNothing(s);
    }
  }

  lemma RunNothing(s: State)
    ensures Run(s, []) == s
  {
  }

  lemma RunFirst(s: State, a: Action, rest: seq<Action>)
    ensures Run(s, [a] + rest) == Run(Next(s, a), rest)
  {
    hide Next;
    assert ([a] + rest)[1..] == rest;
  }

  lemma {:induction false} RunConcat(s: State, a: seq<Action>, b: seq<Action>)
    ensures Run(s, a + b) == Run(Run(s, a), b)
    decreases |a|
  {
    hide Next;
    if a == [] {
      assert a + b == b;
    } else {
      assert (a + b)[0] == a[0] && (a + b)[1..] == a[1..] + b;
      RunConcat(Next(s, a[0]), a[1..], b);
    }
  }

  lemma EndShrinks(s: State, i: nat)
    requires Inv(s) && i in s.working
    ensures var r := Next(s, TaskEnds(i, None));
            && |r.working| < |s.working| && r.loop == s.loop && r.stop == s.stop
            && r.launching == s.launching && r.started == s.started
  {
    hide Counted, Recorded, LoopHolds, QueueHolds, LogHolds, Balanced, Flags, StopHolds, Recent, LoopNext;
  }

  lemma ReportShrinks(s: State)
    requires s.reporting > 0
    ensures var r := Next(s, TaskReports);
            && r.working == s.working && r.reporting < s.reporting && r.loop == s.loop && r.stop == s.stop
            && r.launching == s.launching && r.started == s.started
  {
    hide LoopNext;
  }

  // The scheduler comes to its end once the channel is closed.
  lemma {:induction false} LoopComesToEnd(s: State) returns (actions: seq<Action>)
    requires Inv(s) && s.stop == Waiting && s.started && !s.launching
    ensures var r := Run(s, actions);
            Inv(r) && !Live(r.loop) && r.stop == Waiting && r.started && !r.launching
    decreases match s.loop case Due => 4 case Find(_) => 4 case Execute(_, _) => 3 case Batch(_) => 2 case Select => 1 case _ => 0
  {
    hide Inv, Run, Next;
    if !Live(s.loop) {
      actions := [];
      RunNothing(s);
    } else {
      var a := match s.loop case Due => ReadsDue case Find(_) => Finds case Execute(_, _) => Executes
                            case Batch(_) => TakesNext case _ => Exits;
      InvKept(s, a);
      LoopAdvances(s, a);
      var rest := LoopComesToEnd(Next(s, a));
      actions := [a] + rest;
      RunFirst(s, a, rest);
    }
  }

  lemma LoopAdvances(s: State, a: Action)
    requires Inv(s) && s.stop == Waiting && s.started && !s.launching && Live(s.loop)
    requires a == match s.loop case Due => ReadsDue case Find(_) => Finds case Execute(_, _) => Executes
                               case Batch(_) => TakesNext case _ => Exits
    ensures var r := Next(s, a);
            && r.stop == Waiting && r.started && !r.launching
            && match s.loop
               case Due => r.loop.Batch?
               case Find(_) => r.loop.Execute? || r.loop == Select
               case Execute(_, _) => r.loop.Batch? || r.loop == Select
               case Batch(_) => r.loop == Select
               case _ => r.loop == Gone
  {
    hide OneRun, Counted, Recorded, QueueHolds, LogHolds, Balanced, StopHolds, Recent, First, DueTasks, Rising;
  }

  // Whatever the engine is doing when Stop waits, it can wind down so that Stop returns: nothing that it
  // waits for is stuck, as long as tasks end.
  lemma StopCanReturn(s: State) returns (actions: seq<Action>)
    requires Inv(s) && s.stop == Waiting
    ensures Run(s, actions).stop == Returned
  {
    hide Inv, Run, Next;
    var t := s;
    actions := [];
    RunNothing(s);
    WaitingStarted(s);
    if s.launching {
      actions := [StartLaunches];
      InvKept(s, StartLaunches);
      OneAction(s, StartLaunches);
      LaunchKeepsStop(s);
      t := Next(s, StartLaunches);
    }
    var a := LoopComesToEnd(t);
    RunConcat(s, actions, a);
    actions, t := actions + a, Run(t, a);
    var b := DrainsWork(t);
    RunConcat(s, actions, b);
    actions, t := actions + b, Run(t, b);
    RunConcat(s, actions, [StopReturns]);
    actions := actions + [StopReturns];
    OneAction(t, StopReturns);
    NothingLeft(t);
  }

  lemma WaitingStarted(s: State)
    requires Inv(s) && s.stop == Waiting
    ensures s.started
  {
    hide OneRun, Counted, Recorded, LoopHolds, QueueHolds, LogHolds, Balanced, StopHolds, Recent;
  }

  lemma LaunchKeepsStop(s: State)
    requires s.launching && s.started
    ensures var r := Next(s, StartLaunches); r.stop == s.stop && r.started && !r.launching
  {
    hide LoopNext;
  }

  lemma NothingLeft(s: State)
    requires Inv(s) && s.stop == Waiting && !Live(s.loop) && s.working == multiset{} && s.reporting == 0
    ensures Next(s, StopReturns).stop == Returned
  {
    hide OneRun, Counted, Recorded, LoopHolds, QueueHolds, LogHolds, Flags, StopHolds, Recent, LoopNext;
  }
}
