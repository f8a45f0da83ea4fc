/**
 The task scheduler of internal/agent/engine.go as a state machine.  Each action is one stretch of
 code that runs under the mutex, or one operation on the channels and the wait group; the actions
 of all goroutines interleave freely.  Goroutines are kept as program counters: `launching` (a
 Start call between its unlock and its Add), `stop`, `loop`, `working` (task goroutines until
 setTaskResult) and `reporting` (task goroutines after it, until Done).
 */
module EngineState {
  import opened Text

  datatype RunState = Idle | Running | Failed

  // A registered task; `lastRun` is None before the first completion.
  datatype Task = Task(name: string, enabled: bool, interval: int, state: RunState, lastRun: Option<int>,
                       lastErr: string, runCount: int, errCount: int)

  datatype Stopper = NotStopping | Cancelling | Closing | Waiting | Returned

  // Where the scheduler goroutine is.  Batch and Execute carry what is left of runDueTasks' snapshot.
  datatype Loop = Absent | Due | Batch(todo: seq<nat>) | Execute(task: nat, rest: Option<seq<nat>>)
                | Select | Find(name: string) | Gone

  datatype Event = Began(task: nat, at: int, scheduled: bool) | Ended(task: nat, at: int, ok: bool)

  datatype State = State(tasks: seq<Task>, queue: seq<string>, started: bool, stopped: bool, cancelled: bool,
                         doneClosed: bool, wg: int, launching: bool, stop: Stopper, loop: Loop,
                         working: multiset<nat>, reporting: nat, now: int, log: seq<Event>)

  datatype Action =
    | Register(name: string, enabled: bool, interval: int)
    | StartLocks | StartLaunches
    | StopLocks | StopCancels | StopCloses | StopReturns
    | Triggers(name: string)
    | ReadsDue | TakesNext | Executes | Ticks | Receives | Finds | Exits
    | TaskEnds(task: nat, err: Option<string>) | TaskReports
    | Passes(time: nat)

  const QUEUE := 8

  function Init(now: int): State {
    State([], [], false, false, false, false, 0, false, NotStopping, Absent, multiset{}, 0, now, [])
  }

  /* ---------- What the lock regions compute ---------- */

  // The first task of a name.
  function First(tasks: seq<Task>, name: string): (r: Option<nat>)
    ensures r.Some? ==> r.value < |tasks| && tasks[r.value].name == name
  {
    if tasks == [] then None
    else if tasks[0].name == name then Some(0)
    else match First(tasks[1..], name)
      case None => None
      case Some(i) => Some(i + 1)
  }

  predicate IsDue(t: Task, now: int) {
    t.enabled && t.state != Running && (t.lastRun == None || now - t.lastRun.value >= t.interval)
  }

  // The indices of the due tasks among the first n, in order of registration.
  function DueTasks(tasks: seq<Task>, now: int, n: nat): seq<nat>
    requires n <= |tasks|
  {
    if n == 0 then []
    else DueTasks(tasks, now, n - 1) + if IsDue(tasks[n - 1], now) then [n - 1] else []
  }

  function SetResult(t: Task, now: int, err: Option<string>): Task {
    match err
    case Some(e) => t.(lastRun := Some(now), runCount := t.runCount + 1, state := Failed, lastErr := e,
                       errCount := t.errCount + 1)
    case None => t.(lastRun := Some(now), runCount := t.runCount + 1, state := Idle, lastErr := "")
  }

  /* ---------- Actions; one that is not enabled changes nothing ---------- */

  predicate Live(l: Loop) {
    l != Absent && l != Gone
  }

  function AfterExecute(rest: Option<seq<nat>>): Loop {
    match rest
    case None => Select
    case Some(todo) => Batch(todo)
  }

  // The lock region of executeTask.
  function Execute1(s: State, i: nat, rest: Option<seq<nat>>): State
    requires i < |s.tasks|
  {
    if s.stopped || s.tasks[i].state == Running then s.(loop := AfterExecute(rest))
    else s.(tasks := s.tasks[i := s.tasks[i].(state := Running)], wg := s.wg + 1, loop := AfterExecute(rest),
            working := s.working + multiset{i}, log := s.log + [Began(i, s.now, rest.Some?)])
  }

  function Next(s: State, a: Action): State {
    match a
    case Register(name, enabled, interval) => s.(tasks := s.tasks + [Task(name, enabled, interval, Idle, None, "", 0, 0)])
    case StartLocks => if s.started then s else s.(started := true, launching := true)
    case StartLaunches => if s.launching then s.(launching := false, wg := s.wg + 1, loop := Due) else s
    case StopLocks => if !s.started || s.stopped then s else s.(stopped := true, stop := Cancelling)
    case StopCancels => if s.stop == Cancelling then s.(cancelled := true, stop := Closing) else s
    case StopCloses => if s.stop == Closing then s.(doneClosed := true, stop := Waiting) else s
    case StopReturns => if s.stop == Waiting && s.wg == 0 then s.(stop := Returned) else s
    case Triggers(name) => Queued(s, name)
    case Passes(time) => s.(now := s.now + time)
    case TaskEnds(i, err) => Ends(s, i, err)
    case TaskReports => if s.reporting > 0 then s.(reporting := s.reporting - 1, wg := s.wg - 1) else s
    case _ => LoopNext(s, a)
  }

  // Trigger: the first task of the name decides, and a full queue refuses.
  function Queued(s: State, name: string): State {
    match First(s.tasks, name)
    case None => s
    case Some(i) => if s.tasks[i].enabled && |s.queue| < QUEUE then s.(queue := s.queue + [name]) else s
  }

  // A task's Run returns, fails or panics, and setTaskResult records it.
  function Ends(s: State, i: nat, err: Option<string>): State {
    if i !in s.working || i >= |s.tasks| then s
    else s.(tasks := s.tasks[i := SetResult(s.tasks[i], s.now, err)], working := s.working - multiset{i},
            reporting := s.reporting + 1, log := s.log + [Ended(i, s.now, err == None)])
  }

  // The scheduler goroutine.
  function LoopNext(s: State, a: Action): State {
    match (s.loop, a)
    case (Due, ReadsDue) => s.(loop := Batch(DueTasks(s.tasks, s.now, |s.tasks|)))
    case (Batch(todo), TakesNext) =>
      if todo == [] || s.doneClosed then s.(loop := Select) else s.(loop := Execute(todo[0], Some(todo[1..])))
    case (Execute(i, rest), Executes) => if i < |s.tasks| then Execute1(s, i, rest) else s
    case (Select, Ticks) => s.(loop := Due)
    case (Select, Receives) => if s.queue == [] then s else s.(queue := s.queue[1..], loop := Find(s.queue[0]))
    case (Select, Exits) => if s.doneClosed then s.(loop := Gone, wg := s.wg - 1) else s
    case (Find(name), Finds) =>
      (match First(s.tasks, name)
       case None => s.(loop := Select)
       case Some(i) => s.(loop := Execute(i, None)))
    case _ => s
  }

  function Run(s: State, actions: seq<Action>): State
    decreases |actions|
  {
    if actions == [] then s else Run(Next(s, actions[0]), actions[1..])
  }
}
