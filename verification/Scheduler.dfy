/**
  The timer sweep, the poller, the workers, a joining thread and submitting clients as one step
  system. Each step is one lock region of TaskPool.cpp, ThreadPool.cpp or PoolThread.cpp, or one
  stretch of code between two regions; threads interleave freely.
 */
module Scheduler {
  import opened Wrappers
  import opened TaskPools
  import opened PoolThreads

  /** Where TaskPool::run is. `marked` is the queue of indices to be removed. */
  datatype Sweep =
    | Resting
    | Scanning(total: nat, i: nat, marked: seq<nat>)
    | Deciding(total: nat, i: nat, marked: seq<nat>, entry: Entry)
    | Pushing(total: nat, i: nat, marked: seq<nat>, entry: Entry)
    | Removing(marked: seq<nat>, counter: nat)
    | Crashed

  /** What happened in the current sweep: the list it started from, and everything since. */
  datatype SweepLog = SweepLog(snapshot: seq<Entry>, verdicts: seq<bool>, arrived: seq<Entry>, swept: seq<Task>)

  /** Where ThreadPool::poll and submitInternal are. */
  datatype Poller =
    | Checking
    | Taking
    | Offering(task: Task, v: nat)
    | Placing(task: Task, v: nat)

  datatype WorkerAt = Waiting | Running(task: Task) | Ran(task: Task)

  datatype Worker = Worker(slot: Slot, at: WorkerAt)

  /** Where joinAll is; `held` and `seen` record the poller's hand and the submissions when nothing was pending. */
  datatype Joiner =
    | Observing
    | Counting(v: nat, idles: nat, held: Option<Task>, seen: nat)
    | Joined(held: Option<Task>, seen: nat)

  datatype State = State(
    prioritypooling: bool, pool: Pool, sweep: Sweep, log: SweepLog, poller: Poller, workers: seq<Worker>,
    joiner: Joiner,
    submitted: seq<Task>, pushed: seq<Task>, dispatched: seq<Task>, ran: seq<Task>, finished: seq<Task>)

  datatype Step =
    | Submit(task: Task, timer: Timer)
    | SweepSnapshot | SweepRead | SweepDecide(over: bool) | SweepPush | SweepTurn | SweepErase | SweepDone
    | PollCheck | PollTake | PollOffer | PollPlace
    | Wake(w: nat) | Run(w: nat) | Release(w: nat)
    | JoinObserve | JoinCount | JoinEnd

  function Init(prioritypooling: bool, initThreads: nat): State {
    State(prioritypooling, Pool([], [], []), Resting, SweepLog([], [], [], []), Checking,
      seq(initThreads, _ => Worker(FREE, Waiting)), Observing, [], [], [], [], [])
  }

  predicate Pending(s: State) {
    if s.prioritypooling then TasksPPending(s.pool) else TasksPending(s.pool)
  }

  /** The task the poller has popped and not yet checked out. */
  function Hand(s: State): Option<Task> {
    match s.poller
    case Offering(t, _) => Some(t)
    case Placing(t, _) => Some(t)
    case _ => None
  }

  /** A client submits or schedules a task that was not submitted before. */
  function ApplySubmit(s: State, t: Task, timer: Timer): Option<State> {
    if t in s.submitted then None
    else if s.prioritypooling then
      Some(s.(pool := AddPTask(s.pool, t), submitted := s.submitted + [t]))
    else if Timed(t) then
      Some(s.(pool := AddTask(s.pool, t, timer), submitted := s.submitted + [t],
        log := s.log.(arrived := s.log.arrived + [Entry(t, timer)])))
    else
      Some(s.(pool := AddTask(s.pool, t, timer), submitted := s.submitted + [t], pushed := s.pushed + [t]))
  }

  function ApplySweep(s: State, a: Step): Option<State> {
    match (s.sweep, a)
    case (Resting, SweepSnapshot) =>
      Some(s.(sweep := Scanning(|s.pool.scheduled|, 0, []), log := SweepLog(s.pool.scheduled, [], [], [])))
    case (Scanning(total, i, marked), SweepRead) =>
      if i >= total then None
      else if i >= |s.pool.scheduled| then Some(s.(sweep := Crashed))
      else Some(s.(sweep := Deciding(total, i, marked, s.pool.scheduled[i])))
    case (Deciding(total, i, marked, e), SweepDecide(over)) =>
      if over then Some(s.(sweep := Pushing(total, i, marked + [i], e)))
      else Some(s.(sweep := Scanning(total, i + 1, marked), log := s.log.(verdicts := s.log.verdicts + [false])))
    case (Pushing(total, i, marked, e), SweepPush) =>
      Some(s.(sweep := Scanning(total, i + 1, marked), pool := PushReady(s.pool, e.task), pushed := s.pushed + [e.task],
        log := s.log.(verdicts := s.log.verdicts + [true], swept := s.log.swept + [e.task])))
    case (Scanning(total, i, marked), SweepTurn) =>
      if i < total then None else Some(s.(sweep := Removing(marked, 0)))
    case (Removing(marked, counter), SweepErase) =>
      if counter >= |marked| then None
      else
        var index := marked[counter] - counter;
        if !(0 <= index < |s.pool.scheduled|) then Some(s.(sweep := Crashed))
        else Some(s.(sweep := Removing(marked, counter + 1), pool := EraseScheduled(s.pool, index)))
    case (Removing(marked, counter), SweepDone) =>
      if counter < |marked| then None else Some(s.(sweep := Resting))
    case _ => None
  }

  function ApplyPoll(s: State, a: Step): Option<State> {
    match (s.poller, a)
    case (Checking, PollCheck) => Some(s.(poller := if Pending(s) then Taking else Checking))
    case (Taking, PollTake) =>
      var (pool, task) := if s.prioritypooling then GetPTask(s.pool) else GetTask(s.pool);
      Some(s.(pool := pool, poller := if task.Some? then Offering(task.value, 0) else Checking))
    case (Offering(t, v), PollOffer) =>
      if v >= |s.workers| then Some(s.(poller := Offering(t, 0)))
      else Some(s.(poller := if s.workers[v].slot.idle then Placing(t, v) else Offering(t, v + 1)))
    case (Placing(t, v), PollPlace) =>
      if v >= |s.workers| then None
      else Some(s.(poller := Checking, dispatched := s.dispatched + [t],
        workers := s.workers[v := s.workers[v].(slot := CheckedOut(t))]))
    case _ => None
  }

  /** Wake is every return of the condition wait, a spurious one included, with the getTask after it. */
  function ApplyWorker(s: State, a: Step): Option<State> {
    match a
    case Wake(w) =>
      if w >= |s.workers| || s.workers[w].at != Waiting then None
      else
        var slot := s.workers[w].slot;
        Some(s.(workers := s.workers[w := Worker(slot, if slot.task.Some? then Running(slot.task.value) else Waiting)]))
    case Run(w) =>
      if w >= |s.workers| || !s.workers[w].at.Running? then None
      else
        var t := s.workers[w].at.task;
        Some(s.(workers := s.workers[w := s.workers[w].(at := Ran(t))], ran := s.ran + [t]))
    case Release(w) =>
      if w >= |s.workers| || !s.workers[w].at.Ran? then None
      else
        Some(s.(workers := s.workers[w := Worker(FREE, Waiting)], finished := s.finished + [s.workers[w].at.task]))
    case _ => None
  }

  function ApplyJoin(s: State, a: Step): Option<State> {
    match (s.joiner, a)
    case (Observing, JoinObserve) =>
      Some(s.(joiner := if Pending(s) then Observing else Counting(0, 0, Hand(s), |s.submitted|)))
    case (Counting(v, idles, held, seen), JoinCount) =>
      if v >= |s.workers| then None
      else Some(s.(joiner := Counting(v + 1, if s.workers[v].slot.idle then idles + 1 else idles, held, seen)))
    case (Counting(v, idles, held, seen), JoinEnd) =>
      if v < |s.workers| then None
      else Some(s.(joiner := if idles == |s.workers| then Joined(held, seen) else Observing))
    case _ => None
  }

  /** The state after a step, if the step is possible. */
  function Apply(s: State, a: Step): Option<State> {
    match a
    case Submit(t, timer) => ApplySubmit(s, t, timer)
    case SweepSnapshot => ApplySweep(s, a)
    case SweepRead => ApplySweep(s, a)
    case SweepDecide(_) => ApplySweep(s, a)
    case SweepPush => ApplySweep(s, a)
    case SweepTurn => ApplySweep(s, a)
    case SweepErase => ApplySweep(s, a)
    case SweepDone => ApplySweep(s, a)
    case PollCheck => ApplyPoll(s, a)
    case PollTake => ApplyPoll(s, a)
    case PollOffer => ApplyPoll(s, a)
    case PollPlace => ApplyPoll(s, a)
    case Wake(_) => ApplyWorker(s, a)
    case Run(_) => ApplyWorker(s, a)
    case Release(_) => ApplyWorker(s, a)
    case JoinObserve => ApplyJoin(s, a)
    case JoinCount => ApplyJoin(s, a)
    case JoinEnd => ApplyJoin(s, a)
  }

  /** The state after a run, if all its steps are possible one after the other. */
  function Exec(s: State, run: seq<Step>): Option<State>
    decreases |run|
  {
    if run == [] then Some(s)
    else
      match Apply(s, run[0])
      case None => None
      case Some(next) => Exec(next, run[1..])
  }

  /** A state of some run of a pool with some number of workers. */
  ghost predicate Reachable(s: State) {
    exists prio: bool, n: nat, run: seq<Step> :: Exec(Init(prio, n), run) == Some(s)
  }
}
