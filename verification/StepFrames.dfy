/** What the steps of each thread leave alone. */
module StepFrames {
  import opened Wrappers
  import opened TaskPools
  import opened PoolThreads
  import opened Scheduler

  predicate SweepStep(a: Step) {
    a.SweepSnapshot? || a.SweepRead? || a.SweepDecide? || a.SweepPush? || a.SweepTurn? || a.SweepErase? || a.SweepDone?
  }

  predicate PollStep(a: Step) {
    a.PollCheck? || a.PollTake? || a.PollOffer? || a.PollPlace?
  }

  predicate WorkerStep(a: Step) {
    a.Wake? || a.Run? || a.Release?
  }

  predicate JoinStep(a: Step) {
    a.JoinObserve? || a.JoinCount? || a.JoinEnd?
  }

  /** Every step belongs to one thread. */
  lemma StepOfThread(s: State, a: Step)
    ensures a.Submit? ==> Apply(s, a) == ApplySubmit(s, a.task, a.timer)
    ensures SweepStep(a) ==> Apply(s, a) == ApplySweep(s, a)
    ensures PollStep(a) ==> Apply(s, a) == ApplyPoll(s, a)
    ensures WorkerStep(a) ==> Apply(s, a) == ApplyWorker(s, a)
    ensures JoinStep(a) ==> Apply(s, a) == ApplyJoin(s, a)
    ensures a.Submit? || SweepStep(a) || PollStep(a) || WorkerStep(a) || JoinStep(a)
  {
    hide ApplySubmit, ApplySweep, ApplyPoll, ApplyWorker, ApplyJoin;
  }

  lemma SubmitFrame(s: State, x: Task, timer: Timer, t: State)
    requires ApplySubmit(s, x, timer) == Some(t)
    ensures x !in s.submitted && t.submitted == s.submitted + [x]
    ensures t == s.(pool := t.pool, log := t.log, submitted := t.submitted, pushed := t.pushed)
    ensures s.prioritypooling ==>
      t.pool == s.pool.(ptasks := s.pool.ptasks + [x]) && t.pushed == s.pushed && t.log == s.log
    ensures !s.prioritypooling && Timed(x) ==>
      && t.pool == s.pool.(scheduled := s.pool.scheduled + [Entry(x, timer)]) && t.pushed == s.pushed
      && t.log == s.log.(arrived := s.log.arrived + [Entry(x, timer)])
    ensures !s.prioritypooling && !Timed(x) ==>
      t.pool == s.pool.(tasks := s.pool.tasks + [x]) && t.pushed == s.pushed + [x] && t.log == s.log
  {
    hide Timed;
  }

  lemma SweepFrame(s: State, a: Step, t: State)
    requires ApplySweep(s, a) == Some(t)
    ensures t == s.(pool := t.pool, sweep := t.sweep, log := t.log, pushed := t.pushed)
    ensures t.pool.ptasks == s.pool.ptasks
    ensures a.SweepPush? ==>
      && s.sweep.Pushing? && t.pool == s.pool.(tasks := s.pool.tasks + [s.sweep.entry.task])
      && t.pushed == s.pushed + [s.sweep.entry.task] && t.log.swept == s.log.swept + [s.sweep.entry.task]
    ensures !a.SweepPush? ==> t.pool.tasks == s.pool.tasks && t.pushed == s.pushed && t.log.swept <= s.log.swept
    ensures !a.SweepErase? ==> t.pool.scheduled == s.pool.scheduled
    ensures a.SweepErase? && s.pool.scheduled == [] ==> t.pool.scheduled == []
  {
  }

  lemma PollFrame(s: State, a: Step, t: State)
    requires ApplyPoll(s, a) == Some(t)
    ensures t == s.(pool := t.pool, poller := t.poller, workers := t.workers, dispatched := t.dispatched)
    ensures t.pool.scheduled == s.pool.scheduled && |t.workers| == |s.workers|
    ensures !a.PollTake? ==> t.pool == s.pool
    ensures !a.PollPlace? ==> t.workers == s.workers && t.dispatched == s.dispatched
    ensures a.PollCheck? ==> Hand(s) == None == Hand(t)
    ensures a.PollTake? ==> Hand(s) == None
    ensures a.PollOffer? ==> Hand(t) == Hand(s)
    ensures t.poller.Placing? ==> a.PollOffer? && t.poller.v < |s.workers| && s.workers[t.poller.v].slot.idle
    ensures a.PollPlace? ==>
      && s.poller.Placing? && s.poller.v < |s.workers| && Hand(s) == Some(s.poller.task) && Hand(t) == None
      && t.dispatched == s.dispatched + [s.poller.task]
      && t.workers == s.workers[s.poller.v := s.workers[s.poller.v].(slot := CheckedOut(s.poller.task))]
  {
    hide PickIndex, Without, Pending;
  }

  lemma TakeFrame(s: State, t: State)
    requires ApplyPoll(s, PollTake) == Some(t)
    ensures (t.pool, Hand(t)) == if s.prioritypooling then GetPTask(s.pool) else GetTask(s.pool)
  {
    hide PickIndex, Without, Pending;
  }

  function WorkerOf(a: Step): nat
    requires WorkerStep(a)
  {
    match a
    case Wake(w) => w
    case Run(w) => w
    case Release(w) => w
  }

  lemma WorkerFrame(s: State, a: Step, t: State)
    requires WorkerStep(a) && ApplyWorker(s, a) == Some(t)
    ensures t == s.(workers := t.workers, ran := t.ran, finished := t.finished)
    ensures var w := WorkerOf(a); w < |s.workers| == |t.workers| && t.workers == s.workers[w := t.workers[w]]
    ensures a.Wake? ==>
      var was := s.workers[a.w];
      && was.at == Waiting && t.ran == s.ran && t.finished == s.finished
      && t.workers[a.w] == Worker(was.slot, if was.slot.task.Some? then Running(was.slot.task.value) else Waiting)
    ensures a.Run? ==>
      var was := s.workers[a.w];
      && was.at.Running? && t.workers[a.w] == was.(at := Ran(was.at.task))
      && t.ran == s.ran + [was.at.task] && t.finished == s.finished
    ensures a.Release? ==>
      var was := s.workers[a.w];
      && was.at.Ran? && t.workers[a.w] == Worker(FREE, Waiting)
      && t.finished == s.finished + [was.at.task] && t.ran == s.ran
  {
  }

  lemma JoinFrame(s: State, a: Step, t: State)
    requires ApplyJoin(s, a) == Some(t)
    ensures t == s.(joiner := t.joiner)
  {
    hide Pending;
  }

  lemma CommonFrame(s: State, a: Step, t: State)
    requires Apply(s, a) == Some(t)
    ensures t.prioritypooling == s.prioritypooling && |t.workers| == |s.workers|
    ensures
      if a.Submit? then a.task !in s.submitted && t.submitted == s.submitted + [a.task]
      else t.submitted == s.submitted
    ensures !a.Submit? && !SweepStep(a) ==>
      t.sweep == s.sweep && t.log == s.log && t.pool.scheduled == s.pool.scheduled && t.pushed == s.pushed
    ensures !JoinStep(a) ==> t.joiner == s.joiner
  {
    hide *;
    ThreadOf(a);
    StepOfThread(s, a);
    if a.Submit? {
      SubmitFrame(s, a.task, a.timer, t);
    } else if SweepStep(a) {
      SweepFrame(s, a, t);
    } else if PollStep(a) {
      PollFrame(s, a, t);
    } else if WorkerStep(a) {
      WorkerFrame(s, a, t);
    } else {
      JoinFrame(s, a, t);
    }
  }

  /** The threads' steps are apart. */
  lemma ThreadOf(a: Step)
    ensures JoinStep(a) ==> !a.Submit? && !SweepStep(a) && !PollStep(a) && !WorkerStep(a)
    ensures a.Submit? ==> !SweepStep(a) && !PollStep(a) && !WorkerStep(a)
    ensures PollStep(a) ==> !SweepStep(a) && !WorkerStep(a)
    ensures SweepStep(a) ==> !WorkerStep(a)
  {
  }
}
