/** Pools with priorities: tasks without a positive priority are never handed out, and joinAll waits for them. */
module PriorityRuns {
  import opened Wrappers
  import opened Sequences
  import opened TaskPools
  import opened Scheduler
  import opened StepFrames
  import opened TimerSweep
  import opened SchedulerSafety
  import opened JoinGuarantee

  /** Every submitted task without a positive priority is in the priority list. */
  predicate Stranded(s: State) {
    s.prioritypooling ==> forall x :: x in s.submitted && x.priority <= 0 ==> x in s.pool.ptasks
  }

  lemma {:induction false} WithoutKeeps(ps: seq<Task>, t: Task, x: Task)
    requires x in ps && x != t
    ensures x in Without(ps, t)
  {
    if x != ps[0] {
      WithoutKeeps(ps[1..], t, x);
    }
  }

  /** getPTask leaves such a task where it is. */
  lemma TakeLeaves(p: Pool, x: Task)
    requires x in p.ptasks && x.priority <= 0
    ensures x in GetPTask(p).0.ptasks
  {
    hide Without;
    match PickIndex(p.ptasks)
    case None =>
    case Some(k) =>
      assert IsPick(p.ptasks, k);
      WithoutKeeps(p.ptasks, p.ptasks[k], x);
  }

  lemma StrandedStep(s: State, a: Step, t: State)
    requires Stranded(s) && Apply(s, a) == Some(t)
    ensures Stranded(t)
  {
    hide Apply, ApplySubmit, ApplySweep, ApplyPoll, ApplyWorker, ApplyJoin, GetPTask, GetTask, Hand;
    StepOfThread(s, a);
    if a.Submit? {
      SubmitFrame(s, a.task, a.timer, t);
    } else if SweepStep(a) {
      SweepFrame(s, a, t);
    } else if PollStep(a) {
      PollFrame(s, a, t);
      if a.PollTake? && s.prioritypooling {
        TakeFrame(s, t);
        forall x | x in t.submitted && x.priority <= 0 ensures x in t.pool.ptasks {
          TakeLeaves(s.pool, x);
        }
      }
    } else if WorkerStep(a) {
      WorkerFrame(s, a, t);
    } else {
      JoinFrame(s, a, t);
    }
  }

  lemma {:induction false} StrandedRun(s: State, run: seq<Step>, t: State)
    requires Stranded(s) && Exec(s, run) == Some(t)
    ensures Stranded(t)
    decreases |run|
  {
    hide Stranded, Apply;
    if run != [] {
      var next := Apply(s, run[0]).value;
      StrandedStep(s, run[0], next);
      StrandedRun(next, run[1..], t);
    }
  }

  lemma StrandedReachable(s: State)
    requires Reachable(s)
    ensures Stranded(s)
  {
    hide Stranded, Exec;
    var prio: bool, n: nat, run: seq<Step> :| Exec(Init(prio, n), run) == Some(s);
    NothingStranded(prio, n);
    StrandedRun(Init(prio, n), run, s);
  }

  lemma NothingStranded(prio: bool, n: nat)
    ensures Stranded(Init(prio, n))
  {
  }

  /**
    In a pool with priorities a task submitted without one, or with one that is not positive, is never handed
    out and never runs, in any run.
   */
  lemma NeverDispatched(s: State, x: Task)
    requires Reachable(s) && s.prioritypooling && x in s.submitted && x.priority <= 0
    ensures x in s.pool.ptasks && x !in s.ran && x !in s.finished && Hand(s) != Some(x)
    ensures forall w :: 0 <= w < |s.workers| ==> s.workers[w].slot.task != Some(x)
    ensures Pending(s)
  {
    StrandedReachable(s);
    InvReachable(s);
    AtMostOnce(s);
    hide Inv, Reachable, Stranded;
    StaysOut(s, x);
  }

  lemma StaysOut(s: State, x: Task)
    requires Inv(s) && x in s.pool.ptasks
    ensures x !in s.ran && x !in s.finished && Hand(s) != Some(x)
    ensures forall w :: 0 <= w < |s.workers| ==> s.workers[w].slot.task != Some(x)
  {
    InvHasSweep(s);
    NotRun(s, x);
    hide Inv, SweepInv, Hand;
    if x in s.finished {
      PlaceUnique(s, x, ReadyByPriority, Finished);
    }
    if Hand(s) == Some(x) {
      PlaceUnique(s, x, ReadyByPriority, InHand);
    }
    forall w | 0 <= w < |s.workers| ensures s.workers[w].slot.task != Some(x) {
      if s.workers[w].slot.task == Some(x) {
        PlaceUnique(s, x, ReadyByPriority, InSlot(w));
      }
    }
  }

  /** What has run is in a slot or finished. */
  lemma NotRun(s: State, x: Task)
    requires Inv(s) && x in s.pool.ptasks
    ensures x !in s.ran
  {
    hide SweepInv, Unpromoted, TasksOf, Count, SlotCount, RanCount;
    assert Count(s.submitted, x) == Places(s, x);
    assert Count(s.ran, x) == Count(s.finished, x) + RanCount(s.workers, x);
    CountOfDistinct(s.submitted, x);
    RanWithinSlots(s.workers, x);
    CountMember(s.pool.ptasks, x);
    CountMember(s.ran, x);
  }

  /** A joinAll that has got past its wait, in any run, had no such task submitted before. */
  lemma JoinNeverPasses(s: State)
    requires Reachable(s) && s.prioritypooling && !s.joiner.Observing?
    ensures s.joiner.seen <= |s.submitted|
    ensures forall x :: Early(s, s.joiner.seen, x) ==> x.priority > 0
  {
    StrandedReachable(s);
    JoinInvReachable(s);
    hide Inv, Reachable, Unpromoted, TasksOf;
    forall x | Early(s, s.joiner.seen, x) ensures x.priority > 0 {
      EarlyStays(s, s, s.joiner.seen);
    }
  }

  // ------------------------------------------------------------------ the order of dispatch

  /** The priority list keeps the order of submission. */
  predicate InOrder(ps: seq<Task>, submitted: seq<Task>) {
    && (forall i :: 0 <= i < |ps| ==> ps[i] in submitted)
    && (forall i, j, a, b | 0 <= i < j < |ps| && 0 <= a < |submitted| && 0 <= b < |submitted|
          && submitted[a] == ps[i] && submitted[b] == ps[j] :: a < b)
  }

  predicate Ordered(s: State) {
    s.prioritypooling ==> InOrder(s.pool.ptasks, s.submitted)
  }

  lemma SubmitInOrder(ps: seq<Task>, submitted: seq<Task>, x: Task)
    requires InOrder(ps, submitted) && x !in submitted
    ensures InOrder(ps + [x], submitted + [x])
  {
  }

  lemma EraseInOrder(ps: seq<Task>, submitted: seq<Task>, k: nat)
    requires InOrder(ps, submitted) && k < |ps|
    ensures InOrder(Erase(ps, k), submitted)
  {
    var qs := Erase(ps, k);
    assert forall i :: 0 <= i < |qs| ==> qs[i] == ps[if i < k then i else i + 1];
  }

  lemma OrderedStep(s: State, a: Step, t: State)
    requires Inv(s) && Ordered(s) && Apply(s, a) == Some(t)
    ensures Ordered(t)
  {
    QueueIsDistinct(s);
    hide Inv, Apply, ApplySubmit, ApplySweep, ApplyPoll, ApplyWorker, ApplyJoin, GetPTask, GetTask, Hand, InOrder;
    StepOfThread(s, a);
    if a.Submit? {
      SubmitFrame(s, a.task, a.timer, t);
      if s.prioritypooling {
        SubmitInOrder(s.pool.ptasks, s.submitted, a.task);
      }
    } else if SweepStep(a) {
      SweepFrame(s, a, t);
    } else if PollStep(a) {
      PollFrame(s, a, t);
      if a.PollTake? && s.prioritypooling {
        TakeFrame(s, t);
        if GetPTask(s.pool).1.Some? {
          var k := TakesOne(s.pool);
          EraseInOrder(s.pool.ptasks, s.submitted, k);
        }
      }
    } else if WorkerStep(a) {
      WorkerFrame(s, a, t);
    } else {
      JoinFrame(s, a, t);
    }
  }

  lemma {:induction false} OrderedRun(s: State, run: seq<Step>, t: State)
    requires Inv(s) && Ordered(s) && Exec(s, run) == Some(t)
    ensures Ordered(t)
    decreases |run|
  {
    hide Inv, Ordered, Apply;
    if run != [] {
      var next := Apply(s, run[0]).value;
      InvStep(s, run[0], next);
      OrderedStep(s, run[0], next);
      OrderedRun(next, run[1..], t);
    }
  }

  lemma OrderedReachable(s: State)
    requires Reachable(s)
    ensures Ordered(s)
  {
    hide Inv, Ordered, Exec;
    var prio: bool, n: nat, run: seq<Step> :| Exec(Init(prio, n), run) == Some(s);
    InvInit(prio, n);
    NothingOrdered(prio, n);
    OrderedRun(Init(prio, n), run, s);
  }

  lemma NothingOrdered(prio: bool, n: nat)
    ensures Ordered(Init(prio, n))
  {
  }

  /**
    In every run the poller takes, of all the tasks that wait, the first submitted of those with the highest
    priority; it takes none only when no priority is positive.
   */
  lemma TakesBestFirst(s: State, t: State)
    requires Reachable(s) && s.prioritypooling && Apply(s, PollTake) == Some(t)
    ensures Hand(t).None? ==> t.pool == s.pool && forall x :: x in s.pool.ptasks ==> x.priority <= 0
    ensures Hand(t).Some? ==>
      var x := Hand(t).value;
      && x in s.pool.ptasks && x !in t.pool.ptasks && x.priority > 0
      && forall a, b | 0 <= a < |s.submitted| && 0 <= b < |s.submitted| && a != b
          && s.submitted[a] == x && s.submitted[b] in s.pool.ptasks ::
          s.submitted[b].priority < x.priority || (s.submitted[b].priority == x.priority && a < b)
  {
    OrderedReachable(s);
    InvReachable(s);
    QueueIsDistinct(s);
    hide Inv, Reachable, Apply, ApplyPoll, GetPTask, Hand, InOrder, IsPick;
    StepOfThread(s, PollTake);
    TakeFrame(s, t);
    if GetPTask(s.pool).1.Some? {
      var k := TakesOne(s.pool);
      PickInList(s.pool.ptasks, k);
      EraseTakes(s.pool.ptasks, k);
      var ps := s.pool.ptasks;
      forall a, b | 0 <= a < |s.submitted| && 0 <= b < |s.submitted| && a != b
          && s.submitted[a] == ps[k] && s.submitted[b] in ps
        ensures s.submitted[b].priority < ps[k].priority || (s.submitted[b].priority == ps[k].priority && a < b) {
        BestIsFirst(s, k, a, b);
      }
    }
  }

  lemma EraseTakes(ps: seq<Task>, k: nat)
    requires k < |ps| && Distinct(ps)
    ensures ps[k] !in Erase(ps, k)
  {
  }

  lemma BestIsFirst(s: State, k: nat, a: nat, b: nat)
    requires Distinct(s.submitted) && InOrder(s.pool.ptasks, s.submitted) && IsPick(s.pool.ptasks, k)
    requires a < |s.submitted| && b < |s.submitted| && a != b
    requires s.submitted[a] == s.pool.ptasks[k] && s.submitted[b] in s.pool.ptasks
    ensures var x, y := s.submitted[a], s.submitted[b]; y.priority < x.priority || (y.priority == x.priority && a < b)
  {
    var j :| 0 <= j < |s.pool.ptasks| && s.pool.ptasks[j] == s.submitted[b];
    if j > k {
      assert a < b;
    }
  }
}
