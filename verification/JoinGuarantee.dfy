/** What the return of joinAll says about the tasks submitted before it last saw nothing pending. */
module JoinGuarantee {
  import opened Wrappers
  import opened TaskPools
  import opened Scheduler
  import opened StepFrames
  import opened TimerSweep
  import opened SchedulerSafety

  /** The task was submitted before the observation. */
  predicate Early(s: State, seen: nat, x: Task)
    requires seen <= |s.submitted|
  {
    x in s.submitted[..seen]
  }

  /** A worker's slot holds no early task but the one that was in the poller's hand. */
  predicate SlotClear(s: State, seen: nat, held: Option<Task>, k: nat)
    requires seen <= |s.submitted| && k < |s.workers|
  {
    s.workers[k].slot.task.Some? && Early(s, seen, s.workers[k].slot.task.value) ==> s.workers[k].slot.task == held
  }

  /** No early task waits in a queue, and the hand holds none but the one it held. */
  ghost predicate QueuesClear(s: State, seen: nat, held: Option<Task>)
    requires SweepInv(s)
  {
    && seen <= |s.submitted|
    && (held.Some? ==> Early(s, seen, held.value))
    && (forall x :: Early(s, seen, x) ==>
      && x !in TasksOf(Unpromoted(s)) && x !in s.pool.tasks && x !in s.pool.ptasks
      && (Hand(s) == Some(x) ==> held == Some(x)))
  }

  ghost predicate JoinInv(s: State)
    requires SweepInv(s)
  {
    match s.joiner
    case Observing => true
    case Counting(v, idles, held, seen) =>
      && QueuesClear(s, seen, held) && idles <= v <= |s.workers|
      && (idles == v ==> forall k :: 0 <= k < v ==> SlotClear(s, seen, held, k))
    case Joined(held, seen) =>
      QueuesClear(s, seen, held) && forall k :: 0 <= k < |s.workers| ==> SlotClear(s, seen, held, k)
  }

  /** When nothing is pending, every submitted task is in the hand, in a slot or finished. */
  lemma ObserveClears(s: State)
    requires Inv(s) && !Pending(s)
    ensures QueuesClear(s, |s.submitted|, Hand(s))
  {
    hide Conserved, HistoryInv, ThreadsInv;
    NothingUnpromoted(s);
    if Hand(s).Some? {
      PlaceUnique(s, Hand(s).value, InHand, InHand);
      assert s.submitted[..|s.submitted|] == s.submitted;
    }
  }

  /** What the threads can put into the queues, the hand and the slots. */
  ghost predicate NoEarlierArrivals(s: State, t: State)
    requires SweepInv(s) && SweepInv(t)
  {
    && s.submitted <= t.submitted
    && (forall x :: x in TasksOf(Unpromoted(t)) ==> x in TasksOf(Unpromoted(s)) || x !in s.submitted)
    && (forall x :: x in t.pool.tasks ==> x in s.pool.tasks || x in TasksOf(Unpromoted(s)) || x !in s.submitted)
    && (forall x :: x in t.pool.ptasks ==> x in s.pool.ptasks || x !in s.submitted)
    && (Hand(t).Some? ==> Hand(t) == Hand(s) || Hand(t).value in s.pool.tasks || Hand(t).value in s.pool.ptasks)
    && |t.workers| == |s.workers|
    && forall k :: 0 <= k < |s.workers| ==>
      var slot := t.workers[k].slot.task; slot.None? || slot == s.workers[k].slot.task || slot == Hand(s)
  }

  lemma EarlyStays(s: State, t: State, seen: nat)
    requires s.submitted <= t.submitted && seen <= |s.submitted|
    ensures t.submitted[..seen] == s.submitted[..seen]
    ensures forall x :: x in s.submitted[..seen] ==> x in s.submitted
  {
  }

  lemma QueuesStayClear(s: State, t: State, seen: nat, held: Option<Task>)
    requires SweepInv(s) && SweepInv(t) && NoEarlierArrivals(s, t) && QueuesClear(s, seen, held)
    ensures QueuesClear(t, seen, held)
  {
    hide SweepInv, Unpromoted, TasksOf;
    EarlyStays(s, t, seen);
  }

  lemma SlotStaysClear(s: State, t: State, seen: nat, held: Option<Task>, k: nat)
    requires SweepInv(s) && SweepInv(t) && NoEarlierArrivals(s, t) && QueuesClear(s, seen, held)
    requires k < |s.workers| && SlotClear(s, seen, held, k)
    ensures SlotClear(t, seen, held, k)
  {
    hide SweepInv, Unpromoted, TasksOf;
    EarlyStays(s, t, seen);
  }

  lemma {:induction false} WithoutSubset(ps: seq<Task>, y: Task, x: Task)
    requires x in Without(ps, y)
    ensures x in ps
  {
    if x != ps[0] {
      WithoutSubset(ps[1..], y, x);
    }
  }

  lemma ArrivalsSubmit(s: State, y: Task, timer: Timer, t: State)
    requires SweepInv(s) && SweepInv(t) && ModeInv(s) && ApplySubmit(s, y, timer) == Some(t)
    ensures NoEarlierArrivals(s, t)
  {
    hide SweepInv, Unpromoted, TasksOf, ApplySubmit;
    SubmitFrame(s, y, timer, t);
    if !s.prioritypooling && Timed(y) {
      UnpromotedSubmit(s, y, timer, t);
      TasksOfConcat(Unpromoted(s), [Entry(y, timer)]);
      TasksOfOne(Entry(y, timer));
    } else {
      UnpromotedFrame(s, t);
    }
  }

  lemma ArrivalsSweep(s: State, a: Step, t: State)
    requires SweepInv(s) && SweepInv(t) && SweepStep(a) && ApplySweep(s, a) == Some(t)
    ensures NoEarlierArrivals(s, t)
  {
    hide SweepInv, Unpromoted, TasksOf, Count, ApplySweep;
    SweepFrame(s, a, t);
    if a.SweepPush? {
      forall x ensures x in TasksOf(Unpromoted(t)) || x == s.sweep.entry.task ==> x in TasksOf(Unpromoted(s)) {
        UnpromotedPush(s, t, x);
        CountMember(TasksOf(Unpromoted(s)), x);
        CountMember(TasksOf(Unpromoted(t)), x);
      }
    } else {
      UnpromotedSweep(s, a, t);
    }
  }

  lemma ArrivalsPoll(s: State, a: Step, t: State)
    requires SweepInv(s) && SweepInv(t) && PollStep(a) && ApplyPoll(s, a) == Some(t)
    ensures NoEarlierArrivals(s, t)
  {
    hide SweepInv, Unpromoted, TasksOf, Without, PickIndex, ApplyPoll, Hand;
    PollFrame(s, a, t);
    UnpromotedFrame(s, t);
    if a.PollTake? {
      TakeFrame(s, t);
      if s.prioritypooling && PickIndex(s.pool.ptasks).Some? {
        var y := s.pool.ptasks[PickIndex(s.pool.ptasks).value];
        forall x | x in Without(s.pool.ptasks, y) ensures x in s.pool.ptasks {
          WithoutSubset(s.pool.ptasks, y, x);
        }
      }
    }
  }

  lemma ArrivalsWorker(s: State, a: Step, t: State)
    requires SweepInv(s) && SweepInv(t) && WorkerStep(a) && ApplyWorker(s, a) == Some(t)
    ensures NoEarlierArrivals(s, t)
  {
    hide SweepInv, Unpromoted, TasksOf, ApplyWorker;
    WorkerFrame(s, a, t);
    UnpromotedFrame(s, t);
  }

  lemma ArrivalsJoin(s: State, a: Step, t: State)
    requires SweepInv(s) && SweepInv(t) && ApplyJoin(s, a) == Some(t)
    ensures NoEarlierArrivals(s, t)
  {
    hide SweepInv, Unpromoted, TasksOf, ApplyJoin;
    JoinFrame(s, a, t);
    UnpromotedFrame(s, t);
  }

  lemma Arrivals(s: State, a: Step, t: State)
    requires SweepInv(s) && SweepInv(t) && ModeInv(s) && Apply(s, a) == Some(t)
    ensures NoEarlierArrivals(s, t)
  {
    hide SweepInv, NoEarlierArrivals, Apply, ApplySubmit, ApplySweep, ApplyPoll, ApplyWorker, ApplyJoin;
    StepOfThread(s, a);
    if a.Submit? {
      ArrivalsSubmit(s, a.task, a.timer, t);
    } else if SweepStep(a) {
      ArrivalsSweep(s, a, t);
    } else if PollStep(a) {
      ArrivalsPoll(s, a, t);
    } else if WorkerStep(a) {
      ArrivalsWorker(s, a, t);
    } else {
      ArrivalsJoin(s, a, t);
    }
  }

  lemma SlotsStayClear(s: State, t: State, seen: nat, held: Option<Task>, n: nat)
    requires SweepInv(s) && SweepInv(t) && NoEarlierArrivals(s, t) && QueuesClear(s, seen, held) && n <= |s.workers|
    requires forall k :: 0 <= k < n ==> SlotClear(s, seen, held, k)
    ensures seen <= |t.submitted| && n <= |t.workers|
    ensures forall k :: 0 <= k < n ==> SlotClear(t, seen, held, k)
  {
    hide SweepInv, QueuesClear, SlotClear;
    QueuesStayClear(s, t, seen, held);
    ClearBounds(s, seen, held);
    ClearBounds(t, seen, held);
    ArrivalsKeepWorkers(s, t);
    forall k | 0 <= k < n ensures SlotClear(t, seen, held, k) {
      SlotStaysClear(s, t, seen, held, k);
    }
  }

  lemma ClearBounds(s: State, seen: nat, held: Option<Task>)
    requires SweepInv(s) && QueuesClear(s, seen, held)
    ensures seen <= |s.submitted|
  {
  }

  lemma ArrivalsKeepWorkers(s: State, t: State)
    requires SweepInv(s) && SweepInv(t) && NoEarlierArrivals(s, t)
    ensures |t.workers| == |s.workers|
  {
  }

  /** The joining thread only reads. */
  lemma OnlyJoinerMoves(s: State, a: Step, t: State, seen: nat, held: Option<Task>)
    requires SweepInv(s) && SweepInv(t) && ApplyJoin(s, a) == Some(t)
    ensures t == s.(joiner := t.joiner)
    ensures QueuesClear(s, seen, held) <==> QueuesClear(t, seen, held)
  {
    hide SweepInv, Unpromoted, TasksOf, ApplyJoin;
    JoinFrame(s, a, t);
    UnpromotedFrame(s, t);
  }

  lemma JoinInvJoinStep(s: State, a: Step, t: State)
    requires Inv(s) && JoinInv(s) && SweepInv(t) && ApplyJoin(s, a) == Some(t)
    ensures JoinInv(t)
  {
    hide SweepInv, QueuesClear, Conserved, HistoryInv, Pending, ModeInv;
    match s.joiner
    case Observing =>
      OnlyJoinerMoves(s, a, t, |s.submitted|, Hand(s));
      if !Pending(s) {
        ObserveClears(s);
      }
    case Counting(v, idles, held, seen) =>
      OnlyJoinerMoves(s, a, t, seen, held);
      ClearBounds(s, seen, held);
      assert forall k :: 0 <= k < |s.workers| ==> (SlotClear(t, seen, held, k) <==> SlotClear(s, seen, held, k));
      if a.JoinCount? {
        assert WorkerInv(s.workers[v]);
      }
    case Joined(held, seen) =>
  }

  lemma ModeOf(s: State)
    requires Inv(s)
    ensures ModeInv(s)
  {
  }

  lemma JoinInvStep(s: State, a: Step, t: State)
    requires Inv(s) && JoinInv(s) && SweepInv(t) && Apply(s, a) == Some(t)
    ensures JoinInv(t)
  {
    hide Apply, SweepInv, Inv;
    StepOfThread(s, a);
    InvHasSweep(s);
    if JoinStep(a) {
      JoinInvJoinStep(s, a, t);
    } else {
      CommonFrame(s, a, t);
      ModeOf(s);
      Arrivals(s, a, t);
      hide NoEarlierArrivals, SlotClear, QueuesClear;
      match s.joiner
      case Observing =>
      case Counting(v, idles, held, seen) =>
        QueuesStayClear(s, t, seen, held);
        ArrivalsKeepWorkers(s, t);
        if idles == v {
          SlotsStayClear(s, t, seen, held, v);
        }
      case Joined(held, seen) =>
        ArrivalsKeepWorkers(s, t);
        QueuesStayClear(s, t, seen, held);
        SlotsStayClear(s, t, seen, held, |s.workers|);
    }
  }

  lemma {:induction false} JoinInvRun(s: State, run: seq<Step>, t: State)
    requires Inv(s) && JoinInv(s) && Exec(s, run) == Some(t)
    ensures Inv(t) && JoinInv(t)
    decreases |run|
  {
    hide Inv, JoinInv, Apply;
    if run != [] {
      var next := Apply(s, run[0]).value;
      InvStep(s, run[0], next);
      InvHasSweep(s);
      InvHasSweep(next);
      JoinInvStep(s, run[0], next);
      JoinInvRun(next, run[1..], t);
    }
  }

  /**
    The join guarantee: when joinAll has returned, every task submitted before it last saw nothing
    pending is finished, except at most the one task the poller held in its hand at that moment.
   */
  lemma JoinGuarantee(s: State)
    requires Reachable(s) && s.joiner.Joined?
    ensures s.joiner.seen <= |s.submitted|
    ensures forall x :: Early(s, s.joiner.seen, x) ==> x in s.finished || s.joiner.held == Some(x)
  {
    var seen, held := s.joiner.seen, s.joiner.held;
    JoinInvReachable(s);
    forall x | Early(s, seen, x) ensures x in s.finished || held == Some(x) {
      EarlyStays(s, s, seen);
      var p := PlaceExists(s, x);
      hide Inv, Reachable, Unpromoted, TasksOf;
      if p.InSlot? {
        assert SlotClear(s, seen, held, p.w);
      }
    }
  }

  lemma JoinInvReachable(s: State)
    requires Reachable(s)
    ensures Inv(s) && JoinInv(s)
  {
    hide Inv, Exec;
    var prio: bool, n: nat, run: seq<Step> :| Exec(Init(prio, n), run) == Some(s);
    InvInit(prio, n);
    JoinInvRun(Init(prio, n), run, s);
  }

  /** joinAll keeps its promise exactly when the poller's hand was empty or its task has finished since. */
  lemma JoinIsComplete(s: State)
    requires Reachable(s) && s.joiner.Joined?
    ensures s.joiner.seen <= |s.submitted|
    ensures (forall x :: Early(s, s.joiner.seen, x) ==> x in s.finished)
      <==> (s.joiner.held.None? || s.joiner.held.value in s.finished)
  {
    JoinGuarantee(s);
    JoinInvReachable(s);
    hide Inv, Reachable, Unpromoted, TasksOf;
  }

  lemma ExecExtend(s: State, a: Step, next: State, run: seq<Step>, t: State)
    requires Apply(s, a) == Some(next) && Exec(next, run) == Some(t)
    ensures Exec(s, [a] + run) == Some(t)
  {
    assert ([a] + run)[0] == a && ([a] + run)[1..] == run;
  }

  lemma ReachedBy(prio: bool, n: nat, run: seq<Step>, s: State)
    requires Exec(Init(prio, n), run) == Some(s)
    ensures Reachable(s)
  {
  }

  /** A joining thread that finds nothing pending and the only worker idle returns. */
  lemma JoinReturns(s: State)
    requires s.joiner == Observing && !Pending(s) && |s.workers| == 1 && s.workers[0].slot.idle
    ensures var n := |s.submitted|;
      && Apply(s, JoinObserve) == Some(s.(joiner := Counting(0, 0, Hand(s), n)))
      && Apply(s.(joiner := Counting(0, 0, Hand(s), n)), JoinCount) == Some(s.(joiner := Counting(1, 1, Hand(s), n)))
      && Apply(s.(joiner := Counting(1, 1, Hand(s), n)), JoinEnd) == Some(s.(joiner := Joined(Hand(s), n)))
  {
    hide Pending, Hand;
  }

  lemma ExecThree(s: State, a: Step, s1: State, b: Step, s2: State, c: Step, t: State, run: seq<Step>, u: State)
    requires Apply(s, a) == Some(s1) && Apply(s1, b) == Some(s2) && Apply(s2, c) == Some(t) && Exec(t, run) == Some(u)
    ensures Exec(s, [a] + ([b] + ([c] + run))) == Some(u)
  {
    hide Apply, Exec;
    ExecExtend(s2, c, t, run, u);
    ExecExtend(s1, b, s2, [c] + run, u);
    ExecExtend(s, a, s1, [b] + ([c] + run), u);
  }

  /** A submitted task is popped while the only worker is idle. */
  lemma TaskInHand(x: Task, timer: Timer) returns (s1: State, s2: State, s3: State)
    requires !Timed(x)
    ensures Apply(Init(false, 1), Submit(x, timer)) == Some(s1)
    ensures Apply(s1, PollCheck) == Some(s2) && Apply(s2, PollTake) == Some(s3)
    ensures Hand(s3) == Some(x) && s3.submitted == [x] && s3.ran == [] && s3.joiner == Observing && !Pending(s3)
    ensures |s3.workers| == 1 && s3.workers[0].slot.idle
  {
    hide Timed, PickIndex, Without;
    var s0 := Init(false, 1);
    assert [] + [x] == [x] && [x][1..] == [];
    s1 := s0.(pool := Pool([x], [], []), submitted := [x], pushed := [x]);
    s2 := s1.(poller := Taking);
    s3 := s2.(poller := Offering(x, 0), pool := Pool([], [], []));
  }

  /** One worker and one task are enough for joinAll to return while that task has not even started. */
  lemma JoinMayReturnEarly(x: Task, timer: Timer) returns (s: State)
    requires !Timed(x)
    ensures Reachable(s) && s.joiner.Joined? && s.submitted == [x] && s.ran == []
  {
    hide Apply, Exec, Reachable, Init, Pending, Hand;
    var s1, s2, s3 := TaskInHand(x, timer);
    s := s3.(joiner := Joined(Some(x), 1));
    JoinReturns(s3);
    ExecNothing(s);
    var s4, s5 := s3.(joiner := Counting(0, 0, Some(x), 1)), s3.(joiner := Counting(1, 1, Some(x), 1));
    ExecThree(s3, JoinObserve, s4, JoinCount, s5, JoinEnd, s, [], s);
    var tail := [JoinObserve] + ([JoinCount] + ([JoinEnd] + []));
    ExecThree(Init(false, 1), Submit(x, timer), s1, PollCheck, s2, PollTake, s3, tail, s);
    ReachedBy(false, 1, [Submit(x, timer)] + ([PollCheck] + ([PollTake] + tail)), s);
  }

  lemma ExecNothing(s: State)
    ensures Exec(s, []) == Some(s)
  {
  }
}
