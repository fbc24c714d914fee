/** Safety of the step system over every run: no task is lost, doubled or overwritten. */
module SchedulerSafety {
  import opened Wrappers
  import opened TaskPools
  import opened PoolThreads
  import opened Scheduler
  import opened StepFrames
  import opened TimerSweep

  function TasksOf(es: seq<Entry>): (ts: seq<Task>)
    ensures |ts| == |es|
  {
    seq(|es|, k requires 0 <= k < |es| => es[k].task)
  }

  /** The scheduled entries that no sweep has pushed to the ready queue yet. */
  function Unpromoted(s: State): seq<Entry>
    requires SweepInv(s)
  {
    match s.sweep
    case Scanning(_, i, _) => Kept(s.log.snapshot[..i], s.log.verdicts) + s.log.snapshot[i..] + s.log.arrived
    case Deciding(_, i, _, _) => Kept(s.log.snapshot[..i], s.log.verdicts) + s.log.snapshot[i..] + s.log.arrived
    case Pushing(_, i, _, _) => Kept(s.log.snapshot[..i], s.log.verdicts) + s.log.snapshot[i..] + s.log.arrived
    case Removing(_, _) => Kept(s.log.snapshot, s.log.verdicts) + s.log.arrived
    case _ => s.pool.scheduled
  }

  function Count(ps: seq<Task>, x: Task): nat {
    multiset(ps)[x]
  }

  function One(o: Option<Task>, x: Task): nat {
    if o == Some(x) then 1 else 0
  }

  /** How many workers hold the task in their slot. */
  function SlotCount(ws: seq<Worker>, x: Task): nat {
    if ws == [] then 0 else One(ws[0].slot.task, x) + SlotCount(ws[1..], x)
  }

  function RanTask(w: Worker): Option<Task> {
    if w.at.Ran? then Some(w.at.task) else None
  }

  /** How many workers have run the task and not yet released it. */
  function RanCount(ws: seq<Worker>, x: Task): nat {
    if ws == [] then 0 else One(RanTask(ws[0]), x) + RanCount(ws[1..], x)
  }

  /** The places where a task can be, counted together. */
  function Places(s: State, x: Task): nat
    requires SweepInv(s)
  {
    Count(TasksOf(Unpromoted(s)), x) + Count(s.pool.tasks, x) + Count(s.pool.ptasks, x)
    + One(Hand(s), x) + SlotCount(s.workers, x) + Count(s.finished, x)
  }

  ghost predicate Conserved(s: State)
    requires SweepInv(s)
  {
    forall x :: Count(s.submitted, x) == Places(s, x)
  }

  predicate WorkerInv(w: Worker) {
    && (w.slot.idle <==> w.slot.task.None?)
    && (w.at.Running? || w.at.Ran? ==> w.slot.task == Some(w.at.task))
  }

  predicate ThreadsInv(s: State) {
    && (forall k :: 0 <= k < |s.workers| ==> WorkerInv(s.workers[k]))
    && (s.poller.Placing? ==> s.poller.v < |s.workers| && s.workers[s.poller.v].slot.idle)
  }

  predicate ModeInv(s: State) {
    if s.prioritypooling then s.pool.tasks == [] && s.pool.scheduled == [] else s.pool.ptasks == []
  }

  function SeqOf(t: Option<Task>): seq<Task> {
    match t
    case None => []
    case Some(x) => [x]
  }

  ghost predicate HistoryInv(s: State) {
    && Distinct(s.submitted)
    && (forall x :: Count(s.ran, x) == Count(s.finished, x) + RanCount(s.workers, x))
    && (!s.prioritypooling ==> s.pushed == s.dispatched + SeqOf(Hand(s)) + s.pool.tasks)
  }

  // ------------------------------------------------------------------------- counting

  lemma CountConcat(a: seq<Task>, b: seq<Task>, x: Task)
    ensures Count(a + b, x) == Count(a, x) + Count(b, x)
  {
  }

  lemma CountOne(y: Task, x: Task)
    ensures Count([y], x) == One(Some(y), x)
  {
  }

  lemma CountMember(ps: seq<Task>, x: Task)
    ensures x in ps <==> Count(ps, x) > 0
  {
  }

  lemma UpdateTail<T>(ws: seq<T>, k: nat, w: T)
    requires 0 < k < |ws|
    ensures ws[k := w][0] == ws[0] && ws[k := w][1..] == ws[1..][k - 1 := w]
  {
  }

  lemma {:induction false} SlotCountUpdate(ws: seq<Worker>, k: nat, w: Worker, x: Task)
    requires k < |ws|
    ensures SlotCount(ws[k := w], x) + One(ws[k].slot.task, x) == SlotCount(ws, x) + One(w.slot.task, x)
  {
    if k == 0 {
      assert ws[0 := w][1..] == ws[1..];
    } else {
      UpdateTail(ws, k, w);
      SlotCountUpdate(ws[1..], k - 1, w, x);
    }
  }

  lemma {:induction false} RanCountUpdate(ws: seq<Worker>, k: nat, w: Worker, x: Task)
    requires k < |ws|
    ensures RanCount(ws[k := w], x) + One(RanTask(ws[k]), x) == RanCount(ws, x) + One(RanTask(w), x)
  {
    if k == 0 {
      assert ws[0 := w][1..] == ws[1..];
    } else {
      UpdateTail(ws, k, w);
      RanCountUpdate(ws[1..], k - 1, w, x);
    }
  }

  lemma {:induction false} SlotCountMember(ws: seq<Worker>, x: Task)
    requires SlotCount(ws, x) > 0
    ensures exists k :: 0 <= k < |ws| && ws[k].slot.task == Some(x)
  {
    if ws[0].slot.task != Some(x) {
      SlotCountMember(ws[1..], x);
      var k :| 0 <= k < |ws| - 1 && ws[1..][k].slot.task == Some(x);
      assert ws[k + 1].slot.task == Some(x);
    }
  }

  lemma {:induction false} RanWithinSlots(ws: seq<Worker>, x: Task)
    requires forall k :: 0 <= k < |ws| ==> WorkerInv(ws[k])
    ensures RanCount(ws, x) <= SlotCount(ws, x)
  {
    if ws != [] {
      RanWithinSlots(ws[1..], x);
    }
  }

  lemma TasksOfConcat(a: seq<Entry>, b: seq<Entry>)
    ensures TasksOf(a + b) == TasksOf(a) + TasksOf(b)
  {
  }

  // ------------------------------------------------------------- the unpromoted entries

  lemma UnpromotedFrame(s: State, t: State)
    requires SweepInv(s) && SweepInv(t) && s.sweep == t.sweep && s.log == t.log && s.pool.scheduled == t.pool.scheduled
    ensures Unpromoted(t) == Unpromoted(s)
  {
  }

  lemma UnpromotedSubmit(s: State, x: Task, timer: Timer, t: State)
    requires SweepInv(s) && SweepInv(t) && !s.prioritypooling && Timed(x) && ApplySubmit(s, x, timer) == Some(t)
    ensures Unpromoted(t) == Unpromoted(s) + [Entry(x, timer)]
  {
    hide Kept, TrueIndices, Chosen, SweptUpTo;
  }

  lemma KeptAppend(es: seq<Entry>, vs: seq<bool>, v: bool)
    requires |vs| < |es|
    ensures Kept(es[..|vs| + 1], vs + [v]) == Kept(es[..|vs|], vs) + if v then [] else [es[|vs|]]
  {
    var front := es[..|vs| + 1];
    assert front[..|vs|] == es[..|vs|] && (vs + [v])[..|vs|] == vs && front[|vs|] == es[|vs|];
  }

  lemma WholeSlices<T>(s: seq<T>)
    ensures s[..|s|] == s && s[|s|..] == [] && s[0..] == s
  {
  }

  lemma MoveOver(front: seq<Entry>, es: seq<Entry>, i: nat, back: seq<Entry>)
    requires i < |es|
    ensures front + es[i..] + back == (front + [es[i]]) + es[i + 1..] + back
  {
  }

  /** Only a push takes an entry out of the unpromoted ones. */
  lemma UnpromotedSweep(s: State, a: Step, t: State)
    requires SweepInv(s) && SweepInv(t) && SweepStep(a) && !a.SweepPush? && ApplySweep(s, a) == Some(t)
    ensures Unpromoted(t) == Unpromoted(s)
  {
    WholeSlices(s.log.snapshot);
    WholeSlices(s.log.verdicts);
    hide SweptUpTo, TrueIndices, Chosen;
    match a
    case SweepSnapshot => WholeSlices(s.pool.scheduled); KeptNone(s.pool.scheduled);
    case SweepRead =>
    case SweepDecide(over) => UnpromotedDecide(s, over, t);
    case SweepTurn => UnpromotedTurn(s, t);
    case SweepErase =>
    case SweepDone => UnpromotedDone(s, t);
  }

  lemma KeptNone(es: seq<Entry>)
    ensures Kept(es[..0], []) + es + [] == es
  {
  }

  lemma UnpromotedDecide(s: State, over: bool, t: State)
    requires SweepInv(s) && SweepInv(t) && ApplySweep(s, SweepDecide(over)) == Some(t)
    ensures Unpromoted(t) == Unpromoted(s)
  {
    hide Kept, SweptUpTo, TrueIndices, Chosen;
    if !over {
      var i, es := s.sweep.i, s.log.snapshot;
      KeptAppend(es, s.log.verdicts, false);
      MoveOver(Kept(es[..i], s.log.verdicts), es, i, s.log.arrived);
    }
  }

  lemma UnpromotedTurn(s: State, t: State)
    requires SweepInv(s) && SweepInv(t) && ApplySweep(s, SweepTurn) == Some(t)
    ensures Unpromoted(t) == Unpromoted(s)
  {
    hide Kept, SweptUpTo, TrueIndices, Chosen;
    WholeSlices(s.log.snapshot);
    var front := Kept(s.log.snapshot, s.log.verdicts);
    assert front + [] + s.log.arrived == front + s.log.arrived;
  }

  lemma UnpromotedDone(s: State, t: State)
    requires SweepInv(s) && SweepInv(t) && ApplySweep(s, SweepDone) == Some(t)
    ensures Unpromoted(t) == Unpromoted(s)
  {
    hide Kept, TrueIndices, Chosen;
    WholeSlices(s.log.snapshot);
    WholeSlices(s.log.verdicts);
    var front := Kept(s.log.snapshot, s.log.verdicts);
    assert front + [] + s.log.arrived == front + s.log.arrived;
  }

  lemma DropOne(front: seq<Entry>, e: Entry, back: seq<Entry>, x: Task)
    ensures Count(TasksOf(front + ([e] + back)), x) == Count(TasksOf(front + back), x) + One(Some(e.task), x)
  {
    TasksOfConcat(front, [e] + back);
    TasksOfConcat([e], back);
    TasksOfConcat(front, back);
    assert TasksOf([e]) == [e.task];
    hide TasksOf, Count;
    CountConcat(TasksOf(front), TasksOf([e]) + TasksOf(back), x);
    CountConcat(TasksOf([e]), TasksOf(back), x);
    CountConcat(TasksOf(front), TasksOf(back), x);
    CountOne(e.task, x);
  }

  lemma UnpromotedPush(s: State, t: State, x: Task)
    requires SweepInv(s) && SweepInv(t) && ApplySweep(s, SweepPush) == Some(t)
    ensures Count(TasksOf(Unpromoted(s)), x) == Count(TasksOf(Unpromoted(t)), x) + One(Some(s.sweep.entry.task), x)
  {
    hide SweptUpTo, TrueIndices, Chosen, Kept, TasksOf, Count;
    PushedAway(s.log.snapshot, s.log.verdicts, s.log.arrived, s.sweep.i, x);
  }

  /** Pushing entry `i` takes its task out of the tasks behind the kept ones. */
  lemma PushedAway(es: seq<Entry>, vs: seq<bool>, back: seq<Entry>, i: nat, x: Task)
    requires |vs| == i < |es|
    ensures Count(TasksOf(Kept(es[..i], vs) + es[i..] + back), x)
      == Count(TasksOf(Kept(es[..i + 1], vs + [true]) + es[i + 1..] + back), x) + One(Some(es[i].task), x)
  {
    hide Kept, TasksOf, Count, One;
    var front := Kept(es[..i], vs);
    KeptAppend(es, vs, true);
    DropOne(front, es[i], es[i + 1..] + back, x);
    SplitList(front, es, i, back);
  }

  lemma SplitList(front: seq<Entry>, es: seq<Entry>, i: nat, back: seq<Entry>)
    requires i < |es|
    ensures front + es[i..] + back == front + ([es[i]] + (es[i + 1..] + back))
    ensures (front + []) + es[i + 1..] + back == front + (es[i + 1..] + back)
  {
  }

  lemma NothingUnpromoted(s: State)
    requires SweepInv(s) && s.pool.scheduled == []
    ensures Unpromoted(s) == []
  {
    if s.sweep.Removing? {
      var m := NextOut(s.log, s.sweep.marked, s.sweep.counter);
      assert |s.log.snapshot[m..]| == 0;
      assert s.log.snapshot[..m] == s.log.snapshot && s.log.verdicts[..m] == s.log.verdicts;
    }
  }

  // ----------------------------------------------------------------- the invariant of every run

  ghost predicate Inv(s: State) {
    SweepInv(s) && Conserved(s) && ThreadsInv(s) && ModeInv(s) && HistoryInv(s)
  }

  lemma {:induction false} CountOfDistinct(ps: seq<Task>, x: Task)
    requires Distinct(ps)
    ensures Count(ps, x) <= 1
  {
    if ps != [] {
      assert ps == [ps[0]] + ps[1..];
      CountOfDistinct(ps[1..], x);
      if ps[0] == x {
        assert x !in ps[1..];
      }
    }
  }

  lemma DistinctOfCount(ps: seq<Task>)
    requires forall x :: Count(ps, x) <= 1
    ensures Distinct(ps)
  {
    forall i, j | 0 <= i < j < |ps| ensures ps[i] != ps[j] {
      CountConcat(ps[..j], ps[j..], ps[j]);
      assert ps == ps[..j] + ps[j..];
      assert ps[i] in ps[..j] && ps[j] in ps[j..];
      CountMember(ps[..j], ps[i]);
      CountMember(ps[j..], ps[j]);
    }
  }

  // ------------------------------------------------------------ conservation, thread by thread

  lemma ConservedSubmit(s: State, y: Task, timer: Timer, t: State, x: Task)
    requires Inv(s) && SweepInv(t) && ApplySubmit(s, y, timer) == Some(t)
    ensures Count(t.submitted, x) == Places(t, x)
  {
    hide SweepInv, ThreadsInv, HistoryInv, SlotCount, Count, Unpromoted, TasksOf;
    assert Count(s.submitted, x) == Places(s, x);
    CountOne(y, x);
    CountConcat(s.submitted, [y], x);
    CountConcat(s.pool.tasks, [y], x);
    CountConcat(s.pool.ptasks, [y], x);
    if !s.prioritypooling && Timed(y) {
      UnpromotedSubmit(s, y, timer, t);
      TasksOfConcat(Unpromoted(s), [Entry(y, timer)]);
      TasksOfOne(Entry(y, timer));
      CountConcat(TasksOf(Unpromoted(s)), [y], x);
    } else {
      UnpromotedFrame(s, t);
    }
  }

  lemma TasksOfOne(e: Entry)
    ensures TasksOf([e]) == [e.task]
  {
  }

  lemma ConservedSweep(s: State, a: Step, t: State, x: Task)
    requires Inv(s) && SweepInv(t) && SweepStep(a) && ApplySweep(s, a) == Some(t)
    ensures Count(t.submitted, x) == Places(t, x)
  {
    hide SweepInv, ThreadsInv, HistoryInv, SlotCount, Count, Unpromoted, TasksOf;
    assert Count(s.submitted, x) == Places(s, x);
    if a.SweepPush? {
      UnpromotedPush(s, t, x);
      CountOne(s.sweep.entry.task, x);
      CountConcat(s.pool.tasks, [s.sweep.entry.task], x);
    } else {
      UnpromotedSweep(s, a, t);
    }
  }

  lemma TakeHead(ps: seq<Task>, x: Task)
    requires ps != []
    ensures Count(ps, x) == Count(ps[1..], x) + One(Some(ps[0]), x)
  {
    assert ps == [ps[0]] + ps[1..];
  }

  lemma TakeAt(ps: seq<Task>, k: nat, x: Task)
    requires k < |ps| && Distinct(ps)
    ensures Count(ps, x) == Count(Without(ps, ps[k]), x) + One(Some(ps[k]), x)
  {
    WithoutAt(ps, k);
    SplitAround(ps, k);
    hide Count, Without;
    CountConcat(ps[..k], [ps[k]] + ps[k + 1..], x);
    CountConcat([ps[k]], ps[k + 1..], x);
    CountConcat(ps[..k], ps[k + 1..], x);
    CountOne(ps[k], x);
  }

  lemma QueueIsDistinct(s: State)
    requires Inv(s)
    ensures Distinct(s.pool.ptasks)
  {
    hide SweepInv, Count, Unpromoted, TasksOf, SlotCount;
    forall x ensures Count(s.pool.ptasks, x) <= 1 {
      CountOfDistinct(s.submitted, x);
      assert Count(s.submitted, x) == Places(s, x);
    }
    DistinctOfCount(s.pool.ptasks);
  }

  /** What a take removes from the queue is what comes into the poller's hand. */
  lemma TakeMoves(s: State, t: State, x: Task)
    requires Inv(s) && ApplyPoll(s, PollTake) == Some(t)
    ensures Count(s.pool.tasks, x) + Count(s.pool.ptasks, x)
      == Count(t.pool.tasks, x) + Count(t.pool.ptasks, x) + One(Hand(t), x)
  {
    QueueIsDistinct(s);
    hide Inv, Count, Without, PickIndex, ApplyPoll, Hand;
    TakeFrame(s, t);
    if s.prioritypooling {
      var k := PickIndex(s.pool.ptasks);
      if k.Some? {
        TakeAt(s.pool.ptasks, k.value, x);
      }
    } else if s.pool.tasks != [] {
      TakeHead(s.pool.tasks, x);
    }
  }

  lemma ConservedPlace(s: State, t: State, x: Task)
    requires Inv(s) && SweepInv(t) && ApplyPoll(s, PollPlace) == Some(t)
    ensures Count(t.submitted, x) == Places(t, x)
  {
    hide SweepInv, HistoryInv, SlotCount, Count, Unpromoted, TasksOf, ApplyPoll, Hand;
    PollFrame(s, PollPlace, t);
    UnpromotedFrame(s, t);
    assert Count(s.submitted, x) == Places(s, x);
    SlotCountUpdate(s.workers, s.poller.v, t.workers[s.poller.v], x);
    assert WorkerInv(s.workers[s.poller.v]);
  }

  lemma ConservedPoll(s: State, a: Step, t: State, x: Task)
    requires Inv(s) && SweepInv(t) && PollStep(a) && !a.PollPlace? && ApplyPoll(s, a) == Some(t)
    ensures Count(t.submitted, x) == Places(t, x)
  {
    hide SweepInv, HistoryInv, ThreadsInv, ModeInv, SlotCount, Count, Unpromoted, TasksOf, ApplyPoll, Hand;
    PollFrame(s, a, t);
    UnpromotedFrame(s, t);
    assert Count(s.submitted, x) == Places(s, x);
    if a.PollTake? {
      TakeMoves(s, t, x);
    }
  }

  lemma ConservedWorker(s: State, a: Step, t: State, x: Task)
    requires Inv(s) && SweepInv(t) && WorkerStep(a) && ApplyWorker(s, a) == Some(t)
    ensures Count(t.submitted, x) == Places(t, x)
  {
    hide SweepInv, HistoryInv, SlotCount, Count, Unpromoted, TasksOf, ApplyWorker;
    WorkerFrame(s, a, t);
    UnpromotedFrame(s, t);
    assert Count(s.submitted, x) == Places(s, x);
    var w := WorkerOf(a);
    assert WorkerInv(s.workers[w]);
    SlotCountUpdate(s.workers, w, t.workers[w], x);
    if a.Release? {
      CountOne(s.workers[w].at.task, x);
      CountConcat(s.finished, [s.workers[w].at.task], x);
    }
  }

  lemma ConservedJoin(s: State, a: Step, t: State, x: Task)
    requires Inv(s) && SweepInv(t) && ApplyJoin(s, a) == Some(t)
    ensures Count(t.submitted, x) == Places(t, x)
  {
    hide SweepInv, HistoryInv, SlotCount, Count, Unpromoted, TasksOf, ApplyJoin;
    JoinFrame(s, a, t);
    UnpromotedFrame(s, t);
    assert Count(s.submitted, x) == Places(s, x);
  }

  lemma ConservedStep(s: State, a: Step, t: State)
    requires Inv(s) && SweepInv(t) && Apply(s, a) == Some(t)
    ensures Conserved(t)
  {
    hide SweepInv, Inv, Places, Apply, ApplySubmit, ApplySweep, ApplyPoll, ApplyWorker, ApplyJoin, Count;
    StepOfThread(s, a);
    forall x ensures Count(t.submitted, x) == Places(t, x) {
      if a.Submit? {
        ConservedSubmit(s, a.task, a.timer, t, x);
      } else if SweepStep(a) {
        ConservedSweep(s, a, t, x);
      } else if WorkerStep(a) {
        ConservedWorker(s, a, t, x);
      } else if JoinStep(a) {
        ConservedJoin(s, a, t, x);
      } else if a.PollPlace? {
        ConservedPlace(s, t, x);
      } else {
        ConservedPoll(s, a, t, x);
      }
    }
  }

  // ---------------------------------------------------------------- threads, modes, histories

  lemma ThreadsKeptByWorker(s: State, a: Step, t: State)
    requires ThreadsInv(s) && WorkerStep(a) && ApplyWorker(s, a) == Some(t)
    ensures ThreadsInv(t)
  {
    hide ApplyWorker;
    WorkerFrame(s, a, t);
    assert WorkerInv(s.workers[WorkerOf(a)]);
  }

  lemma ThreadsKeptByPoller(s: State, a: Step, t: State)
    requires ThreadsInv(s) && PollStep(a) && ApplyPoll(s, a) == Some(t)
    ensures ThreadsInv(t)
  {
    hide ApplyPoll;
    PollFrame(s, a, t);
    if a.PollPlace? {
      assert WorkerInv(s.workers[s.poller.v]);
    }
  }

  /** The poller alone makes a worker busy, so a worker it saw idle is still idle when it checks out. */
  lemma ThreadsStep(s: State, a: Step, t: State)
    requires ThreadsInv(s) && Apply(s, a) == Some(t)
    ensures ThreadsInv(t)
  {
    hide Apply, ApplySubmit, ApplySweep, ApplyPoll, ApplyWorker, ApplyJoin;
    StepOfThread(s, a);
    if a.Submit? {
      SubmitFrame(s, a.task, a.timer, t);
    } else if SweepStep(a) {
      SweepFrame(s, a, t);
    } else if PollStep(a) {
      hide ThreadsInv;
      ThreadsKeptByPoller(s, a, t);
    } else if WorkerStep(a) {
      hide ThreadsInv;
      ThreadsKeptByWorker(s, a, t);
    } else {
      JoinFrame(s, a, t);
    }
  }

  lemma WithoutNothing(p: Pool)
    ensures p.ptasks == [] ==> GetPTask(p).0 == p
  {
  }

  lemma ModeStep(s: State, a: Step, t: State)
    requires ModeInv(s) && SweepInv(s) && Apply(s, a) == Some(t)
    ensures ModeInv(t)
  {
    hide Apply, ApplySubmit, ApplySweep, ApplyPoll, ApplyWorker, ApplyJoin, SweepInv, Hand, PickIndex, Without;
    StepOfThread(s, a);
    if a.Submit? {
      SubmitFrame(s, a.task, a.timer, t);
    } else if SweepStep(a) {
      SweepFrame(s, a, t);
      if s.prioritypooling {
        NoPushWithPriorities(s, a);
      }
    } else if PollStep(a) {
      PollFrame(s, a, t);
      if a.PollTake? {
        TakeFrame(s, t);
        WithoutNothing(s.pool);
      }
    } else if WorkerStep(a) {
      WorkerFrame(s, a, t);
    } else {
      JoinFrame(s, a, t);
    }
  }

  lemma NoPushWithPriorities(s: State, a: Step)
    requires SweepInv(s) && s.pool.scheduled == []
    ensures s.sweep.Pushing? ==> false
  {
    hide TrueIndices, Chosen, Kept;
  }

  lemma RanStep(s: State, a: Step, t: State, x: Task)
    requires Inv(s) && Apply(s, a) == Some(t)
    ensures Count(t.ran, x) == Count(t.finished, x) + RanCount(t.workers, x)
  {
    assert Count(s.ran, x) == Count(s.finished, x) + RanCount(s.workers, x);
    hide Inv, RanCount, Count, Apply, ApplySubmit, ApplySweep, ApplyPoll, ApplyWorker, ApplyJoin, Hand;
    StepOfThread(s, a);
    if a.Submit? {
      SubmitFrame(s, a.task, a.timer, t);
    } else if SweepStep(a) {
      SweepFrame(s, a, t);
    } else if PollStep(a) {
      PollFrame(s, a, t);
      if a.PollPlace? {
        RanCountUpdate(s.workers, s.poller.v, t.workers[s.poller.v], x);
      }
    } else if WorkerStep(a) {
      RanByWorker(s, a, t, x);
    } else {
      JoinFrame(s, a, t);
    }
  }

  lemma RanByWorker(s: State, a: Step, t: State, x: Task)
    requires WorkerStep(a) && ApplyWorker(s, a) == Some(t)
    requires Count(s.ran, x) == Count(s.finished, x) + RanCount(s.workers, x)
    ensures Count(t.ran, x) == Count(t.finished, x) + RanCount(t.workers, x)
  {
    hide RanCount, Count, ApplyWorker;
    WorkerFrame(s, a, t);
    var w := WorkerOf(a);
    RanCountUpdate(s.workers, w, t.workers[w], x);
    if !a.Wake? {
      CountOne(s.workers[w].at.task, x);
      CountConcat(s.ran, [s.workers[w].at.task], x);
      CountConcat(s.finished, [s.workers[w].at.task], x);
    }
  }

  lemma AppendLast(d: seq<Task>, h: seq<Task>, q: seq<Task>, x: Task)
    ensures d + h + q + [x] == d + h + (q + [x])
    ensures d + h + ([x] + q) == d + (h + [x]) + q
    ensures d + [x] + q == (d + [x]) + [] + q
  {
  }

  lemma FifoPoll(s: State, a: Step, t: State)
    requires s.pushed == s.dispatched + SeqOf(Hand(s)) + s.pool.tasks && !s.prioritypooling
    requires PollStep(a) && ApplyPoll(s, a) == Some(t)
    ensures t.pushed == t.dispatched + SeqOf(Hand(t)) + t.pool.tasks
  {
    hide ApplyPoll, Hand;
    PollFrame(s, a, t);
    var d, q := s.dispatched, s.pool.tasks;
    if a.PollTake? {
      TakeFrame(s, t);
      if q != [] {
        assert q == [q[0]] + q[1..];
        AppendLast(d, [], q[1..], q[0]);
      }
    } else if a.PollPlace? {
      AppendLast(d, [], q, s.poller.task);
    }
  }

  lemma FifoStep(s: State, a: Step, t: State)
    requires Inv(s) && !s.prioritypooling && Apply(s, a) == Some(t)
    ensures t.pushed == t.dispatched + SeqOf(Hand(t)) + t.pool.tasks
  {
    assert s.pushed == s.dispatched + SeqOf(Hand(s)) + s.pool.tasks;
    hide Inv, Apply, ApplySubmit, ApplySweep, ApplyPoll, ApplyWorker, ApplyJoin, SeqOf;
    StepOfThread(s, a);
    if a.Submit? {
      SubmitFrame(s, a.task, a.timer, t);
      AppendLast(s.dispatched, SeqOf(Hand(s)), s.pool.tasks, a.task);
    } else if SweepStep(a) {
      SweepFrame(s, a, t);
      if a.SweepPush? {
        AppendLast(s.dispatched, SeqOf(Hand(s)), s.pool.tasks, s.sweep.entry.task);
      }
    } else if PollStep(a) {
      FifoPoll(s, a, t);
    } else if WorkerStep(a) {
      WorkerFrame(s, a, t);
    } else {
      JoinFrame(s, a, t);
    }
  }

  lemma DistinctStep(s: State, a: Step, t: State)
    requires Distinct(s.submitted) && Apply(s, a) == Some(t)
    ensures Distinct(t.submitted)
  {
    hide Apply;
    CommonFrame(s, a, t);
  }

  lemma InvStep(s: State, a: Step, t: State)
    requires Inv(s) && Apply(s, a) == Some(t)
    ensures Inv(t)
  {
    hide Apply, Count, RanCount, Conserved, SweepInv, ThreadsInv, ModeInv;
    SweepInvStep(s, a, t);
    ConservedStep(s, a, t);
    ThreadsStep(s, a, t);
    ModeStep(s, a, t);
    DistinctStep(s, a, t);
    forall x ensures Count(t.ran, x) == Count(t.finished, x) + RanCount(t.workers, x) {
      RanStep(s, a, t, x);
    }
    CommonFrame(s, a, t);
    if !s.prioritypooling {
      FifoStep(s, a, t);
    }
  }

  lemma {:induction false} EmptySlots(ws: seq<Worker>, x: Task)
    requires forall k :: 0 <= k < |ws| ==> ws[k] == Worker(FREE, Waiting)
    ensures SlotCount(ws, x) == 0 && RanCount(ws, x) == 0
  {
    if ws != [] {
      EmptySlots(ws[1..], x);
    }
  }

  lemma InvInit(prio: bool, n: nat)
    ensures Inv(Init(prio, n))
  {
    var s := Init(prio, n);
    forall x ensures Count(s.submitted, x) == Places(s, x)
      && Count(s.ran, x) == Count(s.finished, x) + RanCount(s.workers, x) {
      EmptySlots(s.workers, x);
      assert TasksOf([]) == [];
    }
  }

  lemma {:induction false} InvRun(s: State, run: seq<Step>, t: State)
    requires Inv(s) && Exec(s, run) == Some(t)
    ensures Inv(t)
    decreases |run|
  {
    hide Inv, Apply;
    if run != [] {
      var next := Apply(s, run[0]).value;
      InvStep(s, run[0], next);
      InvRun(next, run[1..], t);
    }
  }

  lemma InvReachable(s: State)
    requires Reachable(s)
    ensures Inv(s)
  {
    hide Inv, Exec;
    var prio: bool, n: nat, run: seq<Step> :| Exec(Init(prio, n), run) == Some(s);
    InvInit(prio, n);
    InvRun(Init(prio, n), run, s);
  }

  // ------------------------------------------------------------------------- the theorems

  /** Where a task can be. */
  datatype Place = Scheduled | Ready | ReadyByPriority | InHand | InSlot(w: nat) | Finished

  predicate IsAt(s: State, x: Task, p: Place)
    requires SweepInv(s)
  {
    match p
    case Scheduled => x in TasksOf(Unpromoted(s))
    case Ready => x in s.pool.tasks
    case ReadyByPriority => x in s.pool.ptasks
    case InHand => Hand(s) == Some(x)
    case InSlot(w) => w < |s.workers| && s.workers[w].slot.task == Some(x)
    case Finished => x in s.finished
  }

  lemma {:induction false} SlotCountTwo(ws: seq<Worker>, i: nat, j: nat, x: Task)
    requires i < |ws| && ws[i].slot.task == Some(x) && j < |ws| && ws[j].slot.task == Some(x)
    ensures SlotCount(ws, x) >= if i == j then 1 else 2
  {
    if i == 0 && j == 0 {
    } else if i == 0 {
      SlotCountTwo(ws[1..], j - 1, j - 1, x);
    } else if j == 0 {
      SlotCountTwo(ws[1..], i - 1, i - 1, x);
    } else {
      SlotCountTwo(ws[1..], i - 1, j - 1, x);
    }
  }

  lemma PlaceExists(s: State, x: Task) returns (p: Place)
    requires Inv(s) && x in s.submitted
    ensures IsAt(s, x, p)
  {
    hide SweepInv, Count, Unpromoted, TasksOf, SlotCount;
    CountMember(s.submitted, x);
    assert Count(s.submitted, x) == Places(s, x);
    CountMember(TasksOf(Unpromoted(s)), x);
    CountMember(s.pool.tasks, x);
    CountMember(s.pool.ptasks, x);
    CountMember(s.finished, x);
    if x in TasksOf(Unpromoted(s)) {
      p := Scheduled;
    } else if x in s.pool.tasks {
      p := Ready;
    } else if x in s.pool.ptasks {
      p := ReadyByPriority;
    } else if Hand(s) == Some(x) {
      p := InHand;
    } else if x in s.finished {
      p := Finished;
    } else {
      SlotCountMember(s.workers, x);
      var k :| 0 <= k < |s.workers| && s.workers[k].slot.task == Some(x);
      p := InSlot(k);
    }
  }

  lemma PlaceUnique(s: State, x: Task, p: Place, q: Place)
    requires Inv(s) && IsAt(s, x, p) && IsAt(s, x, q)
    ensures p == q && x in s.submitted
  {
    hide SweepInv, Count, Unpromoted, TasksOf, SlotCount;
    CountOfDistinct(s.submitted, x);
    CountMember(s.submitted, x);
    assert Count(s.submitted, x) == Places(s, x);
    CountMember(TasksOf(Unpromoted(s)), x);
    CountMember(s.pool.tasks, x);
    CountMember(s.pool.ptasks, x);
    CountMember(s.finished, x);
    if p.InSlot? {
      SlotCountTwo(s.workers, p.w, if q.InSlot? then q.w else p.w, x);
    } else if q.InSlot? {
      SlotCountTwo(s.workers, q.w, q.w, x);
    }
  }

  /**
    Conservation: in every reachable state each submitted task is in exactly one place: scheduled
    and not yet promoted, in a ready queue, in the poller's hand, in one worker's slot, or finished.
   */
  lemma TaskConservation(s: State, x: Task)
    requires Reachable(s)
    ensures SweepInv(s)
    ensures x in s.submitted ==> exists p :: IsAt(s, x, p)
    ensures forall p, q :: IsAt(s, x, p) && IsAt(s, x, q) ==> p == q && x in s.submitted
  {
    InvReachable(s);
    hide Inv, IsAt, Reachable;
    InvHasSweep(s);
    if x in s.submitted {
      var p := PlaceExists(s, x);
    }
    forall p, q | IsAt(s, x, p) && IsAt(s, x, q) ensures p == q && x in s.submitted {
      PlaceUnique(s, x, p, q);
    }
  }

  lemma InvHasSweep(s: State)
    requires Inv(s)
    ensures SweepInv(s)
  {
  }

  /** No task runs twice, even with spurious wake-ups, and only submitted tasks run. */
  lemma AtMostOnce(s: State)
    requires Reachable(s)
    ensures Distinct(s.ran)
    ensures forall x :: x in s.ran ==> x in s.submitted
    ensures forall x :: x in s.finished ==> x in s.ran
  {
    InvReachable(s);
    hide SweepInv, Unpromoted, TasksOf, Count, SlotCount, RanCount, Reachable;
    forall x ensures Count(s.ran, x) <= 1 && (x in s.ran ==> x in s.submitted) && (x in s.finished ==> x in s.ran) {
      CountOfDistinct(s.submitted, x);
      RanWithinSlots(s.workers, x);
      assert Count(s.submitted, x) == Places(s, x);
      CountMember(s.ran, x);
      CountMember(s.finished, x);
      CountMember(s.submitted, x);
    }
    DistinctOfCount(s.ran);
  }

  /** isIdle and checkout are separate regions, yet a checkout never overwrites an occupied slot. */
  lemma NoOverwrite(s: State, t: State)
    requires Reachable(s) && Apply(s, PollPlace) == Some(t)
    ensures s.poller.Placing? && s.poller.v < |s.workers| && s.workers[s.poller.v].slot == FREE
  {
    InvReachable(s);
    assert WorkerInv(s.workers[s.poller.v]);
  }

  /** A pool without priorities hands tasks out in the order they became ready. */
  lemma DispatchIsFifo(s: State)
    requires Reachable(s) && !s.prioritypooling
    ensures s.dispatched + SeqOf(Hand(s)) + s.pool.tasks == s.pushed
  {
    InvReachable(s);
  }

  /**
    The sweep is a filter: when it has emptied its queue of indices it has pushed the expired
    entries of its snapshot once each and in order, and the schedule holds the others, still
    paired with their timers, followed by what arrived meanwhile. No `at` was out of range.
   */
  lemma SweepFiltersLog(s: State)
    requires Reachable(s)
    ensures !s.sweep.Crashed?
    ensures s.sweep.Removing? && s.sweep.counter == |s.sweep.marked| ==>
      && |s.log.verdicts| == |s.log.snapshot|
      && s.log.swept == Chosen(s.log.snapshot, s.log.verdicts)
      && s.pool.scheduled == Kept(s.log.snapshot, s.log.verdicts) + s.log.arrived
  {
    InvReachable(s);
    hide Reachable, Kept, Chosen, TrueIndices, Conserved, HistoryInv;
    WholeSlices(s.log.snapshot);
    WholeSlices(s.log.verdicts);
    if s.sweep.Removing? && s.sweep.counter == |s.sweep.marked| {
      var front := Kept(s.log.snapshot, s.log.verdicts);
      assert front + [] + s.log.arrived == front + s.log.arrived;
    }
  }
}
