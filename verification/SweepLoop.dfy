/** The loops of one timer sweep in place, with whatever other threads do between its lock regions. */
module SweepLoop {
  import opened Wrappers
  import opened Sequences
  import opened TaskPools
  import opened Scheduler
  import opened TimerSweep

  /** What another thread may do to the pool: submit, schedule or take a ready task. */
  datatype Action = Arrive(task: Task, timer: Timer) | TakeReady

  /** One change of the pool during a sweep, apart from the removals of the sweep itself. */
  datatype Event = Other(action: Action) | Pushed(task: Task)

  function Happened(p: Pool, e: Event): Pool {
    match e
    case Other(Arrive(t, timer)) => AddTask(p, t, timer)
    case Other(TakeReady) => GetTask(p).0
    case Pushed(t) => PushReady(p, t)
  }

  function Replay(p: Pool, trace: seq<Event>): Pool {
    if trace == [] then p else Happened(Replay(p, trace[..|trace| - 1]), trace[|trace| - 1])
  }

  /** The entry that an action adds to the schedule. */
  function Arrival(a: Action): seq<Entry> {
    if a.Arrive? && Timed(a.task) then [Entry(a.task, a.timer)] else []
  }

  /** The entries that the actions add to the schedule. */
  function Arrivals(acts: seq<Action>): seq<Entry> {
    if acts == [] then []
    else
      Arrivals(acts[..|acts| - 1]) + Arrival(acts[|acts| - 1])
  }

  function OthersOf(trace: seq<Event>): seq<Action> {
    if trace == [] then []
    else
      var e := trace[|trace| - 1];
      OthersOf(trace[..|trace| - 1]) + if e.Other? then [e.action] else []
  }

  function PushesOf(trace: seq<Event>): seq<Task> {
    if trace == [] then []
    else
      var e := trace[|trace| - 1];
      PushesOf(trace[..|trace| - 1]) + if e.Pushed? then [e.task] else []
  }

  /** All actions before the first `n` lock regions. */
  function Before(others: nat -> seq<Action>, n: nat): seq<Action> {
    if n == 0 then [] else Before(others, n - 1) + others(n - 1)
  }

  function Verdicts(over: nat -> bool, n: nat): (vs: seq<bool>)
    ensures |vs| == n && forall k :: 0 <= k < n ==> vs[k] == over(k)
  {
    seq(n, k requires 0 <= k < n => over(k))
  }

  lemma ArrivalsStep(acts: seq<Action>, a: Action)
    ensures Arrivals(acts + [a]) == Arrivals(acts) + Arrival(a)
  {
    assert (acts + [a])[..|acts|] == acts;
  }

  lemma TraceStep(p: Pool, trace: seq<Event>, e: Event)
    ensures Replay(p, trace + [e]) == Happened(Replay(p, trace), e)
    ensures OthersOf(trace + [e]) == OthersOf(trace) + if e.Other? then [e.action] else []
    ensures PushesOf(trace + [e]) == PushesOf(trace) + if e.Pushed? then [e.task] else []
  {
    assert (trace + [e])[..|trace|] == trace;
  }

  lemma VerdictsStep(over: nat -> bool, n: nat)
    ensures Verdicts(over, n + 1) == Verdicts(over, n) + [over(n)]
  {
  }

  lemma {:induction false} ManyArrived(log: SweepLog, m: nat, es: seq<Entry>)
    requires m <= |log.snapshot| == |log.verdicts|
    ensures SweptUpTo(log, m) + es == SweptUpTo(log.(arrived := log.arrived + es), m)
  {
    hide Kept;
  }

  /** Other threads take their turn. */
  method Interfere(pool: TaskPool, acts: seq<Action>, ghost p: Pool, trace0: seq<Event>) returns (trace: seq<Event>)
    requires pool.Valid() && pool.tasks == Replay(p, trace0).tasks
    modifies pool
    ensures pool.Valid() && pool.tasks == Replay(p, trace).tasks && pool.ptasks == old(pool.ptasks)
    ensures pool.Value().scheduled == old(pool.Value()).scheduled + Arrivals(acts)
    ensures OthersOf(trace) == OthersOf(trace0) + acts && PushesOf(trace) == PushesOf(trace0)
  {
    hide Replay, Arrivals, OthersOf, PushesOf;
    ghost var list := pool.Value().scheduled;
    trace := trace0;
    NoActions(list);
    for k := 0 to |acts|
      invariant pool.Valid() && pool.tasks == Replay(p, trace).tasks && pool.ptasks == old(pool.ptasks)
      invariant pool.Value().scheduled == list + Arrivals(acts[..k])
      invariant OthersOf(trace) == OthersOf(trace0) + acts[..k] && PushesOf(trace) == PushesOf(trace0)
    {
      var a := acts[k];
      assert acts[..k + 1] == acts[..k] + [a];
      ArrivalsStep(acts[..k], a);
      TraceStep(p, trace, Other(a));
      match a {
        case Arrive(t, timer) => pool.Add(t, timer);
        case TakeReady => var _ := pool.Get();
      }
      trace := trace + [Other(a)];
    }
    assert acts[..|acts|] == acts;
  }

  lemma NoActions(list: seq<Entry>)
    ensures list + Arrivals([]) == list
  {
  }

  lemma {:induction false} ArrivalsConcat(a: seq<Action>, b: seq<Action>)
    ensures Arrivals(a + b) == Arrivals(a) + Arrivals(b)
  {
    hide Arrivals, Arrival;
    if b == [] {
      assert a + b == a;
      NoActions(Arrivals(a));
    } else {
      var front, last := b[..|b| - 1], b[|b| - 1];
      ArrivalsConcat(a, front);
      ArrivalsStep(a + front, last);
      ArrivalsStep(front, last);
      assert a + b == (a + front) + [last] && b == front + [last];
      Regroup(Arrivals(a), Arrivals(front), Arrival(last));
    }
  }

  lemma Regroup(a: seq<Entry>, b: seq<Entry>, c: seq<Entry>)
    ensures (a + b) + c == a + (b + c)
  {
  }

  /** The lists of one sweep while it goes on; `first` came before the snapshot was taken. */
  ghost predicate Recorded(pool: TaskPool, p: Pool, trace: seq<Event>, others: nat -> seq<Action>, region: nat,
      arrived: seq<Entry>)
    reads pool
  {
    && pool.Valid() && pool.ptasks == p.ptasks && pool.tasks == Replay(p, trace).tasks
    && OthersOf(trace) == Before(others, region)
    && Arrivals(Before(others, region)) == Arrivals(others(0)) + arrived
  }

  lemma BeforeStep(others: nat -> seq<Action>, n: nat)
    ensures Before(others, n + 1) == Before(others, n) + others(n)
  {
  }

  lemma MoreArrived(others: nat -> seq<Action>, region: nat, arrived: seq<Entry>)
    requires Arrivals(Before(others, region)) == Arrivals(others(0)) + arrived
    ensures Before(others, region + 1) == Before(others, region) + others(region)
    ensures Arrivals(Before(others, region + 1)) == Arrivals(others(0)) + (arrived + Arrivals(others(region)))
  {
    hide *;
    BeforeStep(others, region);
    ArrivalsConcat(Before(others, region), others(region));
    Regroup(Arrivals(others(0)), arrived, Arrivals(others(region)));
  }

  lemma Scanned(snapshot: seq<Entry>, over: nat -> bool, i: nat)
    requires i < |snapshot|
    ensures var vs := Verdicts(over, i);
      && Verdicts(over, i + 1) == vs + [over(i)]
      && TrueIndices(vs + [over(i)]) == TrueIndices(vs) + (if over(i) then [i] else [])
      && Chosen(snapshot[..i + 1], vs + [over(i)]) ==
         Chosen(snapshot[..i], vs) + if over(i) then [snapshot[i].task] else []
  {
    VerdictsStep(over, i);
    IndicesStep(Verdicts(over, i), over(i));
    ChosenStep(snapshot, Verdicts(over, i), over(i));
  }

  lemma NothingScanned(snapshot: seq<Entry>, over: nat -> bool)
    ensures TrueIndices(Verdicts(over, 0)) == [] && Chosen(snapshot[..0], Verdicts(over, 0)) == []
  {
  }

  lemma FirstRegion(others: nat -> seq<Action>)
    ensures Before(others, 1) == others(0) && Arrivals(others(0)) == Arrivals(others(0)) + []
  {
    assert Before(others, 0) == [];
  }

  /** The region of one lock, preceded by the other threads. */
  method Lock(pool: TaskPool, others: nat -> seq<Action>, region: nat, ghost p: Pool,
      trace0: seq<Event>, ghost arrived: seq<Entry>)
    returns (trace: seq<Event>)
    requires Recorded(pool, p, trace0, others, region, arrived)
    modifies pool
    ensures Recorded(pool, p, trace, others, region + 1, arrived + Arrivals(others(region))) && pool.Valid()
    ensures pool.Value().scheduled == old(pool.Value()).scheduled + Arrivals(others(region))
    ensures PushesOf(trace) == PushesOf(trace0)
  {
    hide Replay, Arrivals, OthersOf, PushesOf, Before;
    MoreArrived(others, region, arrived);
    trace := Interfere(pool, others(region), p, trace0);
  }

  method PushDue(pool: TaskPool, t: Task, others: nat -> seq<Action>, region: nat, ghost p: Pool,
      trace0: seq<Event>, ghost arrived: seq<Entry>)
    returns (trace: seq<Event>)
    requires Recorded(pool, p, trace0, others, region, arrived)
    modifies pool
    ensures Recorded(pool, p, trace, others, region, arrived) && pool.Valid()
    ensures pool.Value().scheduled == old(pool.Value()).scheduled && PushesOf(trace) == PushesOf(trace0) + [t]
  {
    hide Replay, Arrivals, OthersOf, PushesOf, Before;
    TraceStep(p, trace0, Pushed(t));
    pool.Push(t);
    trace := trace0 + [Pushed(t)];
  }

  /** The first loop of a sweep: pushes what is due and remembers its index. */
  method Scan(pool: TaskPool, over: nat -> bool, others: nat -> seq<Action>, ghost p: Pool, trace0: seq<Event>)
    returns (trace: seq<Event>, marked: seq<nat>, region: nat, ghost arrived: seq<Entry>)
    requires Recorded(pool, p, trace0, others, 1, []) && PushesOf(trace0) == []
    modifies pool
    ensures Recorded(pool, p, trace, others, region, arrived) && pool.Valid()
    ensures var snapshot := old(pool.Value()).scheduled;
      var verdicts := Verdicts(over, |snapshot|);
      && pool.Value().scheduled == snapshot + arrived
      && marked == TrueIndices(verdicts) && PushesOf(trace) == Chosen(snapshot, verdicts)
      && region == 1 + |snapshot| + |marked|
  {
    hide Recorded, Replay, Arrivals, OthersOf, PushesOf, Before, Chosen, TrueIndices, Verdicts;
    RecordedIsValid(pool, p, trace0, others, 1, []);
    ghost var snapshot := pool.Value().scheduled;
    var total := |pool.scheduledtasks|;
    trace, marked, region, arrived := trace0, [], 1, [];
    NothingScanned(snapshot, over);
    for i := 0 to total
      invariant Recorded(pool, p, trace, others, region, arrived) && pool.Valid()
      invariant pool.Value().scheduled == snapshot + arrived
      invariant marked == TrueIndices(Verdicts(over, i)) && PushesOf(trace) == Chosen(snapshot[..i], Verdicts(over, i))
      invariant region == 1 + i + |marked|
    {
      Scanned(snapshot, over, i);
      trace := Lock(pool, others, region, p, trace, arrived);
      arrived, region := arrived + Arrivals(others(region)), region + 1;
      var e := pool.At(i);
      assert e == Ok(snapshot[i]);
      if over(i) {
        marked := marked + [i];
        trace := Lock(pool, others, region, p, trace, arrived);
        arrived, region := arrived + Arrivals(others(region)), region + 1;
        trace := PushDue(pool, e.value.task, others, region, p, trace, arrived);
      }
    }
    assert snapshot[..total] == snapshot;
  }

  lemma RecordedIsValid(pool: TaskPool, p: Pool, trace: seq<Event>, others: nat -> seq<Action>, region: nat,
      arrived: seq<Entry>)
    requires Recorded(pool, p, trace, others, region, arrived)
    ensures pool.Valid()
  {
  }

  /** The second loop: removes the remembered entries at index - counter. */
  method Remove(pool: TaskPool, others: nat -> seq<Action>, ghost p: Pool, trace0: seq<Event>,
      marked: seq<nat>, region0: nat,
      ghost arrived0: seq<Entry>, ghost snapshot: seq<Entry>, ghost vs: seq<bool>)
    returns (trace: seq<Event>, ghost arrived: seq<Entry>)
    requires Recorded(pool, p, trace0, others, region0, arrived0) && pool.Valid()
    requires |vs| == |snapshot| && marked == TrueIndices(vs) && pool.Value().scheduled == snapshot + arrived0
    modifies pool
    ensures Recorded(pool, p, trace, others, region0 + |marked|, arrived) && pool.Valid()
    ensures PushesOf(trace) == PushesOf(trace0) && pool.Value().scheduled == Kept(snapshot, vs) + arrived
  {
    hide Recorded, Replay, Arrivals, OthersOf, PushesOf, Before, TrueIndices, Kept, SweptUpTo, Erase;
    ghost var log := SweepLog(snapshot, vs, arrived0, []);
    trace, arrived := trace0, arrived0;
    StartRemoving(log, marked);
    var counter := 0;
    while counter < |marked|
      invariant counter <= |marked| && log == SweepLog(snapshot, vs, arrived, [])
      invariant Recorded(pool, p, trace, others, region0 + counter, arrived) && pool.Valid()
      invariant PushesOf(trace) == PushesOf(trace0) && NextOut(log, marked, counter) <= |snapshot|
      invariant pool.Value().scheduled == SweptUpTo(log, NextOut(log, marked, counter))
    {
      var index := marked[counter] - counter;
      ManyArrived(log, marked[counter], Arrivals(others(region0 + counter)));
      trace := Lock(pool, others, region0 + counter, p, trace, arrived);
      arrived := arrived + Arrivals(others(region0 + counter));
      log := log.(arrived := arrived);
      EraseNext(log, marked, counter);
      trace := EraseDue(pool, index, others, region0 + counter + 1, p, trace, arrived);
      NothingBetween(log, marked, counter + 1, marked[counter] + 1);
      SkipKept(log, marked[counter] + 1, NextOut(log, marked, counter + 1));
      counter := counter + 1;
    }
    EndRemoving(log);
  }

  method EraseDue(pool: TaskPool, index: nat, others: nat -> seq<Action>, region: nat, ghost p: Pool,
      trace0: seq<Event>, ghost arrived: seq<Entry>)
    returns (trace: seq<Event>)
    requires Recorded(pool, p, trace0, others, region, arrived) && pool.Valid() && index < |pool.Value().scheduled|
    modifies pool
    ensures Recorded(pool, p, trace, others, region, arrived) && pool.Valid() && trace == trace0
    ensures pool.Value().scheduled == Erase(old(pool.Value()).scheduled, index)
  {
    hide Replay, Arrivals, OthersOf, PushesOf, Before, Erase;
    var r := pool.EraseAt(index);
    trace := trace0;
  }

  lemma StartRemoving(log: SweepLog, marked: seq<nat>)
    requires |log.snapshot| == |log.verdicts| && marked == TrueIndices(log.verdicts)
    ensures NextOut(log, marked, 0) <= |log.snapshot|
    ensures SweptUpTo(log, NextOut(log, marked, 0)) == log.snapshot + log.arrived
  {
    assert SweptUpTo(log, 0) == log.snapshot + log.arrived;
    hide TrueIndices, Kept, SweptUpTo;
    NothingBetween(log, marked, 0, 0);
    SkipKept(log, 0, NextOut(log, marked, 0));
  }

  lemma EndRemoving(log: SweepLog)
    requires |log.snapshot| == |log.verdicts|
    ensures SweptUpTo(log, |log.snapshot|) == Kept(log.snapshot, log.verdicts) + log.arrived
  {
    hide Kept;
    assert log.snapshot[..|log.snapshot|] == log.snapshot && log.verdicts[..|log.verdicts|] == log.verdicts;
  }

  lemma {:induction false} ChosenLength(es: seq<Entry>, vs: seq<bool>)
    requires |es| == |vs|
    ensures |Chosen(es, vs)| == |TrueIndices(vs)|
  {
    if es != [] {
      ChosenLength(es[..|es| - 1], vs[..|vs| - 1]);
    }
  }

  /**
    One round of TaskPool::run. The actions others(n) come before lock region n; `over` gives the
    verdicts on the timers. The trace lists all changes of the ready queue.
   */
  method Sweep(pool: TaskPool, over: nat -> bool, others: nat -> seq<Action>) returns (trace: seq<Event>)
    requires pool.Valid()
    modifies pool
    ensures pool.Valid() && pool.ptasks == old(pool.ptasks)
    ensures var first := Arrivals(others(0));
      var snapshot := old(pool.Value()).scheduled + first;
      var verdicts := Verdicts(over, |snapshot|);
      var actions := Before(others, 1 + |snapshot| + 2 * |Chosen(snapshot, verdicts)|);
      && PushesOf(trace) == Chosen(snapshot, verdicts)
      && OthersOf(trace) == actions
      && pool.tasks == Replay(old(pool.Value()), trace).tasks
      && first <= Arrivals(actions)
      && pool.Value().scheduled == Kept(snapshot, verdicts) + Arrivals(actions)[|first|..]
  {
    hide Replay, Arrivals, OthersOf, PushesOf, Before, Chosen, TrueIndices, Kept, Verdicts;
    ghost var p := pool.Value();
    EmptyTrace(p);
    FirstRegion(others);
    trace := Interfere(pool, others(0), p, []);
    ghost var snapshot := pool.Value().scheduled;
    ghost var vs := Verdicts(over, |snapshot|);
    var marked, region;
    ghost var arrived;
    trace, marked, region, arrived := Scan(pool, over, others, p, trace);
    trace, arrived := Remove(pool, others, p, trace, marked, region, arrived, snapshot, vs);
    ChosenLength(snapshot, vs);
  }

  lemma EmptyTrace(p: Pool)
    ensures Replay(p, []) == p && OthersOf([]) == [] && PushesOf([]) == []
  {
  }
}
