/**
  The shared queues of TaskPool.cpp. Every method is one lock region of the original, and is
  proved against a function on the value of the pool; the scheduler's steps use those functions.
 */
module TaskPools {
  import opened Wrappers
  import opened Sequences

  /** A task pointer with the fields the pools read. Equal values stand for the same pointer. */
  datatype Task = Task(id: nat, tunit: int, kind: int, priority: int)

  /** A started timer, known by its start time. */
  datatype Timer = Timer(start: int)

  datatype Entry = Entry(task: Task, timer: Timer)

  datatype Pool = Pool(tasks: seq<Task>, ptasks: seq<Task>, scheduled: seq<Entry>)

  /** A time unit from nanoseconds to days and a positive time. */
  predicate Timed(t: Task) {
    0 <= t.kind <= 6 && t.tunit > 0
  }

  function AddTask(p: Pool, t: Task, timer: Timer): Pool {
    if Timed(t) then p.(scheduled := p.scheduled + [Entry(t, timer)]) else p.(tasks := p.tasks + [t])
  }

  function AddPTask(p: Pool, t: Task): Pool {
    p.(ptasks := p.ptasks + [t])
  }

  function GetTask(p: Pool): (Pool, Option<Task>) {
    if p.tasks == [] then (p, None) else (p.(tasks := p.tasks[1..]), Some(p.tasks[0]))
  }

  /** The first task of the highest priority above zero. */
  predicate IsPick(ps: seq<Task>, k: int) {
    && 0 <= k < |ps| && ps[k].priority > 0
    && (forall j :: 0 <= j < k ==> ps[j].priority < ps[k].priority)
    && (forall j :: k <= j < |ps| ==> ps[j].priority <= ps[k].priority)
  }

  function PickIndex(ps: seq<Task>): (r: Option<nat>)
    ensures r.Some? ==> IsPick(ps, r.value)
    ensures r.None? ==> forall j :: 0 <= j < |ps| ==> ps[j].priority <= 0
  {
    if ps == [] then None
    else
      var last := |ps| - 1;
      match PickIndex(ps[..last])
      case None => if ps[last].priority > 0 then Some(last) else None
      case Some(k) => if ps[last].priority > ps[k].priority then Some(last) else Some(k)
  }

  /** std::list::remove takes out every occurrence. */
  function Without(ps: seq<Task>, t: Task): (r: seq<Task>)
    ensures |r| <= |ps| && (t in ps ==> |r| < |ps|)
  {
    if ps == [] then [] else (if ps[0] == t then [] else [ps[0]]) + Without(ps[1..], t)
  }

  /** getPTask takes the first task of the highest positive priority, or leaves a pool without one alone. */
  function GetPTask(p: Pool): (r: (Pool, Option<Task>))
    ensures r.1.None? ==> r.0 == p && forall j :: 0 <= j < |p.ptasks| ==> p.ptasks[j].priority <= 0
    ensures r.1.Some? ==> Takes(p, r.0, r.1.value) && |r.0.ptasks| < |p.ptasks|
  {
    match PickIndex(p.ptasks)
    case None => (p, None)
    case Some(k) => (p.(ptasks := Without(p.ptasks, p.ptasks[k])), Some(p.ptasks[k]))
  }

  /** `t` is the pick of p, and q is p without it. */
  ghost predicate Takes(p: Pool, q: Pool, t: Task) {
    && (exists k :: IsPick(p.ptasks, k) && p.ptasks[k] == t)
    && q == p.(ptasks := Without(p.ptasks, t))
  }

  predicate TasksPending(p: Pool) {
    p.tasks != [] || p.scheduled != []
  }

  predicate TasksPPending(p: Pool) {
    p.ptasks != [] || p.scheduled != []
  }

  function PushReady(p: Pool, t: Task): Pool {
    p.(tasks := p.tasks + [t])
  }

  function EraseScheduled(p: Pool, i: nat): Pool
    requires i < |p.scheduled|
  {
    p.(scheduled := Erase(p.scheduled, i))
  }

  /** Two parallel vectors as one list. */
  function Zip(ts: seq<Task>, ms: seq<Timer>): seq<Entry>
    requires |ts| == |ms|
  {
    seq(|ts|, k requires 0 <= k < |ts| => Entry(ts[k], ms[k]))
  }

  class TaskPool {
    var tasks: seq<Task>
    var ptasks: seq<Task>
    var scheduledtasks: seq<Task>
    var scheduledTimers: seq<Timer>

    /** The two vectors are parallel. */
    predicate Valid()
      reads this
    {
      |scheduledtasks| == |scheduledTimers|
    }

    function Value(): Pool
      requires Valid()
      reads this
    {
      Pool(tasks, ptasks, Zip(scheduledtasks, scheduledTimers))
    }

    constructor ()
      ensures Valid() && Value() == Pool([], [], [])
    {
      tasks, ptasks, scheduledtasks, scheduledTimers := [], [], [], [];
    }

    method Add(t: Task, timer: Timer)
      requires Valid()
      modifies this
      ensures Valid() && Value() == AddTask(old(Value()), t, timer)
    {
      if t.kind >= 0 && t.kind <= 6 && t.tunit > 0 {
        scheduledTimers := scheduledTimers + [timer];
        scheduledtasks := scheduledtasks + [t];
      } else {
        tasks := tasks + [t];
      }
    }

    method AddP(t: Task)
      requires Valid()
      modifies this`ptasks
      ensures Valid() && Value() == AddPTask(old(Value()), t)
    {
      ptasks := ptasks + [t];
    }

    method Get() returns (task: Option<Task>)
      requires Valid()
      modifies this`tasks
      ensures Valid() && (Value(), task) == GetTask(old(Value()))
    {
      task := None;
      if tasks != [] {
        task := Some(tasks[0]);
        tasks := tasks[1..];
      }
    }

    /** One pass over the list keeps the first task seen above the best priority so far. */
    method GetP() returns (task: Option<Task>)
      requires Valid()
      modifies this`ptasks
      ensures Valid() && (Value(), task) == GetPTask(old(Value()))
      ensures match task
        case None => ptasks == old(ptasks) && forall j :: 0 <= j < |ptasks| ==> ptasks[j].priority <= 0
        case Some(t) => exists k :: IsPick(old(ptasks), k) && old(ptasks)[k] == t
    {
      var currpri := 0;
      task := None;
      for iter := 0 to |ptasks|
        invariant task == match PickIndex(ptasks[..iter]) case None => None case Some(k) => Some(ptasks[k])
        invariant currpri == if task.None? then 0 else task.value.priority
        invariant ptasks == old(ptasks)
      {
        assert ptasks[..iter + 1][..iter] == ptasks[..iter];
        if ptasks[iter].priority > currpri {
          task := Some(ptasks[iter]);
          currpri := ptasks[iter].priority;
        }
      }
      assert ptasks[..|ptasks|] == ptasks;
      if task.Some? {
        ptasks := Without(ptasks, task.value);
      }
    }

    method Pending() returns (tp: bool)
      requires Valid()
      ensures tp == TasksPending(Value())
    {
      tp := tasks != [];
      tp := tp || scheduledtasks != [];
    }

    method PPending() returns (tp: bool)
      requires Valid()
      ensures tp == TasksPPending(Value())
    {
      tp := ptasks != [];
      tp := tp || scheduledtasks != [];
    }

    /** The sweep reads a task and its timer at one index; `at` throws past the end. */
    method At(i: nat) returns (e: Result<Entry>)
      requires Valid()
      ensures e == if i < |Value().scheduled| then Ok(Value().scheduled[i]) else Thrown(OUT_OF_RANGE)
    {
      if i >= |scheduledtasks| {
        return Thrown(OUT_OF_RANGE);
      }
      return Ok(Entry(scheduledtasks[i], scheduledTimers[i]));
    }

    method Push(t: Task)
      requires Valid()
      modifies this`tasks
      ensures Valid() && Value() == PushReady(old(Value()), t)
    {
      tasks := tasks + [t];
    }

    method EraseAt(i: nat) returns (r: Result<()>)
      requires Valid()
      modifies this
      ensures Valid()
      ensures if i < |old(Value()).scheduled| then r == Ok(()) && Value() == EraseScheduled(old(Value()), i)
              else r == Thrown(OUT_OF_RANGE) && Value() == old(Value())
    {
      if i >= |scheduledTimers| {
        return Thrown(OUT_OF_RANGE);
      }
      scheduledtasks, scheduledTimers := Erase(scheduledtasks, i), Erase(scheduledTimers, i);
      return Ok(());
    }
  }

  // -------------------------------------------------- draining the priority list is a stable sort

  predicate Distinct(ps: seq<Task>) {
    forall i, j :: 0 <= i < j < |ps| ==> ps[i] != ps[j]
  }

  function OfPriority(ps: seq<Task>, q: int): seq<Task> {
    if ps == [] then []
    else if ps[0].priority == q then [ps[0]] + OfPriority(ps[1..], q)
    else OfPriority(ps[1..], q)
  }

  function NonPositive(ps: seq<Task>): seq<Task> {
    if ps == [] then []
    else if ps[0].priority <= 0 then [ps[0]] + NonPositive(ps[1..])
    else NonPositive(ps[1..])
  }

  /** The tasks that repeated calls of getPTask return. */
  function Drained(p: Pool): seq<Task>
    decreases |p.ptasks|
  {
    var (q, t) := GetPTask(p);
    if t.None? then [] else [t.value] + Drained(q)
  }

  /** What those calls leave in the list. */
  function Left(p: Pool): seq<Task>
    decreases |p.ptasks|
  {
    var (q, t) := GetPTask(p);
    if t.None? then p.ptasks else Left(q)
  }

  predicate Descending(ps: seq<Task>) {
    forall i, j :: 0 <= i < j < |ps| ==> ps[i].priority >= ps[j].priority
  }

  lemma {:induction false} WithoutAbsent(ps: seq<Task>, t: Task)
    requires t !in ps
    ensures Without(ps, t) == ps
  {
    if ps != [] {
      assert ps[0] in ps;
      WithoutAbsent(ps[1..], t);
    }
  }

  lemma {:induction false} WithoutAt(ps: seq<Task>, k: nat)
    requires k < |ps| && Distinct(ps)
    ensures Without(ps, ps[k]) == ps[..k] + ps[k + 1..]
  {
    if k == 0 {
      WithoutAbsent(ps[1..], ps[0]);
    } else {
      WithoutAt(ps[1..], k - 1);
      assert ps[1..][..k - 1] == ps[1..k] && ps[1..][k..] == ps[k + 1..];
      assert [ps[0]] + ps[1..k] == ps[..k];
    }
  }

  lemma Cons(x: Task, a: seq<Task>, b: seq<Task>)
    ensures ([x] + a) + b == [x] + (a + b) && ([x] + a)[1..] == a
  {
  }

  lemma {:induction false} OfPriorityConcat(a: seq<Task>, b: seq<Task>, q: int)
    ensures OfPriority(a + b, q) == OfPriority(a, q) + OfPriority(b, q)
  {
    if a == [] {
      assert a + b == b;
    } else {
      OfPriorityConcat(a[1..], b, q);
      assert (a + b)[1..] == a[1..] + b && (a + b)[0] == a[0];
      Cons(a[0], OfPriority(a[1..], q), OfPriority(b, q));
    }
  }

  lemma {:induction false} NonPositiveConcat(a: seq<Task>, b: seq<Task>)
    ensures NonPositive(a + b) == NonPositive(a) + NonPositive(b)
  {
    if a == [] {
      assert a + b == b;
    } else {
      NonPositiveConcat(a[1..], b);
      assert (a + b)[1..] == a[1..] + b && (a + b)[0] == a[0];
      Cons(a[0], NonPositive(a[1..]), NonPositive(b));
    }
  }

  lemma {:induction false} NonPositiveAll(ps: seq<Task>)
    requires forall j :: 0 <= j < |ps| ==> ps[j].priority <= 0
    ensures NonPositive(ps) == ps
  {
    if ps != [] {
      NonPositiveAll(ps[1..]);
    }
  }

  lemma {:induction false} OfPriorityNone(ps: seq<Task>, q: int)
    requires forall j :: 0 <= j < |ps| ==> ps[j].priority != q
    ensures OfPriority(ps, q) == []
  {
    if ps != [] {
      OfPriorityNone(ps[1..], q);
    }
  }

  lemma SplitAround(ps: seq<Task>, k: nat)
    requires k < |ps|
    ensures ps == ps[..k] + ([ps[k]] + ps[k + 1..])
  {
  }

  /** The picked task is the first of its priority; the other priorities are not touched. */
  lemma PickSplitsClass(ps: seq<Task>, k: nat, q: int)
    requires IsPick(ps, k)
    ensures OfPriority(ps, q) == (if q == ps[k].priority then [ps[k]] else []) + OfPriority(ps[..k] + ps[k + 1..], q)
  {
    var t, before, after := ps[k], ps[..k], ps[k + 1..];
    SplitAround(ps, k);
    OfPriorityConcat(before, [t] + after, q);
    OfPriorityConcat(before, after, q);
    Cons(t, after, []);
    if q == t.priority {
      OfPriorityNone(before, q);
    }
  }

  lemma PickIsPositive(ps: seq<Task>, k: nat)
    requires IsPick(ps, k)
    ensures NonPositive(ps) == NonPositive(ps[..k] + ps[k + 1..])
  {
    var t, before, after := ps[k], ps[..k], ps[k + 1..];
    SplitAround(ps, k);
    NonPositiveConcat(before, [t] + after);
    NonPositiveConcat(before, after);
    Cons(t, after, []);
  }

  lemma DistinctAfterErase(ps: seq<Task>, k: nat)
    requires k < |ps| && Distinct(ps)
    ensures Distinct(ps[..k] + ps[k + 1..])
  {
  }

  /** On distinct tasks the others are left in their order. */
  lemma TakesOne(p: Pool) returns (k: nat)
    requires Distinct(p.ptasks) && GetPTask(p).1.Some?
    ensures k < |p.ptasks| && IsPick(p.ptasks, k)
    ensures GetPTask(p) == (p.(ptasks := Erase(p.ptasks, k)), Some(p.ptasks[k]))
  {
    hide GetPTask, PickIndex, Without;
    var t := GetPTask(p).1.value;
    k :| IsPick(p.ptasks, k) && p.ptasks[k] == t;
    WithoutAt(p.ptasks, k);
  }

  /**
    Draining a list of distinct tasks keeps every priority's tasks in insertion order, returns
    only positive priorities, and leaves exactly the others in their order.
   */
  lemma {:induction false} DrainKeepsOrder(p: Pool, q: int)
    requires Distinct(p.ptasks)
    ensures OfPriority(Drained(p), q) == if q > 0 then OfPriority(p.ptasks, q) else []
    ensures Left(p) == NonPositive(p.ptasks)
    decreases |p.ptasks|
  {
    hide GetPTask, IsPick, OfPriority, NonPositive, Distinct;
    var ps := p.ptasks;
    var (rest, t) := GetPTask(p);
    if t.None? {
      NothingToPick(ps, q);
    } else {
      var k := TakesOne(p);
      PickInList(ps, k);
      DistinctAfterErase(ps, k);
      DrainKeepsOrder(rest, q);
      PickSplitsClass(ps, k, q);
      PickIsPositive(ps, k);
      ClassOfFirst(ps[k], Drained(rest), q);
    }
  }

  lemma NothingToPick(ps: seq<Task>, q: int)
    requires forall j :: 0 <= j < |ps| ==> ps[j].priority <= 0
    ensures OfPriority([], q) == [] && (q > 0 ==> OfPriority(ps, q) == []) && NonPositive(ps) == ps
  {
    NonPositiveAll(ps);
    if q > 0 {
      OfPriorityNone(ps, q);
    }
  }

  lemma PickInList(ps: seq<Task>, k: int)
    requires IsPick(ps, k)
    ensures 0 <= k < |ps| && ps[k].priority > 0 && forall j :: 0 <= j < |ps| ==> ps[j].priority <= ps[k].priority
  {
  }

  lemma ClassOfFirst(x: Task, ps: seq<Task>, q: int)
    ensures OfPriority([x] + ps, q) == (if q == x.priority then [x] else []) + OfPriority(ps, q)
  {
    Cons(x, ps, []);
  }

  lemma {:induction false} DrainedBound(p: Pool, b: int)
    requires Distinct(p.ptasks) && forall j :: 0 <= j < |p.ptasks| ==> p.ptasks[j].priority <= b
    ensures forall j :: 0 <= j < |Drained(p)| ==> Drained(p)[j].priority <= b
    decreases |p.ptasks|
  {
    hide GetPTask, IsPick;
    var (rest, t) := GetPTask(p);
    if t.Some? {
      var k := TakesOne(p);
      PickInList(p.ptasks, k);
      DistinctAfterErase(p.ptasks, k);
      DrainedBound(rest, b);
    }
  }

  /** The highest priority comes first. */
  lemma {:induction false} DrainDescends(p: Pool)
    requires Distinct(p.ptasks)
    ensures Descending(Drained(p))
    decreases |p.ptasks|
  {
    hide GetPTask, IsPick, Distinct;
    var (rest, t) := GetPTask(p);
    if t.Some? {
      var k := TakesOne(p);
      PickInList(p.ptasks, k);
      DistinctAfterErase(p.ptasks, k);
      DrainDescends(rest);
      DrainedBound(rest, t.value.priority);
    }
  }

  lemma {:induction false} FirstOfClass(b: seq<Task>, q: int)
    requires OfPriority(b, q) != [] && Descending(b) && forall j :: 0 <= j < |b| ==> b[j].priority <= q
    ensures b != [] && b[0].priority == q && OfPriority(b, q)[0] == b[0]
  {
    if b[0].priority < q {
      OfPriorityNone(b, q);
    }
  }

  lemma {:induction false} ClassMember(b: seq<Task>, j: nat)
    requires j < |b|
    ensures OfPriority(b, b[j].priority) != []
  {
    if j > 0 {
      ClassMember(b[1..], j - 1);
    }
  }

  /** Descending order and the order inside every priority determine a list: there is one stable sort. */
  lemma {:induction false} StableSortUnique(a: seq<Task>, b: seq<Task>)
    requires Descending(a) && Descending(b) && forall q :: OfPriority(a, q) == OfPriority(b, q)
    ensures a == b
    decreases |a|
  {
    if a == [] {
      if b != [] {
        ClassMember(b, 0);
      }
    } else {
      var p := a[0].priority;
      ClassMember(a, 0);
      forall j | 0 <= j < |b| ensures b[j].priority <= p {
        ClassMember(b, j);
        if b[j].priority > p {
          OfPriorityNone(a, b[j].priority);
        }
      }
      assert OfPriority(b, p) == OfPriority(a, p);
      FirstOfClass(a, p);
      FirstOfClass(b, p);
      assert a[0] == b[0];
      forall q ensures OfPriority(a[1..], q) == OfPriority(b[1..], q) {
        assert OfPriority(a, q) == OfPriority(b, q);
        Cons(a[0], OfPriority(a[1..], q), []);
        Cons(b[0], OfPriority(b[1..], q), []);
      }
      StableSortUnique(a[1..], b[1..]);
    }
  }
}
