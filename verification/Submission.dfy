/** What clients hand to the pool, where it goes, and when a scheduled task is due. */
module Submissions {
  import opened Wrappers
  import opened TaskPools
  import opened PoolThreads
  import opened Scheduler
  import opened PriorityRuns

  /** A long long stored in an int. */
  function ToInt(n: int): int {
    (n + 0x8000_0000) % 0x1_0000_0000 - 0x8000_0000
  }

  /** submit(task, priority); without a priority it is -1. */
  function Submitted(id: nat, priority: int): Task {
    Task(id, -1, -1, priority)
  }

  /** schedule(task, tunit, type). */
  function Scheduled(id: nat, tunit: int, kind: int): Task {
    Task(id, ToInt(tunit), kind, -1)
  }

  lemma ToIntOfInt(n: int)
    ensures -0x8000_0000 <= n < 0x8000_0000 <==> ToInt(n) == n
  {
  }

  /** A submitted task goes to the end of the ready queue, or of the priority list; the schedule keeps still. */
  lemma SubmittedGoes(s: State, id: nat, priority: int, timer: Timer)
    requires Submitted(id, priority) !in s.submitted
    ensures var t, u := Submitted(id, priority), Apply(s, Submit(Submitted(id, priority), timer));
      && u.Some? && t.priority == priority
      && u.value.pool == if s.prioritypooling then s.pool.(ptasks := s.pool.ptasks + [t])
                         else s.pool.(tasks := s.pool.tasks + [t])
  {
  }

  /**
    A scheduled task waits in the schedule exactly when the pool has no priorities, the unit is one of the
    seven and the time, cut to an int, is positive; otherwise it is ready at once, or in the priority list.
   */
  lemma ScheduledGoes(s: State, id: nat, tunit: int, kind: int, timer: Timer)
    requires Scheduled(id, tunit, kind) !in s.submitted
    ensures var t, u := Scheduled(id, tunit, kind), Apply(s, Submit(Scheduled(id, tunit, kind), timer));
      && u.Some?
      && u.value.pool ==
         if s.prioritypooling then s.pool.(ptasks := s.pool.ptasks + [t])
         else if 0 <= kind <= 6 && ToInt(tunit) >= 1 then s.pool.(scheduled := s.pool.scheduled + [Entry(t, timer)])
         else s.pool.(tasks := s.pool.tasks + [t])
  {
  }

  /** In a pool with priorities every scheduled task, and every task submitted without a priority, stays for ever. */
  lemma ScheduledIsStranded(s: State, x: Task, id: nat, tunit: int, kind: int)
    requires Reachable(s) && s.prioritypooling && x in s.submitted
    requires x == Scheduled(id, tunit, kind) || x == Submitted(id, -1)
    ensures x in s.pool.ptasks && x !in s.ran && x !in s.finished && Pending(s)
  {
    hide Reachable;
    NeverDispatched(s, x);
  }

  // ----------------------------------------------------------------- when a wait is over

  /** What clock_gettime gives. */
  datatype Instant = Instant(sec: int, nsec: int)

  predicate IsInstant(a: Instant) {
    0 <= a.nsec < 1_000_000_000
  }

  function Nanoseconds(a: Instant, b: Instant): int {
    (b.sec - a.sec) * 1_000_000_000 + (b.nsec - a.nsec)
  }

  /** The clock never goes back. */
  predicate NotBefore(a: Instant, b: Instant) {
    IsInstant(a) && IsInstant(b) && Nanoseconds(a, b) >= 0
  }

  /** isWaitOver with a timer started at `a`, asked at `b`. */
  predicate IsWaitOver(t: Task, a: Instant, b: Instant) {
    match t.kind
    case 0 => t.tunit <= Nanoseconds(a, b)
    case 1 => t.tunit <= Nanoseconds(a, b) / 1_000
    case 2 => t.tunit <= Nanoseconds(a, b) / 1_000_000
    case 3 => t.tunit <= b.sec - a.sec
    case 4 => t.tunit <= (b.sec - a.sec) / 60 / 60
    case 5 => t.tunit <= (b.sec - a.sec) / 3_600
    case 6 => t.tunit <= (b.sec - a.sec) / 86_400
    case _ => false
  }

  /** One unit of each kind, in nanoseconds. */
  function Unit(kind: int): int {
    match kind
    case 0 => 1
    case 1 => 1_000
    case 2 => 1_000_000
    case 3 => 1_000_000_000
    case 4 => 60 * 1_000_000_000
    case 5 => 3_600 * 1_000_000_000
    case _ => 86_400 * 1_000_000_000
  }

  /** The time asked for has gone by. */
  predicate Due(t: Task, a: Instant, b: Instant) {
    t.tunit * Unit(t.kind) <= Nanoseconds(a, b)
  }

  /** Exactly the whole seconds asked for lie between the readings, but the later one stands earlier in its second. */
  predicate CutShort(t: Task, a: Instant, b: Instant) {
    t.tunit * Unit(t.kind) == (b.sec - a.sec) * 1_000_000_000 && b.nsec < a.nsec
  }

  /**
    The verdict on a timed task. Below a second it is exact. From a second on it counts clock ticks, so it is
    right unless the wait is cut short by less than a second. Minutes are taken for hours: the verdict is
    right exactly until the minutes are over, and again when as many hours are.
   */
  lemma WaitIsExact(t: Task, a: Instant, b: Instant)
    requires Timed(t) && NotBefore(a, b)
    ensures t.kind != 4 ==> (IsWaitOver(t, a, b) <==> Due(t, a, b) || (t.kind >= 3 && CutShort(t, a, b)))
    ensures t.kind == 4 ==> (IsWaitOver(t, a, b) <==> IsWaitOver(t.(kind := 5), a, b))
    ensures t.kind == 4 ==>
      ((IsWaitOver(t, a, b) <==> Due(t, a, b)) <==> !Due(t, a, b) || (b.sec - a.sec) >= 3_600 * t.tunit)
  {
    var d, k := b.sec - a.sec, t.tunit;
    if t.kind < 3 {
      WholeUnits(k, Nanoseconds(a, b), Unit(t.kind));
    } else if t.kind == 3 {
      WholeSeconds(k, a, b);
    } else if t.kind == 6 {
      WholeUnits(k, d, 86_400);
      WholeSeconds(k * 86_400, a, b);
    } else {
      WholeUnits(k, d, 3_600);
      HoursAre(d);
      WholeSeconds(k * 3_600, a, b);
      WholeSeconds(k * 60, a, b);
    }
  }

  lemma HoursAre(d: int)
    ensures d / 60 / 60 == d / 3_600
  {
  }

  lemma WholeSeconds(w: int, a: Instant, b: Instant)
    requires NotBefore(a, b)
    ensures w <= b.sec - a.sec <==>
            || w * 1_000_000_000 <= Nanoseconds(a, b)
            || (w * 1_000_000_000 == (b.sec - a.sec) * 1_000_000_000 && b.nsec < a.nsec)
  {
  }

  lemma WholeUnits(k: int, n: int, unit: int)
    requires unit > 0
    ensures k <= n / unit <==> k * unit <= n
  {
    var q, r := n / unit, n % unit;
    assert n == q * unit + r && 0 <= r < unit;
    if k <= q {
      assert k * unit <= q * unit;
    } else {
      assert k * unit >= (q + 1) * unit == q * unit + unit;
    }
  }

  /** A wait that is over stays over. */
  lemma OverStaysOver(t: Task, a: Instant, b: Instant, c: Instant)
    requires NotBefore(a, b) && NotBefore(b, c) && IsWaitOver(t, a, b)
    ensures NotBefore(a, c) && IsWaitOver(t, a, c)
  {
    assert Nanoseconds(a, c) == Nanoseconds(a, b) + Nanoseconds(b, c);
    assert b.sec <= c.sec;
  }

  /** A minute is not over after half an hour, and a second can be over after a nanosecond. */
  lemma WaitExamples()
    ensures Due(Scheduled(0, 1, 4), Instant(0, 0), Instant(1_800, 0))
    ensures !IsWaitOver(Scheduled(0, 1, 4), Instant(0, 0), Instant(1_800, 0))
    ensures !Due(Scheduled(0, 1, 3), Instant(0, 999_999_999), Instant(1, 0))
    ensures IsWaitOver(Scheduled(0, 1, 3), Instant(0, 999_999_999), Instant(1, 0))
  {
  }
}
