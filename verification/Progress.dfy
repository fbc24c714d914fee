/** What each thread achieves when it is given the processor, whatever the state of the others. */
module Progress {
  import opened Wrappers
  import opened TaskPools
  import opened PoolThreads
  import opened Scheduler
  import opened TimerSweep
  import opened SchedulerSafety

  lemma {:induction false} ExecConcat(s: State, a: seq<Step>, b: seq<Step>)
    requires Exec(s, a).Some?
    ensures Exec(s, a + b) == Exec(Exec(s, a).value, b)
    decreases |a|
  {
    hide Apply;
    if a == [] {
      assert a + b == b;
    } else {
      assert (a + b)[0] == a[0] && (a + b)[1..] == a[1..] + b;
      ExecConcat(Apply(s, a[0]).value, a[1..], b);
    }
  }

  lemma ExecOne(s: State, a: Step)
    ensures Exec(s, [a]) == Apply(s, a)
  {
    hide Apply;
    if Apply(s, a).Some? {
      assert [a][1..] == [];
    }
  }

  lemma ExecCons(s: State, a: Step, run: seq<Step>)
    requires Apply(s, a).Some?
    ensures Exec(s, [a] + run) == Exec(Apply(s, a).value, run)
  {
    hide Apply;
    assert ([a] + run)[0] == a && ([a] + run)[1..] == run;
  }

  // ------------------------------------------------------------------ the poller

  function Offers(n: nat): seq<Step> {
    if n == 0 then [] else [PollOffer] + Offers(n - 1)
  }

  lemma OfferStep(s: State, x: Task, v: nat)
    requires s.poller == Offering(x, v)
    ensures v >= |s.workers| ==> Apply(s, PollOffer) == Some(s.(poller := Offering(x, 0)))
    ensures v < |s.workers| && s.workers[v].slot.idle ==> Apply(s, PollOffer) == Some(s.(poller := Placing(x, v)))
    ensures v < |s.workers| && !s.workers[v].slot.idle ==> Apply(s, PollOffer) == Some(s.(poller := Offering(x, v + 1)))
  {
  }

  /** Worker w is the first idle one from v on. */
  predicate FirstIdle(s: State, v: nat, w: nat) {
    v <= w < |s.workers| && s.workers[w].slot.idle && forall k :: v <= k < w ==> !s.workers[k].slot.idle
  }

  lemma {:induction false} OffersFind(s: State, x: Task, v: nat, w: nat)
    requires s.poller == Offering(x, v) && FirstIdle(s, v, w)
    ensures Exec(s, Offers(w - v + 1)) == Some(s.(poller := Placing(x, w)))
    decreases w - v
  {
    hide Apply;
    OfferStep(s, x, v);
    if v == w {
      assert Offers(1) == [PollOffer] + Offers(0) == [PollOffer];
      ExecOne(s, PollOffer);
    } else {
      var t := s.(poller := Offering(x, v + 1));
      OffersFind(t, x, v + 1, w);
      ExecCons(s, PollOffer, Offers(w - v));
    }
  }

  lemma {:induction false} OffersPass(s: State, x: Task, v: nat, n: nat)
    requires s.poller == Offering(x, v) && v <= n <= |s.workers| && forall k :: v <= k < n ==> !s.workers[k].slot.idle
    ensures Exec(s, Offers(n - v)) == Some(s.(poller := Offering(x, n)))
    decreases n - v
  {
    hide Apply;
    if v < n {
      OfferStep(s, x, v);
      OffersPass(s.(poller := Offering(x, v + 1)), x, v + 1, n);
      ExecCons(s, PollOffer, Offers(n - v - 1));
    } else {
      assert Offers(0) == [];
    }
  }

  lemma {:induction false} OffersConcat(m: nat, n: nat)
    ensures Offers(m) + Offers(n) == Offers(m + n)
  {
    if m == 0 {
      assert [] + Offers(n) == Offers(n);
    } else {
      OffersConcat(m - 1, n);
      assert [PollOffer] + Offers(m - 1) + Offers(n) == [PollOffer] + (Offers(m - 1) + Offers(n));
    }
  }

  lemma {:induction false} FindFirstIdle(s: State, v: nat, n: nat) returns (w: nat)
    requires v <= n <= |s.workers|
    ensures v <= w <= n && (w < n ==> FirstIdle(s, v, w))
    ensures w == n ==> forall k :: v <= k < n ==> !s.workers[k].slot.idle
    decreases n - v
  {
    if v == n || s.workers[v].slot.idle {
      return v;
    }
    w := FindFirstIdle(s, v + 1, n);
  }

  lemma PlaceStep(s: State, x: Task, w: nat)
    requires s.poller == Placing(x, w) && w < |s.workers|
    ensures Apply(s, PollPlace) == Some(s.(poller := Checking, dispatched := s.dispatched + [x],
                                           workers := s.workers[w := s.workers[w].(slot := Slot(false, Some(x)))]))
  {
  }

  /**
    While any worker is idle, the task in the poller's hand gets into the slot of an idle worker after
    finitely many of the poller's own steps, wherever its scan stands.
   */
  lemma HandIsPlaced(s: State, x: Task, idle: nat) returns (n: nat, w: nat)
    requires s.poller.Offering? && s.poller.task == x && idle < |s.workers| && s.workers[idle].slot.idle
    ensures w < |s.workers| && s.workers[w].slot.idle
    ensures Exec(s, Offers(n) + [PollPlace]) ==
            Some(s.(poller := Checking, dispatched := s.dispatched + [x],
                    workers := s.workers[w := s.workers[w].(slot := Slot(false, Some(x)))]))
  {
    hide Apply, Exec, Offers;
    var v, size := s.poller.v, |s.workers|;
    var m := 0;
    w := size;
    if v < size {
      w := FindFirstIdle(s, v, size);
    }
    if w < size {
      OffersFind(s, x, v, w);
      m := w - v + 1;
    } else {
      w := ScanAgain(s, x, v);
      m := (if v < size then size - v else 0) + 1 + (w + 1);
    }
    n := m;
    var t := s.(poller := Placing(x, w));
    ExecConcat(s, Offers(n), [PollPlace]);
    ExecOne(t, PollPlace);
    PlaceStep(t, x, w);
  }

  /** Behind the last worker the scan starts again at the first. */
  lemma ScanAgain(s: State, x: Task, v: nat) returns (w: nat)
    requires s.poller == Offering(x, v) && (exists k :: 0 <= k < |s.workers| && s.workers[k].slot.idle)
    requires forall k :: v <= k < |s.workers| ==> !s.workers[k].slot.idle
    ensures FirstIdle(s, 0, w)
    ensures var left := if v < |s.workers| then |s.workers| - v else 0;
      Exec(s, Offers(left + 1 + (w + 1))) == Some(s.(poller := Placing(x, w)))
  {
    hide Apply, Exec, Offers;
    var size := |s.workers|;
    w := FindFirstIdle(s, 0, size);
    var m := if v < size then size - v else 0;
    var past := if v < size then size else v;
    if v < size {
      OffersPass(s, x, v, size);
    } else {
      NoOffers(s);
    }
    var s1, s2 := s.(poller := Offering(x, past)), s.(poller := Offering(x, 0));
    OfferStep(s1, x, past);
    OneOffer(s1);
    OffersFind(s2, x, 0, w);
    ExecConcat(s, Offers(m), Offers(1));
    OffersConcat(m, 1);
    ExecConcat(s, Offers(m + 1), Offers(w + 1));
    OffersConcat(m + 1, w + 1);
  }

  lemma NoOffers(s: State)
    ensures Exec(s, Offers(0)) == Some(s)
  {
  }

  lemma OneOffer(s: State)
    ensures Exec(s, Offers(1)) == Apply(s, PollOffer)
  {
    assert Offers(1) == [PollOffer] + Offers(0) == [PollOffer];
    ExecOne(s, PollOffer);
  }

  lemma CheckAndTake(s: State)
    requires s.poller == Checking
    ensures !Pending(s) ==> Apply(s, PollCheck) == Some(s)
    ensures Pending(s) ==> Apply(s, PollCheck) == Some(s.(poller := Taking))
    ensures !s.prioritypooling && s.pool.tasks != [] ==>
      Apply(s.(poller := Taking), PollTake) ==
      Some(s.(poller := Offering(s.pool.tasks[0], 0), pool := s.pool.(tasks := s.pool.tasks[1..])))
  {
    hide PickIndex, Without;
  }

  lemma PendingWhenReady(s: State)
    requires !s.prioritypooling && s.pool.tasks != []
    ensures Pending(s)
  {
  }

  /** A ready task at the head of the queue is handed to the first idle worker by the poller alone. */
  lemma HeadIsDelivered(s: State, w: nat)
    requires s.poller == Checking && !s.prioritypooling && s.pool.tasks != [] && FirstIdle(s, 0, w)
    ensures var x := s.pool.tasks[0];
      Exec(s, [PollCheck] + ([PollTake] + (Offers(w + 1) + [PollPlace]))) ==
      Some(s.(pool := s.pool.(tasks := s.pool.tasks[1..]), dispatched := s.dispatched + [x],
              workers := s.workers[w := s.workers[w].(slot := Slot(false, Some(x)))]))
  {
    hide Apply, Exec, Pending, Offers;
    var x, size := s.pool.tasks[0], |s.workers|;
    PendingWhenReady(s);
    CheckAndTake(s);
    var s1 := s.(poller := Taking);
    var s2 := s.(poller := Offering(x, 0), pool := s.pool.(tasks := s.pool.tasks[1..]));
    var s3 := s2.(poller := Placing(x, w));
    OffersFind(s2, x, 0, w);
    PlaceStep(s3, x, w);
    ExecConcat(s2, Offers(w + 1), [PollPlace]);
    ExecOne(s3, PollPlace);
    ExecCons(s1, PollTake, Offers(w + 1) + [PollPlace]);
    ExecCons(s, PollCheck, [PollTake] + (Offers(w + 1) + [PollPlace]));
  }

  // ------------------------------------------------------------------ a worker

  /** A worker that wakes up with a task in its slot runs that task and frees the slot; without one it waits on. */
  lemma WorkerFinishes(s: State, w: nat)
    requires w < |s.workers| && s.workers[w].at == Waiting
    ensures s.workers[w].slot.task.None? ==> Apply(s, Wake(w)) == Some(s)
    ensures s.workers[w].slot.task.Some? ==>
      var x := s.workers[w].slot.task.value;
      Exec(s, [Wake(w)] + ([Run(w)] + [Release(w)])) ==
      Some(s.(workers := s.workers[w := Worker(Slot(true, None), Waiting)],
        ran := s.ran + [x], finished := s.finished + [x]))
  {
    if s.workers[w].slot.task.Some? {
      var x, slot := s.workers[w].slot.task.value, s.workers[w].slot;
      var s1 := s.(workers := s.workers[w := Worker(slot, Running(x))]);
      var s2 := s1.(workers := s1.workers[w := Worker(slot, Ran(x))], ran := s.ran + [x]);
      assert Apply(s, Wake(w)) == Some(s1) && Apply(s1, Run(w)) == Some(s2);
      var s3 := s2.(workers := s2.workers[w := Worker(Slot(true, None), Waiting)], finished := s2.finished + [x]);
      assert Apply(s2, Release(w)) == Some(s3);
      hide Apply, Exec;
      ExecOne(s2, Release(w));
      ExecCons(s1, Run(w), [Release(w)]);
      ExecCons(s, Wake(w), [Run(w)] + [Release(w)]);
      assert s3.workers == s.workers[w := Worker(Slot(true, None), Waiting)];
    } else {
      assert s.workers[w := Worker(s.workers[w].slot, Waiting)] == s.workers;
    }
  }

  // ------------------------------------------------------------------ joinAll

  function Counts(n: nat): seq<Step> {
    if n == 0 then [] else [JoinCount] + Counts(n - 1)
  }

  function IdleFrom(ws: seq<Worker>, v: nat): nat
    decreases |ws| - v
  {
    if v >= |ws| then 0 else (if ws[v].slot.idle then 1 else 0) + IdleFrom(ws, v + 1)
  }

  lemma CountStep(s: State, v: nat, idles: nat, held: Option<Task>, seen: nat)
    requires s.joiner == Counting(v, idles, held, seen)
    ensures v < |s.workers| ==>
      Apply(s, JoinCount) ==
      Some(s.(joiner := Counting(v + 1, idles + if s.workers[v].slot.idle then 1 else 0, held, seen)))
    ensures v >= |s.workers| ==>
      Apply(s, JoinEnd) == Some(s.(joiner := if idles == |s.workers| then Joined(held, seen) else Observing))
  {
  }

  lemma {:induction false} CountsAll(s: State, v: nat, idles: nat, held: Option<Task>, seen: nat)
    requires s.joiner == Counting(v, idles, held, seen) && v <= |s.workers|
    ensures Exec(s, Counts(|s.workers| - v)) ==
            Some(s.(joiner := Counting(|s.workers|, idles + IdleFrom(s.workers, v), held, seen)))
    decreases |s.workers| - v
  {
    hide Apply;
    if v < |s.workers| {
      CountStep(s, v, idles, held, seen);
      var more := idles + if s.workers[v].slot.idle then 1 else 0;
      CountsAll(s.(joiner := Counting(v + 1, more, held, seen)), v + 1, more, held, seen);
      ExecCons(s, JoinCount, Counts(|s.workers| - v - 1));
    } else {
      assert Counts(0) == [];
    }
  }

  lemma {:induction false} IdleIff(ws: seq<Worker>, v: nat)
    requires v <= |ws|
    ensures IdleFrom(ws, v) <= |ws| - v
    ensures IdleFrom(ws, v) == |ws| - v <==> forall k :: v <= k < |ws| ==> ws[k].slot.idle
    decreases |ws| - v
  {
    if v < |ws| {
      IdleIff(ws, v + 1);
    }
  }

  lemma ObserveStep(s: State)
    requires s.joiner == Observing
    ensures Apply(s, JoinObserve) ==
            Some(if Pending(s) then s else s.(joiner := Counting(0, 0, Hand(s), |s.submitted|)))
  {
    hide Pending, Hand;
  }

  predicate AllIdle(ws: seq<Worker>) {
    forall k :: 0 <= k < |ws| ==> ws[k].slot.idle
  }

  lemma CountRound(s: State, held: Option<Task>, seen: nat)
    requires s.joiner == Counting(0, 0, held, seen)
    ensures Exec(s, Counts(|s.workers|) + [JoinEnd]) ==
            Some(s.(joiner := if AllIdle(s.workers) then Joined(held, seen) else Observing))
  {
    hide Apply, Exec, Counts;
    var n := |s.workers|;
    CountsAll(s, 0, 0, held, seen);
    IdleIff(s.workers, 0);
    var t := s.(joiner := Counting(n, IdleFrom(s.workers, 0), held, seen));
    CountStep(t, n, IdleFrom(s.workers, 0), held, seen);
    ExecOne(t, JoinEnd);
    ExecConcat(s, Counts(n), [JoinEnd]);
  }

  /**
    One round of joinAll on its own: it waits while something is pending, and otherwise ends exactly when
    every worker is idle.
   */
  lemma JoinRound(s: State)
    requires s.joiner == Observing
    ensures Pending(s) ==> Apply(s, JoinObserve) == Some(s)
    ensures !Pending(s) ==>
      Exec(s, [JoinObserve] + (Counts(|s.workers|) + [JoinEnd])) ==
      Some(s.(joiner := if AllIdle(s.workers) then Joined(Hand(s), |s.submitted|) else Observing))
  {
    hide Apply, Exec, Counts, Pending, Hand, AllIdle;
    ObserveStep(s);
    if !Pending(s) {
      CountRound(s.(joiner := Counting(0, 0, Hand(s), |s.submitted|)), Hand(s), |s.submitted|);
      ExecCons(s, JoinObserve, Counts(|s.workers|) + [JoinEnd]);
    }
  }
}
