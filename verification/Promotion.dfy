/** What it means for a scheduled task not to be promoted yet, said about the pool alone. */
module Promotion {
  import opened Wrappers
  import opened TaskPools
  import opened Scheduler
  import opened StepFrames
  import opened TimerSweep
  import opened SchedulerSafety

  /** Every submitted task is either unpromoted or has been pushed, and what the sweep has taken out has been pushed. */
  ghost predicate PromotionInv(s: State)
    requires SweepInv(s)
  {
    && (forall x :: x in s.log.swept ==> x in s.pushed)
    && (!s.prioritypooling ==>
      forall x :: Count(s.submitted, x) == Count(TasksOf(Unpromoted(s)), x) + Count(s.pushed, x))
  }

  lemma PromotionSubmit(s: State, y: Task, timer: Timer, t: State)
    requires SweepInv(s) && SweepInv(t) && PromotionInv(s) && ApplySubmit(s, y, timer) == Some(t)
    ensures PromotionInv(t)
  {
    hide SweepInv, Unpromoted, TasksOf, Count, ApplySubmit;
    SubmitFrame(s, y, timer, t);
    if !s.prioritypooling {
      forall x ensures Count(t.submitted, x) == Count(TasksOf(Unpromoted(t)), x) + Count(t.pushed, x) {
        assert Count(s.submitted, x) == Count(TasksOf(Unpromoted(s)), x) + Count(s.pushed, x);
        CountConcat(s.submitted, [y], x);
        if Timed(y) {
          UnpromotedSubmit(s, y, timer, t);
          TasksOfConcat(Unpromoted(s), [Entry(y, timer)]);
          TasksOfOne(Entry(y, timer));
          CountConcat(TasksOf(Unpromoted(s)), [y], x);
        } else {
          UnpromotedFrame(s, t);
          CountConcat(s.pushed, [y], x);
        }
      }
    }
  }

  lemma PromotionSweep(s: State, a: Step, t: State)
    requires SweepInv(s) && SweepInv(t) && PromotionInv(s) && SweepStep(a) && ApplySweep(s, a) == Some(t)
    ensures PromotionInv(t)
  {
    hide SweepInv, Unpromoted, TasksOf, Count, ApplySweep;
    SweepFrame(s, a, t);
    if a.SweepPush? {
      var y := s.sweep.entry.task;
      forall x ensures !s.prioritypooling ==>
        Count(t.submitted, x) == Count(TasksOf(Unpromoted(t)), x) + Count(t.pushed, x) {
        UnpromotedPush(s, t, x);
        CountOne(y, x);
        CountConcat(s.pushed, [y], x);
      }
    } else {
      UnpromotedSweep(s, a, t);
    }
  }

  lemma PromotionOther(s: State, a: Step, t: State)
    requires SweepInv(s) && SweepInv(t) && PromotionInv(s) && !SweepStep(a) && !a.Submit? && Apply(s, a) == Some(t)
    ensures PromotionInv(t)
  {
    hide SweepInv, Unpromoted, TasksOf, Count, Apply;
    CommonFrame(s, a, t);
    UnpromotedFrame(s, t);
  }

  lemma PromotionStep(s: State, a: Step, t: State)
    requires SweepInv(s) && SweepInv(t) && PromotionInv(s) && Apply(s, a) == Some(t)
    ensures PromotionInv(t)
  {
    hide SweepInv, PromotionInv, Apply, ApplySubmit, ApplySweep;
    StepOfThread(s, a);
    if a.Submit? {
      PromotionSubmit(s, a.task, a.timer, t);
    } else if SweepStep(a) {
      PromotionSweep(s, a, t);
    } else {
      PromotionOther(s, a, t);
    }
  }

  lemma {:induction false} PromotionRun(s: State, run: seq<Step>, t: State)
    requires SweepInv(s) && PromotionInv(s) && Exec(s, run) == Some(t)
    ensures SweepInv(t) && PromotionInv(t)
    decreases |run|
  {
    hide SweepInv, PromotionInv, Apply;
    if run != [] {
      var next := Apply(s, run[0]).value;
      SweepInvStep(s, run[0], next);
      PromotionStep(s, run[0], next);
      PromotionRun(next, run[1..], t);
    }
  }

  lemma PromotionReachable(s: State)
    requires Reachable(s)
    ensures SweepInv(s) && PromotionInv(s)
  {
    hide SweepInv, PromotionInv, Exec;
    var prio: bool, n: nat, run: seq<Step> :| Exec(Init(prio, n), run) == Some(s);
    PromotionInit(prio, n);
    PromotionRun(Init(prio, n), run, s);
  }

  lemma PromotionInit(prio: bool, n: nat)
    ensures SweepInv(Init(prio, n)) && PromotionInv(Init(prio, n))
  {
  }

  // ------------------------------------------------------------------ the schedule itself

  /** A verdict sorts every entry: it is kept or its task is chosen. */
  lemma {:induction false} KeptOrChosen(es: seq<Entry>, vs: seq<bool>, e: Entry)
    requires |es| == |vs| && e in es
    ensures e in Kept(es, vs) || e.task in Chosen(es, vs)
  {
    var last := |es| - 1;
    if e in es[..last] {
      KeptOrChosen(es[..last], vs[..last], e);
    } else {
      assert e == es[last];
    }
  }

  lemma {:induction false} KeptIsPart(es: seq<Entry>, vs: seq<bool>, e: Entry)
    requires |es| == |vs| && e in Kept(es, vs)
    ensures e in es
  {
    var last := |es| - 1;
    if e in Kept(es[..last], vs[..last]) {
      KeptIsPart(es[..last], vs[..last], e);
    }
  }

  /** Cutting the list at `m`: what is kept stands before or behind the cut. */
  lemma {:induction false} KeptAtCut(es: seq<Entry>, vs: seq<bool>, m: nat, e: Entry)
    requires |es| == |vs| && m <= |es|
    ensures e in Kept(es[..m], vs[..m]) ==> e in Kept(es, vs)
    ensures e in Kept(es, vs) ==> e in Kept(es[..m], vs[..m]) || e in es[m..]
  {
    if m == |es| {
      WholeSlices(es);
      WholeSlices(vs);
    } else {
      var last := |es| - 1;
      KeptAtCut(es[..last], vs[..last], m, e);
      assert es[..last][..m] == es[..m] && vs[..last][..m] == vs[..m];
      assert es[m..] == es[..last][m..] + [es[last]];
    }
  }

  lemma InTasks(es: seq<Entry>, x: Task)
    ensures x in TasksOf(es) <==> exists e :: e in es && e.task == x
  {
    if x in TasksOf(es) {
      var k :| 0 <= k < |es| && TasksOf(es)[k] == x;
      assert es[k] in es && es[k].task == x;
    }
    if e :| e in es && e.task == x {
      var k :| 0 <= k < |es| && es[k] == e;
      assert TasksOf(es)[k] == x;
    }
  }

  /** An unpromoted entry is still in the schedule. */
  lemma UnpromotedIsScheduled(s: State, e: Entry)
    requires SweepInv(s) && e in Unpromoted(s)
    ensures e in s.pool.scheduled
  {
    var es, vs := s.log.snapshot, s.log.verdicts;
    hide Kept, Chosen, TrueIndices;
    if s.sweep.Removing? {
      var m := NextOut(s.log, s.sweep.marked, s.sweep.counter);
      KeptAtCut(es, vs, m, e);
    } else if s.sweep.Scanning? || s.sweep.Deciding? || s.sweep.Pushing? {
      var i := s.sweep.i;
      if e in Kept(es[..i], vs) {
        KeptIsPart(es[..i], vs, e);
      }
    }
  }

  /** A scheduled entry is unpromoted, or this sweep has already pushed its task. */
  lemma ScheduledIsUnpromoted(s: State, e: Entry)
    requires SweepInv(s) && e in s.pool.scheduled
    ensures e in Unpromoted(s) || e.task in s.log.swept
  {
    var es, vs := s.log.snapshot, s.log.verdicts;
    hide Kept, Chosen, TrueIndices;
    if s.sweep.Removing? {
      var m := NextOut(s.log, s.sweep.marked, s.sweep.counter);
      KeptAtCut(es, vs, m, e);
      if e in es[m..] {
        assert e in es;
        KeptOrChosen(es, vs, e);
      }
    } else if s.sweep.Scanning? || s.sweep.Deciding? || s.sweep.Pushing? {
      var i := s.sweep.i;
      if e in es[..i] {
        KeptOrChosen(es[..i], vs, e);
      } else if e in es {
        assert es == es[..i] + es[i..];
      }
    }
  }

  /**
    The place "scheduled and not yet promoted", read from the pool: the task is in the schedule and has
    never been pushed to the ready queue.
   */
  lemma ScheduledMeansNotPushed(s: State, x: Task)
    requires Reachable(s) && !s.prioritypooling
    ensures SweepInv(s)
    ensures IsAt(s, x, Scheduled) <==> x in TasksOf(s.pool.scheduled) && x !in s.pushed
  {
    PromotionReachable(s);
    InvReachable(s);
    hide SweepInv, Unpromoted, TasksOf, Count, Reachable, Conserved, ThreadsInv, ModeInv;
    InTasks(Unpromoted(s), x);
    InTasks(s.pool.scheduled, x);
    if x in TasksOf(Unpromoted(s)) {
      var e :| e in Unpromoted(s) && e.task == x;
      UnpromotedIsScheduled(s, e);
      CountOfDistinct(s.submitted, x);
      assert Count(s.submitted, x) == Count(TasksOf(Unpromoted(s)), x) + Count(s.pushed, x);
      CountMember(TasksOf(Unpromoted(s)), x);
      CountMember(s.pushed, x);
    } else if x in TasksOf(s.pool.scheduled) {
      var e :| e in s.pool.scheduled && e.task == x;
      ScheduledIsUnpromoted(s, e);
    }
  }
}
