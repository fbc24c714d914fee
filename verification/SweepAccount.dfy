/** One timer sweep read off a run: from the answers of the timers and the changes of the pool alone. */
module SweepAccounts {
  import opened Wrappers
  import opened TaskPools
  import opened Scheduler
  import opened StepFrames
  import opened TimerSweep
  import opened SchedulerSafety

  /** What has happened since the last snapshot. */
  datatype Account = Account(snapshot: seq<Entry>, decisions: seq<bool>, arrivals: seq<Entry>, pushes: seq<Task>)

  /** What `after` has behind the elements of `before`. */
  function Added<T>(before: seq<T>, after: seq<T>): seq<T> {
    if |before| <= |after| then after[|before|..] else []
  }

  /** One step from s to t: its own argument, and what it adds to the schedule or the ready queue. */
  function Noted(acc: Account, s: State, a: Step, t: State): Account {
    match a
    case SweepSnapshot => Account(s.pool.scheduled, [], [], [])
    case SweepDecide(over) => acc.(decisions := acc.decisions + [over])
    case SweepPush => acc.(pushes := acc.pushes + Added(s.pool.tasks, t.pool.tasks))
    case Submit(_, _) => acc.(arrivals := acc.arrivals + Added(s.pool.scheduled, t.pool.scheduled))
    case _ => acc
  }

  function AccountOf(acc: Account, s: State, run: seq<Step>): Account
    requires Exec(s, run).Some?
    decreases |run|
  {
    if run == [] then acc
    else
      var next := Apply(s, run[0]).value;
      AccountOf(Noted(acc, s, run[0], next), next, run[1..])
  }

  const NOTHING := Account([], [], [], [])

  /** The log of the state agrees with the account; a decision to push is logged when the push is done. */
  predicate Agrees(acc: Account, s: State) {
    && acc.snapshot == s.log.snapshot && acc.arrivals == s.log.arrived && acc.pushes == s.log.swept
    && acc.decisions == s.log.verdicts + if s.sweep.Pushing? then [true] else []
  }

  lemma AddedBehind<T>(s: seq<T>, t: seq<T>)
    ensures Added(s, s + t) == t && Added(s, s) == []
  {
  }

  lemma AgreesSweep(acc: Account, s: State, a: Step, t: State)
    requires Agrees(acc, s) && SweepStep(a) && ApplySweep(s, a) == Some(t)
    ensures Agrees(Noted(acc, s, a, t), t)
  {
    if a.SweepPush? {
      AddedBehind(s.pool.tasks, [s.sweep.entry.task]);
    }
  }

  lemma AgreesStep(acc: Account, s: State, a: Step, t: State)
    requires Agrees(acc, s) && Apply(s, a) == Some(t)
    ensures Agrees(Noted(acc, s, a, t), t)
  {
    StepOfThread(s, a);
    hide Apply;
    if SweepStep(a) {
      AgreesSweep(acc, s, a, t);
    } else if a.Submit? {
      hide ApplySubmit, Added;
      SubmitFrame(s, a.task, a.timer, t);
      AddedBehind(s.pool.scheduled, [Entry(a.task, a.timer)]);
    } else {
      CommonFrame(s, a, t);
    }
  }

  lemma {:induction false} AgreesRun(acc: Account, s: State, run: seq<Step>, t: State)
    requires Agrees(acc, s) && Exec(s, run) == Some(t)
    ensures Agrees(AccountOf(acc, s, run), t)
    decreases |run|
  {
    hide Agrees, Apply, Noted;
    if run != [] {
      var next := Apply(s, run[0]).value;
      AgreesStep(acc, s, run[0], next);
      AgreesRun(Noted(acc, s, run[0], next), next, run[1..], t);
    }
  }

  /**
    The sweep is a filter by the answers of the timers. In any run, when the sweep has removed what it had
    to: it has looked at every entry of its snapshot; it has pushed the tasks of exactly those whose wait
    was over, once each and in order; and the schedule holds the others, still paired with their timers,
    followed by what clients have added since. No index was ever out of range.
   */
  lemma SweepRefinesFilter(prio: bool, n: nat, run: seq<Step>, s: State)
    requires Exec(Init(prio, n), run) == Some(s)
    ensures !s.sweep.Crashed?
    ensures s.sweep.Removing? && s.sweep.counter == |s.sweep.marked| ==>
      var acc := AccountOf(NOTHING, Init(prio, n), run);
      && |acc.decisions| == |acc.snapshot|
      && acc.pushes == Chosen(acc.snapshot, acc.decisions)
      && s.pool.scheduled == Kept(acc.snapshot, acc.decisions) + acc.arrivals
  {
    hide Exec, Reachable, Chosen, Kept, AccountOf, Apply;
    assert Agrees(NOTHING, Init(prio, n));
    AgreesRun(NOTHING, Init(prio, n), run, s);
    assert Reachable(s) by {
      IsReachable(prio, n, run, s);
    }
    SweepFiltersLog(s);
    assert s.log.verdicts + [] == s.log.verdicts;
  }

  lemma IsReachable(prio: bool, n: nat, run: seq<Step>, s: State)
    requires Exec(Init(prio, n), run) == Some(s)
    ensures Reachable(s)
  {
  }

  /** An entry is chosen or kept by its own answer. */
  lemma {:induction false} FilterByAnswer(es: seq<Entry>, vs: seq<bool>, k: nat)
    requires k < |es| == |vs|
    ensures if vs[k] then es[k].task in Chosen(es, vs) else es[k] in Kept(es, vs)
  {
    var last := |es| - 1;
    if k < last {
      FilterByAnswer(es[..last], vs[..last], k);
    }
  }
}
