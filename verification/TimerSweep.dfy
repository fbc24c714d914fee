/** One timer sweep refines a filter of the list it started from, whatever happens in between. */
module TimerSweep {
  import opened Wrappers
  import opened Sequences
  import opened TaskPools
  import opened Scheduler
  import opened StepFrames

  /** The indices of the true verdicts, in order. */
  function TrueIndices(vs: seq<bool>): seq<nat> {
    if vs == [] then []
    else
      var last := |vs| - 1;
      TrueIndices(vs[..last]) + if vs[last] then [last] else []
  }

  /** The entries with a false verdict, in order. */
  function Kept(es: seq<Entry>, vs: seq<bool>): (r: seq<Entry>)
    requires |es| == |vs|
    ensures |r| <= |es|
  {
    if es == [] then []
    else
      var last := |es| - 1;
      Kept(es[..last], vs[..last]) + if vs[last] then [] else [es[last]]
  }

  /** The tasks of the entries with a true verdict, in order. */
  function Chosen(es: seq<Entry>, vs: seq<bool>): seq<Task>
    requires |es| == |vs|
  {
    if es == [] then []
    else
      var last := |es| - 1;
      Chosen(es[..last], vs[..last]) + if vs[last] then [es[last].task] else []
  }

  /** The list when the entries before `m` have been swept out. */
  function SweptUpTo(log: SweepLog, m: nat): seq<Entry>
    requires m <= |log.snapshot| == |log.verdicts|
  {
    Kept(log.snapshot[..m], log.verdicts[..m]) + log.snapshot[m..] + log.arrived
  }

  /** The next entry to be swept out, or the end of the snapshot. */
  function NextOut(log: SweepLog, marked: seq<nat>, counter: nat): nat {
    if counter < |marked| then marked[counter] else |log.snapshot|
  }

  predicate ScanInv(s: State, total: nat, i: nat) {
    && total == |s.log.snapshot| && i <= total && |s.log.verdicts| == i
    && s.pool.scheduled == s.log.snapshot + s.log.arrived
    && s.log.swept == Chosen(s.log.snapshot[..i], s.log.verdicts)
  }

  predicate SweepInv(s: State) {
    match s.sweep
    case Resting => true
    case Scanning(total, i, marked) => ScanInv(s, total, i) && marked == TrueIndices(s.log.verdicts)
    case Deciding(total, i, marked, e) =>
      ScanInv(s, total, i) && marked == TrueIndices(s.log.verdicts) && i < total && e == s.log.snapshot[i]
    case Pushing(total, i, marked, e) =>
      ScanInv(s, total, i) && marked == TrueIndices(s.log.verdicts) + [i] && i < total && e == s.log.snapshot[i]
    case Removing(marked, counter) =>
      && |s.log.verdicts| == |s.log.snapshot| && marked == TrueIndices(s.log.verdicts) && counter <= |marked|
      && s.log.swept == Chosen(s.log.snapshot, s.log.verdicts)
      && NextOut(s.log, marked, counter) <= |s.log.snapshot|
      && s.pool.scheduled == SweptUpTo(s.log, NextOut(s.log, marked, counter))
    case Crashed => false
  }

  lemma {:induction false} IndicesInOrder(vs: seq<bool>)
    ensures forall k :: 0 <= k < |TrueIndices(vs)| ==> TrueIndices(vs)[k] < |vs|
    ensures forall k :: 0 <= k < |TrueIndices(vs)| ==> vs[TrueIndices(vs)[k]]
    ensures forall j, k :: 0 <= j < k < |TrueIndices(vs)| ==> TrueIndices(vs)[j] < TrueIndices(vs)[k]
  {
    if vs != [] {
      var last := |vs| - 1;
      var front := TrueIndices(vs[..last]);
      IndicesInOrder(vs[..last]);
      forall k | 0 <= k < |front| ensures front[k] < last && vs[front[k]] {
        assert vs[..last][front[k]] == vs[front[k]];
      }
    }
  }

  lemma {:induction false} EveryTrueIndex(vs: seq<bool>, m: nat)
    requires m < |vs| && vs[m]
    ensures m in TrueIndices(vs)
  {
    if m < |vs| - 1 {
      EveryTrueIndex(vs[..|vs| - 1], m);
    }
  }

  lemma {:induction false} IndicesBefore(vs: seq<bool>, c: nat)
    requires c < |TrueIndices(vs)|
    ensures TrueIndices(vs)[c] < |vs| && vs[TrueIndices(vs)[c]]
    ensures TrueIndices(vs[..TrueIndices(vs)[c]]) == TrueIndices(vs)[..c]
  {
    IndicesInOrder(vs);
    IndicesInOrder(vs[..|vs| - 1]);
    var last := |vs| - 1;
    var r := TrueIndices(vs[..last]);
    if c < |r| {
      IndicesBefore(vs[..last], c);
      assert vs[..last][..r[c]] == vs[..r[c]];
    }
  }

  lemma {:induction false} KeptLength(es: seq<Entry>, vs: seq<bool>)
    requires |es| == |vs|
    ensures |Kept(es, vs)| == |es| - |TrueIndices(vs)|
  {
    if es != [] {
      var last := |es| - 1;
      KeptLength(es[..last], vs[..last]);
    }
  }

  lemma KeptStep(es: seq<Entry>, vs: seq<bool>, m: nat)
    requires m < |es| == |vs|
    ensures Kept(es[..m + 1], vs[..m + 1]) == Kept(es[..m], vs[..m]) + if vs[m] then [] else [es[m]]
  {
    assert es[..m + 1][..m] == es[..m] && vs[..m + 1][..m] == vs[..m];
  }

  lemma ChosenStep(es: seq<Entry>, vs: seq<bool>, v: bool)
    requires |vs| < |es|
    ensures Chosen(es[..|vs| + 1], vs + [v]) == Chosen(es[..|vs|], vs) + if v then [es[|vs|].task] else []
  {
    assert es[..|vs| + 1][..|vs|] == es[..|vs|] && (vs + [v])[..|vs|] == vs;
  }

  lemma IndicesStep(vs: seq<bool>, v: bool)
    ensures TrueIndices(vs + [v]) == TrueIndices(vs) + if v then [|vs|] else []
  {
    assert (vs + [v])[..|vs|] == vs;
  }

  lemma SkipOne(log: SweepLog, m: nat)
    requires m < |log.snapshot| == |log.verdicts| && !log.verdicts[m]
    ensures SweptUpTo(log, m) == SweptUpTo(log, m + 1)
  {
    KeptStep(log.snapshot, log.verdicts, m);
    hide Kept;
    var front, e, back := Kept(log.snapshot[..m], log.verdicts[..m]), log.snapshot[m], log.snapshot[m + 1..];
    assert log.snapshot[m..] == [e] + back;
    assert (front + [e]) + back == front + ([e] + back);
  }

  /** Moving past entries that stay does not change the list. */
  lemma {:induction false} SkipKept(log: SweepLog, m: nat, n: nat)
    requires m <= n <= |log.snapshot| == |log.verdicts|
    requires forall k :: m <= k < n ==> !log.verdicts[k]
    ensures SweptUpTo(log, m) == SweptUpTo(log, n)
    decreases n - m
  {
    hide SweptUpTo;
    if m < n {
      SkipOne(log, m);
      SkipKept(log, m + 1, n);
    }
  }

  lemma EraseMiddle<T>(a: seq<T>, x: T, b: seq<T>)
    ensures Erase(a + ([x] + b), |a|) == a + b
  {
  }

  lemma SweptAt(log: SweepLog, m: nat)
    requires m < |log.snapshot| == |log.verdicts|
    ensures SweptUpTo(log, m)
      == Kept(log.snapshot[..m], log.verdicts[..m]) + ([log.snapshot[m]] + (log.snapshot[m + 1..] + log.arrived))
  {
    assert log.snapshot[m..] == [log.snapshot[m]] + log.snapshot[m + 1..];
  }

  /** The list around the entry that is to go. */
  lemma EraseAtCut(log: SweepLog, m: nat)
    requires m < |log.snapshot| == |log.verdicts| && log.verdicts[m]
    ensures var front, list := Kept(log.snapshot[..m], log.verdicts[..m]), SweptUpTo(log, m);
      |front| < |list| && Erase(list, |front|) == SweptUpTo(log, m + 1)
  {
    var front := Kept(log.snapshot[..m], log.verdicts[..m]);
    KeptStep(log.snapshot, log.verdicts, m);
    hide Kept, Erase;
    SweptAt(log, m);
    EraseMiddle(front, log.snapshot[m], log.snapshot[m + 1..] + log.arrived);
    assert front + log.snapshot[m + 1..] + log.arrived == front + (log.snapshot[m + 1..] + log.arrived);
  }

  /** The index from the queue less the entries already erased is where the next one stands. */
  lemma EraseNext(log: SweepLog, marked: seq<nat>, counter: nat)
    requires |log.snapshot| == |log.verdicts| && marked == TrueIndices(log.verdicts) && counter < |marked|
    ensures marked[counter] < |log.snapshot|
    ensures var at, list := marked[counter] - counter, SweptUpTo(log, marked[counter]);
      0 <= at < |list| && Erase(list, at) == SweptUpTo(log, marked[counter] + 1)
  {
    hide TrueIndices, Kept, SweptUpTo, Erase;
    IndicesBefore(log.verdicts, counter);
    var m := marked[counter];
    KeptLength(log.snapshot[..m], log.verdicts[..m]);
    EraseAtCut(log, m);
  }

  /** Between two indices of the queue, and after the last, all entries stay. */
  lemma NothingBetween(log: SweepLog, marked: seq<nat>, counter: nat, from: nat)
    requires |log.snapshot| == |log.verdicts| && marked == TrueIndices(log.verdicts) && counter <= |marked|
    requires from == if counter == 0 then 0 else marked[counter - 1] + 1
    ensures from <= NextOut(log, marked, counter) <= |log.snapshot|
    ensures forall k :: from <= k < NextOut(log, marked, counter) ==> !log.verdicts[k]
  {
    IndicesInOrder(log.verdicts);
    forall k | from <= k < NextOut(log, marked, counter) ensures !log.verdicts[k] {
      if log.verdicts[k] {
        EveryTrueIndex(log.verdicts, k);
      }
    }
  }

  lemma SweepInvStep(s: State, a: Step, t: State)
    requires SweepInv(s) && Apply(s, a) == Some(t)
    ensures SweepInv(t)
  {
    hide Apply, Kept, Chosen, TrueIndices, SweptUpTo;
    StepOfThread(s, a);
    if a.Submit? {
      SweepInvSubmit(s, a.task, a.timer, t);
    } else if SweepStep(a) {
      SweepInvSweep(s, a, t);
    } else {
      CommonFrame(s, a, t);
    }
  }

  lemma SweepInvSweep(s: State, a: Step, t: State)
    requires SweepInv(s) && SweepStep(a) && ApplySweep(s, a) == Some(t)
    ensures SweepInv(t)
  {
    hide TrueIndices, Kept, Chosen, SweptUpTo;
    match a
    case SweepSnapshot => FreshLog(s.pool.scheduled);
    case SweepRead => SweepInvRead(s, t);
    case SweepDecide(over) => SweepInvDecide(s, over, t);
    case SweepPush => SweepInvPush(s, t);
    case SweepTurn => SweepInvTurn(s, t);
    case SweepErase => SweepInvErase(s, t);
    case SweepDone =>
  }

  lemma FreshLog(es: seq<Entry>)
    ensures TrueIndices([]) == [] && Chosen(es[..0], []) == [] && es + [] == es
  {
  }

  lemma SweepInvRead(s: State, t: State)
    requires SweepInv(s) && ApplySweep(s, SweepRead) == Some(t)
    ensures SweepInv(t)
  {
    hide TrueIndices, Kept, Chosen, SweptUpTo;
  }

  lemma SweepInvDecide(s: State, over: bool, t: State)
    requires SweepInv(s) && ApplySweep(s, SweepDecide(over)) == Some(t)
    ensures SweepInv(t)
  {
    hide TrueIndices, Kept, Chosen, SweptUpTo;
    IndicesStep(s.log.verdicts, false);
    ChosenStep(s.log.snapshot, s.log.verdicts, false);
  }

  lemma SweepInvPush(s: State, t: State)
    requires SweepInv(s) && ApplySweep(s, SweepPush) == Some(t)
    ensures SweepInv(t)
  {
    hide TrueIndices, Kept, Chosen, SweptUpTo;
    IndicesStep(s.log.verdicts, true);
    ChosenStep(s.log.snapshot, s.log.verdicts, true);
  }

  lemma AppendArrived(log: SweepLog, m: nat, e: Entry)
    requires m <= |log.snapshot| == |log.verdicts|
    ensures SweptUpTo(log, m) + [e] == SweptUpTo(log.(arrived := log.arrived + [e]), m)
  {
    hide Kept;
  }

  lemma SweepInvSubmit(s: State, x: Task, timer: Timer, t: State)
    requires SweepInv(s) && ApplySubmit(s, x, timer) == Some(t)
    ensures SweepInv(t)
  {
    hide TrueIndices, Kept, Chosen, SweptUpTo;
    var e := Entry(x, timer);
    if s.sweep.Removing? {
      AppendArrived(s.log, NextOut(s.log, s.sweep.marked, s.sweep.counter), e);
    } else {
      assert s.log.snapshot + s.log.arrived + [e] == s.log.snapshot + (s.log.arrived + [e]);
    }
  }

  lemma SweepInvTurn(s: State, t: State)
    requires SweepInv(s) && ApplySweep(s, SweepTurn) == Some(t)
    ensures SweepInv(t)
  {
    var marked := s.sweep.marked;
    assert s.log.snapshot[..|s.log.snapshot|] == s.log.snapshot;
    assert SweptUpTo(s.log, 0) == s.log.snapshot + s.log.arrived;
    hide TrueIndices, Kept, Chosen, SweptUpTo;
    NothingBetween(s.log, marked, 0, 0);
    SkipKept(s.log, 0, NextOut(s.log, marked, 0));
  }

  lemma SweepInvErase(s: State, t: State)
    requires SweepInv(s) && ApplySweep(s, SweepErase) == Some(t)
    ensures SweepInv(t)
  {
    hide TrueIndices, Kept, Chosen, SweptUpTo, Erase;
    var marked, counter := s.sweep.marked, s.sweep.counter;
    EraseNext(s.log, marked, counter);
    NothingBetween(s.log, marked, counter + 1, marked[counter] + 1);
    SkipKept(s.log, marked[counter] + 1, NextOut(s.log, marked, counter + 1));
  }
}
