/** Runs of load balancing or fail-over calls interleaved with admin commands. */
module SelectionRuns {
  import opened Wrappers
  import opened ConnectionPools
  import opened RoundRobin

  /** The parts of the pool that these calls and commands change. */
  datatype Pool = Pool(table: Routes, fonum: int)

  datatype Event =
    | Admin(command: Command)
    | Call(up: Oracle, outcome: Outcome, tried: seq<nat>)

  predicate Balances(mode: Mode) {
    mode == LB || mode == FO
  }

  /** Where a call starts. */
  function Start(mode: Mode, p: Pool): int {
    StartIn(mode, p.fonum, p.table.siz)
  }

  /** The call has an endpoint to begin with; otherwise `at` throws. */
  predicate InRange(mode: Mode, p: Pool) {
    0 <= Start(mode, p) < p.table.siz
  }

  /** One event, as the contracts of validate and getConnection state it. */
  ghost predicate Happens(mode: Mode, retries: int, p: Pool, e: Event, q: Pool) {
    Aligned(p.table) ==>
      match e
      case Admin(c) => Defined(c) && Effect(p.table, c, q.table) && q.fonum == p.fonum
      case Call(up, r, tried) =>
        && q.table == p.table
        && if InRange(mode, p) then Searched(p.table, mode, retries, Start(mode, p), up, r, tried, q.fonum)
           else r == Failed(OUT_OF_RANGE) && q.fonum == Start(mode, p)
  }

  ghost predicate IsRun(mode: Mode, retries: int, ps: seq<Pool>, es: seq<Event>) {
    && Balances(mode) && |ps| == |es| + 1 && Aligned(ps[0].table)
    && forall k :: 0 <= k < |es| ==> Happens(mode, retries, ps[k], es[k], ps[k + 1])
  }

  lemma {:induction false} RunIsAligned(mode: Mode, retries: int, ps: seq<Pool>, es: seq<Event>, k: nat)
    requires IsRun(mode, retries, ps, es) && k <= |es|
    ensures Aligned(ps[k].table)
  {
    if k > 0 {
      RunIsAligned(mode, retries, ps, es, k - 1);
      assert Happens(mode, retries, ps[k - 1], es[k - 1], ps[k]);
    }
  }

  /** A class method that behaves as these events say. */
  method Select(pool: ConnectionPool, up: Oracle) returns (e: Event, ghost p: Pool, ghost q: Pool)
    requires pool.Valid() && Balances(pool.mode)
    requires 0 <= pool.Start() < pool.siz ==> Ends(up, pool.Start(), pool.siz, pool.numretries)
    modifies pool
    ensures p == old(Pool(pool.Table(), pool.fonum)) && q == Pool(pool.Table(), pool.fonum)
    ensures e.Call? && Happens(pool.mode, pool.numretries, p, e, q)
  {
    p := Pool(pool.Table(), pool.fonum);
    var r, tried := pool.GetConnection(up);
    e := Call(up, r, tried);
    q := Pool(pool.Table(), pool.fonum);
  }

  /** A call that is in range leaves the counter at an endpoint or, in load balancing, just behind the last one. */
  lemma CallLeavesCounter(mode: Mode, retries: int, p: Pool, e: Event, q: Pool)
    requires Balances(mode) && Aligned(p.table) && e.Call? && InRange(mode, p) && Happens(mode, retries, p, e, q)
    ensures 0 <= q.fonum <= p.table.siz && (mode == FO ==> q.fonum < p.table.siz)
  {
    hide AllDown, Attempts, Limit, HostOf;
  }

  /** A call out of range changes nothing but its counter's value at an empty table, and commands do not change it. */
  lemma CounterStays(mode: Mode, retries: int, p: Pool, e: Event, q: Pool)
    requires Balances(mode) && Aligned(p.table) && Happens(mode, retries, p, e, q) && !(e.Call? && InRange(mode, p))
    ensures q.fonum == p.fonum
  {
    hide Searched, Endpoints;
  }

  /** A delete that validate carries out. */
  predicate Deletes(e: Event, p: Pool) {
    e.Admin? && e.command.Delete? && Answer(p.table, e.command) == Ok(DONE)
  }

  lemma SizeGrows(t: Routes, c: Command, u: Routes)
    requires Aligned(t) && Defined(c) && Effect(t, c, u) && !(c.Delete? && Answer(t, c) == Ok(DONE))
    ensures u.siz >= t.siz
  {
    assert |Endpoints(u)| == u.siz && |Endpoints(t)| == t.siz;
  }

  /** The counter of a pool that has lost no endpoint. */
  predicate Sound(mode: Mode, p: Pool) {
    0 <= p.fonum <= p.table.siz && (mode == FO ==> p.fonum == 0 || p.fonum < p.table.siz)
  }

  /** Without deletes every call of a pool that starts at counter 0 is in range as soon as there is an endpoint. */
  lemma {:induction false} NoDeleteNoThrow(mode: Mode, retries: int, ps: seq<Pool>, es: seq<Event>, k: nat)
    requires IsRun(mode, retries, ps, es) && k <= |es| && ps[0].fonum == 0
    requires forall j :: 0 <= j < k ==> !Deletes(es[j], ps[j])
    ensures Sound(mode, ps[k])
    ensures ps[k].table.siz >= 1 ==> InRange(mode, ps[k])
  {
    RunIsAligned(mode, retries, ps, es, k);
    if k > 0 {
      NoDeleteNoThrow(mode, retries, ps, es, k - 1);
      RunIsAligned(mode, retries, ps, es, k - 1);
      SoundStep(mode, retries, ps[k - 1], es[k - 1], ps[k]);
    }
  }

  lemma SoundStep(mode: Mode, retries: int, p: Pool, e: Event, q: Pool)
    requires Balances(mode) && Aligned(p.table) && Happens(mode, retries, p, e, q) && Sound(mode, p) && !Deletes(e, p)
    ensures Sound(mode, q)
  {
    hide Searched, Effect, Answer;
    if e.Call? && InRange(mode, p) {
      CallLeavesCounter(mode, retries, p, e, q);
    } else {
      CounterStays(mode, retries, p, e, q);
      if e.Admin? {
        SizeGrows(p.table, e.command, q.table);
      }
    }
  }

  /** Between calls that were in range only the table changes. */
  lemma {:induction false} CounterWaits(mode: Mode, retries: int, ps: seq<Pool>, es: seq<Event>, b: nat, k: nat)
    requires IsRun(mode, retries, ps, es) && b <= k <= |es|
    requires forall j :: b <= j < k ==> !(es[j].Call? && InRange(mode, ps[j]))
    ensures ps[k].fonum == ps[b].fonum
    decreases k - b
  {
    hide Happens;
    if k > b {
      CounterWaits(mode, retries, ps, es, b, k - 1);
      RunIsAligned(mode, retries, ps, es, k - 1);
      CounterStays(mode, retries, ps[k - 1], es[k - 1], ps[k]);
    }
  }

  /**
    After the last call that was in range a call throws as long as deletes keep the table below the counter
    that call left. It is in range again at the latest when the table is as large as it was at that call.
   */
  lemma CallAfterHistory(mode: Mode, retries: int, ps: seq<Pool>, es: seq<Event>, b: nat, k: nat)
    requires IsRun(mode, retries, ps, es) && b < k <= |es|
    requires es[b].Call? && InRange(mode, ps[b])
    requires forall j :: b < j < k ==> !(es[j].Call? && InRange(mode, ps[j]))
    ensures var left, siz := ps[b + 1].fonum, ps[k].table.siz;
      && 0 <= left <= ps[b].table.siz && (mode == FO ==> left < ps[b].table.siz)
      && (InRange(mode, ps[k]) <==> left < siz || (mode == LB && 0 < siz == left))
    ensures ps[k].table.siz >= ps[b].table.siz ==> InRange(mode, ps[k])
  {
    RunIsAligned(mode, retries, ps, es, b);
    RunIsAligned(mode, retries, ps, es, k);
    assert Happens(mode, retries, ps[b], es[b], ps[b + 1]);
    hide Happens;
    CallLeavesCounter(mode, retries, ps[b], es[b], ps[b + 1]);
    CounterWaits(mode, retries, ps, es, b + 1, k);
  }

  /** One delete is enough to stop the pool: it does so exactly when the counter stood at the end of the table. */
  lemma DeleteStops(mode: Mode, retries: int, p: Pool, j: nat, q: Pool)
    requires Balances(mode) && Aligned(p.table) && InRange(mode, p) && j < p.table.siz
    requires Happens(mode, retries, p, Admin(Delete(j)), q)
    ensures !InRange(mode, q) <==>
            p.fonum == p.table.siz || p.table.siz == 1 || (mode == FO && p.fonum == p.table.siz - 1)
  {
    hide Searched;
    assert |Endpoints(q.table)| == q.table.siz == p.table.siz - 1;
  }
}
