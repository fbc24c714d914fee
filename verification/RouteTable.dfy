/** Runs of the online route table: admin commands interleaved with picks of the route in use. */
module RouteTables {
  import opened Wrappers
  import opened Sequences
  import opened ConnectionPools

  datatype Event = Admin(command: Command) | Pick

  /** One event on an aligned table; nothing is said about a table that is not aligned. */
  ghost predicate Happens(t: Routes, e: Event, u: Routes) {
    Aligned(t) ==>
      match e
      case Admin(c) => Defined(c) && Effect(t, c, u)
      case Pick => u == t.(onlineroute := Picked(t))
  }

  /** ts[k] is the table before event k; only the first is known to be aligned. */
  ghost predicate IsRun(ts: seq<Routes>, es: seq<Event>) {
    && |ts| == |es| + 1 && Aligned(ts[0])
    && forall k :: 0 <= k < |es| ==> Happens(ts[k], es[k], ts[k + 1])
  }

  /** Event k changes the route in use by a command. */
  predicate Changes(ts: seq<Routes>, es: seq<Event>, k: nat)
    requires |ts| == |es| + 1 && k < |es|
  {
    es[k].Admin? && es[k].command.Change? && Answer(ts[k], es[k].command) == Ok(DONE)
  }

  /** Event k is a pick that no longer finds `route`. */
  predicate Misses(ts: seq<Routes>, es: seq<Event>, k: nat, route: int)
    requires |ts| == |es| + 1 && k < |es|
  {
    es[k] == Pick && ts[k].siz <= route
  }

  /** The commands that leave every part of the table as it was: the refused ones, and those that set what is there. */
  lemma ChangesNothingIff(t: Routes, c: Command, u: Routes)
    requires Aligned(t) && Defined(c) && Effect(t, c, u)
    ensures u == t <==>
            || Answer(t, c) != Ok(DONE) || c.Unknown? || c.Refused?
            || (c.Change? && c.route == t.onlineroute)
            || (c.Update? && Endpoints(t)[c.index] == c.endpoint)
  {
    hide Answer, Endpoints;
    SameTable(t, u);
    if Answer(t, c) == Ok(DONE) && c.Update? {
      IndexIsValid(t, c);
      assert Endpoints(t)[c.index := c.endpoint][c.index] == c.endpoint;
    }
    if c.Short? {
      ShortThrows(t);
    }
    if Answer(t, c) == Ok(DONE) && c.Delete? {
      IndexIsValid(t, c);
    }
  }

  lemma ShortThrows(t: Routes)
    ensures Answer(t, Short) != Ok(DONE)
  {
  }

  lemma IndexIsValid(t: Routes, c: Command)
    requires Defined(c) && (c.Update? || c.Delete?) && Answer(t, c) == Ok(DONE)
    ensures 0 <= c.index < t.siz
  {
  }

  lemma SameTable(t: Routes, u: Routes)
    requires Aligned(t) && Aligned(u)
    ensures t == u <==> t.onlineroute == u.onlineroute && Endpoints(t) == Endpoints(u)
  {
  }

  /** The contract of validate leaves exactly one new table. */
  lemma EffectIsExact(t: Routes, c: Command, u: Routes, v: Routes)
    requires Aligned(t) && Defined(c) && Effect(t, c, u) && Effect(t, c, v)
    ensures u == v
  {
  }

  /** Over every run the vectors stay parallel and as long as siz. */
  lemma {:induction false} RunStaysAligned(ts: seq<Routes>, es: seq<Event>, k: nat)
    requires IsRun(ts, es) && k <= |es|
    ensures Aligned(ts[k])
  {
    if k > 0 {
      RunStaysAligned(ts, es, k - 1);
      assert Happens(ts[k - 1], es[k - 1], ts[k]);
    }
  }

  /**
    Between two accepted route changes the route in use is the one last set, until a pick misses it;
    from then on it is 0, even when the table grows again.
   */
  lemma {:induction false} RouteHistory(ts: seq<Routes>, es: seq<Event>, b: nat, k: nat)
    requires IsRun(ts, es) && b <= k <= |es|
    requires forall j :: b <= j < k ==> !Changes(ts, es, j)
    ensures ts[k].onlineroute ==
            if exists j :: b <= j < k && Misses(ts, es, j, ts[b].onlineroute) then 0 else ts[b].onlineroute
    decreases k - b
  {
    hide Endpoints, Answer;
    if k > b {
      RunStaysAligned(ts, es, k - 1);
      RouteHistory(ts, es, b, k - 1);
      var route, j := ts[b].onlineroute, k - 1;
      assert Happens(ts[j], es[j], ts[k]);
      assert !Changes(ts, es, j);
      if Misses(ts, es, j, route) {
      } else if i :| b <= i < j && Misses(ts, es, i, route) {
      }
    }
  }

  /**
    Whatever commands came before, a pick from a non-empty table is in range exactly when the route
    last set is not negative; it is that route unless some pick since, or this one, found it gone.
   */
  lemma PickAfterHistory(ts: seq<Routes>, es: seq<Event>, b: nat, k: nat)
    requires IsRun(ts, es) && b <= k < |es| && es[k] == Pick && ts[k].siz >= 1
    requires forall j :: b <= j < k ==> !Changes(ts, es, j)
    ensures var route := ts[b].onlineroute;
      && (0 <= Picked(ts[k]) < ts[k].siz <==> route >= 0)
      && Picked(ts[k]) == if exists j :: b <= j <= k && Misses(ts, es, j, route) then 0 else route
  {
    RouteHistory(ts, es, b, k);
    RunStaysAligned(ts, es, k);
    var route := ts[b].onlineroute;
    assert Misses(ts, es, k, route) <==> ts[k].siz <= route;
    if j :| b <= j < k && Misses(ts, es, j, route) {
      RunStaysAligned(ts, es, j);
    }
  }

  /** With no negative route ever set, every pick from a non-empty table is in range. */
  lemma {:induction false} RouteNeverNegative(ts: seq<Routes>, es: seq<Event>, k: nat)
    requires IsRun(ts, es) && k <= |es| && ts[0].onlineroute >= 0
    requires forall j :: 0 <= j < |es| && es[j].Admin? && es[j].command.Change? ==> es[j].command.route >= 0
    ensures ts[k].onlineroute >= 0
    ensures k < |es| && es[k] == Pick && ts[k].siz >= 1 ==> 0 <= ts[k + 1].onlineroute < ts[k].siz
  {
    hide Endpoints, Answer;
    RunStaysAligned(ts, es, k);
    if k > 0 {
      RunStaysAligned(ts, es, k - 1);
      RouteNeverNegative(ts, es, k - 1);
      assert Happens(ts[k - 1], es[k - 1], ts[k]);
    }
    if k < |es| {
      assert Happens(ts[k], es[k], ts[k + 1]);
    }
  }

  /**
    What a delete does to the next pick: behind the route in use it keeps the endpoint; otherwise the
    endpoint after it is used from then on, or the first one left when there is none after it.
   */
  lemma DeleteMovesRoute(t: Routes, j: nat, u: Routes)
    requires Aligned(t) && 0 <= t.onlineroute < t.siz && j < t.siz && t.siz >= 2 && Effect(t, Delete(j), u)
    ensures var es, o := Endpoints(t), t.onlineroute;
      && 0 <= Picked(u) < u.siz
      && Endpoints(u)[Picked(u)] ==
         if j > o then es[o] else if o + 1 < t.siz then es[o + 1] else es[if j == 0 then 1 else 0]
  {
    hide Endpoints, Effect, Answer, Erase;
    DeleteErases(t, j, u);
    ErasedAt(Endpoints(t), j, Picked(u));
  }

  lemma DeleteErases(t: Routes, j: nat, u: Routes)
    requires Aligned(t) && j < t.siz && Effect(t, Delete(j), u)
    ensures Aligned(u) && u.siz == t.siz - 1 && u.onlineroute == t.onlineroute && Endpoints(u) == Erase(Endpoints(t), j)
  {
    hide Endpoints, Erase;
    assert Answer(t, Delete(j)) == Ok(DONE);
  }

  lemma ErasedAt(es: seq<Endpoint>, j: nat, i: nat)
    requires j < |es| && i < |es| - 1
    ensures Erase(es, j)[i] == if i < j then es[i] else es[i + 1]
  {
  }
}
