/** How often the load balancer uses each endpoint, over one call and over whole runs. */
module RoundRobin {
  import opened ConnectionPools

  // ----------------------------------------------------------------- the circle

  /** Place `m` of the line that winds round a circle of `n` endpoints. */
  function At(n: nat, m: nat): (i: nat)
    requires n > 0
    ensures i < n
  {
    Around(0, n, m)
  }

  lemma {:induction false} AroundIsMod(f: nat, n: nat, k: nat)
    requires f < n
    ensures Around(f, n, k) == (f + k) % n
  {
    if k > 0 {
      AroundIsMod(f, n, k - 1);
      ModNext(f + k - 1, n);
    }
  }

  lemma ModNext(a: nat, n: nat)
    requires n > 0
    ensures (a + 1) % n == Next(a % n, n)
  {
    var q, r := a / n, a % n;
    assert a == q * n + r;
    if r + 1 == n {
      ModUnique(a + 1, n, q + 1, 0);
    } else {
      ModUnique(a + 1, n, q, r + 1);
    }
  }

  lemma ModUnique(a: nat, n: nat, q: nat, r: nat)
    requires n > 0 && r < n && a == q * n + r
    ensures a % n == r && a / n == q
  {
    var q', r' := a / n, a % n;
    SameQuotient(q, r, q', r', n);
  }

  lemma SameQuotient(q: int, r: nat, q': int, r': nat, n: nat)
    requires r < n && r' < n && q * n + r == q' * n + r'
    ensures q == q' && r == r'
  {
    Multiples(q, q', n);
    Multiples(q', q, n);
  }

  lemma Multiples(q: int, q': int, n: nat)
    ensures q < q' ==> q' * n - q * n >= n
  {
    if q < q' {
      Distribute(q, q' - q, n);
      AtLeast(q' - q, n);
    }
  }

  lemma Distribute(a: int, b: int, n: int)
    ensures (a + b) * n == a * n + b * n
  {
  }

  lemma AtLeast(d: int, n: nat)
    requires d >= 1
    ensures d * n >= n
  {
  }

  lemma {:induction false} AroundFrom(n: nat, p: nat, k: nat)
    requires n > 0
    ensures Around(At(n, p), n, k) == At(n, p + k)
  {
    if k > 0 {
      AroundFrom(n, p, k - 1);
    }
  }

  // ----------------------------------------------------------------- attempts of one call

  function Count(xs: seq<nat>, i: nat): nat {
    if xs == [] then 0 else Count(xs[..|xs| - 1], i) + if xs[|xs| - 1] == i then 1 else 0
  }

  lemma CountSnoc(xs: seq<nat>, x: nat, i: nat)
    ensures Count(xs + [x], i) == Count(xs, i) + if x == i then 1 else 0
  {
    assert (xs + [x])[..|xs|] == xs;
  }

  lemma {:induction false} CountConcat(xs: seq<nat>, ys: seq<nat>, i: nat)
    ensures Count(xs + ys, i) == Count(xs, i) + Count(ys, i)
  {
    if ys == [] {
      assert xs + ys == xs;
    } else {
      var zs, y := ys[..|ys| - 1], ys[|ys| - 1];
      CountConcat(xs, zs, i);
      CountSnoc(xs + zs, y, i);
      assert xs + ys == (xs + zs) + [y];
    }
  }

  /** How often `k` steps from `f` complete the circle. */
  function Laps(f: nat, n: nat, k: nat): (q: nat)
    requires f < n
    ensures f + k == q * n + Around(f, n, k)
  {
    if k == 0 then 0
    else
      var q := Laps(f, n, k - 1);
      OneMore(q, n);
      if Around(f, n, k - 1) + 1 == n then q + 1 else q
  }

  lemma {:induction false} CountAttempts(f: nat, n: nat, k: nat, i: nat)
    requires f < n && i < n
    ensures Count(Attempts(f, n, k), i) ==
            Laps(f, n, k) + (if i < Around(f, n, k) then 1 else 0) - (if i < f then 1 else 0)
  {
    if k > 0 {
      CountAttempts(f, n, k - 1, i);
      CountSnoc(Attempts(f, n, k - 1), Around(f, n, k - 1), i);
    }
  }

  /** A call that gives up has tried every endpoint numretries times, those before its start once less. */
  lemma AttemptsWhenGivingUp(f: nat, n: nat, retries: int, i: nat)
    requires f < n && i < n && retries >= 1
    ensures Limit(f, n, retries) >= 1
    ensures Count(Attempts(f, n, Limit(f, n, retries)), i) == if i >= f then retries else retries - 1
  {
    StartsInLimit(f, n, retries);
    var k := Limit(f, n, retries);
    CountAttempts(f, n, k, i);
    AtLimit(f, n, retries);
    SameQuotient(Laps(f, n, k), Around(f, n, k), retries, 0, n);
  }

  /** Whether an endpoint can be reached does not change between attempts. */
  function Fixed(reach: seq<bool>): Oracle {
    (k: nat, i: nat) => i < |reach| && reach[i]
  }

  /** The attempt, counted from 0, at which a call that starts at `f` comes to endpoint `i`. */
  function Distance(f: nat, n: nat, i: nat): nat
    requires f < n && i < n
  {
    if i >= f then i - f else n - f + i
  }

  lemma AtDistance(f: nat, n: nat, i: nat)
    requires f < n && i < n
    ensures Around(f, n, Distance(f, n, i)) == i
  {
    var k := Distance(f, n, i);
    SameQuotient(Laps(f, n, k), Around(f, n, k), if i >= f then 0 else 1, i, n);
  }

  lemma DistanceInLimit(f: nat, n: nat, retries: int, i: nat)
    requires f < n && i < n && (retries >= 2 || (retries == 1 && f <= i))
    ensures Distance(f, n, i) < Limit(f, n, retries)
  {
    if i < f {
      assert n * retries >= n * 2;
    } else {
      assert n * retries >= n * 1;
    }
  }

  lemma {:induction false} FirstRound(f: nat, n: nat, k: nat)
    requires f + k < n
    ensures Around(f, n, k) == f + k
  {
    if k > 0 {
      FirstRound(f, n, k - 1);
    }
  }

  lemma SameAround(f: nat, n: nat, j: nat, k: nat)
    requires f < n && Around(f, n, j) == Around(f, n, k) && j <= k < j + n
    ensures j == k
  {
    var q, q' := Laps(f, n, j), Laps(f, n, k);
    Multiples(q, q', n);
    Multiples(q', q, n);
  }

  /**
    With fixed reachability a call gives up exactly when no endpoint is reachable; with a single round,
    when none from its start on is.
   */
  lemma GivesUpIff(t: Routes, mode: Mode, retries: int, f: nat, reach: seq<bool>,
      r: Outcome, tried: seq<nat>, fonum: int)
    requires Aligned(t) && f < t.siz == |reach| && retries >= 1
    requires Searched(t, mode, retries, f, Fixed(reach), r, tried, fonum)
    ensures r.Quit? <==> forall i :: (if retries == 1 then f else 0) <= i < t.siz ==> !reach[i]
  {
    hide Around, Attempts, Limit, HostOf, ConnectionTo, Distance;
    var n, up, k := t.siz, Fixed(reach), |tried| - 1;
    var last := Around(f, n, k);
    if r.Quit? {
      forall i | (if retries == 1 then f else 0) <= i < n ensures !reach[i] {
        var d := Distance(f, n, i);
        AtDistance(f, n, i);
        DistanceInLimit(f, n, retries, i);
        assert !up(d, Around(f, n, d));
      }
    } else {
      assert up(k, last) && reach[last];
      if retries == 1 {
        AtLimit(f, n, 1);
        FirstRound(f, n, k);
      }
    }
  }

  lemma NotBefore(up: Oracle, f: nat, n: nat, k: nat, j: nat)
    requires f < n && AllDown(up, f, n, k) && up(j, Around(f, n, j))
    ensures k <= j
  {
  }

  /** The endpoint a call settles on is the first reachable one from its start, going round. */
  lemma FirstReachable(t: Routes, mode: Mode, retries: int, f: nat, reach: seq<bool>,
      r: Outcome, tried: seq<nat>, fonum: int, i: nat)
    requires Aligned(t) && f < t.siz == |reach| && i < t.siz
    requires Searched(t, mode, retries, f, Fixed(reach), r, tried, fonum) && r.Got?
    ensures r.connection.index < t.siz && reach[r.connection.index]
    ensures |tried| == Distance(f, t.siz, r.connection.index) + 1
    ensures reach[i] ==> Distance(f, t.siz, r.connection.index) <= Distance(f, t.siz, i)
  {
    hide Around, Attempts, Limit, HostOf;
    var n, up, k, c := t.siz, Fixed(reach), |tried| - 1, r.connection.index;
    assert up(k, Around(f, n, k)) && c == Around(f, n, k);
    AtDistance(f, n, c);
    AtDistance(f, n, i);
    var d, e := Distance(f, n, c), Distance(f, n, i);
    NotBefore(up, f, n, k, d);
    if reach[i] {
      NotBefore(up, f, n, k, e);
    }
    SameAround(f, n, k, d);
  }

  // ----------------------------------------------------------------- runs of calls

  /** Where a load balancing call starts when the counter stands at `fonum`. */
  function StartOf(fonum: int, n: int): int {
    if fonum == n then 0 else fonum
  }

  /** Where a call starts in either mode. */
  function StartIn(mode: Mode, fonum: int, n: int): int {
    if mode == LB then StartOf(fonum, n) else fonum
  }

  /** Calls on a fixed table with fixed reachability; fs[k] is the counter before call k. */
  datatype Run = Run(
    table: Routes, mode: Mode, retries: int, reach: seq<bool>, fs: seq<int>, rs: seq<Outcome>, tries: seq<seq<nat>>)

  /** The contract of getConnection for call k. */
  ghost predicate CallAt(w: Run, k: nat)
    requires Aligned(w.table) && |w.fs| == |w.rs| + 1 == |w.tries| + 1 && k < |w.rs|
  {
    var f := StartIn(w.mode, w.fs[k], w.table.siz);
    0 <= f < w.table.siz ==>
      Searched(w.table, w.mode, w.retries, f, Fixed(w.reach), w.rs[k], w.tries[k], w.fs[k + 1])
  }

  /** A run whose first call has an endpoint to begin with. */
  ghost predicate IsRun(w: Run) {
    && Aligned(w.table) && |w.reach| == w.table.siz && (w.mode == LB || w.mode == FO)
    && |w.fs| == |w.rs| + 1 == |w.tries| + 1
    && 0 <= StartIn(w.mode, w.fs[0], w.table.siz) < w.table.siz
    && forall k :: 0 <= k < |w.rs| ==> CallAt(w, k)
  }

  /** Then every call has one. */
  lemma {:induction false} StartsInRange(w: Run, k: nat)
    requires IsRun(w) && k <= |w.rs|
    ensures 0 <= StartIn(w.mode, w.fs[k], w.table.siz) < w.table.siz
  {
    hide AllDown, Attempts, Limit, HostOf, Fixed;
    if k > 0 {
      StartsInRange(w, k - 1);
      assert CallAt(w, k - 1);
    }
  }

  ghost predicate IsBalancing(w: Run) {
    IsRun(w) && w.mode == LB
  }

  /** Call k of a run uses endpoint i. */
  predicate Uses(rs: seq<Outcome>, k: nat, i: nat)
    requires k < |rs|
  {
    rs[k].Got? && rs[k].connection.index == i
  }

  lemma CallFromUp(t: Routes, retries: int, reach: seq<bool>, p: nat, r: Outcome, tried: seq<nat>, fonum: int)
    requires Aligned(t) && |reach| == t.siz >= 1 && reach[At(t.siz, p)]
    requires Searched(t, LB, retries, At(t.siz, p), Fixed(reach), r, tried, fonum)
    ensures r.Got? && r.connection.index == At(t.siz, p) && |tried| == 1
    ensures StartOf(fonum, t.siz) == At(t.siz, p + 1)
  {
    hide Attempts, Limit, HostOf;
    var n, up := t.siz, Fixed(reach);
    var f := At(n, p);
    assert up(0, Around(f, n, 0));
    NotBefore(up, f, n, if r.Got? then |tried| - 1 else |tried|, 0);
  }

  lemma CallFromDown(t: Routes, retries: int, reach: seq<bool>, p: nat, q: nat, r: Outcome, tried: seq<nat>, fonum: int)
    requires Aligned(t) && |reach| == t.siz >= 1 && retries != 1 && p < q < p + t.siz
    requires reach[At(t.siz, q)] && forall m :: p <= m < q ==> !reach[At(t.siz, m)]
    requires Searched(t, LB, retries, At(t.siz, p), Fixed(reach), r, tried, fonum)
    ensures r.Got? && r.connection.index == At(t.siz, q)
    ensures StartOf(fonum, t.siz) == At(t.siz, q)
  {
    hide Attempts, Limit, HostOf, Around, At;
    var n, up, k := t.siz, Fixed(reach), |tried| - 1;
    var f := At(n, p);
    AroundFrom(n, p, q - p);
    AroundFrom(n, p, k);
    assert up(q - p, Around(f, n, q - p));
    NotBefore(up, f, n, if r.Got? then k else k + 1, q - p);
    if r.Got? {
      assert up(k, Around(f, n, k)) && reach[At(n, p + k)];
    } else {
      TwoRounds(f, n, retries);
    }
  }

  lemma TwoRounds(f: nat, n: nat, retries: int)
    requires f < n && retries >= 2
    ensures Limit(f, n, retries) > n
  {
    assert n * retries >= n * 2;
  }

  // ----------------------------------------------------------------- everything reachable

  /** With every endpoint reachable, call k of a new pool uses endpoint k mod n. */
  lemma {:induction false} AllReachable(w: Run, k: nat)
    requires IsBalancing(w) && k <= |w.rs| && w.fs[0] == 0
    requires forall i :: 0 <= i < w.table.siz ==> w.reach[i]
    ensures StartOf(w.fs[k], w.table.siz) == k % w.table.siz
    ensures k < |w.rs| ==> Uses(w.rs, k, k % w.table.siz)
  {
    hide Searched, Attempts;
    var n := w.table.siz;
    AroundIsMod(0, n, k);
    if k > 0 {
      AllReachable(w, k - 1);
      AroundIsMod(0, n, k - 1);
      assert CallAt(w, k - 1);
      CallFromUp(w.table, w.retries, w.reach, k - 1, w.rs[k - 1], w.tries[k - 1], w.fs[k]);
    }
    if k < |w.rs| {
      assert CallAt(w, k);
      CallFromUp(w.table, w.retries, w.reach, k, w.rs[k], w.tries[k], w.fs[k + 1]);
    }
  }

  /** The endpoints used by the calls of a run. */
  function Picks(rs: seq<Outcome>): (ps: seq<nat>)
    requires forall k :: 0 <= k < |rs| ==> rs[k].Got?
    ensures |ps| == |rs| && forall k :: 0 <= k < |rs| ==> ps[k] == rs[k].connection.index
  {
    seq(|rs|, k requires 0 <= k < |rs| => rs[k].connection.index)
  }

  lemma {:induction false} AttemptAt(f: nat, n: nat, k: nat, j: nat)
    requires f < n && j < k
    ensures |Attempts(f, n, k)| == k && Attempts(f, n, k)[j] == Around(f, n, j)
  {
    if j < k - 1 {
      AttemptAt(f, n, k - 1, j);
    } else if k > 1 {
      AttemptAt(f, n, k - 1, 0);
    }
  }

  /** With every endpoint reachable, no endpoint is ever more than one call ahead of another. */
  lemma Balanced(w: Run, i: nat, j: nat)
    requires IsBalancing(w) && w.fs[0] == 0 && i < w.table.siz && j < w.table.siz
    requires forall e :: 0 <= e < w.table.siz ==> w.reach[e]
    ensures forall k :: 0 <= k < |w.rs| ==> w.rs[k].Got?
    ensures Count(Picks(w.rs), i) - Count(Picks(w.rs), j) <= 1
  {
    hide Searched, Attempts, Count;
    var n := w.table.siz;
    forall k | 0 <= k < |w.rs| ensures Uses(w.rs, k, k % n) && Around(0, n, k) == k % n {
      AllReachable(w, k);
      AroundIsMod(0, n, k);
    }
    forall k | 0 <= k < |w.rs| ensures w.rs[k].Got? {
      assert Uses(w.rs, k, k % n);
    }
    assert Picks(w.rs) == Attempts(0, n, |w.rs|) by {
      if |w.rs| > 0 {
        AttemptAt(0, n, |w.rs|, 0);
      } else {
        NoAttempts(0, n);
      }
      forall k | 0 <= k < |w.rs| ensures Picks(w.rs)[k] == Attempts(0, n, |w.rs|)[k] {
        AttemptAt(0, n, |w.rs|, k);
        assert Uses(w.rs, k, k % n);
      }
    }
    CountAttempts(0, n, |w.rs|, i);
    CountAttempts(0, n, |w.rs|, j);
  }

  lemma NoAttempts(f: nat, n: nat)
    requires f < n
    ensures Attempts(f, n, 0) == []
  {
  }

  // ----------------------------------------------------------------- some endpoints down

  /** The endpoints used while the counter passes the places p to q-1: one behind a dead one is used twice. */
  function Passed(reach: seq<bool>, p: nat, q: nat): seq<nat>
    requires |reach| > 0 && 1 <= p
  {
    if q <= p then []
    else
      var i, before := At(|reach|, q - 1), At(|reach|, q - 2);
      Passed(reach, p, q - 1) + if !reach[i] then [] else if reach[before] then [i] else [i, i]
  }

  /** The last reachable place before `q`. */
  ghost function LastUp(reach: seq<bool>, p: nat, q: nat): (m: nat)
    requires |reach| > 0 && 1 <= p <= q && reach[At(|reach|, p - 1)]
    ensures p - 1 <= m < q && reach[At(|reach|, m)]
    ensures forall k :: m < k < q ==> !reach[At(|reach|, k)]
  {
    if q == p || reach[At(|reach|, q - 1)] then q - 1 else LastUp(reach, p, q - 1)
  }

  lemma AtPeriod(n: nat, m: nat)
    requires n > 0
    ensures At(n, m + n) == At(n, m)
  {
    var a, b := Laps(0, n, m + n), Laps(0, n, m);
    Distribute(b, 1, n);
    SameQuotient(a, At(n, m + n), b + 1, At(n, m), n);
  }

  lemma {:induction false} PassedOverDown(reach: seq<bool>, p: nat, m: nat, q: nat)
    requires |reach| > 0 && 1 <= p <= m <= q && forall k :: m <= k < q ==> !reach[At(|reach|, k)]
    ensures Passed(reach, p, q) == Passed(reach, p, m)
    decreases q
  {
    if m < q {
      PassedOverDown(reach, p, m, q - 1);
    }
  }

  /** `us` are the endpoints used by the calls from `b` on. */
  predicate UsesAll(rs: seq<Outcome>, b: nat, us: seq<nat>) {
    b + |us| <= |rs| && forall i :: 0 <= i < |us| ==> Uses(rs, b + i, us[i])
  }

  /**
    Calls that start just behind a reachable endpoint use exactly the endpoints passed on the way to
    the next places behind a reachable one.
   */
  lemma {:induction false} Passing(w: Run, b: nat, p: nat, q: nat)
    requires IsBalancing(w) && w.retries != 1 && 1 <= p <= q
    requires w.reach[At(w.table.siz, p - 1)] && w.reach[At(w.table.siz, q - 1)]
    requires b + |Passed(w.reach, p, q)| <= |w.rs| && StartOf(w.fs[b], w.table.siz) == At(w.table.siz, p)
    ensures UsesAll(w.rs, b, Passed(w.reach, p, q))
    ensures StartOf(w.fs[b + |Passed(w.reach, p, q)|], w.table.siz) == At(w.table.siz, q)
    decreases q
  {
    hide Searched, Attempts, At;
    var n := w.table.siz;
    if p < q {
      var m := LastUp(w.reach, p, q - 1);
      PassedOverDown(w.reach, p, m + 1, q - 1);
      var us := Passed(w.reach, p, m + 1);
      Passing(w, b, p, m + 1);
      var c := b + |us|;
      if m + 1 < q - 1 {
        if m + n < q - 1 {
          AtPeriod(n, m);
          assert false;
        }
        assert CallAt(w, c);
        CallFromDown(w.table, w.retries, w.reach, m + 1, q - 1, w.rs[c], w.tries[c], w.fs[c + 1]);
        c := c + 1;
        assert !w.reach[At(n, q - 2)];
      }
      assert CallAt(w, c);
      CallFromUp(w.table, w.retries, w.reach, q - 1, w.rs[c], w.tries[c], w.fs[c + 1]);
    }
  }

  /** How often one lap uses endpoint `i`. */
  function Weight(reach: seq<bool>, i: nat): nat
    requires i < |reach|
  {
    if !reach[i] then 0 else if reach[if i == 0 then |reach| - 1 else i - 1] then 1 else 2
  }

  lemma CountTwo(here: nat, i: nat)
    ensures Count([here], i) == (if here == i then 1 else 0)
    ensures Count([here, here], i) == if here == i then 2 else 0
  {
    CountSnoc([], here, i);
    CountSnoc([here], here, i);
    assert [] + [here] == [here] && [here] + [here] == [here, here];
  }

  /** Passing one more place adds the weight of its endpoint. */
  lemma CountOnePlace(reach: seq<bool>, p: nat, q: nat, i: nat)
    requires 1 <= p <= q && i < |reach|
    ensures Count(Passed(reach, p, q + 1), i) ==
            Count(Passed(reach, p, q), i) + if At(|reach|, q) == i then Weight(reach, i) else 0
  {
    hide Count;
    var us, here := Passed(reach, p, q), At(|reach|, q);
    assert here == Next(At(|reach|, q - 1), |reach|);
    CountTwo(here, i);
    CountConcat(us, [here], i);
    CountConcat(us, [here, here], i);
    assert us + [] == us;
  }

  lemma NonePassed(reach: seq<bool>, p: nat, i: nat)
    requires 1 <= p && i < |reach|
    ensures Count(Passed(reach, p, p), i) == 0 == Count(Attempts(At(|reach|, p), |reach|, 0), i)
  {
  }

  lemma {:induction false} CountPassed(reach: seq<bool>, p: nat, k: nat, i: nat)
    requires 1 <= p && i < |reach|
    ensures Count(Passed(reach, p, p + k), i) == Count(Attempts(At(|reach|, p), |reach|, k), i) * Weight(reach, i)
  {
    hide Weight, At, Passed, Count, Attempts;
    var n := |reach|;
    if k == 0 {
      NonePassed(reach, p, i);
    } else {
      CountPassed(reach, p, k - 1, i);
      CountOnePlace(reach, p, p + k - 1, i);
      CountOneAttempt(reach, p, k - 1, i);
      OneMoreTime(Count(Attempts(At(n, p), n, k - 1), i), Weight(reach, i), At(n, p + k - 1) == i);
      assert p + (k - 1) + 1 == p + k;
    }
  }

  lemma OneMoreTime(c: nat, w: nat, hit: bool)
    ensures (c + if hit then 1 else 0) * w == c * w + if hit then w else 0
  {
  }

  lemma CountOneAttempt(reach: seq<bool>, p: nat, k: nat, i: nat)
    requires i < |reach|
    ensures Count(Attempts(At(|reach|, p), |reach|, k + 1), i) ==
            Count(Attempts(At(|reach|, p), |reach|, k), i) + if At(|reach|, p + k) == i then 1 else 0
  {
    hide At, Count;
    AroundFrom(|reach|, p, k);
    CountSnoc(Attempts(At(|reach|, p), |reach|, k), At(|reach|, p + k), i);
  }

  lemma OneLapVisitsAll(f: nat, n: nat, i: nat)
    requires f < n && i < n
    ensures Count(Attempts(f, n, n), i) == 1
  {
    CountAttempts(f, n, n, i);
    SameQuotient(Laps(f, n, n), Around(f, n, n), 1, f, n);
  }

  /**
    One lap, from just behind a reachable endpoint round to the same place, uses every reachable
    endpoint once, or twice if the endpoint before it is down.
   */
  lemma LapUsesEachEndpoint(reach: seq<bool>, p: nat, i: nat)
    requires 1 <= p && i < |reach|
    ensures Count(Passed(reach, p, p + |reach|), i) == Weight(reach, i)
  {
    hide Weight, At, Passed;
    CountPassed(reach, p, |reach|, i);
    OneLapVisitsAll(At(|reach|, p), |reach|, i);
  }

  /** The endpoints used by `m` laps. */
  function LapsOf(us: seq<nat>, m: nat): seq<nat> {
    if m == 0 then [] else LapsOf(us, m - 1) + us
  }

  /** A run with some endpoints down repeats the same lap for ever. */
  lemma {:induction false} EveryLap(w: Run, b: nat, p: nat, m: nat)
    requires IsBalancing(w) && w.retries != 1 && 1 <= p
    requires b <= |w.rs| && w.reach[At(w.table.siz, p - 1)] && StartOf(w.fs[b], w.table.siz) == At(w.table.siz, p)
    requires b + |LapsOf(Passed(w.reach, p, p + w.table.siz), m)| <= |w.rs|
    ensures var us := LapsOf(Passed(w.reach, p, p + w.table.siz), m);
      && UsesAll(w.rs, b, us)
      && StartOf(w.fs[b + |us|], w.table.siz) == At(w.table.siz, p)
  {
    hide Searched, Passed, At;
    var lap := Passed(w.reach, p, p + w.table.siz);
    if m > 0 {
      var before := LapsOf(lap, m - 1);
      EveryLap(w, b, p, m - 1);
      AtPeriod(w.table.siz, p - 1);
      AtPeriod(w.table.siz, p);
      Passing(w, b + |before|, p, p + w.table.siz);
    }
  }

  /** Over `m` laps every reachable endpoint is used `m` times, or `2 m` times behind a dead one. */
  lemma {:induction false} ManyLapsUseEachEndpoint(reach: seq<bool>, p: nat, m: nat, i: nat)
    requires 1 <= p && i < |reach|
    ensures Count(LapsOf(Passed(reach, p, p + |reach|), m), i) == m * Weight(reach, i)
  {
    hide Weight, Passed;
    if m > 0 {
      var lap := Passed(reach, p, p + |reach|);
      ManyLapsUseEachEndpoint(reach, p, m - 1, i);
      LapUsesEachEndpoint(reach, p, i);
      CountConcat(LapsOf(lap, m - 1), lap, i);
      Distribute(m - 1, 1, Weight(reach, i));
    }
  }

  /** Wherever the counter stands, after at most two calls it stands just behind a reachable endpoint. */
  lemma LapsBegin(w: Run, e: nat)
    returns (b: nat, p: nat)
    requires IsBalancing(w) && w.retries != 1 && |w.rs| >= 2 && e < w.table.siz && w.reach[e]
    ensures 1 <= b <= 2 && 1 <= p && w.reach[At(w.table.siz, p - 1)]
    ensures StartOf(w.fs[b], w.table.siz) == At(w.table.siz, p)
  {
    hide Attempts, Limit;
    var n := w.table.siz;
    var f := StartOf(w.fs[0], n);
    assert CallAt(w, 0);
    FirstRound(0, n, f);
    if w.reach[f] {
      CallFromUp(w.table, w.retries, w.reach, f, w.rs[0], w.tries[0], w.fs[1]);
      return 1, f + 1;
    }
    if w.retries >= 1 {
      GivesUpIff(w.table, LB, w.retries, f, w.reach, w.rs[0], w.tries[0], w.fs[1]);
    }
    FirstReachable(w.table, LB, w.retries, f, w.reach, w.rs[0], w.tries[0], w.fs[1], f);
    var c := w.rs[0].connection.index;
    FirstRound(0, n, c);
    assert CallAt(w, 1);
    CallFromUp(w.table, w.retries, w.reach, c, w.rs[1], w.tries[1], w.fs[2]);
    return 2, c + 1;
  }

  // ----------------------------------------------------------------- fail-over

  lemma FailOverFromUp(t: Routes, retries: int, reach: seq<bool>, f: nat, r: Outcome, tried: seq<nat>, fonum: int)
    requires Aligned(t) && f < t.siz == |reach| && reach[f]
    requires Searched(t, FO, retries, f, Fixed(reach), r, tried, fonum)
    ensures r.Got? && r.connection.index == f == fonum && |tried| == 1
  {
    hide Attempts, Limit, HostOf;
    var up := Fixed(reach);
    assert up(0, Around(f, t.siz, 0));
    NotBefore(up, f, t.siz, if r.Got? then |tried| - 1 else |tried|, 0);
  }

  lemma FailOverStays(t: Routes, retries: int, reach: seq<bool>, f: nat, r: Outcome, tried: seq<nat>, fonum: int)
    requires Aligned(t) && f < t.siz == |reach| && r.Got?
    requires Searched(t, FO, retries, f, Fixed(reach), r, tried, fonum)
    ensures r.connection.index == fonum && 0 <= fonum < t.siz && reach[fonum]
  {
    hide Attempts, Limit, HostOf, AllDown;
  }

  /**
    With fixed reachability fail-over settles for good: after one successful call every call uses the same
    endpoint, at its first attempt.
   */
  lemma {:induction false} FailOverSettles(w: Run, b: nat, k: nat)
    requires IsRun(w) && w.mode == FO && b < k < |w.rs| && w.rs[b].Got?
    ensures Uses(w.rs, k, w.rs[b].connection.index) && |w.tries[k]| == 1
    ensures w.fs[k] == w.rs[b].connection.index == w.fs[k + 1] && 0 <= w.fs[k] < w.table.siz && w.reach[w.fs[k]]
    decreases k
  {
    hide Searched;
    StartsInRange(w, b);
    StartsInRange(w, k);
    assert CallAt(w, b) && CallAt(w, k);
    if k == b + 1 {
      FailOverStays(w.table, w.retries, w.reach, w.fs[b], w.rs[b], w.tries[b], w.fs[k]);
    } else {
      FailOverSettles(w, b, k - 1);
    }
    FailOverFromUp(w.table, w.retries, w.reach, w.fs[k], w.rs[k], w.tries[k], w.fs[k + 1]);
  }

  /** The first call settles on the first reachable endpoint from its start, and gives up exactly when it meets none. */
  lemma FailOverBegins(w: Run, i: nat)
    requires IsRun(w) && w.mode == FO && |w.rs| >= 1 && w.retries >= 1 && i < w.table.siz
    ensures w.rs[0].Quit? <==> forall j :: (if w.retries == 1 then w.fs[0] else 0) <= j < w.table.siz ==> !w.reach[j]
    ensures w.rs[0].Got? ==>
      var c, n := w.rs[0].connection.index, w.table.siz;
      c < n && w.reach[c] && (w.reach[i] ==> Distance(w.fs[0], n, c) <= Distance(w.fs[0], n, i))
  {
    hide Searched;
    assert CallAt(w, 0);
    GivesUpIff(w.table, FO, w.retries, w.fs[0], w.reach, w.rs[0], w.tries[0], w.fs[1]);
    if w.rs[0].Got? {
      FirstReachable(w.table, FO, w.retries, w.fs[0], w.reach, w.rs[0], w.tries[0], w.fs[1], i);
    }
  }
}
