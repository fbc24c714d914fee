/** Endpoint selection without persistent connections, and the admin commands on the route table. */
module ConnectionPools {
  import opened Wrappers
  import opened Sequences
  import opened StringUtil
  import opened CastUtil

  datatype Mode = LB | FO | OR | CH

  /** The three parallel vectors, their recorded length and the route in use. */
  datatype Routes = Routes(ip: seq<string>, port: seq<int>, cssl: seq<bool>, siz: int, onlineroute: int)

  predicate Aligned(t: Routes) {
    |t.ip| == |t.port| == |t.cssl| == t.siz
  }

  /** The route a pick uses: the one in use if it still exists, else the first. */
  function Picked(t: Routes): int {
    if t.onlineroute >= t.siz then 0 else t.onlineroute
  }

  /** A connection names its endpoint; `up` says whether it is connected. */
  datatype Connection = Connection(index: nat, host: string, ssl: bool, up: bool)

  datatype Outcome =
    | Got(connection: Connection)
    | NoConnection
    | Quit(message: string)
    | Failed(exception: string)

  const NO_SERVERS := "no servers available"
  const NO_SWITCH := "no servers available to switch over to"

  function HostOf(t: Routes, i: nat): string
    requires Aligned(t) && i < t.siz
  {
    t.ip[i] + if t.port[i] != 80 then ":" + Show(t.port[i]) else ""
  }

  function ConnectionTo(t: Routes, i: nat, up: bool): Connection
    requires Aligned(t) && i < t.siz
  {
    Connection(i, HostOf(t, i), t.cssl[i], up)
  }

  /** The endpoint after `i` in a circle of `n`. */
  function Next(i: nat, n: nat): nat {
    if i + 1 == n then 0 else i + 1
  }

  /** The endpoint `k` places after `f`. */
  function Around(f: nat, n: nat, k: nat): (i: nat)
    requires f < n
    ensures i < n
  {
    if k == 0 then f else Next(Around(f, n, k - 1), n)
  }

  /** The endpoints of the first `k` attempts. */
  function Attempts(f: nat, n: nat, k: nat): seq<nat>
    requires f < n
  {
    if k == 0 then [] else Attempts(f, n, k - 1) + [Around(f, n, k - 1)]
  }

  /** How many attempts a call makes before it gives up. */
  function Limit(f: nat, n: nat, retries: int): int {
    n * retries - f
  }

  type Oracle = (nat, nat) -> bool

  /** Attempts 0 to k-1 all fail. */
  predicate AllDown(up: Oracle, f: nat, n: nat, k: nat)
    requires f < n
  {
    forall j :: 0 <= j < k ==> !up(j, Around(f, n, j))
  }

  /** With no positive retry count the loop ends only at a reachable endpoint. */
  ghost predicate Ends(up: Oracle, f: nat, n: nat, retries: int)
    requires f < n
  {
    retries >= 1 || exists k: nat :: up(k, Around(f, n, k))
  }

  /**
    What a call that starts at endpoint `f` does in the load balancing and fail-over modes: it goes
    round the circle up to the first reachable endpoint, or gives up when the limit is reached.
   */
  ghost predicate Searched(t: Routes, mode: Mode, retries: int, f: nat, up: Oracle,
      r: Outcome, tried: seq<nat>, fonum: int)
    requires Aligned(t) && f < t.siz
  {
    && |tried| >= 1
    && tried == Attempts(f, t.siz, |tried|)
    && var last := Around(f, t.siz, |tried| - 1);
       match r
       case Got(c) =>
         && up(|tried| - 1, last) && AllDown(up, f, t.siz, |tried| - 1)
         && (retries >= 1 ==> |tried| <= Limit(f, t.siz, retries))
         && c == ConnectionTo(t, last, true)
         && fonum == if mode == LB && |tried| == 1 then f + 1 else last
       case Quit(m) =>
         && retries >= 1 && |tried| == Limit(f, t.siz, retries) && AllDown(up, f, t.siz, |tried|)
         && fonum == 0
         && m == if mode == LB then NO_SERVERS else NO_SWITCH
       case _ => false
  }

  // ----------------------------------------------------------------- the admin commands

  const DONE := "COMMAND SUCCESSFULL"
  const ONE_ROUTE := "INVALID ROUTE - ONLY A SINGLE ROUTE EXISTS"
  const NO_ROUTE := "NO ROUTE EXISTS"
  const BAD_ROUTE := "INVALID ROUTE - SELECT ROUTE FROM 0-"
  const BAD_ARGUMENT := "INVALID ARGUMENT"
  const BAD_ENDPOINT := "INVALID ENDPOINT DETAILS"
  const BAD_PORT := "INVALID PORT SPECIFIED"
  const BAD_HOST := "INVALID HOST SPECIFIED"
  const MISSING := "ARGUMENT MISSING - EXPECTED 4"
  const BAD_INDEX := "INVALID UPDATE INDEX SPECIFIED"
  const INDEX_RANGE := "UPDATE INDEX OUT OF RANGE"

  datatype Endpoint = Endpoint(ip: string, port: int, ssl: bool)

  /** The three parallel vectors read as one list. */
  function Endpoints(t: Routes): (es: seq<Endpoint>)
    requires Aligned(t)
    ensures |es| == t.siz && forall i :: 0 <= i < t.siz ==> es[i] == Endpoint(t.ip[i], t.port[i], t.cssl[i])
  {
    seq(t.siz, i requires 0 <= i < t.siz => Endpoint(t.ip[i], t.port[i], t.cssl[i]))
  }

  /**
    The connection names the endpoint: its ssl flag, and its address as the value of a Host header, which
    leaves port 80 out.
   */
  predicate Names(c: Connection, e: Endpoint) {
    && c.ssl == e.ssl
    && (e.port == 80 ==> c.host == e.ip)
    && (e.port != 80 ==> c.host == Join([e.ip, Show(e.port)], ":"))
    && (e.port != 80 && ':' !in e.ip ==> Pieces(c.host, ":") == [e.ip, Show(e.port)])
  }

  /** A call that returns a connection names the endpoint of its last attempt. */
  ghost predicate Reaches(t: Routes, r: Outcome, tried: seq<nat>)
    requires Aligned(t)
  {
    r.Got? ==>
      && tried != [] && r.connection.index == tried[|tried| - 1] < t.siz
      && Names(r.connection, Endpoints(t)[r.connection.index])
  }

  lemma {:induction false} DecimalLacksColon(n: nat)
    ensures ':' !in Decimal(n)
  {
    assert !IsDigit(':');
  }

  lemma ShowLacksColon(n: int)
    ensures ':' !in Show(n)
  {
    if n < 0 {
      DecimalLacksColon(-n);
    } else {
      DecimalLacksColon(n);
    }
  }

  lemma ConnectionNames(t: Routes, i: nat, up: bool)
    requires Aligned(t) && i < t.siz
    ensures Names(ConnectionTo(t, i, up), Endpoints(t)[i])
  {
    hide Show, Pieces;
    var e := Endpoints(t)[i];
    var parts := [e.ip, Show(e.port)];
    assert Join(parts, ":") == e.ip + ":" + Show(e.port) by {
      assert parts[1..] == [Show(e.port)];
    }
    assert e.ip + ":" + Show(e.port) == e.ip + (":" + Show(e.port));
    assert e.ip + "" == e.ip;
    ShowLacksColon(e.port);
    SplitOfJoin(parts, ':');
  }

  lemma IndexOf(t: Routes, i: nat, up: bool)
    requires Aligned(t) && i < t.siz
    ensures ConnectionTo(t, i, up).index == i && ConnectionTo(t, i, up).up == up
  {
  }

  lemma {:induction false} LastAttempt(f: nat, n: nat, k: nat)
    requires f < n && k >= 1
    ensures |Attempts(f, n, k)| == k && Attempts(f, n, k)[k - 1] == Around(f, n, k - 1)
  {
    hide Around;
    if k > 1 {
      LastAttempt(f, n, k - 1);
    }
  }

  lemma SearchReaches(t: Routes, mode: Mode, retries: int, f: nat, up: Oracle,
                      r: Outcome, tried: seq<nat>, fonum: int)
    requires Aligned(t) && f < t.siz && Searched(t, mode, retries, f, up, r, tried, fonum)
    ensures Reaches(t, r, tried) && (r.Got? ==> r.connection.up && up(|tried| - 1, r.connection.index))
  {
    hide Around, Attempts, AllDown, Limit, HostOf, Names, Endpoints;
    if r.Got? {
      LastAttempt(f, t.siz, |tried|);
      ConnectionNames(t, Around(f, t.siz, |tried| - 1), true);
    }
  }

  type Resolver = string -> Option<string>

  /** "ssl:host:port"; how host names are resolved is a parameter. */
  function ReadEndpoint(address: string, resolve: Resolver): Result<Endpoint> {
    var parts := Pieces(address, ":");
    if |parts| != 3 then Thrown(BAD_ENDPOINT)
    else
      match ReadInt(parts[2])
      case Thrown(_) => Thrown(BAD_PORT)
      case Ok(port) =>
        match resolve(parts[1])
        case None => Thrown(BAD_HOST)
        case Some(ip) => Ok(Endpoint(ip, port, parts[0] == "ssl" || parts[0] == "SSL"))
  }

  /** An admin command once its words have been read. */
  datatype Command =
    | Change(route: int)
    | Add(endpoint: Endpoint)
    | Update(endpoint: Endpoint, index: int)
    | Delete(index: int)
    | Unknown
    | Refused(answer: string)
    | Short

  function Understood(cmd: seq<string>, resolve: Resolver): Command {
    if |cmd| < 2 then Short
    else if cmd[1] == "CR" then
      if |cmd| > 2 && ReadInt(cmd[2]).Ok? then Change(ReadInt(cmd[2]).value) else Refused(BAD_ARGUMENT)
    else if |cmd| == 2 then Short
    else if cmd[1] == "DR" then
      match ReadInt(cmd[2]) case Ok(index) => Delete(index) case Thrown(_) => Refused(BAD_INDEX)
    else
      match ReadEndpoint(cmd[2], resolve)
      case Thrown(answer) => Refused(answer)
      case Ok(endpoint) =>
        if cmd[1] == "AR" then Add(endpoint)
        else if cmd[1] == "UR" then
          if |cmd| != 4 then Refused(MISSING)
          else
            match ReadInt(cmd[3]) case Ok(index) => Update(endpoint, index) case Thrown(_) => Refused(BAD_INDEX)
        else Unknown
  }

  /** A delete with a negative index is undefined in the original: it erases before the first element. */
  predicate Defined(c: Command) {
    c.Delete? ==> c.index >= 0
  }

  /** The answer to a command, as a caller of validate sees it. */
  function Answer(t: Routes, c: Command): Result<string> {
    match c
    case Change(route) =>
      Ok(if t.siz == 1 then ONE_ROUTE else if t.siz == 0 then NO_ROUTE
         else if route > t.siz - 1 then BAD_ROUTE + Show(t.siz - 1) else DONE)
    case Update(_, index) =>
      if index > t.siz - 1 then Ok(INDEX_RANGE) else if index < 0 then Thrown(OUT_OF_RANGE) else Ok(DONE)
    case Delete(index) => Ok(if index > t.siz - 1 then INDEX_RANGE else DONE)
    case Refused(answer) => Ok(answer)
    case Short => Thrown(OUT_OF_RANGE)
    case _ => Ok(DONE)
  }

  /** The effect of a command, said about the list of endpoints and the route in use. */
  ghost predicate Effect(t: Routes, c: Command, u: Routes)
    requires Aligned(t) && Defined(c)
  {
    && Aligned(u)
    && var done := Answer(t, c) == Ok(DONE);
       && u.onlineroute == (if c.Change? && done then c.route else t.onlineroute)
       && Endpoints(u) == if !done then Endpoints(t) else
                            match c
                            case Add(e) => Endpoints(t) + [e]
                            case Update(e, i) => Endpoints(t)[i := e]
                            case Delete(i) => Erase(Endpoints(t), i)
                            case _ => Endpoints(t)
  }

  /** One call of validate from table `t` to table `u`; None stands for undefined behaviour. */
  ghost predicate Validated(t: Routes, cmd: seq<string>, resolve: Resolver, r: Option<Result<string>>, u: Routes)
    requires Aligned(t)
  {
    var c := Understood(cmd, resolve);
    if Defined(c) then r == Some(Answer(t, c)) && Effect(t, c, u) else r == None
  }

  lemma EffectOfAdd(t: Routes, e: Endpoint)
    requires Aligned(t)
    ensures Effect(t, Add(e), Routes(t.ip + [e.ip], t.port + [e.port], t.cssl + [e.ssl], t.siz + 1, t.onlineroute))
  {
    var u := Routes(t.ip + [e.ip], t.port + [e.port], t.cssl + [e.ssl], t.siz + 1, t.onlineroute);
    assert Endpoints(u) == Endpoints(t) + [e];
  }

  lemma EffectOfUpdate(t: Routes, e: Endpoint, i: nat)
    requires Aligned(t) && i < t.siz
    ensures Effect(t, Update(e, i),
              Routes(t.ip[i := e.ip], t.port[i := e.port], t.cssl[i := e.ssl], t.siz, t.onlineroute))
  {
    var u := Routes(t.ip[i := e.ip], t.port[i := e.port], t.cssl[i := e.ssl], t.siz, t.onlineroute);
    assert Endpoints(u) == Endpoints(t)[i := e];
  }

  lemma EffectOfDelete(t: Routes, i: nat)
    requires Aligned(t) && i < t.siz
    ensures Effect(t, Delete(i), Routes(Erase(t.ip, i), Erase(t.port, i), Erase(t.cssl, i), t.siz - 1, t.onlineroute))
  {
    var u := Routes(Erase(t.ip, i), Erase(t.port, i), Erase(t.cssl, i), t.siz - 1, t.onlineroute);
    assert Endpoints(u) == Erase(Endpoints(t), i);
  }

  lemma EffectOfOther(t: Routes, c: Command)
    requires Aligned(t) && Defined(c)
    ensures Answer(t, c) != Ok(DONE) || c.Unknown? || c.Refused? || c.Short? ==> Effect(t, c, t)
    ensures c.Change? && Answer(t, c) == Ok(DONE) ==> Effect(t, c, t.(onlineroute := c.route))
  {
  }

  /** createPool ends the process at an unreadable port, and load balancing divides by the number of endpoints. */
  datatype Created = Created(pool: ConnectionPool) | Exited(code: int) | DividedByZero

  /** What createPool makes of one address: it is skipped, it ends the process, or it names an endpoint. */
  datatype Address = Malformed | BadPort | WellFormed(endpoint: Endpoint)

  function ConfiguredOne(address: string): Address {
    var parts := Pieces(address, ":");
    if |parts| != 3 then Malformed
    else
      match ReadInt(parts[2])
      case Thrown(_) => BadPort
      case Ok(port) => WellFormed(Endpoint(parts[1], port, parts[0] == "ssl" || parts[0] == "SSL"))
  }

  /** The endpoints of the well-formed addresses, in order; None when one has an unreadable port. */
  function Configured(addresses: seq<string>): Option<seq<Endpoint>> {
    if addresses == [] then Some([])
    else
      var last := |addresses| - 1;
      match Configured(addresses[..last])
      case None => None
      case Some(es) =>
        match ConfiguredOne(addresses[last])
        case Malformed => Some(es)
        case BadPort => None
        case WellFormed(e) => Some(es + [e])
  }

  lemma NothingConfigured(addresses: seq<string>)
    ensures Configured(addresses[..0]) == Some([])
  {
  }

  lemma EndpointsOf(t: Routes, es: seq<Endpoint>)
    requires Aligned(t) && t.siz == |es|
    requires forall k :: 0 <= k < |es| ==> es[k] == Endpoint(t.ip[k], t.port[k], t.cssl[k])
    ensures Endpoints(t) == es
  {
  }

  lemma EndpointsSnoc(t: Routes, e: Endpoint)
    requires Aligned(t)
    ensures
      var ip := t.ip + [e.ip];
      var u := t.(ip := ip, port := t.port + [e.port], cssl := t.cssl + [e.ssl], siz := |ip|);
      Aligned(u) && Endpoints(u) == Endpoints(t) + [e]
  {
  }

  lemma ConfiguredStep(addresses: seq<string>, k: nat)
    requires k < |addresses|
    ensures addresses[..k + 1][..k] == addresses[..k] && addresses[..k + 1][k] == addresses[k]
    ensures Configured(addresses[..k]).Some? ==>
      Configured(addresses[..k + 1]) ==
      match ConfiguredOne(addresses[k])
      case Malformed => Configured(addresses[..k])
      case BadPort => None
      case WellFormed(e) => Some(Configured(addresses[..k]).value + [e])
    ensures Configured(addresses[..k]).None? ==> Configured(addresses[..k + 1]).None?
  {
    hide ConfiguredOne;
    assert addresses[..k + 1][..k] == addresses[..k];
  }

  lemma {:induction false} ConfiguredStops(addresses: seq<string>, k: nat)
    requires k <= |addresses| && Configured(addresses[..k]).None?
    ensures Configured(addresses).None?
    decreases |addresses| - k
  {
    hide Configured;
    if k < |addresses| {
      ConfiguredStep(addresses, k);
      ConfiguredStops(addresses, k + 1);
    } else {
      assert addresses[..k] == addresses;
    }
  }

  lemma SplitIsPieces(s: string)
    ensures Parts(s, ":") == Pieces(s, ":")
  {
  }

  class ConnectionPool {
    var ip: seq<string>
    var port: seq<int>
    var cssl: seq<bool>
    var siz: int
    var mode: Mode
    var numretries: int
    var fonum: int
    var onlineroute: int

    function Table(): Routes
      reads this
    {
      Routes(ip, port, cssl, siz, onlineroute)
    }

    predicate Valid()
      reads this
    {
      Aligned(Table())
    }

    /** The new instance of createPool, before the addresses are read. */
    constructor (mode: Mode, numretries: int)
      ensures Valid() && siz == 0 && fonum == 0 && onlineroute == 0
      ensures this.mode == mode && this.numretries == numretries
    {
      this.ip, this.port, this.cssl, this.siz := [], [], [], 0;
      this.mode, this.numretries := mode, numretries;
      this.fonum, this.onlineroute := 0, 0;
    }

    /** createPool without persistent connections. */
    static method CreatePool(addresses: seq<string>, mode: Mode, numretries: int) returns (r: Created)
      ensures match Configured(addresses)
        case None => r == Exited(-1)
        case Some(es) =>
          if mode == LB && es == [] then r == DividedByZero
          else
            && r.Created? && fresh(r.pool) && r.pool.Valid() && Endpoints(r.pool.Table()) == es
            && r.pool.fonum == 0 && r.pool.onlineroute == 0 && r.pool.mode == mode && r.pool.numretries == numretries
    {
      hide Configured, Endpoints;
      var pool := new ConnectionPool(mode, numretries);
      NothingConfigured(addresses);
      EndpointsOf(pool.Vectors(), []);
      for k := 0 to |addresses|
        invariant fresh(pool) && pool.fonum == 0 && pool.onlineroute == 0
        invariant pool.mode == mode && pool.numretries == numretries
        invariant Aligned(pool.Vectors()) && Configured(addresses[..k]) == Some(Endpoints(pool.Vectors()))
      {
        var readable := pool.Register(addresses[k]);
        ConfiguredStep(addresses, k);
        if !readable {
          ConfiguredStops(addresses, k + 1);
          return Exited(-1);
        }
      }
      assert addresses[..|addresses|] == addresses;
      pool.siz := |pool.ip|;
      if mode == LB && pool.siz == 0 {
        return DividedByZero;
      }
      return Created(pool);
    }

    /** The vectors while siz is not yet set. */
    function Vectors(): Routes
      reads this
    {
      Routes(ip, port, cssl, |ip|, onlineroute)
    }

    /** One turn of the loop of createPool. */
    method Register(whl: string) returns (readable: bool)
      requires Aligned(Vectors())
      modifies this`ip, this`port, this`cssl
      ensures match ConfiguredOne(whl)
        case Malformed => readable && Aligned(Vectors()) && Endpoints(Vectors()) == old(Endpoints(Vectors()))
        case BadPort => !readable
        case WellFormed(e) => readable && Aligned(Vectors()) && Endpoints(Vectors()) == old(Endpoints(Vectors())) + [e]
    {
      hide Pieces, ReadInt, Parts, Endpoints;
      var ipdetails := Split(whl, ":");
      SplitIsPieces(whl);
      if |ipdetails| != 3 {
        return true;
      }
      var ssl := ipdetails[0] == "ssl" || ipdetails[0] == "SSL";
      cssl := cssl + [ssl];
      ip := ip + [ipdetails[1]];
      var por := ReadInt(ipdetails[2]);
      if por.Thrown? {
        return false;
      }
      EndpointsSnoc(old(Vectors()), Endpoint(ipdetails[1], por.value, ssl));
      port := port + [por.value];
      return true;
    }

    /** Where the call starts: load balancing wraps a counter that has run off the end. */
    function Start(): int
      reads this
    {
      if mode == LB && fonum == siz then 0 else fonum
    }

    /**
      getConnection. `up(k, i)` is the outcome of the k-th attempt, which is made at endpoint i;
      `tried` lists the endpoints attempted.
     */
    method GetConnection(up: Oracle) returns (r: Outcome, tried: seq<nat>)
      requires Valid()
      requires (mode == LB || mode == FO) && 0 <= Start() < siz ==> Ends(up, Start(), siz, numretries)
      modifies this`fonum, this`onlineroute
      ensures mode == CH ==> r == NoConnection && tried == [] && fonum == old(fonum) && onlineroute == old(onlineroute)
      ensures mode == OR ==> fonum == old(fonum) && onlineroute == Picked(old(Table()))
      ensures mode == OR ==>
        if 0 <= onlineroute < siz then
          r == Got(ConnectionTo(Table(), onlineroute, up(0, onlineroute))) && tried == [onlineroute]
        else r == Failed(OUT_OF_RANGE) && tried == []
      ensures mode == LB || mode == FO ==> onlineroute == old(onlineroute)
      ensures (mode == LB || mode == FO) && !(0 <= old(Start()) < siz) ==>
        r == Failed(OUT_OF_RANGE) && tried == [] && fonum == old(Start())
      ensures (mode == LB || mode == FO) && 0 <= old(Start()) < siz ==>
        Searched(Table(), mode, numretries, old(Start()), up, r, tried, fonum)
      ensures Reaches(Table(), r, tried)
      ensures r.Got? ==> (r.connection.up <==> up(|tried| - 1, r.connection.index)) && (mode != OR ==> r.connection.up)
    {
      hide Searched, ConnectionTo, Names, Endpoints;
      tried := [];
      if mode == CH {
        return NoConnection, tried;
      }
      if mode == OR {
        if onlineroute >= siz {
          onlineroute := 0;
        }
        if !(0 <= onlineroute < siz) {
          return Failed(OUT_OF_RANGE), tried;
        }
        tried := [onlineroute];
        ConnectionNames(Table(), onlineroute, up(0, onlineroute));
        IndexOf(Table(), onlineroute, up(0, onlineroute));
        return Got(ConnectionTo(Table(), onlineroute, up(0, onlineroute))), tried;
      }
      if mode == LB && fonum == siz {
        fonum := 0;
      }
      if !(0 <= fonum < siz) {
        return Failed(OUT_OF_RANGE), tried;
      }
      ghost var f := fonum;
      r, tried := TryAround(up);
      SearchReaches(Table(), mode, numretries, f, up, r, tried, fonum);
    }

    /** The part of validate that reads an endpoint; a refusal is the answer to the command. */
    static method Describe(address: string, resolve: Resolver) returns (r: Result<Endpoint>)
      ensures r == ReadEndpoint(address, resolve)
    {
      hide Pieces, Parts, ReadInt;
      var ipdetails := Split(address, ":");
      SplitIsPieces(address);
      if |ipdetails| != 3 {
        return Thrown(BAD_ENDPOINT);
      }
      var ssl := ipdetails[0] == "ssl" || ipdetails[0] == "SSL";
      var ip := ipdetails[1];
      var por := ReadInt(ipdetails[2]);
      if por.Thrown? {
        return Thrown(BAD_PORT);
      }
      var rip := resolve(ip);
      if rip.None? {
        return Thrown(BAD_HOST);
      }
      return Ok(Endpoint(rip.value, por.value, ssl));
    }

    /** validate: carries out one admin command. */
    method Validate(cmd: seq<string>, resolve: Resolver) returns (r: Option<Result<string>>)
      requires Valid()
      modifies this`ip, this`port, this`cssl, this`siz, this`onlineroute
      ensures Validated(old(Table()), cmd, resolve, r, Table())
    {
      hide Show, ReadEndpoint, ReadInt, Effect, Endpoints, Erase;
      ghost var t, c := Table(), Understood(cmd, resolve);
      if Defined(c) {
        EffectOfOther(t, c);
      }
      if |cmd| < 2 {
        return Some(Thrown(OUT_OF_RANGE));
      }
      if cmd[1] == "CR" {
        if |cmd| == 2 {
          return Some(Ok(BAD_ARGUMENT));
        }
        var read := ReadInt(cmd[2]);
        if read.Thrown? {
          return Some(Ok(BAD_ARGUMENT));
        }
        var nwrt := read.value;
        if siz == 1 {
          return Some(Ok(ONE_ROUTE));
        }
        if siz == 0 {
          return Some(Ok(NO_ROUTE));
        }
        if nwrt > siz - 1 {
          return Some(Ok(BAD_ROUTE + Show(siz - 1)));
        }
        onlineroute := nwrt;
        return Some(Ok(DONE));
      }
      if |cmd| == 2 {
        return Some(Thrown(OUT_OF_RANGE));
      }
      var address := cmd[2];
      var host, por, ssl := "", 80, false;
      if cmd[1] != "DR" {
        var details := Describe(address, resolve);
        if details.Thrown? {
          return Some(Ok(details.message));
        }
        host, por, ssl := details.value.ip, details.value.port, details.value.ssl;
      }
      if cmd[1] == "AR" {
        EffectOfAdd(t, Endpoint(host, por, ssl));
        ip, port, cssl := ip + [host], port + [por], cssl + [ssl];
        siz := |ip|;
      } else if cmd[1] == "UR" || cmd[1] == "DR" {
        var ind := 2;
        if cmd[1] == "UR" {
          if |cmd| != 4 {
            return Some(Ok(MISSING));
          }
          ind := 3;
        }
        var read := ReadInt(cmd[ind]);
        if read.Thrown? {
          return Some(Ok(BAD_INDEX));
        }
        var index := read.value;
        if index > siz - 1 {
          return Some(Ok(INDEX_RANGE));
        }
        if cmd[1] == "UR" {
          if index < 0 {
            return Some(Thrown(OUT_OF_RANGE));
          }
          EffectOfUpdate(t, Endpoint(host, por, ssl), index);
          ip, port, cssl := ip[index := host], port[index := por], cssl[index := ssl];
        } else {
          if index < 0 {
            return None;
          }
          EffectOfDelete(t, index);
          ip, port, cssl := Erase(ip, index), Erase(port, index), Erase(cssl, index);
          siz := |ip|;
        }
      }
      return Some(Ok(DONE));
    }

    /** The first attempt and the retry loop of the load balancing and fail-over modes. */
    method TryAround(up: Oracle) returns (r: Outcome, tried: seq<nat>)
      requires Valid() && (mode == LB || mode == FO) && 0 <= fonum < siz && Ends(up, fonum, siz, numretries)
      modifies this`fonum
      ensures Searched(Table(), mode, numretries, old(fonum), up, r, tried, fonum)
    {
      hide Around, Attempts, AllDown, Limit, Ends, HostOf, Searched, Next;
      ghost var t := Table();
      ghost var f, n := fonum, siz;
      StartsInLimit(f, n, numretries);
      ghost var bound := if numretries >= 1 then Limit(f, n, numretries) - 1 else FirstAttempt(up, f, n, numretries);
      ghost var place := f;
      var tries := 0;
      FirstPlace(up, f, n);
      tried := [fonum];
      var con := ConnectionTo(Table(), fonum, up(0, fonum));
      if mode == LB {
        fonum := fonum + 1;
      }
      while !con.up
        invariant siz == n && Valid() && |tried| >= 1
        invariant tried == Attempts(f, n, |tried|) && AllDown(up, f, n, |tried| - 1)
        invariant place == Around(f, n, |tried| - 1)
        invariant con == ConnectionTo(Table(), place, up(|tried| - 1, place))
        invariant f + |tried| - 1 == tries * n + place
        invariant numretries >= 1 ==> tries < numretries
        invariant fonum == if mode == LB && (|tried| == 1 || !con.up) then place + 1 else place
        invariant |tried| - 1 <= bound
        decreases bound - |tried|
      {
        NextPlace(up, f, n, |tried|);
        NextIs(place, n);
        OneMore(tries, n);
        if mode == FO {
          fonum := fonum + 1;
        }
        if fonum == siz {
          tries := tries + 1;
          fonum := 0;
          if tries == numretries {
            AtLimit(f, n, numretries);
            GivenUp(t, mode, numretries, f, up, tried);
            return Quit(if mode == LB then NO_SERVERS else NO_SWITCH), tried;
          }
        }
        place := fonum;
        BelowLimit(tries, numretries, f, n, |tried|, place);
        if numretries < 1 {
          NotPast(up, f, n, numretries, |tried|);
        }
        con := ConnectionTo(Table(), fonum, up(|tried|, fonum));
        tried := tried + [fonum];
        if mode == LB && !con.up {
          fonum := fonum + 1;
        }
      }
      Found(t, mode, numretries, f, up, tried, place, fonum);
      return Got(con), tried;
    }
  }

  /** The attempt at which a call without a retry limit ends. */
  ghost function FirstAttempt(up: Oracle, f: nat, n: nat, retries: int): (k: nat)
    requires f < n && Ends(up, f, n, retries) && retries < 1
    ensures up(k, Around(f, n, k))
  {
    var k: nat :| up(k, Around(f, n, k));
    k
  }

  lemma OneMore(tries: int, n: int)
    ensures (tries + 1) * n == tries * n + n
  {
  }

  lemma StartsInLimit(f: nat, n: nat, retries: int)
    requires f < n
    ensures retries >= 1 ==> Limit(f, n, retries) >= 1
  {
    if retries >= 1 {
      assert n * retries >= n * 1;
    }
  }

  lemma AtLimit(f: nat, n: nat, retries: int)
    requires f < n
    ensures Limit(f, n, retries) == retries * n - f
  {
  }

  lemma FirstPlace(up: Oracle, f: nat, n: nat)
    requires f < n
    ensures Around(f, n, 0) == f && Attempts(f, n, 1) == [f] && AllDown(up, f, n, 0)
  {
    assert Attempts(f, n, 0) == [];
  }

  lemma NextPlace(up: Oracle, f: nat, n: nat, k: nat)
    requires f < n && k >= 1
    ensures Around(f, n, k) == Next(Around(f, n, k - 1), n)
    ensures Attempts(f, n, k + 1) == Attempts(f, n, k) + [Around(f, n, k)]
    ensures AllDown(up, f, n, k - 1) && !up(k - 1, Around(f, n, k - 1)) ==> AllDown(up, f, n, k)
  {
    hide Around;
    assert Around(f, n, k) == Next(Around(f, n, k - 1), n) by {
      AroundUnfold(f, n, k);
    }
  }

  lemma AroundUnfold(f: nat, n: nat, k: nat)
    requires f < n && k >= 1
    ensures Around(f, n, k) == Next(Around(f, n, k - 1), n)
  {
  }

  /** A place in round `tries` lies below the limit while rounds are left. */
  lemma BelowLimit(tries: int, retries: int, f: nat, n: nat, k: nat, place: nat)
    requires f < n && place < n && f + k == tries * n + place
    ensures retries >= 1 && tries < retries ==> k <= Limit(f, n, retries) - 1
  {
    if retries >= 1 && tries < retries {
      assert (tries + 1) * n <= retries * n;
      OneMore(tries, n);
    }
  }

  lemma NextIs(i: nat, n: nat)
    ensures Next(i, n) == if i + 1 == n then 0 else i + 1
  {
  }

  lemma Found(t: Routes, mode: Mode, retries: int, f: nat, up: Oracle, tried: seq<nat>, place: nat, fonum: int)
    requires Aligned(t) && f < t.siz && |tried| >= 1 && tried == Attempts(f, t.siz, |tried|)
    requires place == Around(f, t.siz, |tried| - 1) && up(|tried| - 1, place) && AllDown(up, f, t.siz, |tried| - 1)
    requires retries >= 1 ==> |tried| <= Limit(f, t.siz, retries)
    requires fonum == if mode == LB && |tried| == 1 then f + 1 else place
    ensures Searched(t, mode, retries, f, up, Got(ConnectionTo(t, place, true)), tried, fonum)
  {
    hide Around, Attempts, AllDown, Limit, ConnectionTo;
  }

  lemma GivenUp(t: Routes, mode: Mode, retries: int, f: nat, up: Oracle, tried: seq<nat>)
    requires Aligned(t) && f < t.siz && |tried| >= 1 && tried == Attempts(f, t.siz, |tried|)
    requires retries >= 1 && |tried| == Limit(f, t.siz, retries) && AllDown(up, f, t.siz, |tried|)
    ensures Searched(t, mode, retries, f, up, Quit(if mode == LB then NO_SERVERS else NO_SWITCH), tried, 0)
  {
    hide Around, Attempts, AllDown, Limit, ConnectionTo;
  }

  lemma NotPast(up: Oracle, f: nat, n: nat, retries: int, k: nat)
    requires f < n && Ends(up, f, n, retries) && retries < 1 && AllDown(up, f, n, k)
    ensures k <= FirstAttempt(up, f, n, retries)
  {
  }
}
