/** What the words of an admin command do to the list of endpoints, and how they are refused. */
module AdminWords {
  import opened Wrappers
  import opened Sequences
  import opened StringUtil
  import opened CastUtil
  import opened ConnectionPools

  /** The table after an accepted command on its endpoints: the route in use is left as it was. */
  ghost predicate Becomes(t: Routes, es: seq<Endpoint>, r: Option<Result<string>>, u: Routes) {
    r == Some(Ok("COMMAND SUCCESSFULL")) && Aligned(u) && Endpoints(u) == es && u.onlineroute == t.onlineroute
  }

  predicate IsSecure(word: string) {
    word == "ssl" || word == "SSL"
  }

  /** An address as an administrator types it. */
  function Typed(protocol: string, host: string, port: string): string {
    protocol + ":" + host + ":" + port
  }

  lemma TypedPieces(protocol: string, host: string, port: string)
    requires ':' !in protocol && ':' !in host && ':' !in port
    ensures Pieces(Typed(protocol, host, port), ":") == [protocol, host, port]
  {
    hide Pieces;
    var ps := [protocol, host, port];
    assert ps[1..] == [host, port] && ps[1..][1..] == [port];
    assert Join(ps[1..], ":") == host + ":" + port;
    assert Join(ps, ":") == Typed(protocol, host, port);
    SplitOfJoin(ps, ':');
  }

  lemma ReadTyped(protocol: string, host: string, port: int, resolve: Resolver)
    requires ':' !in protocol && ':' !in host
    ensures ReadEndpoint(Typed(protocol, host, Show(port)), resolve) ==
            match resolve(host)
            case None => Thrown("INVALID HOST SPECIFIED")
            case Some(ip) => Ok(Endpoint(ip, port, IsSecure(protocol)))
  {
    hide Pieces, Show, ReadInt;
    ShowLacksColon(port);
    TypedPieces(protocol, host, Show(port));
    ReadShow(port);
  }

  lemma Untouched(t: Routes, c: Command, u: Routes)
    requires Aligned(t) && Defined(c) && Effect(t, c, u) && (Answer(t, c) != Ok(DONE) || c.Unknown? || c.Refused?)
    ensures u == t
  {
    hide Answer;
    forall i | 0 <= i < t.siz ensures u.ip[i] == t.ip[i] && u.port[i] == t.port[i] && u.cssl[i] == t.cssl[i] {
      assert Endpoints(u)[i] == Endpoints(t)[i];
    }
    assert |Endpoints(u)| == |Endpoints(t)|;
  }

  /** DR: the endpoint at the index goes, those behind it move up; the route in use keeps its number. */
  lemma DeleteWords(t: Routes, name: string, i: int, more: seq<string>, resolve: Resolver,
                    r: Option<Result<string>>, u: Routes)
    requires Aligned(t) && Validated(t, [name, "DR", Show(i)] + more, resolve, r, u)
    ensures 0 <= i < t.siz ==> Becomes(t, Endpoints(t)[..i] + Endpoints(t)[i + 1..], r, u)
    ensures i >= t.siz ==> r == Some(Ok("UPDATE INDEX OUT OF RANGE")) && u == t
    ensures i < 0 <==> r == None
  {
    hide Endpoints, Show, ReadInt, Effect;
    ReadShow(i);
    assert Understood([name, "DR", Show(i)] + more, resolve) == Delete(i);
    if i >= t.siz {
      Untouched(t, Delete(i), u);
    } else if i >= 0 {
      Done(t, Delete(i), u);
    }
  }

  lemma Done(t: Routes, c: Command, u: Routes)
    requires Aligned(t) && Defined(c) && Effect(t, c, u) && Answer(t, c) == Ok(DONE)
    ensures Aligned(u) && u.onlineroute == if c.Change? then c.route else t.onlineroute
    ensures c.Change? ==> Endpoints(u) == Endpoints(t)
    ensures c.Add? ==> Endpoints(u) == Endpoints(t) + [c.endpoint]
    ensures c.Update? ==> 0 <= c.index < t.siz && Endpoints(u) == Endpoints(t)[c.index := c.endpoint]
    ensures c.Delete? ==>
      0 <= c.index < t.siz && Endpoints(u) == Endpoints(t)[..c.index] + Endpoints(t)[c.index + 1..]
  {
    hide Endpoints;
  }

  /** CR: sets the route in use, even to a negative one, once there are two routes to choose from. */
  lemma ChangeWords(t: Routes, name: string, i: int, more: seq<string>, resolve: Resolver,
                    r: Option<Result<string>>, u: Routes)
    requires Aligned(t) && Validated(t, [name, "CR", Show(i)] + more, resolve, r, u)
    ensures t.siz == 0 ==> r == Some(Ok("NO ROUTE EXISTS")) && u == t
    ensures t.siz == 1 ==> r == Some(Ok("INVALID ROUTE - ONLY A SINGLE ROUTE EXISTS")) && u == t
    ensures t.siz >= 2 && i >= t.siz ==>
      r == Some(Ok("INVALID ROUTE - SELECT ROUTE FROM 0-" + Show(t.siz - 1))) && u == t
    ensures t.siz >= 2 && i < t.siz ==>
      && r == Some(Ok("COMMAND SUCCESSFULL")) && Aligned(u) && Endpoints(u) == Endpoints(t)
      && u.onlineroute == i && Picked(u) == i
  {
    hide Endpoints, Show, ReadInt, Effect;
    ReadShow(i);
    var c := Change(i);
    assert Understood([name, "CR", Show(i)] + more, resolve) == c;
    if t.siz >= 2 && i < t.siz {
      Done(t, c, u);
      assert |Endpoints(u)| == u.siz;
    } else {
      NotDone(t, c);
      Untouched(t, c, u);
    }
  }

  lemma NotDone(t: Routes, c: Command)
    requires Aligned(t) && c.Change? && (t.siz < 2 || c.route >= t.siz)
    ensures Answer(t, c) != Ok(DONE)
  {
    hide Show;
    if t.siz >= 2 {
      assert (BAD_ROUTE + Show(t.siz - 1))[0] == 'I' && DONE[0] == 'C';
    } else {
      assert ONE_ROUTE[0] == 'I' && NO_ROUTE[0] == 'N' && DONE[0] == 'C';
    }
  }

  /** AR: the resolved address becomes the last endpoint. */
  lemma AddWords(t: Routes, name: string, protocol: string, host: string, port: int, more: seq<string>,
                 resolve: Resolver, r: Option<Result<string>>, u: Routes)
    requires Aligned(t) && ':' !in protocol && ':' !in host
    requires Validated(t, [name, "AR", Typed(protocol, host, Show(port))] + more, resolve, r, u)
    ensures match resolve(host)
      case None => r == Some(Ok("INVALID HOST SPECIFIED")) && u == t
      case Some(ip) => Becomes(t, Endpoints(t) + [Endpoint(ip, port, IsSecure(protocol))], r, u)
  {
    hide Endpoints, Show, ReadEndpoint, ReadInt, Effect, Typed;
    ReadTyped(protocol, host, port, resolve);
    var c := Understood([name, "AR", Typed(protocol, host, Show(port))] + more, resolve);
    match resolve(host)
    case None =>
      assert c == Refused(BAD_HOST);
      Untouched(t, c, u);
    case Some(ip) =>
      Done(t, c, u);
  }

  /** UR: with exactly four words the resolved address takes the place of the endpoint at the index. */
  lemma UpdateWords(t: Routes, name: string, protocol: string, host: string, port: int, more: seq<string>, i: int,
                    resolve: Resolver, r: Option<Result<string>>, u: Routes)
    requires Aligned(t) && ':' !in protocol && ':' !in host && (|more| == 1 ==> more[0] == Show(i))
    requires Validated(t, [name, "UR", Typed(protocol, host, Show(port))] + more, resolve, r, u)
    ensures match resolve(host)
      case None => r == Some(Ok("INVALID HOST SPECIFIED")) && u == t
      case Some(ip) =>
        && (|more| != 1 ==> r == Some(Ok("ARGUMENT MISSING - EXPECTED 4")) && u == t)
        && (|more| == 1 && i >= t.siz ==> r == Some(Ok("UPDATE INDEX OUT OF RANGE")) && u == t)
        && (|more| == 1 && i < 0 ==> r == Some(Thrown("out_of_range")) && u == t)
        && (|more| == 1 && 0 <= i < t.siz ==>
          Becomes(t, Endpoints(t)[i := Endpoint(ip, port, IsSecure(protocol))], r, u))
  {
    hide Endpoints, Show, ReadEndpoint, ReadInt, Effect, Typed;
    ReadTyped(protocol, host, port, resolve);
    ReadShow(i);
    var c := Understood([name, "UR", Typed(protocol, host, Show(port))] + more, resolve);
    match resolve(host)
    case None =>
      assert c == Refused(BAD_HOST);
      Untouched(t, c, u);
    case Some(ip) =>
      if |more| != 1 {
        assert c == Refused(MISSING);
        Untouched(t, c, u);
      } else {
        assert c == Update(Endpoint(ip, port, IsSecure(protocol)), i);
        if 0 <= i < t.siz {
          Done(t, c, u);
        } else {
          Untouched(t, c, u);
        }
      }
  }

  predicate IsWord(word: string) {
    word == "CR" || word == "DR" || word == "AR" || word == "UR"
  }

  /** Any other word is answered like an accepted command, and changes nothing. */
  lemma OtherWords(t: Routes, name: string, word: string, protocol: string, host: string, port: int,
                   more: seq<string>, resolve: Resolver, r: Option<Result<string>>, u: Routes)
    requires Aligned(t) && ':' !in protocol && ':' !in host && !IsWord(word) && resolve(host).Some?
    requires Validated(t, [name, word, Typed(protocol, host, Show(port))] + more, resolve, r, u)
    ensures r == Some(Ok("COMMAND SUCCESSFULL")) && u == t
  {
    hide Endpoints, Show, ReadEndpoint, ReadInt, Effect, Typed;
    ReadTyped(protocol, host, port, resolve);
    assert Understood([name, word, Typed(protocol, host, Show(port))] + more, resolve) == Unknown;
    Untouched(t, Unknown, u);
  }

  /** Words that are missing, are no numbers or are no addresses leave the table as it was. */
  lemma BadWords(t: Routes, cmd: seq<string>, resolve: Resolver, r: Option<Result<string>>, u: Routes)
    requires Aligned(t) && Validated(t, cmd, resolve, r, u)
    ensures |cmd| < 2 || (|cmd| == 2 && cmd[1] != "CR") ==> r == Some(Thrown("out_of_range")) && u == t
    ensures |cmd| >= 2 && cmd[1] == "CR" && (|cmd| == 2 || ReadInt(cmd[2]).Thrown?) ==>
      r == Some(Ok("INVALID ARGUMENT")) && u == t
    ensures |cmd| > 2 && cmd[1] == "DR" && ReadInt(cmd[2]).Thrown? ==>
      r == Some(Ok("INVALID UPDATE INDEX SPECIFIED")) && u == t
    ensures |cmd| == 4 && cmd[1] == "UR" && ReadEndpoint(cmd[2], resolve).Ok? && ReadInt(cmd[3]).Thrown? ==>
      r == Some(Ok("INVALID UPDATE INDEX SPECIFIED")) && u == t
  {
    hide Endpoints, Show, ReadEndpoint, ReadInt, Effect;
    var c := Understood(cmd, resolve);
    if c.Short? || c.Refused? {
      Untouched(t, c, u);
    }
  }

  /** An address that is not three parts, or whose port is no number, is refused before its host is looked up. */
  lemma BadAddress(t: Routes, name: string, word: string, parts: seq<string>, more: seq<string>, resolve: Resolver,
                   r: Option<Result<string>>, u: Routes)
    requires Aligned(t) && word != "CR" && word != "DR"
    requires |parts| >= 1 && forall k :: 0 <= k < |parts| ==> ':' !in parts[k]
    requires Validated(t, [name, word, Join(parts, ":")] + more, resolve, r, u)
    ensures |parts| != 3 ==> r == Some(Ok("INVALID ENDPOINT DETAILS")) && u == t
    ensures |parts| == 3 && ReadInt(parts[2]).Thrown? ==> r == Some(Ok("INVALID PORT SPECIFIED")) && u == t
  {
    hide *;
    SplitOfJoin(parts, ':');
    if |parts| != 3 || ReadInt(parts[2]).Thrown? {
      ReadsNoEndpoint(Join(parts, ":"), resolve);
      var answer := ReadEndpoint(Join(parts, ":"), resolve).message;
      AsksForEndpoint(name, word, Join(parts, ":"), more, resolve);
      RefusedAs(t, answer, [name, word, Join(parts, ":")] + more, resolve, r, u);
    }
  }

  lemma ReadsNoEndpoint(address: string, resolve: Resolver)
    ensures var parts := Pieces(address, ":");
      && (|parts| != 3 ==> ReadEndpoint(address, resolve) == Thrown("INVALID ENDPOINT DETAILS"))
      && (|parts| == 3 && ReadInt(parts[2]).Thrown? ==>
        ReadEndpoint(address, resolve) == Thrown("INVALID PORT SPECIFIED"))
  {
  }

  lemma AsksForEndpoint(name: string, word: string, address: string, more: seq<string>, resolve: Resolver)
    requires word != "CR" && word != "DR"
    ensures ReadEndpoint(address, resolve).Thrown? ==>
      Understood([name, word, address] + more, resolve) == Refused(ReadEndpoint(address, resolve).message)
  {
    hide ReadEndpoint;
  }

  lemma RefusedAs(t: Routes, answer: string, cmd: seq<string>, resolve: Resolver,
                  r: Option<Result<string>>, u: Routes)
    requires Aligned(t) && Validated(t, cmd, resolve, r, u) && Understood(cmd, resolve) == Refused(answer)
    ensures r == Some(Ok(answer)) && u == t
  {
    hide Understood, Effect, Endpoints;
    Untouched(t, Refused(answer), u);
  }

  // ----------------------------------------------------------------- the configured addresses

  lemma ConfiguredTyped(protocol: string, host: string, port: int)
    requires ':' !in protocol && ':' !in host
    ensures ConfiguredOne(Typed(protocol, host, Show(port))) == WellFormed(Endpoint(host, port, IsSecure(protocol)))
  {
    hide Pieces, Show, ReadInt, Typed;
    ShowLacksColon(port);
    TypedPieces(protocol, host, Show(port));
    ReadShow(port);
  }

  /** The printed addresses of a list of endpoints are configured as that list; the host is not resolved. */
  lemma {:induction false} ConfiguredPrinted(protocols: seq<string>, es: seq<Endpoint>, addresses: seq<string>)
    requires |protocols| == |es| == |addresses|
    requires forall k :: 0 <= k < |es| ==>
      && ':' !in protocols[k] && ':' !in es[k].ip && es[k].ssl == IsSecure(protocols[k])
      && addresses[k] == Typed(protocols[k], es[k].ip, Show(es[k].port))
    ensures Configured(addresses) == Some(es)
  {
    hide Typed, Show, ConfiguredOne, IsSecure;
    if es != [] {
      var n := |es| - 1;
      ConfiguredPrinted(protocols[..n], es[..n], addresses[..n]);
      ConfiguredTyped(protocols[n], es[n].ip, es[n].port);
      assert es == es[..n] + [es[n]];
    }
  }

  /** An address that does not have three parts makes no difference, wherever it stands. */
  lemma {:induction false} MalformedIsSkipped(before: seq<string>, parts: seq<string>, after: seq<string>)
    requires |parts| >= 1 && |parts| != 3 && forall k :: 0 <= k < |parts| ==> ':' !in parts[k]
    ensures Configured(before + [Join(parts, ":")] + after) == Configured(before + after)
  {
    hide ConfiguredOne, Pieces, Join;
    var all := before + [Join(parts, ":")] + after;
    if after == [] {
      assert all[..|before|] == before && before + after == before;
      SplitOfJoin(parts, ':');
      NotThreeParts(Join(parts, ":"));
    } else {
      var n := |after| - 1;
      MalformedIsSkipped(before, parts, after[..n]);
      assert all[..|all| - 1] == before + [Join(parts, ":")] + after[..n];
      assert (before + after)[..|before| + n] == before + after[..n];
    }
  }

  lemma NotThreeParts(address: string)
    requires |Pieces(address, ":")| != 3
    ensures ConfiguredOne(address) == Malformed
  {
  }

  /** An address of three parts whose port is no number ends the process, wherever it stands. */
  lemma BadPortExits(addresses: seq<string>, j: nat, parts: seq<string>)
    requires j < |addresses| && |parts| == 3 && addresses[j] == Join(parts, ":")
    requires (forall k :: 0 <= k < 3 ==> ':' !in parts[k]) && ReadInt(parts[2]).Thrown?
    ensures Configured(addresses) == None
  {
    hide Pieces, Join, ReadInt, Configured, ConfiguredOne;
    SplitOfJoin(parts, ':');
    PortIsUnreadable(addresses[j]);
    ConfiguredStep(addresses, j);
    ConfiguredStops(addresses, j + 1);
  }

  lemma PortIsUnreadable(address: string)
    requires var parts := Pieces(address, ":"); |parts| == 3 && ReadInt(parts[2]).Thrown?
    ensures ConfiguredOne(address) == BadPort
  {
  }
}
