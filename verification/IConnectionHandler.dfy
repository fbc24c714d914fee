/** The rewriting of a text request before it is sent to the chosen server. */
module ConnectionHandlers {
  import opened Wrappers
  import opened StringUtil
  import opened CastUtil
  import opened BufferedReaders
  import opened RequestFraming
  import ConnectionPools

  const CLOSE := "Connection: close"

  /** The four spellings of keep-alive, in the order in which service looks for them. */
  function Spelling(k: nat): string {
    if k == 0 then "Connection: keep-alive"
    else if k == 1 then "Connection: Keep-alive"
    else if k == 2 then "Connection: Keep-Alive"
    else "Connection: keep-Alive"
  }

  /** The text in which the first `k` spellings have been replaced, each at its first place. */
  function ClosedAt(data: string, k: nat): string {
    if k == 0 then data else ReplacedFirst(ClosedAt(data, k - 1), Spelling(k - 1), CLOSE)
  }

  function Serviced(data: string, host: string): string {
    ReplacedFirst(ClosedAt(data, 4), PLACEHOLDER, host)
  }

  /** How the service of a request ends. NullConnection stands for the use of a null pointer, which is undefined. */
  datatype Delivery = Sent(data: string) | Dropped | NullConnection | Exited(code: int) | Escaped(exception: string)

  class IConnectionHandler {
    var fds: map<int, bool>

    constructor ()
      ensures fds == map[]
    {
      fds := map[];
    }

    /**
      service up to sendData. `open` says whether the client is still there; `chosen` is what
      getConnection does, with the server's connection when it returns one.
     */
    method Service(fd: int, request: string, isText: bool, open: bool, chosen: ConnectionPools.Outcome)
      returns (r: Delivery)
      modifies this`fds
      ensures r ==
        if !open then Dropped
        else match chosen
             case Got(c) => if !c.up then Dropped else Sent(if isText then Serviced(request, c.host) else request)
             case NoConnection => NullConnection
             case Quit(_) => Exited(0)
             case Failed(e) => Delivery.Escaped(e)
      ensures fds == if r == Dropped then old(fds)[fd := true] else old(fds)
    {
      hide ReplacedFirst;
      if !open {
        fds := fds[fd := true];
        return Dropped;
      }
      match chosen
      case Quit(_) => return Exited(0);
      case Failed(e) => return Delivery.Escaped(e);
      case NoConnection => return NullConnection;
      case Got(conn) =>
        if !conn.up {
          fds := fds[fd := true];
          return Dropped;
        }
        var data := request;
        if isText {
          data := ReplaceFirst(data, "Connection: keep-alive", "Connection: close");
          data := ReplaceFirst(data, "Connection: Keep-alive", "Connection: close");
          data := ReplaceFirst(data, "Connection: Keep-Alive", "Connection: close");
          data := ReplaceFirst(data, "Connection: keep-Alive", "Connection: close");
          ClosedFour(request);
          data := ReplaceFirst(data, PLACEHOLDER, conn.host);
        }
        return Sent(data);
    }
  }

  lemma ClosedFour(data: string)
    ensures ClosedAt(data, 4) ==
            ReplacedFirst(
              ReplacedFirst(
                ReplacedFirst(
                  ReplacedFirst(data, "Connection: keep-alive", CLOSE), "Connection: Keep-alive", CLOSE),
                "Connection: Keep-Alive", CLOSE),
              "Connection: keep-Alive", CLOSE)
  {
    hide ReplacedFirst;
    assert ClosedAt(data, 0) == data;
    assert ClosedAt(data, 1) == ReplacedFirst(data, "Connection: keep-alive", CLOSE);
    assert ClosedAt(data, 2) == ReplacedFirst(ClosedAt(data, 1), "Connection: Keep-alive", CLOSE);
    assert ClosedAt(data, 3) == ReplacedFirst(ClosedAt(data, 2), "Connection: Keep-Alive", CLOSE);
  }

  // ----------------------------------------------------------- replacing around a middle part

  /** The text before and after the placeholder line. */
  datatype Around = Around(before: string, after: string)

  function FirstIn(s: Around, p: string, w: string): Around {
    if Contains(s.before, p) then Around(ReplacedFirst(s.before, p, w), s.after)
    else Around(s.before, ReplacedFirst(s.after, p, w))
  }

  function ClosedIn(s: Around, k: nat): Around {
    if k == 0 then s else FirstIn(ClosedIn(s, k - 1), Spelling(k - 1), CLOSE)
  }

  lemma ReplacedFirstIn(s: string, p: string, w: string)
    ensures Find(s, p, 0).None? ==> ReplacedFirst(s, p, w) == s
    ensures Find(s, p, 0).Some? ==>
      var i := Find(s, p, 0).value; i + |p| <= |s| && ReplacedFirst(s, p, w) == s[..i] + w + s[i + |p|..]
  {
  }

  lemma FindAcross(a: string, m: string, b: string, p: string)
    requires p != "" && m != "" && m[0] !in p && m[|m| - 1] !in p && !Contains(m, p)
    ensures Find(a + (m + b), p, 0) ==
            if Find(a, p, 0).Some? then Find(a, p, 0) else Shifted(Find(b, p, 0), |a| + |m|)
  {
    hide Find, NoStraddle;
    SeamSeparates(a, m + b, p);
    SeamSeparates(m, b, p);
    FindConcat(a, m + b, p);
    FindConcat(m, b, p);
  }

  lemma FirstInCases(a: string, b: string, p: string, w: string)
    ensures FirstIn(Around(a, b), p, w) ==
            if Find(a, p, 0).Some? then Around(ReplacedFirst(a, p, w), b) else Around(a, ReplacedFirst(b, p, w))
  {
  }

  /** A middle part that the pattern neither touches nor occurs in is passed over. */
  lemma FirstAcross(a: string, m: string, b: string, p: string, w: string)
    requires p != "" && m != "" && m[0] !in p && m[|m| - 1] !in p && !Contains(m, p)
    ensures var r := FirstIn(Around(a, b), p, w);
      ReplacedFirst(a + (m + b), p, w) == r.before + (m + r.after)
  {
    hide Find, ReplacedFirst, FirstIn, Contains, Shifted;
    FindAcross(a, m, b, p);
    FirstInCases(a, b, p, w);
    if Find(a, p, 0).Some? {
      ReplacedBefore(a, m + b, p, w);
    } else {
      ReplacedBehind(a, m, b, p, w);
    }
  }

  lemma ReplacedBefore(a: string, b: string, p: string, w: string)
    requires Find(a, p, 0).Some? && Find(a + b, p, 0) == Find(a, p, 0)
    ensures ReplacedFirst(a + b, p, w) == ReplacedFirst(a, p, w) + b
  {
    hide *;
    ReplacedFirstIn(a + b, p, w);
    ReplacedFirstIn(a, p, w);
    SplitLeft(a, b, Find(a, p, 0).value, |p|, w);
  }

  lemma ReplacedBehind(a: string, m: string, b: string, p: string, w: string)
    requires Find(a + (m + b), p, 0) == Shifted(Find(b, p, 0), |a| + |m|)
    ensures ReplacedFirst(a + (m + b), p, w) == a + (m + ReplacedFirst(b, p, w))
  {
    hide *;
    var s := a + (m + b);
    ReplacedFirstIn(s, p, w);
    ReplacedFirstIn(b, p, w);
    ShiftedIs(Find(b, p, 0), |a| + |m|);
    if Find(b, p, 0).Some? {
      SplitRight(s, a, m, b, Find(s, p, 0).value, Find(b, p, 0).value, |p|, w);
    }
  }

  lemma ShiftedIs(o: Option<nat>, n: nat)
    ensures o.Some? ==> Shifted(o, n) == Some(o.value + n)
    ensures o.None? ==> Shifted(o, n) == None
  {
  }

  lemma SplitLeft(a: string, b: string, i: nat, n: nat, w: string)
    requires i + n <= |a|
    ensures (a + b)[..i] + w + (a + b)[i + n..] == (a[..i] + w + a[i + n..]) + b
  {
    assert (a + b)[..i] == a[..i] && (a + b)[i + n..] == a[i + n..] + b;
  }

  lemma SplitRight(s: string, a: string, m: string, b: string, i: nat, j: nat, n: nat, w: string)
    requires j + n <= |b| && s == a + (m + b) && i == j + (|a| + |m|)
    ensures s[..i] + w + s[i + n..] == a + (m + (b[..j] + w + b[j + n..]))
  {
    assert s[..i] == a + (m + b[..j]) && s[i + n..] == b[j + n..];
  }

  /** Putting in a text that shares no end with the pattern brings no occurrence about. */
  lemma NotIntroduced(x: string, c: string, y: string, p: string, j: nat)
    requires p != "" && p[0] !in c && p[|p| - 1] !in c && j < |c| && c[j] !in p
    requires forall k :: !OccursAt(x, p, k)
    requires forall k :: !OccursAt(y, p, k)
    ensures !Contains(x + c + y, p)
  {
    hide OccursAt, Find;
    var s := x + c + y;
    forall k ensures !OccursAt(s, p, k) {
      assert s == x + (c + y);
      OccursInStart(x, c + y, p, k);
      OccursInTail(x + c, y, p, k);
      InMiddle(x, c, y, k);
      InMiddle(x, c, y, k + |p| - 1);
      InMiddle(x, c, y, |x| + j);
      if OccursAt(s, p, k) {
        OccursFits(s, p, k);
        OccursChar(s, p, k, 0);
        OccursChar(s, p, k, |p| - 1);
        if k <= |x| + j < k + |p| {
          OccursChar(s, p, k, |x| + j - k);
        }
      }
    }
  }

  lemma InMiddle(x: string, c: string, y: string, i: int)
    ensures |x| <= i < |x| + |c| ==> (x + c + y)[i] in c && (x + c + y)[i] == c[i - |x|]
  {
  }

  lemma OccursInStart(a: string, b: string, p: string, k: int)
    requires forall i :: !OccursAt(a, p, i)
    ensures k + |p| <= |a| ==> !OccursAt(a + b, p, k)
  {
    if k + |p| <= |a| {
      OccursInLeft(a, b, p, k);
    }
  }

  lemma OccursInTail(a: string, b: string, p: string, k: int)
    requires forall i :: !OccursAt(b, p, i)
    ensures k >= |a| ==> !OccursAt(a + b, p, k)
  {
    if k >= |a| {
      OccursInRight(a, b, p, k - |a|);
    }
  }

  lemma PlaceholderNotIntroduced(s: string, p: string)
    requires !Contains(s, PLACEHOLDER)
    ensures !Contains(ReplacedFirst(s, p, CLOSE), PLACEHOLDER)
  {
    hide OccursAt, Find, ReplacedFirst;
    ReplacedFirstIn(s, p, CLOSE);
    match Find(s, p, 0)
    case None =>
    case Some(i) =>
      var x, y := s[..i], s[i + |p|..];
      PlaceholderEnds();
      forall k ensures !OccursAt(x, PLACEHOLDER, k) {
        if OccursAt(x, PLACEHOLDER, k) {
          OccursFits(x, PLACEHOLDER, k);
          assert s == x + s[i..];
          OccursInLeft(x, s[i..], PLACEHOLDER, k);
        }
      }
      forall k ensures !OccursAt(y, PLACEHOLDER, k) {
        if OccursAt(y, PLACEHOLDER, k) {
          OccursFits(y, PLACEHOLDER, k);
          assert s == s[..i + |p|] + y;
          OccursInRight(s[..i + |p|], y, PLACEHOLDER, k);
        }
      }
      NotIntroduced(x, CLOSE, y, PLACEHOLDER, 11);
  }

  lemma TokenLacks(c: char)
    requires c == '{' || c == '}' || c == ' ' || c == 'n'
    ensures |TOKEN| == 49 && c !in TOKEN
  {
  }

  lemma PlaceholderEnds()
    ensures |PLACEHOLDER| == 51 && PLACEHOLDER[0] == '{' && PLACEHOLDER[50] == '}'
    ensures '{' !in CLOSE && '}' !in CLOSE && |CLOSE| == 17 && CLOSE[11] == ' ' && ' ' !in PLACEHOLDER
  {
    TokenLacks(' ');
  }

  lemma OneBrace(k: nat)
    requires 0 < k < 51
    ensures |PLACEHOLDER| == 51 && PLACEHOLDER[k] != '{'
  {
    TokenLacks('{');
    if k < 50 {
      assert PLACEHOLDER[k] == TOKEN[k - 1] && TOKEN[k - 1] in TOKEN;
    }
  }

  lemma SpellingShape(k: nat)
    ensures |Spelling(k)| > 2 && Spelling(k)[2] == 'n' && 'H' !in Spelling(k)
  {
  }

  lemma SpellingLacks(k: nat, c: char)
    requires c == '{' || c == '}'
    ensures c !in Spelling(k)
  {
  }

  lemma HostLineShape()
    ensures |HOST_LINE| == 57 && HOST_LINE[0] == 'H' && HOST_LINE[56] == '}' && 'n' !in HOST_LINE
  {
    TokenLacks('n');
  }

  // ----------------------------------------------------------- the host of the chosen server

  lemma SpellingMissesHostLine(k: nat)
    ensures Spelling(k) != "" && HOST_LINE != "" && HOST_LINE[0] !in Spelling(k)
    ensures HOST_LINE[|HOST_LINE| - 1] !in Spelling(k) && !Contains(HOST_LINE, Spelling(k))
  {
    hide Spelling, Contains;
    SpellingShape(k);
    SpellingLacks(k, '}');
    HostLineShape();
    NotContained(HOST_LINE, Spelling(k), 'n');
  }

  /** A spelling and a placeholder never overlap. */
  lemma NoOverlap(s: string, j: nat, i: nat, k: nat)
    requires OccursAt(s, Spelling(j), i) && OccursAt(s, PLACEHOLDER, k)
    ensures k + |PLACEHOLDER| <= i || i + |Spelling(j)| <= k
  {
    hide OccursAt, Spelling;
    var p := Spelling(j);
    SpellingShape(j);
    SpellingLacks(j, '{');
    SpellingLacks(j, '}');
    PlaceholderEnds();
    PlaceholderLacksN();
    OccursFits(s, p, i);
    OccursFits(s, PLACEHOLDER, k);
    OccursChar(s, PLACEHOLDER, k, 0);
    OccursChar(s, PLACEHOLDER, k, 50);
    OccursChar(s, p, i, 2);
    if i <= k < i + |p| {
      OccursChar(s, p, i, k - i);
    } else if i <= k + 50 < i + |p| {
      OccursChar(s, p, i, k + 50 - i);
    } else if k <= i + 2 < k + 51 {
      OccursChar(s, PLACEHOLDER, k, i + 2 - k);
    }
  }

  lemma PlaceholderLacksN()
    ensures 'n' !in PLACEHOLDER
  {
    TokenLacks('n');
  }

  lemma OccursMeansContained(s: string, p: string, k: int)
    requires OccursAt(s, p, k)
    ensures Contains(s, p)
  {
    hide OccursAt, Find;
    OccursFits(s, p, k);
  }

  /** Closing a connection leaves every placeholder in place. */
  lemma PlaceholderSurvives(s: string, j: nat)
    requires Contains(s, PLACEHOLDER)
    ensures Contains(ReplacedFirst(s, Spelling(j), CLOSE), PLACEHOLDER)
  {
    hide OccursAt, Find, ReplacedFirst, Spelling;
    var p := Spelling(j);
    ReplacedFirstIn(s, p, CLOSE);
    if Find(s, p, 0).Some? {
      var i, k := Find(s, p, 0).value, Find(s, PLACEHOLDER, 0).value;
      var x, y := s[..i], s[i + |p|..];
      NoOverlap(s, j, i, k);
      OccursFits(s, PLACEHOLDER, k);
      if k + |PLACEHOLDER| <= i {
        assert s == x + s[i..];
        OccursInLeft(x, s[i..], PLACEHOLDER, k);
        OccursInLeft(x, CLOSE + y, PLACEHOLDER, k);
        assert x + CLOSE + y == x + (CLOSE + y);
        OccursMeansContained(x + CLOSE + y, PLACEHOLDER, k);
      } else {
        assert s == s[..i + |p|] + y;
        OccursInRight(s[..i + |p|], y, PLACEHOLDER, k - i - |p|);
        OccursInRight(x + CLOSE, y, PLACEHOLDER, k - i - |p|);
        OccursMeansContained(x + CLOSE + y, PLACEHOLDER, |x + CLOSE| + (k - i - |p|));
      }
    }
  }

  /**
    Closing connections leaves the placeholder line between the two parts alone, and neither puts a
    placeholder before it nor takes one away there.
   */
  lemma {:induction false} ClosedAround(s: Around, k: nat)
    ensures ClosedAt(s.before + (HOST_LINE + s.after), k) == ClosedIn(s, k).before + (HOST_LINE + ClosedIn(s, k).after)
    ensures Contains(ClosedIn(s, k).before, PLACEHOLDER) <==> Contains(s.before, PLACEHOLDER)
  {
    hide Contains, Spelling, ReplacedFirst;
    if k > 0 {
      ClosedAround(s, k - 1);
      var r, p := ClosedIn(s, k - 1), Spelling(k - 1);
      SpellingMissesHostLine(k - 1);
      FirstAcross(r.before, HOST_LINE, r.after, p, CLOSE);
      if Contains(r.before, PLACEHOLDER) {
        PlaceholderSurvives(r.before, k - 1);
      } else {
        PlaceholderNotIntroduced(r.before, p);
      }
    }
  }

  lemma HostPart(after: string)
    ensures HOST_LINE + after == "Host: " + (PLACEHOLDER + after) && PLACEHOLDER != ""
    ensures |"Host: "| == 6 && '}' !in "Host: "
  {
  }

  lemma BraceApart(before: string)
    requires !Contains(before, PLACEHOLDER)
    ensures forall k :: 0 <= k && k + |PLACEHOLDER| <= |before| + 6 ==> !OccursAt(before + "Host: ", PLACEHOLDER, k)
  {
    hide OccursAt, Find;
    var a := before + "Host: ";
    HostPart("");
    PlaceholderEnds();
    forall k | 0 <= k && k + 51 <= |a| ensures !OccursAt(a, PLACEHOLDER, k) {
      if k + 51 <= |before| {
        OccursInLeft(before, "Host: ", PLACEHOLDER, k);
      } else {
        assert a[k + 50] == "Host: "[k + 50 - |before|] && a[k + 50] in "Host: ";
        if OccursAt(a, PLACEHOLDER, k) {
          OccursChar(a, PLACEHOLDER, k, 50);
        }
      }
    }
  }

  /** The first placeholder is the one in the placeholder line. */
  lemma FirstPlaceholder(before: string, after: string)
    requires !Contains(before, PLACEHOLDER)
    ensures Find(before + (HOST_LINE + after), PLACEHOLDER, 0) == Some(|before| + 6)
  {
    hide *;
    var a, s := before + "Host: ", before + (HOST_LINE + after);
    HostPart(after);
    assert s == a + (PLACEHOLDER + after);
    PlaceholderEnds();
    BraceApart(before);
    forall k | 0 <= k < |a| ensures !OccursAt(s, PLACEHOLDER, k) {
      if k + 51 <= |a| {
        OccursInLeft(a, PLACEHOLDER + after, PLACEHOLDER, k);
      } else {
        OneBrace(|a| - k);
        assert s[|a|] == '{';
        if OccursAt(s, PLACEHOLDER, k) {
          OccursChar(s, PLACEHOLDER, k, |a| - k);
        }
      }
    }
    OccursInRight(a, PLACEHOLDER + after, PLACEHOLDER, 0);
    OccursAtFront(PLACEHOLDER, after);
    LeastIsFound(s, PLACEHOLDER, |a|);
  }

  lemma OccursAtFront(p: string, b: string)
    ensures OccursAt(p + b, p, 0)
  {
  }

  lemma HostInserted(before: string, after: string, host: string)
    requires !Contains(before, PLACEHOLDER)
    ensures ReplacedFirst(before + (HOST_LINE + after), PLACEHOLDER, host) == before + "Host: " + host + after
  {
    hide Find, Contains, ReplacedFirst;
    var s := before + (HOST_LINE + after);
    FirstPlaceholder(before, after);
    ReplacedFirstIn(s, PLACEHOLDER, host);
    HostPart(after);
    assert s == (before + "Host: ") + (PLACEHOLDER + after);
    assert s[..|before| + 6] == before + "Host: ";
    assert s[|before| + 6 + |PLACEHOLDER|..] == after;
  }

  /** A placeholder that the client sent takes the replacement. */
  lemma HostTaken(before: string, after: string, host: string)
    requires Contains(before, PLACEHOLDER)
    ensures ReplacedFirst(before + after, PLACEHOLDER, host) == ReplacedFirst(before, PLACEHOLDER, host) + after
  {
    hide OccursAt, Find, ReplacedFirst;
    var i, s := Find(before, PLACEHOLDER, 0).value, before + after;
    OccursFits(before, PLACEHOLDER, i);
    OccursInLeft(before, after, PLACEHOLDER, i);
    forall k | 0 <= k < i ensures !OccursAt(s, PLACEHOLDER, k) {
      OccursInLeft(before, after, PLACEHOLDER, k);
    }
    LeastIsFound(s, PLACEHOLDER, i);
    ReplacedBefore(before, after, PLACEHOLDER, host);
  }

  lemma LongHost(host: string, y: string, z: string)
    requires |host| >= |PLACEHOLDER| && host + y == PLACEHOLDER + z
    ensures Contains(host, PLACEHOLDER)
  {
    hide Find, OccursAt, PLACEHOLDER;
    var n := |PLACEHOLDER|;
    assert host[0..n] == (host + y)[..n] == (PLACEHOLDER + z)[..n] == PLACEHOLDER;
    OccursFromSlice(host, PLACEHOLDER);
    OccursMeansContained(host, PLACEHOLDER, 0);
  }

  lemma ShortHost(host: string, z: string)
    requires |host| < 51 && z != "" && z[|z| - 1] != '}'
    ensures host + (z + PLACEHOLDER) != PLACEHOLDER + (z + host)
  {
    PlaceholderEnds();
    hide PLACEHOLDER;
    var u, v, n := host + (z + PLACEHOLDER), PLACEHOLDER + (z + host), |host|;
    assert u[|u| - 1] == '}' && |u| == |v|;
    if n == 0 {
      assert v[|v| - 1] == z[|z| - 1];
    } else {
      NoClosingBrace(n - 1);
      assert v[|v| - 1] == host[n - 1] == u[n - 1] && v[n - 1] == PLACEHOLDER[n - 1];
    }
  }

  /** A host and a placeholder around the same text can be told apart when the host has no placeholder in it. */
  lemma NotSwapped(host: string, z: string)
    requires !Contains(host, PLACEHOLDER) && z != "" && z[|z| - 1] != '}'
    ensures host + (z + PLACEHOLDER) != PLACEHOLDER + (z + host)
  {
    PlaceholderEnds();
    hide Contains, PLACEHOLDER;
    if |host| < 51 {
      ShortHost(host, z);
    } else if host + (z + PLACEHOLDER) == PLACEHOLDER + (z + host) {
      LongHost(host, z + PLACEHOLDER, z + host);
    }
  }

  lemma OccursFromSlice(s: string, p: string)
    requires |p| <= |s| && s[0..|p|] == p
    ensures OccursAt(s, p, 0)
  {
  }

  lemma NoClosingBrace(k: nat)
    requires k < 50
    ensures |PLACEHOLDER| == 51 && PLACEHOLDER[k] != '}'
  {
    TokenLacks('}');
    if k > 0 {
      assert PLACEHOLDER[k] == TOKEN[k - 1] && TOKEN[k - 1] in TOKEN;
    }
  }

  lemma CommonEnds(x: string, u: string, v: string, y: string)
    requires |u| == |v| && x + u + y == x + v + y
    ensures u == v
  {
    assert (x + u + y)[|x|..|x| + |u|] == u && (x + v + y)[|x|..|x| + |v|] == v;
  }

  /** Then the placeholder line keeps its placeholder. */
  lemma HostTakenDiffers(before: string, after: string, host: string)
    requires Contains(before, PLACEHOLDER) && !Contains(host, PLACEHOLDER)
    ensures ReplacedFirst(before, PLACEHOLDER, host) + (HOST_LINE + after) != before + "Host: " + host + after
  {
    hide OccursAt, Find, ReplacedFirst;
    var i := Find(before, PLACEHOLDER, 0).value;
    ReplacedFirstIn(before, PLACEHOLDER, host);
    FoundParts(before, PLACEHOLDER, i);
    var x, z := before[..i], before[i + |PLACEHOLDER|..] + "Host: ";
    HostPart(after);
    var u, v := host + (z + PLACEHOLDER), PLACEHOLDER + (z + host);
    NotSwapped(host, z);
    Swapped(x, host, before[i + |PLACEHOLDER|..], after);
    if x + u + after == x + v + after {
      CommonEnds(x, u, v, after);
    }
  }

  lemma Swapped(x: string, host: string, y: string, after: string)
    ensures x + host + y + (HOST_LINE + after) == x + (host + ((y + "Host: ") + PLACEHOLDER)) + after
    ensures x + PLACEHOLDER + y + "Host: " + host + after == x + (PLACEHOLDER + ((y + "Host: ") + host)) + after
  {
    HostPart(after);
    hide *;
    Associations(x, host, y, "Host: ", PLACEHOLDER, after);
    Associations(x, PLACEHOLDER, y, "Host: ", host, after);
  }

  lemma Associations(a: string, b: string, c: string, d: string, e: string, f: string)
    ensures a + b + c + (d + (e + f)) == a + (b + ((c + d) + e)) + f
    ensures a + b + c + d + e + f == a + (b + ((c + d) + e)) + f
  {
  }

  /**
    The placeholder line becomes the line that names the chosen server, and the rest changes only in the
    first keep-alive of each spelling, exactly when no placeholder comes before it; otherwise the first
    of those takes the name. The name itself must not contain a placeholder for the second half.
   */
  lemma ServiceNamesHost(before: string, after: string, host: string)
    ensures var r, sent := ClosedIn(Around(before, after), 4), Serviced(before + (HOST_LINE + after), host);
      && (!Contains(before, PLACEHOLDER) ==> sent == r.before + "Host: " + host + r.after)
      && (Contains(before, PLACEHOLDER) ==> sent == ReplacedFirst(r.before, PLACEHOLDER, host) + (HOST_LINE + r.after))
      && (!Contains(host, PLACEHOLDER) ==>
        (sent == r.before + "Host: " + host + r.after <==> !Contains(before, PLACEHOLDER)))
  {
    hide Find, Contains, ReplacedFirst, ClosedIn, ClosedAt;
    ClosedAround(Around(before, after), 4);
    var r := ClosedIn(Around(before, after), 4);
    if Contains(before, PLACEHOLDER) {
      HostTaken(r.before, HOST_LINE + r.after, host);
      if !Contains(host, PLACEHOLDER) {
        HostTakenDiffers(r.before, r.after, host);
      }
    } else {
      HostInserted(r.before, r.after, host);
    }
  }

  lemma {:induction false} NothingToClose(k: nat)
    ensures ClosedIn(Around(PLACEHOLDER, ""), k) == Around(PLACEHOLDER, "")
  {
    hide Contains, Spelling, ReplacedFirst, PLACEHOLDER;
    if k > 0 {
      NothingToClose(k - 1);
      SpellingShape(k - 1);
      PlaceholderLacksN();
      NotContained(PLACEHOLDER, Spelling(k - 1), 'n');
      NotContained("", Spelling(k - 1), 'n');
      ReplacedNowhere("", Spelling(k - 1), CLOSE);
    }
  }

  /** A host with placeholders in it that looks right although a placeholder comes before the line. */
  lemma NestedHost()
    ensures var host := PLACEHOLDER + "Host: " + PLACEHOLDER;
      && Contains(PLACEHOLDER, PLACEHOLDER)
      && Serviced(PLACEHOLDER + (HOST_LINE + ""), host) == PLACEHOLDER + "Host: " + host + ""
  {
    var host := PLACEHOLDER + "Host: " + PLACEHOLDER;
    PlaceholderFound(host);
    HostPart("");
    hide *;
    NothingToClose(4);
    ServiceNamesHost(PLACEHOLDER, "", host);
  }

  lemma PlaceholderFound(host: string)
    ensures Contains(PLACEHOLDER, PLACEHOLDER) && ReplacedFirst(PLACEHOLDER, PLACEHOLDER, host) == host
  {
    hide PLACEHOLDER;
    PlaceholderEnds();
    ReplacedWhole(PLACEHOLDER, host);
  }

  lemma {:induction false} LinesConcat(ls: seq<string>, ms: seq<string>)
    ensures Lines(ls + ms) == Lines(ls) + Lines(ms)
  {
    if ls == [] {
      assert ls + ms == ms;
    } else {
      assert (ls + ms)[0] == ls[0] && (ls + ms)[1..] == ls[1..] + ms;
      LinesConcat(ls[1..], ms);
      Regroup(ls[0] + "\n", Lines(ls[1..]), Lines(ms));
    }
  }

  /** A request splits at its first line with "Host:". */
  lemma LinesAtHost(ls: seq<string>, j: nat)
    requires j < |ls| && Contains(ls[j], "Host:") && forall k :: 0 <= k < j ==> !Contains(ls[k], "Host:")
    ensures Lines(AllHosted(ls)) == Lines(ls[..j]) + (HOST_LINE + ("\n" + Lines(AllHosted(ls[j + 1..]))))
  {
    hide Contains, Lines;
    var hs := AllHosted(ls);
    assert hs == ls[..j] + ([HOST_LINE] + AllHosted(ls[j + 1..]));
    LinesConcat(ls[..j], [HOST_LINE] + AllHosted(ls[j + 1..]));
    LinesCons(HOST_LINE, AllHosted(ls[j + 1..]));
  }

  lemma LinesCons(l: string, ls: seq<string>)
    ensures Lines([l] + ls) == l + ("\n" + Lines(ls))
  {
    assert ([l] + ls)[1..] == ls;
  }

  /** From the socket to the server: the first Host line of a request names the chosen server. */
  lemma RequestNamesHost(ls: seq<string>, d: string, hdr: string, rest: string, j: nat, host: string)
    requires IsLine(d) && (forall k :: 0 <= k < |ls| ==> IsHeader(ls[k], d + "\n")) && LengthAfter(ls, hdr, 0).Ok?
    requires j < |ls| && Contains(ls[j], "Host:") && forall k :: 0 <= k < j ==> !Contains(ls[k], "Host:")
    requires !Contains(Lines(ls[..j]), PLACEHOLDER)
    ensures var delm, n := d + "\n", LengthAfter(ls, hdr, 0).value;
      var body := if n <= 0 then "" else if n <= |rest| then rest[..n] else rest;
      var r := ClosedIn(Around(Lines(ls[..j]), "\n" + Lines(AllHosted(ls[j + 1..])) + delm + body), 4);
      var q := RequestIn(Lines(ls) + (delm + rest), delm, hdr);
      q.result.Ok? && Serviced(q.result.value, host) == r.before + "Host: " + host + r.after
  {
    hide *;
    RequestIsFramed(ls, d, hdr, rest);
    LinesAtHost(ls, j);
    var delm, n := d + "\n", LengthAfter(ls, hdr, 0).value;
    var body := if n <= 0 then "" else if n <= |rest| then rest[..n] else rest;
    var before, tail := Lines(ls[..j]), "\n" + Lines(AllHosted(ls[j + 1..]));
    TailApart(before, HOST_LINE, tail, delm, body);
    ServiceNamesHost(before, tail + delm + body, host);
  }

  /** What a Host header calls the endpoint. */
  function Address(e: ConnectionPools.Endpoint): string {
    if e.port == 80 then e.ip else e.ip + ":" + Show(e.port)
  }

  lemma NamedByAddress(c: ConnectionPools.Connection, e: ConnectionPools.Endpoint)
    requires ConnectionPools.Names(c, e)
    ensures c.host == Address(e)
  {
    hide Show, Pieces;
    assert [e.ip, Show(e.port)][1..] == [Show(e.port)];
    assert Join([e.ip, Show(e.port)], ":") == e.ip + ":" + Show(e.port);
  }

  /**
    From the route table to the server: when getConnection has chosen an endpoint of table `t`, the first
    Host line of the request sent to it is the address of that endpoint.
   */
  lemma RequestNamesEndpoint(ls: seq<string>, d: string, hdr: string, rest: string, j: nat,
                             t: ConnectionPools.Routes, chosen: ConnectionPools.Outcome, tried: seq<nat>)
    requires ConnectionPools.Aligned(t) && chosen.Got? && ConnectionPools.Reaches(t, chosen, tried)
    requires IsLine(d) && (forall k :: 0 <= k < |ls| ==> IsHeader(ls[k], d + "\n")) && LengthAfter(ls, hdr, 0).Ok?
    requires j < |ls| && Contains(ls[j], "Host:") && forall k :: 0 <= k < j ==> !Contains(ls[k], "Host:")
    requires !Contains(Lines(ls[..j]), PLACEHOLDER)
    ensures var delm, n, i := d + "\n", LengthAfter(ls, hdr, 0).value, tried[|tried| - 1];
      var body := if n <= 0 then "" else if n <= |rest| then rest[..n] else rest;
      var r := ClosedIn(Around(Lines(ls[..j]), "\n" + Lines(AllHosted(ls[j + 1..])) + delm + body), 4);
      var q := RequestIn(Lines(ls) + (delm + rest), delm, hdr);
      && q.result.Ok? && i < t.siz
      && Serviced(q.result.value, chosen.connection.host) ==
         r.before + "Host: " + Address(ConnectionPools.Endpoints(t)[i]) + r.after
  {
    hide *;
    ChosenEndpoint(t, chosen, tried);
    NamedByAddress(chosen.connection, ConnectionPools.Endpoints(t)[tried[|tried| - 1]]);
    RequestNamesHost(ls, d, hdr, rest, j, chosen.connection.host);
  }

  lemma ChosenEndpoint(t: ConnectionPools.Routes, chosen: ConnectionPools.Outcome, tried: seq<nat>)
    requires ConnectionPools.Aligned(t) && chosen.Got? && ConnectionPools.Reaches(t, chosen, tried)
    ensures tried != [] && tried[|tried| - 1] < t.siz
    ensures ConnectionPools.Names(chosen.connection, ConnectionPools.Endpoints(t)[tried[|tried| - 1]])
  {
    hide ConnectionPools.Names, ConnectionPools.Endpoints;
  }

  lemma TailApart(a: string, b: string, c: string, d: string, e: string)
    ensures (a + (b + c)) + d + e == a + (b + (c + d + e))
  {
  }

  lemma {:induction false} ClosingAddsNoPlaceholder(data: string, k: nat)
    requires !Contains(data, PLACEHOLDER)
    ensures !Contains(ClosedAt(data, k), PLACEHOLDER)
  {
    hide Contains, Spelling, ReplacedFirst;
    if k > 0 {
      ClosingAddsNoPlaceholder(data, k - 1);
      PlaceholderNotIntroduced(ClosedAt(data, k - 1), Spelling(k - 1));
    }
  }

  /** Without a placeholder anywhere only the keep-alives change. */
  lemma NoHostNoPlaceholder(data: string, host: string)
    requires !Contains(data, PLACEHOLDER)
    ensures Serviced(data, host) == ClosedAt(data, 4)
  {
    hide Contains, ClosedAt, ReplacedFirst;
    ClosingAddsNoPlaceholder(data, 4);
    ReplacedNowhere(ClosedAt(data, 4), PLACEHOLDER, host);
  }

  lemma ReplacedNowhere(s: string, p: string, w: string)
    requires !Contains(s, p)
    ensures ReplacedFirst(s, p, w) == s
  {
  }

  // ----------------------------------------------------------- the keep-alive headers

  predicate IsKeepAlive(line: string) {
    || line == "Connection: keep-alive" || line == "Connection: Keep-alive"
    || line == "Connection: Keep-Alive" || line == "Connection: keep-Alive"
  }

  /** None of the four spellings occurs. */
  predicate NoKeepAlive(s: string) {
    && !Contains(s, "Connection: keep-alive") && !Contains(s, "Connection: Keep-alive")
    && !Contains(s, "Connection: Keep-Alive") && !Contains(s, "Connection: keep-Alive")
  }

  lemma SpellingOf(line: string) returns (k: nat)
    requires IsKeepAlive(line)
    ensures k < 4 && line == Spelling(k)
  {
    k := if line == "Connection: keep-alive" then 0 else if line == "Connection: Keep-alive" then 1
    else if line == "Connection: Keep-Alive" then 2 else 3;
  }

  lemma LacksSpelling(s: string, k: nat)
    requires NoKeepAlive(s)
    ensures !Contains(s, Spelling(k))
  {
    hide Contains;
  }

  lemma FoundInLine(a: string, x: string, b: string, p: string)
    requires p != "" && !Contains(a, p) && !Contains(b, p) && (x == p || !Contains(x, p))
    requires '\r' !in p && '\n' !in p
    requires (a == "" || a[|a| - 1] == '\n') && (b == "" || b[0] == '\r' || b[0] == '\n')
    ensures Find(a + (x + b), p, 0) == if x == p then Some(|a|) else None
  {
    hide Find, NoStraddle, OccursAt;
    SeamSeparates(x, b, p);
    SeamSeparates(a, x + b, p);
    FindConcat(x, b, p);
    FindConcat(a, x + b, p);
    if x == p {
      OccursAtFront(p, "");
      assert p + "" == p;
      LeastIsFound(p, p, 0);
    }
  }

  /** A line between two others that do not contain the pattern. */
  lemma ReplacedLine(a: string, x: string, b: string, p: string, w: string)
    requires p != "" && !Contains(a, p) && !Contains(b, p) && (x == p || !Contains(x, p))
    requires '\r' !in p && '\n' !in p
    requires (a == "" || a[|a| - 1] == '\n') && (b == "" || b[0] == '\r' || b[0] == '\n')
    ensures ReplacedFirst(a + (x + b), p, w) == a + ((if x == p then w else x) + b)
  {
    hide *;
    FoundInLine(a, x, b, p);
    ReplacedFirstIn(a + (x + b), p, w);
    if x == p {
      MiddleReplaced(a, p, b, w);
    }
  }

  lemma MiddleReplaced(a: string, p: string, b: string, w: string)
    ensures var s := a + (p + b); s[..|a|] + w + s[|a| + |p|..] == a + (w + b)
  {
    var s := a + (p + b);
    assert s[..|a|] == a && s[|a| + |p|..] == b;
  }

  lemma SpellingsDiffer(j: nat, k: nat)
    requires j < 4 && k < 4 && j != k
    ensures Spelling(j) != Spelling(k) && !Contains(Spelling(j), Spelling(k))
  {
    var p, q := Spelling(j), Spelling(k);
    assert |p| == |q| == 22;
    assert p[12] != q[12] || p[17] != q[17];
    assert p[0..22] == p;
  }

  lemma NotInShorter(s: string, p: string)
    requires |s| < |p|
    ensures !Contains(s, p)
  {
  }

  lemma SpellingLacksEnd(k: nat, c: char)
    requires c == '\r' || c == '\n'
    ensures c !in Spelling(k) && |Spelling(k)| == 22
  {
  }

  lemma SpellingIsLine(k: nat)
    ensures Spelling(k) != "" && '\r' !in Spelling(k) && '\n' !in Spelling(k) && !Contains(CLOSE, Spelling(k))
  {
    hide Spelling, Contains;
    SpellingLacksEnd(k, '\r');
    SpellingLacksEnd(k, '\n');
    NotInShorter(CLOSE, Spelling(k));
  }

  lemma {:induction false} KeepAliveAt(a: string, b: string, j: nat, k: nat)
    requires j < 4 && k <= 4 && NoKeepAlive(a) && NoKeepAlive(b)
    requires (a == "" || a[|a| - 1] == '\n') && (b == "" || b[0] == '\r' || b[0] == '\n')
    ensures ClosedAt(a + (Spelling(j) + b), k) == a + ((if j < k then CLOSE else Spelling(j)) + b)
  {
    hide NoKeepAlive, Spelling, Contains, ReplacedFirst;
    if k > 0 {
      KeepAliveAt(a, b, j, k - 1);
      var x := if j < k - 1 then CLOSE else Spelling(j);
      LacksSpelling(a, k - 1);
      LacksSpelling(b, k - 1);
      SpellingIsLine(k - 1);
      if j != k - 1 {
        SpellingsDiffer(j, k - 1);
        ReplacedLine(a, x, b, Spelling(k - 1), CLOSE);
      } else {
        ReplacedLine(a, x, b, Spelling(k - 1), CLOSE);
      }
    }
  }

  /** A keep-alive line in any of the four spellings is turned into the closing one. */
  lemma KeepAliveCloses(a: string, line: string, b: string)
    requires IsKeepAlive(line) && NoKeepAlive(a) && NoKeepAlive(b)
    requires (a == "" || a[|a| - 1] == '\n') && (b == "" || b[0] == '\r' || b[0] == '\n')
    ensures ClosedAt(a + (line + b), 4) == a + ("Connection: close" + b)
  {
    hide IsKeepAlive, NoKeepAlive, Spelling, ClosedAt;
    var k := SpellingOf(line);
    KeepAliveAt(a, b, k, 4);
  }

  /** A request without any of them keeps its text. */
  lemma {:induction false} NoKeepAliveStays(data: string, k: nat)
    requires NoKeepAlive(data)
    ensures ClosedAt(data, k) == data
  {
    hide NoKeepAlive, Spelling, Contains, ReplacedFirst;
    if k > 0 {
      NoKeepAliveStays(data, k - 1);
      LacksSpelling(data, k - 1);
      ReplacedNowhere(data, Spelling(k - 1), CLOSE);
    }
  }
}
