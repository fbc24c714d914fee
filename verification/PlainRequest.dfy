/** What singleRequest returns for requests without NUL characters, said about their text alone. */
module PlainRequests {
  import opened Wrappers
  import opened StringUtil
  import opened CastUtil
  import opened BufferedReaders
  import opened RequestFraming

  /** A line without its newline, short enough for one read. */
  predicate Plain(l: string) {
    '\n' !in l && '\0' !in l && |l| <= 1021
  }

  /** Lines that the reader passes on, and the delimiter `d` that is none of them. */
  predicate PlainHead(ls: seq<string>, d: string) {
    Plain(d) && forall k :: 0 <= k < |ls| ==> Plain(ls[k]) && ls[k] != d
  }

  /** What comes out for what was sent: each line with "Host:" becomes the placeholder line. */
  predicate Renamed(ls: seq<string>, outs: seq<string>) {
    && |outs| == |ls|
    && forall k :: 0 <= k < |ls| ==> outs[k] == if Contains(ls[k], "Host:") then "Host: " + PLACEHOLDER else ls[k]
  }

  /** The delimiter of texts without NUL is found by comparing them whole. */
  lemma DelimiterIsEqual(l: string, d: string)
    requires '\0' !in l && '\0' !in d
    ensures IsDelimiter(l, d) <==> l == d
  {
    hide CString;
    CStringOfText(l);
    CStringOfText(d);
  }

  lemma PlainIsHeader(l: string, d: string)
    requires Plain(l) && Plain(d)
    ensures IsLine(l) && (IsDelimiter(l + "\n", d + "\n") <==> l == d)
  {
    DelimiterIsEqual(l + "\n", d + "\n");
    hide IsDelimiter;
    assert (l + "\n")[..|l|] == l && (d + "\n")[..|d|] == d;
  }

  lemma HeadIsHeaders(ls: seq<string>, d: string)
    requires PlainHead(ls, d)
    ensures IsLine(d) && forall k :: 0 <= k < |ls| ==> IsHeader(ls[k], d + "\n")
  {
    hide IsDelimiter, IsLine;
    PlainIsHeader(d, d);
    forall k | 0 <= k < |ls| ensures IsHeader(ls[k], d + "\n") {
      PlainIsHeader(ls[k], d);
    }
  }

  lemma RenamedIsHosted(ls: seq<string>, outs: seq<string>)
    requires Renamed(ls, outs)
    ensures AllHosted(ls) == outs
  {
    hide Contains;
    forall k | 0 <= k < |ls| ensures AllHosted(ls)[k] == outs[k] {
      HostedLine(ls[k]);
    }
  }

  lemma LengthUnfold(ls: seq<string>, hdr: string, cnt: int)
    requires ls != []
    ensures var length := Announced(Hosted(ls[0]), hdr, cnt);
      LengthAfter(ls, hdr, cnt) == if length.Thrown? then length else LengthAfter(ls[1..], hdr, length.value)
  {
  }

  lemma NothingAnnounced(temp: string, hdr: string, cnt: int)
    requires !Contains(temp, hdr)
    ensures Announced(temp, hdr, cnt) == Ok(cnt)
  {
  }

  /** Lines without the header leave the length as it was. */
  lemma {:induction false} LengthStays(ls: seq<string>, hdr: string, cnt: int)
    requires forall k :: 0 <= k < |ls| ==> !Contains(Hosted(ls[k]), hdr)
    ensures LengthAfter(ls, hdr, cnt) == Ok(cnt)
  {
    hide Contains, Hosted, Announced;
    if ls != [] {
      LengthUnfold(ls, hdr, cnt);
      NothingAnnounced(Hosted(ls[0]), hdr, cnt);
      LengthStays(ls[1..], hdr, cnt);
    }
  }

  /** The last line with the header decides, whatever the lines before it announce. */
  lemma {:induction false} LengthIsLast(ls: seq<string>, hdr: string, cnt: int, j: nat, n: int)
    requires hdr != "" && j < |ls| && forall k: int :: Announced(Hosted(ls[j]), hdr, k) == Ok(n)
    requires forall k :: j < k < |ls| ==> !Contains(Hosted(ls[k]), hdr)
    ensures LengthAfter(ls, hdr, cnt) == Ok(n)
  {
    hide Contains, Hosted, Announced, LengthAfter;
    LengthUnfold(ls, hdr, cnt);
    if j == 0 {
      assert Announced(Hosted(ls[0]), hdr, cnt) == Ok(n);
      LengthStays(ls[1..], hdr, n);
    } else {
      AnnouncedIsSafe(Hosted(ls[0]), hdr, cnt);
      var length := Announced(Hosted(ls[0]), hdr, cnt);
      LengthIsLast(ls[1..], hdr, length.value, j - 1, n);
    }
  }

  lemma OneCharacterBehind(name: string, n: nat, c: char, hdr: string, cnt: int)
    requires ':' !in name && Contains(name + ": " + Show(n) + [c], hdr)
    ensures Announced(name + ": " + Show(n) + [c], hdr, cnt) == Ok(n)
  {
    hide Announced, Show;
    AnnouncedNumber(name, n, [c], hdr, cnt);
  }

  lemma OutAt(ls: seq<string>, outs: seq<string>, k: nat)
    requires Renamed(ls, outs) && k < |ls|
    ensures Hosted(ls[k]) == outs[k]
  {
    hide Contains;
    HostedLine(ls[k]);
  }

  /**
    A request whose last length header, at any place among the lines, announces n: the hosted lines, the
    delimiter and the next n characters come out, or all that are left and then the socket is closed.
   */
  lemma BodyIsTaken(ls: seq<string>, outs: seq<string>, d: string, hdr: string, j: nat,
                    name: string, n: nat, c: char, rest: string)
    requires PlainHead(ls, d) && Renamed(ls, outs) && hdr != "" && ':' !in name
    requires j < |ls| && outs[j] == name + ": " + Show(n) + [c] && Contains(outs[j], hdr)
    requires forall k :: j < k < |ls| ==> !Contains(outs[k], hdr)
    ensures var q := RequestIn(Lines(ls) + (d + "\n" + rest), d + "\n", hdr);
      var body := if n <= |rest| then rest[..n] else rest;
      && q.result == Ok(Lines(outs) + (d + "\n") + body)
      && q.used == |Lines(ls)| + |d| + 1 + |body|
      && (q.closed <==> n > |rest|)
  {
    hide Contains, Show, PlainHead, Renamed, Lines, LengthAfter, RequestIn, Hosted, Announced, IsHeader, IsLine,
      AllHosted;
    HeadIsHeaders(ls, d);
    RenamedIsHosted(ls, outs);
    forall k | j <= k < |ls| ensures Hosted(ls[k]) == outs[k] {
      OutAt(ls, outs, k);
    }
    forall cnt: int ensures Announced(Hosted(ls[j]), hdr, cnt) == Ok(n) {
      OneCharacterBehind(name, n, c, hdr, cnt);
    }
    LengthIsLast(ls, hdr, 0, j, n);
    RequestIsFramed(ls, d, hdr, rest);
    assert n == 0 ==> rest[..n] == "";
  }

  /** The usual case: the length header itself, ended by a carriage return. */
  lemma HeaderIsTaken(ls: seq<string>, outs: seq<string>, d: string, name: string, j: nat, n: nat, rest: string)
    requires PlainHead(ls, d) && Renamed(ls, outs) && ':' !in name
    requires j < |ls| && outs[j] == ls[j] == name + ": " + Show(n) + "\r"
    requires forall k :: j < k < |ls| ==> !Contains(outs[k], name + ": ")
    ensures var q := RequestIn(Lines(ls) + (d + "\n" + rest), d + "\n", name + ": ");
      var body := if n <= |rest| then rest[..n] else rest;
      && q.result == Ok(Lines(outs) + (d + "\n") + body)
      && q.used == |Lines(ls)| + |d| + 1 + |body|
      && (q.closed <==> n > |rest|)
  {
    hide *;
    HeaderFound(name, Show(n) + "\r");
    assert name + ": " + Show(n) + "\r" == name + ": " + (Show(n) + "\r");
    BodyIsTaken(ls, outs, d, name + ": ", j, name, n, '\r', rest);
  }

  /** A request without a length header has no body: whatever follows the delimiter is left. */
  lemma NoHeaderNoBody(ls: seq<string>, outs: seq<string>, d: string, hdr: string, rest: string)
    requires PlainHead(ls, d) && Renamed(ls, outs)
    requires forall k :: 0 <= k < |ls| ==> !Contains(outs[k], hdr)
    ensures RequestIn(Lines(ls) + (d + "\n" + rest), d + "\n", hdr) ==
            Reply(Ok(Lines(outs) + (d + "\n")), |Lines(ls)| + |d| + 1, false)
  {
    hide Contains, PlainHead, Renamed, Lines, LengthAfter, RequestIn, Hosted, Announced, IsHeader, IsLine, AllHosted;
    HeadIsHeaders(ls, d);
    RenamedIsHosted(ls, outs);
    forall k | 0 <= k < |ls| ensures Hosted(ls[k]) == outs[k] {
      OutAt(ls, outs, k);
    }
    LengthStays(ls, hdr, 0);
    RequestIsFramed(ls, d, hdr, rest);
    var out := Lines(outs) + (d + "\n");
    assert out + "" == out;
  }

  /** Lines come out one for one exactly when none of them has more than 1021 characters. */
  lemma LinesKeptIffPlain(ls: seq<string>, outs: seq<string>, d: string, hdr: string, cnt: int, tail: string)
    requires hdr != "" && Plain(d) && Renamed(ls, outs)
    requires forall k :: 0 <= k < |ls| ==> '\n' !in ls[k] && '\0' !in ls[k] && ls[k] != d
    ensures var h := HeadOf(Lines(ls) + (d + "\n" + tail), d + "\n", hdr, cnt);
      h.end == Delimited && h.out == Lines(outs) + (d + "\n") && h.used == |Lines(ls)| + |d| + 1
      <==> forall k :: 0 <= k < |ls| ==> |ls[k]| <= 1021
  {
    hide Contains, Renamed, Lines, LengthAfter, HeadOf, Hosted, Announced, AllHosted, IsDelimiter;
    RenamedIsHosted(ls, outs);
    forall k | 0 <= k < |ls| ensures !IsDelimiter(ls[k] + "\n", d + "\n") {
      DelimiterIsEqual(ls[k] + "\n", d + "\n");
      assert (ls[k] + "\n")[..|ls[k]|] == ls[k] && (d + "\n")[..|d|] == d;
    }
    LinesKeptIffShort(ls, d, hdr, cnt, tail);
    LengthIsSafe(ls, hdr, cnt);
  }

  lemma {:induction false} LengthIsSafe(ls: seq<string>, hdr: string, cnt: int)
    requires hdr != ""
    ensures LengthAfter(ls, hdr, cnt).Ok?
  {
    hide Hosted, Announced;
    if ls != [] {
      LengthUnfold(ls, hdr, cnt);
      AnnouncedIsSafe(Hosted(ls[0]), hdr, cnt);
      LengthIsSafe(ls[1..], hdr, Announced(Hosted(ls[0]), hdr, cnt).value);
    }
  }

  // ------------------------------------------------------------- a request that breaks off

  /** What the reader makes of a last line that has no newline: it loses its last character. */
  function Torn(p: string): string {
    if p == "" then ""
    else if Contains(p[..|p| - 1], "Host:") then "Host: " + PLACEHOLDER + "\n"
    else p[..|p| - 1] + "\n"
  }

  lemma TakesAll(p: string)
    requires '\n' !in p && |p| <= 1022
    ensures LineLength(p, LINE_LIMIT) == |p|
  {
    AllButNewline(p, LINE_LIMIT);
  }

  lemma {:induction false} AllButNewline(p: string, limit: nat)
    requires '\n' !in p && |p| <= limit
    ensures LineLength(p, limit) == |p|
  {
    if p != "" {
      assert p[0] in p;
      AllButNewline(p[1..], limit - 1);
    }
  }

  lemma HeadOfTorn(p: string, d: string, hdr: string, cnt: int)
    requires hdr != "" && '\n' !in p && '\0' !in p && |p| <= 1022 && Plain(d)
    ensures var h := HeadOf(p, d + "\n", hdr, cnt); h.end == Closed && h.out == Torn(p) && h.used == |p|
  {
    hide HeadOf, Hosted, Announced, LineLength, IsDelimiter, Contains;
    if p == "" {
      HeadOfNothing(p, d + "\n", hdr, cnt);
    } else {
      TakesAll(p);
      assert p[..|p|] == p && p[|p|..] == "";
      DelimiterIsEqual(p, d + "\n");
      assert (d + "\n")[|d|] == '\n' && '\n' in d + "\n";
      HeadUnfold(p, d + "\n", hdr, cnt);
      var temp := Hosted(p[..|p| - 1]);
      HostedLine(p[..|p| - 1]);
      AnnouncedIsSafe(temp, hdr, cnt);
      var length := Announced(temp, hdr, cnt);
      HeadOfNothing("", d + "\n", hdr, length.value);
      AfterLength(temp + "\n", |p|, 1, HeadOf("", d + "\n", hdr, length.value));
      assert temp + "\n" + "" == temp + "\n";
    }
  }

  lemma {:induction false} HeadOfUnfinished(ls: seq<string>, p: string, d: string, hdr: string, cnt: int)
    requires hdr != "" && PlainHead(ls, d) && '\n' !in p && '\0' !in p && |p| <= 1022
    ensures var h := HeadOf(Lines(ls) + p, d + "\n", hdr, cnt);
      h.end == Closed && h.out == Lines(AllHosted(ls)) + Torn(p) && h.used == |Lines(ls)| + |p|
  {
    hide HeadOf, Hosted, Announced, LineLength, IsDelimiter, Contains, Plain, Torn;
    if ls == [] {
      assert PlainHead(ls, d) ==> Plain(d);
      HeadOfTorn(p, d, hdr, cnt);
      assert Lines(ls) + p == p && Lines(AllHosted(ls)) + Torn(p) == Torn(p);
    } else {
      var l, more := ls[0], Lines(ls[1..]) + p;
      Regroup(l + "\n", Lines(ls[1..]), p);
      HeadIsHeaders(ls, d);
      LimitOf(l);
      LineLengthOf(l, more, LINE_LIMIT);
      LineParts(l, more);
      HeadUnfold(l + "\n" + more, d + "\n", hdr, cnt);
      AnnouncedIsSafe(Hosted(l), hdr, cnt);
      var length := Announced(Hosted(l), hdr, cnt);
      HeadOfUnfinished(ls[1..], p, d, hdr, length.value);
      assert AllHosted(ls)[1..] == AllHosted(ls[1..]);
      Regroup(Hosted(l) + "\n", Lines(AllHosted(ls[1..])), Torn(p));
      AfterLength(Hosted(l) + "\n", |l| + 1, 1, HeadOf(more, d + "\n", hdr, length.value));
    }
  }

  /**
    A request that ends before its delimiter comes out as far as it goes, without the last character of an
    unfinished line, and the socket is marked closed.
   */
  lemma UnfinishedRequest(ls: seq<string>, outs: seq<string>, p: string, d: string, hdr: string)
    requires hdr != "" && PlainHead(ls, d) && Renamed(ls, outs) && '\n' !in p && '\0' !in p && |p| <= 1022
    ensures RequestIn(Lines(ls) + p, d + "\n", hdr) == Reply(Ok(Lines(outs) + Torn(p)), |Lines(ls)| + |p|, true)
  {
    hide HeadOf, PlainHead, Renamed, Lines, Torn, AllHosted;
    HeadOfUnfinished(ls, p, d, hdr, 0);
    RenamedIsHosted(ls, outs);
  }

  /** With an empty header name a line without ": " that has nothing in it makes the reader throw. */
  lemma EmptyNameThrows(d: string, rest: string)
    requires Plain(d) && d != ""
    ensures RequestIn("\n" + rest, d + "\n", "") == Reply(Thrown(OUT_OF_RANGE), 1, false)
  {
    LineLengthOf("", rest, LINE_LIMIT);
    LineParts("", rest);
    assert "" + "\n" + rest == "\n" + rest && "" + "\n" == "\n";
    DelimiterIsEqual("\n", d + "\n");
    assert !Contains("", "Host:") && Contains("", "") && Find("", ": ", 0).None?;
    hide HeadOf, IsDelimiter, LineLength;
    HeadUnfold("\n" + rest, d + "\n", "", 0);
  }
}
