/** What singleRequest makes of a well-formed request: which bytes it takes and which it changes. */
module RequestFraming {
  import opened Wrappers
  import opened StringUtil
  import opened CastUtil
  import opened BufferedReaders

  /** A line as the peer sends it, without its newline. */
  predicate IsLine(l: string) {
    '\n' !in l && |l| + 1 <= LINE_LIMIT
  }

  predicate IsHeader(l: string, delm: string) {
    IsLine(l) && !IsDelimiter(l + "\n", delm)
  }

  function Lines(ls: seq<string>): string {
    if ls == [] then "" else ls[0] + "\n" + Lines(ls[1..])
  }

  function AllHosted(ls: seq<string>): (r: seq<string>)
    ensures |r| == |ls| && forall k :: 0 <= k < |ls| ==> r[k] == Hosted(ls[k])
  {
    seq(|ls|, k requires 0 <= k < |ls| => Hosted(ls[k]))
  }

  /** The content length after all header lines. */
  function LengthAfter(ls: seq<string>, hdr: string, cnt: int): Result<int> {
    if ls == [] then Ok(cnt)
    else
      var length := Announced(Hosted(ls[0]), hdr, cnt);
      if length.Thrown? then length else LengthAfter(ls[1..], hdr, length.value)
  }

  lemma {:induction false} LineLengthOf(l: string, tail: string, limit: nat)
    requires '\n' !in l && |l| < limit
    ensures LineLength(l + "\n" + tail, limit) == |l| + 1
  {
    var s := l + "\n" + tail;
    if l != "" {
      assert s[0] == l[0] && l[0] in l;
      assert s[1..] == l[1..] + "\n" + tail;
      LineLengthOf(l[1..], tail, limit - 1);
    }
  }

  lemma LineParts(l: string, tail: string)
    ensures var s := l + "\n" + tail;
      s != "" && s[..|l| + 1] == l + "\n" && s[..|l|] == l && s[|l| + 1..] == tail
  {
  }

  lemma Regroup(a: string, b: string, c: string)
    ensures (a + b) + c == a + (b + c)
  {
  }

  /** The header loop turns each header line into its hosted form, in order, and stops after the delimiter. */
  lemma {:induction false} HeadOfLines(ls: seq<string>, delm: string, d: string, hdr: string, cnt: int, tail: string)
    requires forall k :: 0 <= k < |ls| ==> IsHeader(ls[k], delm)
    requires IsLine(d) && delm == d + "\n"
    ensures var length := LengthAfter(ls, hdr, cnt);
      var h := HeadOf(Lines(ls) + (delm + tail), delm, hdr, cnt);
      if length.Ok? then h == Head(Lines(AllHosted(ls)) + delm, length.value, |Lines(ls)| + |delm|, |ls| + 1, Delimited)
      else h.end == Failed
  {
    hide HeadOf, Announced, Hosted, LineLength, IsDelimiter;
    if ls == [] {
      HeadOfDelimiter(delm, d, hdr, cnt, tail);
      assert Lines(ls) + (delm + tail) == delm + tail;
      assert Lines(AllHosted(ls)) + delm == delm;
    } else {
      var l, more := ls[0], Lines(ls[1..]) + (delm + tail);
      Regroup(l + "\n", Lines(ls[1..]), delm + tail);
      var s := l + "\n" + more;
      LimitOf(l);
      LineLengthOf(l, more, LINE_LIMIT);
      LineParts(l, more);
      HeadUnfold(s, delm, hdr, cnt);
      var length := Announced(Hosted(l), hdr, cnt);
      if length.Ok? {
        HeadOfLines(ls[1..], delm, d, hdr, length.value, tail);
        var out := Lines(AllHosted(ls[1..])) + delm;
        assert AllHosted(ls)[1..] == AllHosted(ls[1..]);
        Regroup(Hosted(l) + "\n", Lines(AllHosted(ls[1..])), delm);
        AfterLength(Hosted(l) + "\n", |l| + 1, 1, HeadOf(more, delm, hdr, length.value));
      }
    }
  }

  lemma LimitOf(l: string)
    requires IsLine(l)
    ensures '\n' !in l && |l| < LINE_LIMIT
  {
  }

  lemma AfterLength(out: string, n: nat, i: nat, h: Head)
    ensures After(out, n, i, h) == Head(out + h.out, h.cnt, n + h.used, i + h.rounds, h.end)
  {
  }

  lemma HeadOfDelimiter(delm: string, d: string, hdr: string, cnt: int, tail: string)
    requires IsLine(d) && delm == d + "\n"
    ensures HeadOf(delm + tail, delm, hdr, cnt) == Head(delm, cnt, |delm|, 1, Delimited)
  {
    hide HeadOf, Announced, Hosted, LineLength;
    LineLengthOf(d, tail, LINE_LIMIT);
    LineParts(d, tail);
    HeadUnfold(delm + tail, delm, hdr, cnt);
  }

  /**
    A request of header lines, delimiter and rest: every line with "Host:" becomes the placeholder line,
    every other byte is kept, and exactly the announced number of body bytes is taken. The socket is
    marked closed exactly when fewer bytes are left.
   */
  lemma RequestIsFramed(ls: seq<string>, d: string, hdr: string, rest: string)
    requires IsLine(d) && forall k :: 0 <= k < |ls| ==> IsHeader(ls[k], d + "\n")
    requires LengthAfter(ls, hdr, 0).Ok?
    ensures var delm, n := d + "\n", LengthAfter(ls, hdr, 0).value;
      var q := RequestIn(Lines(ls) + (delm + rest), delm, hdr);
      var body := if n <= 0 then "" else if n <= |rest| then rest[..n] else rest;
      && q.result == Ok(Lines(AllHosted(ls)) + delm + body)
      && q.used == |Lines(ls)| + |delm| + |body|
      && (q.closed <==> n > |rest|)
  {
    hide HeadOf, LengthAfter, AllHosted, Lines, IsHeader;
    var delm := d + "\n";
    HeadOfLines(ls, delm, d, hdr, 0, rest);
    var s := Lines(ls) + (delm + rest);
    assert s == (Lines(ls) + delm) + rest;
    assert s[|Lines(ls)| + |delm|..] == rest;
    var out := Lines(AllHosted(ls)) + delm;
    assert out + "" == out;
  }

  /** With a non-empty header name no header line can make the reader throw. */
  lemma {:induction false} NeverThrows(s: string, delm: string, hdr: string, cnt: int)
    requires hdr != ""
    ensures HeadOf(s, delm, hdr, cnt).end != Failed
    decreases |s|
  {
    hide HeadOf;
    if s == "" {
      HeadOfNothing(s, delm, hdr, cnt);
    } else {
      HeadUnfold(s, delm, hdr, cnt);
      var n := LineLength(s, LINE_LIMIT);
      var temp := Hosted(s[..n - 1]);
      AnnouncedIsSafe(temp, hdr, cnt);
      var length := Announced(temp, hdr, cnt);
      NeverThrows(s[n..], delm, hdr, length.value);
      AfterLength(temp + "\n", n, 1, HeadOf(s[n..], delm, hdr, length.value));
    }
  }

  lemma AnnouncedIsSafe(temp: string, hdr: string, cnt: int)
    requires hdr != ""
    ensures Announced(temp, hdr, cnt).Ok?
  {
    if Contains(temp, hdr) {
      var i := Find(temp, hdr, 0).value;
      assert OccursAt(temp, hdr, i);
    }
  }

  lemma HeaderFound(name: string, v: string)
    requires ':' !in name
    ensures Find(name + ": " + v, ": ", 0) == Some(|name|) && Contains(name + ": " + v, name + ": ")
  {
    var l := name + ": " + v;
    assert OccursAt(l, ": ", |name|) && OccursAt(l, name + ": ", 0);
    forall k | 0 <= k < |name| ensures !OccursAt(l, ": ", k) {
      assert l[k] == name[k] && name[k] in name;
      if OccursAt(l, ": ", k) {
        OccursChar(l, ": ", k, 0);
      }
    }
  }

  // ----------------------------------------------------------- the announced number

  lemma {:induction false} CStringConcat(a: string, b: string)
    requires '\0' !in a
    ensures CString(a + b) == a + CString(b)
  {
    if a == "" {
      assert a + b == b;
    } else {
      assert a[0] in a && (a + b)[0] == a[0] && (a + b)[1..] == a[1..] + b;
      CStringConcat(a[1..], b);
    }
  }

  predicate Digits(s: string) {
    forall c :: c in s ==> IsDigit(c)
  }

  lemma ShowIsDigits(n: nat)
    ensures Show(n) != "" && Digits(Show(n)) && '\0' !in Show(n) && ValueOf(Show(n)) == n
  {
    ValueOfDecimal(n);
  }

  /** A printed number with something behind it. */
  lemma ReadWithTail(n: nat, t: string)
    ensures ReadInt(Show(n) + t) ==
            if Digits(CString(t)) then ShowIsDigits(n); Ok(ValueOf(Show(n) + CString(t))) else Thrown(CONVERSION_ERROR)
  {
    hide CString, ValueOf, Show;
    ShowIsDigits(n);
    CStringConcat(Show(n), t);
    var v := Show(n) + CString(t);
    assert Show(n)[0] in Show(n) && v[0] == Show(n)[0];
    DigitsConcat(Show(n), CString(t));
  }

  lemma DigitsConcat(a: string, b: string)
    ensures Digits(a + b) <==> Digits(a) && Digits(b)
  {
    forall c ensures c in a + b <==> c in a || c in b {
    }
  }

  lemma ValueSnoc(s: string, c: char)
    requires Digits(s) && IsDigit(c)
    ensures Digits(s + [c]) && ValueOf(s + [c]) == 10 * ValueOf(s) + DigitValue(c)
    ensures DigitValue(c) == 0 <==> c == '0'
  {
    assert (s + [c])[..|s|] == s;
  }

  predicate Zeros(s: string) {
    forall c :: c in s ==> c == '0'
  }

  lemma SnocParts(v: string)
    requires v != ""
    ensures var front, last := v[..|v| - 1], v[|v| - 1];
      && v == front + [last] && (Zeros(v) <==> Zeros(front) && last == '0')
      && (Digits(v) <==> Digits(front) && IsDigit(last))
  {
    var front, last := v[..|v| - 1], v[|v| - 1];
    assert v == front + [last];
    assert last in v;
    assert forall c :: c in front ==> c in v;
    assert forall c :: c in v ==> c in front || c == last;
  }

  /** More digits change a number, unless it is 0 and they are zeros. */
  lemma {:induction false} ValueWithTail(a: string, v: string)
    requires Digits(a) && Digits(v)
    ensures Digits(a + v) && ValueOf(a + v) >= ValueOf(a)
    ensures ValueOf(a + v) == ValueOf(a) <==> v == "" || (ValueOf(a) == 0 && Zeros(v))
  {
    hide ValueOf, Zeros, Digits;
    if v == "" {
      assert a + v == a;
    } else {
      var front, last := v[..|v| - 1], v[|v| - 1];
      SnocParts(v);
      ValueWithTail(a, front);
      ValueSnoc(a + front, last);
      assert a + v == (a + front) + [last];
      NoZeros(front);
    }
  }

  lemma NoZeros(s: string)
    ensures s == "" ==> Zeros(s)
  {
  }

  /** What the value "n" + t of a length header is taken for: its last character is dropped without a look. */
  function TakenFor(n: nat, t: string, cnt: int): int {
    if t == "" then n / 10
    else
      var v := CString(t[..|t| - 1]);
      if Digits(v) then
        ShowIsDigits(n);
        ValueOf(Show(n) + v)
      else cnt
  }

  /**
    A line that contains the header name, and a printed number n with any text t behind its first ": ". With
    t empty the last digit is lost; any single character is dropped; more than one is read as further digits,
    or leaves the length as it was. So n is announced exactly in the cases listed.
   */
  lemma AnnouncedNumber(name: string, n: nat, t: string, hdr: string, cnt: int)
    requires ':' !in name && Contains(name + ": " + Show(n) + t, hdr)
    ensures var length := Announced(name + ": " + Show(n) + t, hdr, cnt);
      && length == Ok(TakenFor(n, t, cnt))
      && (|t| <= 1 ==> (length == Ok(n) <==> |t| == 1 || n == 0))
      && (|t| > 1 ==>
           var v := CString(t[..|t| - 1]);
           length == Ok(n) <==> if Digits(v) then v == "" || (n == 0 && Zeros(v)) else cnt == n)
  {
    hide Find, Contains, ReadInt, Show, ValueOf;
    var l := name + ": " + (Show(n) + t);
    assert l == name + ": " + Show(n) + t;
    ShowIsDigits(n);
    HeaderFound(name, Show(n) + t);
    assert l[|name| + 2..] == Show(n) + t;
    if t == "" {
      assert Show(n) + t == Show(n);
      ShowWithoutLastDigit(n);
    } else {
      var w := t[..|t| - 1];
      assert (Show(n) + t)[..|Show(n) + t| - 1] == Show(n) + w;
      ReadWithTail(n, w);
      if Digits(CString(w)) {
        ValueWithTail(Show(n), CString(w));
      }
    }
  }

  lemma ShowWithoutLastDigit(n: nat)
    ensures Show(n) != "" && Show(n)[..|Show(n)| - 1] == if n < 10 then "" else Show(n / 10)
    ensures ReadInt(Show(n)[..|Show(n)| - 1]) == Ok(n / 10)
  {
    if n >= 10 {
      ReadShow(n / 10);
    }
  }

  // ----------------------------------------------------------- lines at the read limit

  function Newlines(s: string): nat {
    if s == "" then 0 else (if s[0] == '\n' then 1 else 0) + Newlines(s[1..])
  }

  lemma {:induction false} NewlinesConcat(a: string, b: string)
    ensures Newlines(a + b) == Newlines(a) + Newlines(b)
  {
    if a == "" {
      assert a + b == b;
    } else {
      assert (a + b)[0] == a[0] && (a + b)[1..] == a[1..] + b;
      NewlinesConcat(a[1..], b);
    }
  }

  lemma {:induction false} NoNewline(l: string)
    requires '\n' !in l
    ensures Newlines(l) == 0 && Newlines(l + "\n") == 1
  {
    NewlinesConcat(l, "\n");
    if l != "" {
      assert l[0] in l;
      NoNewline(l[1..]);
    }
  }

  lemma {:induction false} LongLine(l: string, tail: string, limit: nat)
    requires |l| >= limit && '\n' !in l
    ensures LineLength(l + tail, limit) == limit
  {
    if limit > 0 {
      assert (l + tail)[0] == l[0] && l[0] in l;
      assert (l + tail)[1..] == l[1..] + tail;
      LongLine(l[1..], tail, limit - 1);
    }
  }

  /** A full read without a newline comes out as a line of its own, its last character replaced by the newline. */
  lemma LongLineIsBroken(l: string, delm: string, hdr: string, cnt: int, tail: string)
    requires '\n' !in l && |l| >= LINE_LIMIT && !IsDelimiter(l[..LINE_LIMIT], delm)
    ensures Hosted(l[..LINE_LIMIT - 1]) + "\n" <= HeadOf(l + tail, delm, hdr, cnt).out
  {
    hide HeadOf, Announced, Hosted, LineLength, IsDelimiter;
    var s := l + tail;
    LongLine(l, tail, LINE_LIMIT);
    assert s != "" && s[..LINE_LIMIT] == l[..LINE_LIMIT] && s[..LINE_LIMIT - 1] == l[..LINE_LIMIT - 1];
    HeadUnfold(s, delm, hdr, cnt);
    var out := Hosted(l[..LINE_LIMIT - 1]) + "\n";
    var length := Announced(Hosted(l[..LINE_LIMIT - 1]), hdr, cnt);
    if length.Ok? {
      AfterLength(out, LINE_LIMIT, 1, HeadOf(s[LINE_LIMIT..], delm, hdr, length.value));
    }
  }

  /** The reads that one sent line takes: the loop stops in it, or goes on behind it. */
  datatype Passage = Stopped | Passed(out: string, cnt: int, rounds: nat)

  ghost predicate Passes(p: Passage, l: string, delm: string, hdr: string, cnt: int, tail: string) {
    var h := HeadOf(l + "\n" + tail, delm, hdr, cnt);
    match p
    case Stopped => h.used <= |l| + 1
    case Passed(out, c, i) =>
      && h == After(out, |l| + 1, i, HeadOf(tail, delm, hdr, c))
      && Newlines(out) >= if |l| + 1 > LINE_LIMIT then 2 else 1
  }

  /** A sent line ends the loop or comes out as one line or, beyond the limit, as more than one. */
  lemma {:induction false} LinePasses(l: string, delm: string, hdr: string, cnt: int, tail: string) returns (p: Passage)
    requires '\n' !in l
    ensures Passes(p, l, delm, hdr, cnt, tail)
    decreases |l|
  {
    hide HeadOf, Announced, Hosted, LineLength, IsDelimiter, Newlines;
    var s := l + "\n" + tail;
    if |l| < LINE_LIMIT {
      LineLengthOf(l, tail, LINE_LIMIT);
      LineParts(l, tail);
      HeadUnfold(s, delm, hdr, cnt);
      var length := Announced(Hosted(l), hdr, cnt);
      if IsDelimiter(l + "\n", delm) || length.Thrown? {
        p := Stopped;
      } else {
        HostedHasNoNewline(l);
        NoNewline(Hosted(l));
        p := Passed(Hosted(l) + "\n", length.value, 1);
      }
    } else {
      p := LongLinePasses(l, delm, hdr, cnt, tail);
    }
  }

  lemma LongLinePasses(l: string, delm: string, hdr: string, cnt: int, tail: string) returns (p: Passage)
    requires '\n' !in l && |l| >= LINE_LIMIT
    ensures Passes(p, l, delm, hdr, cnt, tail)
    decreases |l|, 0
  {
    hide HeadOf, Announced, Hosted, LineLength, IsDelimiter, Newlines;
    var s, m := l + "\n" + tail, l[LINE_LIMIT..];
    CutLine(l, tail);
    LongLine(l, "\n" + tail, LINE_LIMIT);
    HeadUnfold(s, delm, hdr, cnt);
    var chunk := l[..LINE_LIMIT - 1];
    var length := Announced(Hosted(chunk), hdr, cnt);
    if IsDelimiter(l[..LINE_LIMIT], delm) || length.Thrown? {
      p := Stopped;
    } else {
      var q := LinePasses(m, delm, hdr, length.value, tail);
      var out := Hosted(chunk) + "\n";
      var h := HeadOf(m + "\n" + tail, delm, hdr, length.value);
      AfterLength(out, LINE_LIMIT, 1, h);
      match q
      case Stopped => p := Stopped;
      case Passed(more, c, i) =>
        HostedHasNoNewline(chunk);
        NoNewline(Hosted(chunk));
        NewlinesConcat(out, more);
        AfterTwice(out, LINE_LIMIT, 1, more, |m| + 1, i, HeadOf(tail, delm, hdr, c));
        p := Passed(out + more, c, 1 + i);
    }
  }

  lemma CutLine(l: string, tail: string)
    requires |l| >= LINE_LIMIT
    ensures var s, m := l + "\n" + tail, l[LINE_LIMIT..];
      && s == l + ("\n" + tail) && s != "" && s[LINE_LIMIT..] == m + "\n" + tail
      && s[..LINE_LIMIT] == l[..LINE_LIMIT] && s[..LINE_LIMIT - 1] == l[..LINE_LIMIT - 1]
  {
  }

  lemma HostedHasNoNewline(l: string)
    requires '\n' !in l
    ensures '\n' !in Hosted(l)
  {
    assert '\n' !in TOKEN;
  }

  /** At least one line comes out for every line sent, and more if one of them is longer than the limit. */
  lemma {:induction false} LinesOut(ls: seq<string>, delm: string, d: string, hdr: string, cnt: int, tail: string)
    requires forall k :: 0 <= k < |ls| ==> '\n' !in ls[k]
    requires IsLine(d) && delm == d + "\n"
    ensures var h := HeadOf(Lines(ls) + (delm + tail), delm, hdr, cnt);
      h.used == |Lines(ls)| + |delm| ==>
        Newlines(h.out) >= |ls| + 1 + if exists k :: 0 <= k < |ls| && |ls[k]| + 1 > LINE_LIMIT then 1 else 0
  {
    hide HeadOf, Newlines, IsLine;
    if ls == [] {
      HeadOfDelimiter(delm, d, hdr, cnt, tail);
      assert Lines(ls) + (delm + tail) == delm + tail;
      DelimiterHasOne(d);
    } else {
      var l, more := ls[0], Lines(ls[1..]) + (delm + tail);
      Regroup(l + "\n", Lines(ls[1..]), delm + tail);
      var p := LinePasses(l, delm, hdr, cnt, more);
      if p.Passed? {
        LinesOut(ls[1..], delm, d, hdr, p.cnt, tail);
        var h := HeadOf(more, delm, hdr, p.cnt);
        AfterLength(p.out, |l| + 1, p.rounds, h);
        NewlinesConcat(p.out, h.out);
        assert forall k :: 1 <= k < |ls| ==> ls[k] == ls[1..][k - 1];
      }
    }
  }

  lemma DelimiterHasOne(d: string)
    requires IsLine(d)
    ensures Newlines(d + "\n") == 1
  {
    NoNewline(d);
  }

  lemma {:induction false} NewlinesOfLines(ls: seq<string>)
    requires forall k :: 0 <= k < |ls| ==> '\n' !in ls[k]
    ensures Newlines(Lines(ls)) == |ls|
  {
    if ls != [] {
      NoNewline(ls[0]);
      NewlinesConcat(ls[0] + "\n", Lines(ls[1..]));
      NewlinesOfLines(ls[1..]);
    }
  }

  /**
    The header lines come out one for one, hosted and otherwise unchanged, exactly when each of them with its
    newline fits in one read and none of them makes the reader throw.
   */
  lemma LinesKeptIffShort(ls: seq<string>, d: string, hdr: string, cnt: int, tail: string)
    requires IsLine(d) && forall k :: 0 <= k < |ls| ==> '\n' !in ls[k] && !IsDelimiter(ls[k] + "\n", d + "\n")
    ensures var delm := d + "\n";
      var h := HeadOf(Lines(ls) + (delm + tail), delm, hdr, cnt);
      h.end == Delimited && h.out == Lines(AllHosted(ls)) + delm && h.used == |Lines(ls)| + |delm|
      <==> LengthAfter(ls, hdr, cnt).Ok? && forall k :: 0 <= k < |ls| ==> |ls[k]| + 1 <= LINE_LIMIT
  {
    var delm := d + "\n";
    if forall k :: 0 <= k < |ls| ==> |ls[k]| + 1 <= LINE_LIMIT {
      HeadOfLines(ls, delm, d, hdr, cnt, tail);
    } else {
      LinesOut(ls, delm, d, hdr, cnt, tail);
      hide HeadOf, Newlines, Lines, Hosted;
      forall k | 0 <= k < |ls| ensures '\n' !in AllHosted(ls)[k] {
        HostedHasNoNewline(ls[k]);
      }
      NewlinesOfLines(AllHosted(ls));
      DelimiterHasOne(d);
      NewlinesConcat(Lines(AllHosted(ls)), delm);
    }
  }
}
