/** Reading one text request from a plain socket. */
module BufferedReaders {
  import opened Wrappers
  import opened StringUtil
  import opened CastUtil

  /** One line read takes at most this many characters: the read limit less two terminators. */
  const LINE_LIMIT: nat := 1022

  /** The size of the buffer that a body read fills. */
  const BUFFER: nat := 32768

  /** What constructing a string with a negative length throws. */
  const LENGTH_ERROR := "length_error"

  const TOKEN := "REPLACE_HOST_" + "f2079930-4a8b-11e2" + "-bcfd-0800200c9a66"
  const PLACEHOLDER := "{" + TOKEN + "}"
  const HOST_LINE := "Host: " + PLACEHOLDER

  /** How many characters one line read takes: up to and including a newline, within the limit. */
  function LineLength(s: string, limit: nat): (n: nat)
    ensures n <= |s| && n <= limit
    ensures s != "" && limit > 0 ==> n > 0
    ensures '\n' !in s[..n] || (s[n - 1] == '\n' && '\n' !in s[..n - 1])
  {
    if s == "" || limit == 0 then 0
    else if s[0] == '\n' then 1
    else
      var n := 1 + LineLength(s[1..], limit - 1);
      assert s[..n] == [s[0]] + s[1..][..n - 1];
      assert s[n - 1] == '\n' && n > 1 ==> s[..n - 1] == [s[0]] + s[1..][..n - 2];
      n
  }

  /** strcmp sees both texts up to their first NUL. */
  predicate IsDelimiter(line: string, delm: string) {
    CString(line) == CString(delm)
  }

  function Hosted(temp: string): string {
    if Contains(temp, "Host:") then HOST_LINE else temp
  }

  /** The content length after a header line; a number that cannot be read leaves it as it was. */
  function Announced(temp: string, hdr: string, cnt: int): Result<int> {
    if !Contains(temp, hdr) then Ok(cnt)
    else
      // without ": " the position is npos, and npos + 2 wraps round to 1
      var from := match Find(temp, ": ", 0) case Some(i) => i + 2 case None => 1;
      if from > |temp| then Thrown(OUT_OF_RANGE)
      else
        var cntle := temp[from..];
        match ReadInt(if cntle == "" then "" else cntle[..|cntle| - 1])
        case Ok(n) => Ok(n)
        case Thrown(_) => Ok(cnt)
  }

  datatype End = Delimited | Closed | Failed

  /** The header loop: its text, the content length, the characters taken, the line reads made and how it ended. */
  datatype Head = Head(out: string, cnt: int, used: nat, rounds: nat, end: End)

  function HeadOf(s: string, delm: string, hdr: string, cnt: int): (h: Head)
    ensures h.used <= |s|
    ensures h.end == Closed ==> h.used == |s|
    decreases |s|
  {
    if s == "" then Head("", cnt, 0, 1, Closed)
    else
      var n := LineLength(s, LINE_LIMIT);
      if IsDelimiter(s[..n], delm) then Head(s[..n], cnt, n, 1, Delimited)
      else
        var temp := Hosted(s[..n - 1]);
        var length := Announced(temp, hdr, cnt);
        if length.Thrown? then Head(temp + "\n", cnt, n, 1, Failed)
        else After(temp + "\n", n, 1, HeadOf(s[n..], delm, hdr, length.value))
  }

  function After(out: string, used: nat, rounds: nat, h: Head): Head {
    h.(out := out + h.out, used := used + h.used, rounds := rounds + h.rounds)
  }

  datatype Reply = Reply(result: Result<string>, used: nat, closed: bool)

  /** What singleRequest returns, how much of the input it takes, and whether it marks the socket closed. */
  function RequestIn(s: string, delm: string, hdr: string): (q: Reply)
    ensures q.used <= |s|
  {
    var h := HeadOf(s, delm, hdr, 0);
    match h.end
    case Failed => Reply(Thrown(OUT_OF_RANGE), h.used, false)
    case Closed => Reply(Ok(h.out), h.used, true)
    case Delimited =>
      var rest := s[h.used..];
      if h.cnt <= 0 then Reply(Ok(h.out), h.used, false)
      else if h.cnt <= |rest| then Reply(Ok(h.out + rest[..h.cnt]), h.used + h.cnt, false)
      else Reply(Ok(h.out + rest), |s|, true)
  }

  lemma AfterTwice(a: string, n: nat, i: nat, b: string, m: nat, j: nat, h: Head)
    ensures After(a, n, i, After(b, m, j, h)) == After(a + b, n + m, i + j, h)
  {
    assert a + (b + h.out) == (a + b) + h.out;
  }

  lemma HeadUnfold(s: string, delm: string, hdr: string, cnt: int)
    requires s != ""
    ensures var n := LineLength(s, LINE_LIMIT);
      var temp := Hosted(s[..n - 1]);
      var length := Announced(temp, hdr, cnt);
      HeadOf(s, delm, hdr, cnt) ==
      if IsDelimiter(s[..n], delm) then Head(s[..n], cnt, n, 1, Delimited)
      else if length.Thrown? then Head(temp + "\n", cnt, n, 1, Failed)
      else After(temp + "\n", n, 1, HeadOf(s[n..], delm, hdr, length.value))
  {
  }

  lemma HostedLine(temp: string)
    ensures Hosted(temp) == if Contains(temp, "Host:") then HOST_LINE else temp
  {
  }

  lemma HeadOfNothing(s: string, delm: string, hdr: string, cnt: int)
    requires LineLength(s, LINE_LIMIT) == 0
    ensures HeadOf(s, delm, hdr, cnt) == Head("", cnt, 0, 1, Closed)
  {
  }

  lemma AfterNothing(h: Head)
    ensures After("", 0, 0, h) == h
  {
    assert "" + h.out == h.out;
  }

  lemma AfterHead(out: string, used: nat, rounds: nat, more: string, cnt: int, n: nat, end: End)
    ensures After(out, used, rounds, Head(more, cnt, n, 1, end)) == Head(out + more, cnt, used + n, rounds + 1, end)
  {
  }

  lemma AfterReads(out: string, used: nat, rounds: nat, h: Head)
    ensures After(out, used, rounds, h).rounds == rounds + h.rounds
  {
  }

  lemma SomeReads(s: string, delm: string, hdr: string, cnt: int)
    ensures HeadOf(s, delm, hdr, cnt).rounds >= 1
  {
  }

  /** One of the first `n` line reads reports an error. */
  predicate Broken(fails: nat -> bool, n: nat) {
    exists j :: 0 <= j < n && fails(j)
  }

  /** After every body read comes one that is not an error; otherwise the body loop does not end. */
  ghost predicate Recovers(chunk: nat -> int) {
    forall k: nat :: SucceedsFrom(chunk, k)
  }

  lemma AlwaysSucceeds(chunk: nat -> int)
    requires Recovers(chunk)
    ensures forall k: nat :: SucceedsFrom(chunk, k)
  {
  }

  ghost predicate SucceedsFrom(chunk: nat -> int, k: nat) {
    exists j: nat :: j >= k && chunk(j) >= 0
  }

  /** A read that is not an error returns what there is, within what is asked for; nothing only at the end. */
  function BytesRead(chunk: nat, want: nat, left: nat): (er: nat)
    requires want > 0
    ensures er <= want && er <= left && (er == 0 <==> left == 0)
    ensures er > BUFFER ==> chunk > BUFFER
  {
    var er := if chunk > want then want else chunk;
    if er > left then left else if er == 0 && left > 0 then 1 else er
  }

  lemma SliceGrows(s: string, a: nat, b: nat, n: nat)
    requires a <= b && b + n <= |s|
    ensures s[a..b] + s[b..b + n] == s[a..b + n]
  {
  }

  /** How a call ends. Overrun stands for a body read beyond the end of the buffer, which is undefined. */
  datatype Outcome = Returned(data: string) | Escaped(exception: string) | Overrun

  class BufferedReader {
    var hdrdelm: string
    var cntlnhdr: string
    var fds: map<int, bool>

    constructor (hdrdelm: string, cntlnhdr: string)
      ensures this.hdrdelm == hdrdelm && this.cntlnhdr == cntlnhdr && fds == map[]
    {
      this.hdrdelm, this.cntlnhdr, this.fds := hdrdelm, cntlnhdr, map[];
    }

    /** The header loop: reads lines up to and including the delimiter, unless a read fails. */
    method ReadHead(input: string, fails: nat -> bool)
      returns (broken: bool, alldat: string, cntlen: int, used: nat, end: End)
      ensures var h := HeadOf(input, hdrdelm, cntlnhdr, 0);
        && (broken <==> Broken(fails, h.rounds))
        && (!broken ==> h.out == alldat && h.cnt == cntlen && h.used == used && h.end == end)
    {
      hide *;
      broken, alldat, cntlen, used, end := false, "", 0, 0, Closed;
      var n := 0;
      ghost var h := HeadOf(input, hdrdelm, cntlnhdr, 0);
      assert h == After("", 0, 0, HeadOf(input[0..], hdrdelm, cntlnhdr, 0)) by {
        assert input[0..] == input;
        AfterNothing(h);
      }
      while true
        invariant used <= |input| && end == Closed && !broken
        invariant forall j :: 0 <= j < n ==> !fails(j)
        invariant h == After(alldat, used, n, HeadOf(input[used..], hdrdelm, cntlnhdr, cntlen))
        decreases |input| - used
      {
        var s := input[used..];
        SomeReads(s, hdrdelm, cntlnhdr, cntlen);
        AfterReads(alldat, used, n, HeadOf(s, hdrdelm, cntlnhdr, cntlen));
        if fails(n) {
          BrokenAt(fails, n, h.rounds);
          broken := true;
          return;
        }
        var er := LineLength(s, LINE_LIMIT);
        n := n + 1;
        if er == 0 {
          HeadOfNothing(s, hdrdelm, cntlnhdr, cntlen);
          AfterHead(alldat, used, n - 1, "", cntlen, 0, Closed);
          assert alldat + "" == alldat;
          NotBroken(fails, n);
          return;
        }
        HeadUnfold(s, hdrdelm, cntlnhdr, cntlen);
        var buf := s[..er];
        if IsDelimiter(buf, hdrdelm) {
          AfterHead(alldat, used, n - 1, buf, cntlen, er, Delimited);
          alldat, used, end := alldat + buf, used + er, Delimited;
          NotBroken(fails, n);
          return;
        }
        var temp := buf[..er - 1];
        HostedLine(temp);
        if Contains(temp, "Host:") {
          temp := HOST_LINE;
        }
        assert s[..er - 1] == buf[..er - 1];
        var length := Announced(temp, cntlnhdr, cntlen);
        if length.Thrown? {
          AfterHead(alldat, used, n - 1, temp + "\n", cntlen, er, Failed);
          alldat, used, end := alldat + (temp + "\n"), used + er, Failed;
          NotBroken(fails, n);
          return;
        }
        AfterTwice(alldat, used, n - 1, temp + "\n", er, 1, HeadOf(s[er..], hdrdelm, cntlnhdr, length.value));
        assert s[er..] == input[used + er..];
        alldat, used, cntlen := alldat + (temp + "\n"), used + er, length.value;
      }
    }

    /**
      The content loop. Read k reports an error if chunk(k) is negative, and otherwise returns chunk(k)
      characters, or as many as are asked for or left.
     */
    method ReadBody(input: string, start: nat, length: int, chunk: nat -> int)
      returns (overrun: bool, body: string, closed: bool)
      requires (length > 0 ==> Recovers(chunk)) && start <= |input|
      ensures overrun ==> length > 32768 && exists k: nat :: chunk(k) > 32768
      ensures !overrun ==>
        && body == (if length <= 0 then ""
                    else if length <= |input| - start then input[start..start + length] else input[start..])
        && (closed <==> length > |input| - start)
    {
      hide BytesRead, Recovers;
      body, overrun, closed := "", false, false;
      var cntlen, used, k := length, start, 0;
      ghost var good: nat := 0;
      if length > 0 {
        AlwaysSucceeds(chunk);
        assert SucceedsFrom(chunk, k);
        good :| good >= k && chunk(good) >= 0;
      }
      while cntlen > 0
        invariant start <= used <= |input| && !overrun && !closed
        invariant length > 0 ==> k <= good && chunk(good) >= 0
        invariant body == input[start..used]
        invariant cntlen == length - (used - start)
        invariant cntlen >= 0 || used == start
        decreases cntlen, good - k
      {
        if chunk(k) < 0 {
          k := k + 1;
        } else {
          var er := BytesRead(chunk(k), cntlen, |input| - used);
          if er == 0 {
            closed := true;
            return;
          }
          if er > BUFFER {
            overrun := true;
            return;
          }
          SliceGrows(input, start, used, er);
          body := body + input[used..used + er];
          used, cntlen, k := used + er, cntlen - er, k + 1;
          assert SucceedsFrom(chunk, k);
          good :| good >= k && chunk(good) >= 0;
        }
      }
    }

    /**
      singleRequest on a text socket without SSL. `input` is what the peer sends before it closes. Line
      read k reports an error if fails(k); `chunk` describes the body reads.
     */
    method SingleRequest(fd: int, input: string, fails: nat -> bool, chunk: nat -> int) returns (r: Outcome, used: nat)
      requires var h := HeadOf(input, hdrdelm, cntlnhdr, 0);
        !Broken(fails, h.rounds) && h.end == Delimited && h.cnt > 0 ==> Recovers(chunk)
      modifies this`fds
      ensures var h, q := HeadOf(input, hdrdelm, cntlnhdr, 0), RequestIn(input, hdrdelm, cntlnhdr);
        if Broken(fails, h.rounds) then r == Escaped(LENGTH_ERROR) && fds == old(fds)
        else if r == Overrun then h.end == Delimited && h.cnt > 32768 && exists k: nat :: chunk(k) > 32768
        else
          && r == (match q.result case Ok(data) => Returned(data) case Thrown(e) => Escaped(e))
          && used == q.used && fds == if q.closed then old(fds)[fd := true] else old(fds)
    {
      hide HeadOf, Broken, Recovers;
      var broken, alldat, cntlen, start, end := ReadHead(input, fails);
      used := start;
      if broken {
        return Escaped(LENGTH_ERROR), used;
      }
      if end == Failed {
        return Escaped(OUT_OF_RANGE), used;
      }
      if end == Closed {
        fds := fds[fd := true];
        return Returned(alldat), used;
      }
      var overrun, body, closed := ReadBody(input, start, cntlen, chunk);
      if overrun {
        return Overrun, used;
      }
      if closed {
        fds := fds[fd := true];
      }
      assert cntlen > 0 && cntlen <= |input| - start ==> input[start..][..cntlen] == input[start..start + cntlen];
      assert alldat + "" == alldat;
      return Returned(alldat + body), start + |body|;
    }
  }

  lemma BrokenAt(fails: nat -> bool, j: nat, n: nat)
    requires fails(j) && j < n
    ensures Broken(fails, n)
  {
  }

  lemma NotBroken(fails: nat -> bool, n: nat)
    requires forall j :: 0 <= j < n ==> !fails(j)
    ensures !Broken(fails, n)
  {
  }
}
