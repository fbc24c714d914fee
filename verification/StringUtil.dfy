/** The string rewriting loops of StringUtil.cpp and their functional meaning. */
module StringUtil {
  import opened Wrappers

  predicate OccursAt(s: string, p: string, i: int) {
    0 <= i && i + |p| <= |s| && s[i..i + |p|] == p
  }

  predicate Contains(s: string, p: string) {
    Find(s, p, 0).Some?
  }

  /** std::string::find: the least occurrence at or after `from`; None is npos. */
  function Find(s: string, p: string, from: nat): (r: Option<nat>)
    ensures r.Some? ==> from <= r.value && OccursAt(s, p, r.value)
    ensures r.Some? ==> forall k :: from <= k < r.value ==> !OccursAt(s, p, k)
    ensures r.None? ==> forall k :: from <= k ==> !OccursAt(s, p, k)
    decreases |s| + 1 - from
  {
    if from + |p| > |s| then None
    else if OccursAt(s, p, from) then Some(from)
    else Find(s, p, from + 1)
  }

  // ---------------------------------------------------------------- replace

  /** What replaceFirst leaves in `str`. */
  function ReplacedFirst(s: string, p: string, w: string): string {
    match Find(s, p, 0)
    case None => s
    case Some(i) => s[..i] + w + s[i + |p|..]
  }

  /** What replaceAll leaves in `str`: every occurrence met from left to right, the text put in is not searched. */
  function Replaced(s: string, p: string, w: string): string
    requires p != ""
    decreases |s|
  {
    match Find(s, p, 0)
    case None => s
    case Some(i) => s[..i] + w + Replaced(s[i + |p|..], p, w)
  }

  method ReplaceFirst(str: string, ths: string, with: string) returns (r: string)
    ensures r == ReplacedFirst(str, ths, with)
  {
    r := str;
    var start := Find(r, ths, 0);
    if start.Some? {
      r := r[..start.value] + with + r[start.value + |ths|..];
    }
  }

  lemma ReplacedStep(done: string, s: string, p: string, w: string)
    requires p != "" && Find(s, p, 0).Some?
    ensures var i := Find(s, p, 0).value;
      done + Replaced(s, p, w) == (done + s[..i] + w) + Replaced(s[i + |p|..], p, w)
  {
  }

  /** One turn of the loop in replaceAll: the text before `start` is final. */
  lemma ReplaceAllStep(s: string, p: string, w: string, start: nat)
    requires p != "" && start <= |s| && Find(s, p, start).Some?
    ensures var at := Find(s, p, start).value;
      var next := s[..at] + w + s[at + |p|..];
      && at + |w| <= |next|
      && next[..at + |w|] + Replaced(next[at + |w|..], p, w) == s[..start] + Replaced(s[start..], p, w)
  {
    hide Find, Replaced;
    FindInSuffix(s, p, start);
    ReplacedStep(s[..start], s[start..], p, w);
    var at := Find(s, p, start).value;
    assert s[..start] + s[start..][..at - start] == s[..at];
    assert s[start..][at - start + |p|..] == s[at + |p|..];
    var next := s[..at] + w + s[at + |p|..];
    assert next[..at + |w|] == s[..at] + w;
    assert next[at + |w|..] == s[at + |p|..];
  }

  lemma ReplaceAllDone(s: string, p: string, w: string, start: nat)
    requires p != "" && start <= |s| && Find(s, p, start).None?
    ensures s[..start] + Replaced(s[start..], p, w) == s
  {
    FindInSuffix(s, p, start);
  }

  method ReplaceAll(str: string, ths: string, with: string) returns (r: string)
    ensures r == if ths == "" then str else Replaced(str, ths, with)
  {
    hide Replaced, Find;
    r := str;
    if ths == "" {
      return;
    }
    var start := 0;
    var found := Find(r, ths, start);
    assert r[..0] + Replaced(r[0..], ths, with) == Replaced(str, ths, with) by {
      assert r[0..] == r;
    }
    while found.Some?
      invariant 0 <= start <= |r|
      invariant found == Find(r, ths, start)
      invariant r[..start] + Replaced(r[start..], ths, with) == Replaced(str, ths, with)
      decreases |r| - start
    {
      ReplaceAllStep(r, ths, with, start);
      r := r[..found.value] + with + r[found.value + |ths|..];
      start := found.value + |with|;
      found := Find(r, ths, start);
    }
    ReplaceAllDone(r, ths, with, start);
  }

  /** What eraseAll leaves: each search starts again from the front, so joined-up occurrences go too. */
  function AllErased(s: string, p: string): string
    requires p != ""
    decreases |s|
  {
    match Find(s, p, 0)
    case None => s
    case Some(i) => AllErased(s[..i] + s[i + |p|..], p)
  }

  method EraseAll(str: string, ths: string) returns (r: string)
    ensures r == if ths == "" then str else AllErased(str, ths)
  {
    r := str;
    if ths == "" {
      return;
    }
    var found := Find(r, ths, 0);
    while found.Some?
      invariant found == Find(r, ths, 0)
      invariant AllErased(r, ths) == AllErased(str, ths)
      decreases |r|
    {
      r := r[..found.value] + r[found.value + |ths|..];
      found := Find(r, ths, 0);
    }
  }

  /** Unlike replaceAll with an empty text, eraseAll leaves no occurrence behind. */
  lemma {:induction false} ErasedIsClean(s: string, p: string)
    requires p != ""
    ensures !Contains(AllErased(s, p), p)
    decreases |s|
  {
    match Find(s, p, 0)
    case None =>
    case Some(i) => ErasedIsClean(s[..i] + s[i + |p|..], p);
  }

  /** The characters that are not in the pattern. */
  function Outside(s: string, p: string): string {
    if s == "" then "" else (if s[0] in p then "" else [s[0]]) + Outside(s[1..], p)
  }

  lemma {:induction false} OutsideConcat(a: string, b: string, p: string)
    ensures Outside(a + b, p) == Outside(a, p) + Outside(b, p)
  {
    if a == "" {
      assert a + b == b;
    } else {
      assert (a + b)[0] == a[0] && (a + b)[1..] == a[1..] + b;
      OutsideConcat(a[1..], b, p);
    }
  }

  lemma {:induction false} NothingOutside(s: string, p: string)
    requires forall c :: c in s ==> c in p
    ensures Outside(s, p) == ""
  {
    if s != "" {
      assert s[0] in s;
      NothingOutside(s[1..], p);
    }
  }

  /** Erasing takes out k patterns and no other character, and leaves exactly a text without the pattern alone. */
  lemma {:induction false} ErasedKeeps(s: string, p: string) returns (k: nat)
    requires p != ""
    ensures Outside(AllErased(s, p), p) == Outside(s, p)
    ensures |s| == |AllErased(s, p)| + k * |p|
    ensures AllErased(s, p) == s <==> !Contains(s, p)
    decreases |s|
  {
    hide *;
    ErasedUnfold(s, p);
    FoundMeansContained(s, p);
    k := 0;
    match Find(s, p, 0)
    case None =>
    case Some(i) =>
      FoundParts(s, p, i);
      var a, b := s[..i], s[i + |p|..];
      assert |s| == |a + b| + |p|;
      var n := ErasedKeeps(a + b, p);
      k := n + 1;
      OneMoreErased(|AllErased(s, p)|, n, |p|);
      OutsideBoth(a, b, p);
  }

  lemma FoundMeansContained(s: string, p: string)
    ensures Contains(s, p) <==> Find(s, p, 0).Some?
  {
  }

  lemma OneMoreErased(left: nat, n: nat, size: nat)
    ensures left + n * size + size == left + (n + 1) * size && n * size >= 0
  {
  }

  lemma OutsideBoth(a: string, b: string, p: string)
    ensures Outside(a + p + b, p) == Outside(a + b, p)
  {
    hide Outside;
    OutsideConcat(a, b, p);
    OutsideConcat(a + p, b, p);
    OutsideConcat(a, p, p);
    NothingOutside(p, p);
    assert Outside(a, p) + "" == Outside(a, p);
  }

  lemma ExampleSlices()
    ensures "aabb"[..1] == "a" && "aabb"[3..] == "b" && "a" + "b" == "ab" && "a" + "" + "b" == "ab"
    ensures "ab"[..0] + "ab"[2..] == "" && |"ab"| == 2
  {
  }

  /** An input on which erasing and replacing by nothing differ. */
  lemma EraseIsNotReplace()
    ensures AllErased("aabb", "ab") == "" && Replaced("aabb", "ab", "") == "ab"
  {
    hide *;
    FoundInExample();
    ExampleSlices();
    assert AllErased("aabb", "ab") == "" by {
      ErasedUnfold("aabb", "ab");
      ErasedUnfold("ab", "ab");
      ErasedUnfold("", "ab");
    }
    assert Replaced("aabb", "ab", "") == "ab" by {
      ReplacedUnfold("aabb", "ab", "");
      ReplacedUnfold("b", "ab", "");
    }
  }

  lemma ErasedUnfold(s: string, p: string)
    requires p != ""
    ensures Find(s, p, 0).None? ==> AllErased(s, p) == s
    ensures Find(s, p, 0).Some? ==>
      var i := Find(s, p, 0).value; AllErased(s, p) == AllErased(s[..i] + s[i + |p|..], p)
  {
  }

  lemma FoundInExample()
    ensures Find("aabb", "ab", 0) == Some(1) && Find("ab", "ab", 0) == Some(0)
    ensures Find("", "ab", 0) == None && Find("b", "ab", 0) == None
  {
    assert "aabb"[0..2] == "aa" && "aabb"[1..3] == "ab" && "aa"[1] == 'a' && "ab"[1] == 'b';
    assert "ab"[0..2] == "ab";
    assert !OccursAt("aabb", "ab", 0) && OccursAt("aabb", "ab", 1) && OccursAt("ab", "ab", 0);
    hide OccursAt;
    LeastIsFound("aabb", "ab", 1);
    LeastIsFound("ab", "ab", 0);
  }

  /** The first place of an occurrence is what find returns. */
  lemma LeastIsFound(s: string, p: string, i: nat)
    requires OccursAt(s, p, i) && forall k :: 0 <= k < i ==> !OccursAt(s, p, k)
    ensures Find(s, p, 0) == Some(i)
  {
    hide OccursAt;
  }

  lemma NoneIsFound(s: string, p: string)
    requires forall k :: 0 <= k ==> !OccursAt(s, p, k)
    ensures Find(s, p, 0) == None
  {
    hide OccursAt;
  }

  lemma OccursInSuffix(s: string, p: string, from: nat, k: int)
    requires from <= |s|
    ensures OccursAt(s[from..], p, k) <==> 0 <= k && OccursAt(s, p, from + k)
  {
    if 0 <= k && k + |p| <= |s| - from {
      assert s[from..][k..k + |p|] == s[from + k..from + k + |p|];
    }
  }

  lemma FindInSuffix(s: string, p: string, from: nat)
    requires from <= |s|
    ensures forall k :: OccursAt(s[from..], p, k) <==> 0 <= k && OccursAt(s, p, from + k)
    ensures Find(s, p, from).None? <==> Find(s[from..], p, 0).None?
    ensures Find(s, p, from).Some? ==> Find(s[from..], p, 0) == Some(Find(s, p, from).value - from)
  {
    hide Find, OccursAt;
    var t := s[from..];
    forall k ensures OccursAt(t, p, k) <==> 0 <= k && OccursAt(s, p, from + k) {
      OccursInSuffix(s, p, from, k);
    }
    if Find(s, p, from).Some? {
      LeastIsFound(t, p, Find(s, p, from).value - from);
    } else {
      NoneIsFound(t, p);
    }
  }

  // ------------------------------------------------------ search and replace in a concatenation

  /** No occurrence of `p` in `a + b` uses characters of both. */
  ghost predicate NoStraddle(a: string, b: string, p: string) {
    forall k :: OccursAt(a + b, p, k) ==> k + |p| <= |a| || k >= |a|
  }

  lemma OccursChar(s: string, p: string, k: int, j: nat)
    requires OccursAt(s, p, k) && j < |p|
    ensures s[k + j] == p[j]
  {
    assert s[k..k + |p|][j] == p[j];
  }

  lemma OccursInLeft(a: string, b: string, p: string, k: int)
    requires k + |p| <= |a|
    ensures OccursAt(a + b, p, k) <==> OccursAt(a, p, k)
  {
    if 0 <= k {
      assert a[k..k + |p|] == (a + b)[k..k + |p|];
    }
  }

  lemma OccursInRight(a: string, b: string, p: string, k: int)
    requires 0 <= k
    ensures OccursAt(a + b, p, |a| + k) <==> OccursAt(b, p, k)
  {
    if k + |p| <= |b| {
      assert b[k..k + |p|] == (a + b)[|a| + k..|a| + k + |p|];
    }
  }

  /** A character outside the pattern at the seam keeps occurrences apart. */
  lemma SeamSeparates(a: string, b: string, p: string)
    requires a == "" || b == "" || b[0] !in p || a[|a| - 1] !in p
    ensures NoStraddle(a, b, p)
  {
    forall k | OccursAt(a + b, p, k) ensures k + |p| <= |a| || k >= |a| {
      if k < |a| < k + |p| {
        if b[0] !in p {
          OccursChar(a + b, p, k, |a| - k);
        } else {
          OccursChar(a + b, p, k, |a| - 1 - k);
        }
      }
    }
  }

  function Shifted(o: Option<nat>, n: nat): Option<nat> {
    match o
    case None => None
    case Some(i) => Some(i + n)
  }

  /** Where an occurrence in a concatenation without straddling stands. */
  lemma OccursInOne(a: string, b: string, p: string, k: int)
    requires NoStraddle(a, b, p) && OccursAt(a + b, p, k)
    ensures OccursAt(a, p, k) || (k >= |a| && OccursAt(b, p, k - |a|))
  {
    if k + |p| <= |a| {
      OccursInLeft(a, b, p, k);
    } else {
      OccursInRight(a, b, p, k - |a|);
    }
  }

  lemma FindConcat(a: string, b: string, p: string)
    requires p != "" && NoStraddle(a, b, p)
    ensures Find(a + b, p, 0) == if Find(a, p, 0).Some? then Find(a, p, 0) else Shifted(Find(b, p, 0), |a|)
  {
    hide Find, OccursAt, NoStraddle;
    if Find(a, p, 0).Some? {
      var i := Find(a, p, 0).value;
      OccursFits(a, p, i);
      OccursInLeft(a, b, p, i);
      forall k | 0 <= k < i ensures !OccursAt(a + b, p, k) {
        OccursInLeft(a, b, p, k);
      }
      LeastIsFound(a + b, p, i);
    } else {
      forall k | 0 <= k && OccursAt(a + b, p, k) ensures k >= |a| && OccursAt(b, p, k - |a|) {
        OccursInOne(a, b, p, k);
      }
      if Find(b, p, 0).Some? {
        OccursInRight(a, b, p, Find(b, p, 0).value);
        LeastIsFound(a + b, p, |a| + Find(b, p, 0).value);
      } else {
        NoneIsFound(a + b, p);
      }
    }
  }

  lemma OccursFits(s: string, p: string, k: int)
    requires OccursAt(s, p, k)
    ensures 0 <= k && k + |p| <= |s|
  {
  }

  lemma ReplacedUnfold(s: string, p: string, w: string)
    requires p != ""
    ensures Find(s, p, 0).None? ==> Replaced(s, p, w) == s
    ensures Find(s, p, 0).Some? ==>
      var i := Find(s, p, 0).value; Replaced(s, p, w) == s[..i] + w + Replaced(s[i + |p|..], p, w)
  {
  }

  lemma {:induction false} ReplacedConcat(a: string, b: string, p: string, w: string)
    requires p != "" && NoStraddle(a, b, p)
    ensures Replaced(a + b, p, w) == Replaced(a, p, w) + Replaced(b, p, w)
    decreases |a|
  {
    FindConcat(a, b, p);
    match Find(a, p, 0)
    case Some(i) =>
      NoStraddleSuffix(a, b, p, i + |p|);
      ReplacedConcat(a[i + |p|..], b, p, w);
      ReplacedConcatStep(a, b, p, w);
    case None =>
      ReplacedAfterClean(a, b, p, w);
  }

  lemma Associate(x: string, w: string, r: string, y: string)
    ensures x + w + (r + y) == (x + w + r) + y
    ensures (x + r) + w + y == x + (r + w + y)
  {
  }

  lemma ReplacedConcatStep(a: string, b: string, p: string, w: string)
    requires p != "" && Find(a, p, 0).Some? && Find(a + b, p, 0) == Find(a, p, 0)
    requires var rest := a[Find(a, p, 0).value + |p|..];
      Replaced(rest + b, p, w) == Replaced(rest, p, w) + Replaced(b, p, w)
    ensures Replaced(a + b, p, w) == Replaced(a, p, w) + Replaced(b, p, w)
  {
    hide Replaced, Find, NoStraddle;
    ReplacedUnfold(a + b, p, w);
    ReplacedUnfold(a, p, w);
    var i := Find(a, p, 0).value;
    var rest := a[i + |p|..];
    Associate(a[..i], w, Replaced(rest, p, w), Replaced(b, p, w));
    assert (a + b)[i + |p|..] == rest + b && (a + b)[..i] == a[..i];
  }

  lemma ReplacedAfterClean(a: string, b: string, p: string, w: string)
    requires p != "" && Find(a, p, 0).None? && Find(a + b, p, 0) == Shifted(Find(b, p, 0), |a|)
    ensures Replaced(a + b, p, w) == Replaced(a, p, w) + Replaced(b, p, w)
  {
    hide Replaced, Find, NoStraddle;
    ReplacedUnfold(a + b, p, w);
    ReplacedUnfold(a, p, w);
    ReplacedUnfold(b, p, w);
    match Find(b, p, 0)
    case None =>
    case Some(j) =>
      assert (a + b)[|a| + j + |p|..] == b[j + |p|..] && (a + b)[..|a| + j] == a + b[..j];
      Associate(a, w, b[..j], Replaced(b[j + |p|..], p, w));
  }

  lemma NoStraddleSuffix(a: string, b: string, p: string, n: nat)
    requires n <= |a| && NoStraddle(a, b, p)
    ensures NoStraddle(a[n..], b, p)
  {
    assert (a + b)[n..] == a[n..] + b;
    FindInSuffix(a + b, p, n);
  }

  /** A text without one of the characters of the pattern, or shorter than it, does not contain it. */
  lemma NotContained(s: string, p: string, c: char)
    requires |s| < |p| || (c in p && c !in s)
    ensures !Contains(s, p)
  {
    if c in p {
      var j :| 0 <= j < |p| && p[j] == c;
      forall k ensures !OccursAt(s, p, k) {
        if OccursAt(s, p, k) {
          OccursChar(s, p, k, j);
        }
      }
    }
  }

  lemma ReplacedWhole(p: string, w: string)
    requires p != ""
    ensures Replaced(p, p, w) == w && Find(p, p, 0) == Some(0)
  {
    assert OccursAt(p, p, 0);
    assert Replaced(p, p, w) == "" + w + Replaced("", p, w);
  }

  /** An occurrence found from the start is found again from any point before it. */
  lemma FindFrom(s: string, p: string, from: nat)
    requires Find(s, p, 0).Some? && from <= Find(s, p, 0).value
    ensures Find(s, p, from) == Find(s, p, 0)
  {
  }

  // ------------------------------------------------------------------ split

  /** What splitInternal appends for a non-empty delimiter. */
  function Pieces(s: string, d: string): (ps: seq<string>)
    requires d != ""
    ensures |ps| >= 1
    decreases |s|
  {
    match Find(s, d, 0)
    case None => [s]
    case Some(i) => [s[..i]] + Pieces(s[i + |d|..], d)
  }

  function Join(ps: seq<string>, w: string): string
    requires |ps| >= 1
  {
    if |ps| == 1 then ps[0] else ps[0] + w + Join(ps[1..], w)
  }

  lemma PiecesUnfold(s: string, d: string)
    requires d != ""
    ensures Find(s, d, 0).None? ==> Pieces(s, d) == [s]
    ensures Find(s, d, 0).Some? ==>
      var i := Find(s, d, 0).value; Pieces(s, d) == [s[..i]] + Pieces(s[i + |d|..], d)
  {
  }

  lemma PiecesStep(done: seq<string>, s: string, d: string)
    requires d != "" && Find(s, d, 0).Some?
    ensures var i := Find(s, d, 0).value;
      done + Pieces(s, d) == (done + [s[..i]]) + Pieces(s[i + |d|..], d)
  {
    hide *;
    PiecesUnfold(s, d);
  }

  /**
    Appends the pieces of `input` to `output`. With an empty delimiter the original never
    leaves its loop unless the input is empty too, and then it appends two empty strings.
   */
  method SplitInternal(output: seq<string>, input: string, delimiter: string) returns (r: seq<string>)
    requires delimiter != "" || input == ""
    ensures r == output + Parts(input, delimiter)
  {
    hide *;
    r := output;
    var temp := input;
    var start := Find(temp, delimiter, 0);
    ghost var finished := false;
    PartsOf(input, delimiter);
    while start.Some?
      invariant !finished && start == Find(temp, delimiter, 0)
      invariant delimiter == "" ==> temp == "" && r == output
      invariant delimiter != "" ==> r + Pieces(temp, delimiter) == output + Parts(input, delimiter)
      decreases |temp|
    {
      FoundFits(temp, delimiter, 0);
      if delimiter != "" {
        PiecesStep(r, temp, delimiter);
      }
      r := r + [temp[..start.value]];
      if |temp| > start.value + |delimiter| {
        temp := temp[start.value + |delimiter|..];
        start := Find(temp, delimiter, 0);
      } else {
        LastDelimiter(temp, delimiter, start.value);
        temp := temp[start.value..];
        finished := true;
        break;
      }
    }
    if finished {
      EraseWhole(delimiter);
      PartsOf("", delimiter);
    } else {
      PiecesWithout(temp, delimiter);
    }
    temp := ReplaceFirst(temp, delimiter, "");
    r := r + [temp];
  }

  lemma FoundFits(s: string, p: string, from: nat)
    ensures Find(s, p, from).Some? ==> Find(s, p, from).value + |p| <= |s|
  {
    hide Find;
  }

  lemma PartsOf(s: string, d: string)
    ensures d == "" ==> Parts(s, d) == ["", ""]
    ensures d != "" ==> Parts(s, d) == Pieces(s, d)
    ensures d != "" && s == "" ==> Pieces(s, d) == [""]
  {
  }

  lemma LastDelimiter(s: string, d: string, i: nat)
    requires Find(s, d, 0) == Some(i) && |s| <= i + |d|
    ensures i + |d| == |s| && s[i..] == d && s[i + |d|..] == ""
  {
    hide Find;
  }

  lemma EraseWhole(d: string)
    ensures ReplacedFirst(d, d, "") == ""
  {
    assert OccursAt(d, d, 0);
    assert Find(d, d, 0) == Some(0);
  }

  lemma PiecesWithout(s: string, d: string)
    ensures Find(s, d, 0).None? ==> ReplacedFirst(s, d, "") == s && (d != "" ==> Pieces(s, d) == [s])
    ensures d == "" ==> Find(s, d, 0).Some?
  {
    assert s[0..0] == "";
  }

  /** What splitInternal appends when it ends: an empty delimiter needs an empty text. */
  function Parts(s: string, d: string): (ps: seq<string>)
    ensures |ps| >= 1
  {
    if d == "" then ["", ""] else Pieces(s, d)
  }

  method Split(input: string, delimiter: string) returns (output: seq<string>)
    requires delimiter != "" || input == ""
    ensures output == Parts(input, delimiter)
  {
    output := SplitInternal([], input, delimiter);
  }

  /** Splitting every piece of a list and concatenating the results. */
  function SplitEach(ps: seq<string>, d: string): seq<string> {
    if ps == [] then [] else Parts(ps[0], d) + SplitEach(ps[1..], d)
  }

  function SplitByAll(ps: seq<string>, ds: seq<string>): seq<string>
    decreases |ds|
  {
    if ds == [] then ps else SplitByAll(SplitEach(ps, ds[0]), ds[1..])
  }

  /** Every splitInternal of the loops ends: an empty delimiter meets only empty pieces. */
  predicate SplitsEnd(ps: seq<string>, ds: seq<string>)
    decreases |ds|
  {
    ds != [] ==>
      && (ds[0] == "" ==> forall k :: 0 <= k < |ps| ==> ps[k] == "")
      && SplitsEnd(SplitEach(ps, ds[0]), ds[1..])
  }

  lemma SplitEachStep(done: seq<string>, ps: seq<string>, j: nat, d: string)
    requires j < |ps|
    ensures done + SplitEach(ps[j..], d) == (done + Parts(ps[j], d)) + SplitEach(ps[j + 1..], d)
  {
    assert ps[j..][1..] == ps[j + 1..];
  }

  method SplitMany(input: string, delimiters: seq<string>) returns (output: seq<string>)
    requires SplitsEnd([input], delimiters)
    ensures output == SplitByAll([input], delimiters)
  {
    hide Parts, SplitEach;
    output := [input];
    assert delimiters[0..] == delimiters;
    for i := 0 to |delimiters|
      invariant SplitByAll(output, delimiters[i..]) == SplitByAll([input], delimiters)
      invariant SplitsEnd(output, delimiters[i..])
    {
      assert delimiters[i..][0] == delimiters[i] && delimiters[i..][1..] == delimiters[i + 1..];
      output := SplitList(output, delimiters[i]);
    }
    assert delimiters[|delimiters|..] == [];
  }

  /** The inner loop. */
  method SplitList(pieces: seq<string>, delimiter: string) returns (output: seq<string>)
    requires delimiter == "" ==> forall k :: 0 <= k < |pieces| ==> pieces[k] == ""
    ensures output == SplitEach(pieces, delimiter)
  {
    hide Parts, SplitEach;
    output := [];
    assert pieces[0..] == pieces;
    for j := 0 to |pieces|
      invariant output + SplitEach(pieces[j..], delimiter) == SplitEach(pieces, delimiter)
    {
      SplitEachStep(output, pieces, j, delimiter);
      output := SplitInternal(output, pieces[j], delimiter);
    }
    assert pieces[|pieces|..] == [];
    NothingToSplit(delimiter);
  }

  lemma NothingToSplit(d: string)
    ensures SplitEach([], d) == []
  {
  }

  // ------------------------------------------- the two loops against each other

  /** replaceAll is split followed by join: the two loops find the same occurrences. */
  lemma {:induction false} ReplaceIsSplitJoin(s: string, p: string, w: string)
    requires p != ""
    ensures Replaced(s, p, w) == Join(Pieces(s, p), w)
    decreases |s|
  {
    hide *;
    ReplacedUnfold(s, p, w);
    PiecesUnfold(s, p);
    FoundFits(s, p, 0);
    match Find(s, p, 0)
    case None => JoinOne(s, w);
    case Some(i) =>
      ReplaceIsSplitJoin(s[i + |p|..], p, w);
      JoinCons(s[..i], Pieces(s[i + |p|..], p), w);
  }

  lemma JoinOne(s: string, w: string)
    ensures Join([s], w) == s
  {
  }

  lemma OccursInPrefix(s: string, p: string, i: nat)
    requires i <= |s|
    requires forall k :: 0 <= k < i ==> !OccursAt(s, p, k)
    requires p != ""
    ensures !Contains(s[..i], p)
  {
    forall k | 0 <= k <= i - |p| ensures !OccursAt(s[..i], p, k) {
      assert s[..i][k..k + |p|] == s[k..k + |p|];
      assert !OccursAt(s, p, k);
    }
  }

  /** split loses nothing: joining the pieces with the delimiter gives the input back. */
  lemma {:induction false} JoinOfSplit(s: string, p: string)
    requires p != ""
    ensures Join(Pieces(s, p), p) == s
    decreases |s|
  {
    hide *;
    PiecesUnfold(s, p);
    match Find(s, p, 0)
    case None => JoinOne(s, p);
    case Some(i) =>
      FoundParts(s, p, i);
      JoinOfSplit(s[i + |p|..], p);
      JoinCons(s[..i], Pieces(s[i + |p|..], p), p);
  }

  lemma OccursParts(s: string, p: string, i: nat)
    requires OccursAt(s, p, i)
    ensures i + |p| <= |s| && s[..i] + p + s[i + |p|..] == s
  {
    assert s == s[..i] + s[i..i + |p|] + s[i + |p|..];
  }

  lemma FoundParts(s: string, p: string, i: nat)
    requires Find(s, p, 0) == Some(i)
    ensures i + |p| <= |s| && s[..i] + p + s[i + |p|..] == s
  {
    hide *;
    OccursParts(s, p, i);
  }

  lemma JoinCons(x: string, ps: seq<string>, w: string)
    requires |ps| >= 1
    ensures Join([x] + ps, w) == x + w + Join(ps, w)
  {
    assert ([x] + ps)[1..] == ps;
  }

  /** No piece still contains the delimiter. */
  lemma {:induction false} PiecesAreClean(s: string, p: string)
    requires p != ""
    ensures forall k :: 0 <= k < |Pieces(s, p)| ==> !Contains(Pieces(s, p)[k], p)
    decreases |s|
  {
    match Find(s, p, 0)
    case None =>
    case Some(i) =>
      PiecesAreClean(s[i + |p|..], p);
      OccursInPrefix(s, p, i);
  }

  // ------------------------------------------------- single-character delimiters

  /** One pass that cuts at every character of `cs`. */
  function CutAtAny(s: string, cs: set<char>): (ps: seq<string>)
    ensures |ps| >= 1
  {
    if s == "" then [""]
    else
      var rest := CutAtAny(s[1..], cs);
      if s[0] in cs then [""] + rest else [[s[0]] + rest[0]] + rest[1..]
  }

  /** A character-free prefix stays in front of the first piece. */
  lemma CutUnfold(s: string, cs: set<char>)
    requires s != ""
    ensures s[0] in cs ==> CutAtAny(s, cs) == [""] + CutAtAny(s[1..], cs)
    ensures s[0] !in cs ==> CutAtAny(s, cs) == Prepend(s[0], CutAtAny(s[1..], cs))
  {
  }

  /** `x` in front of the first string of a list. */
  function Prepend(x: char, ps: seq<string>): (r: seq<string>)
    requires |ps| >= 1
    ensures |r| == |ps|
  {
    [[x] + ps[0]] + ps[1..]
  }

  lemma PrependTwice(x: char, a: string, ps: seq<string>)
    requires |ps| >= 1
    ensures Prepend(x, [a + ps[0]] + ps[1..]) == [([x] + a) + ps[0]] + ps[1..]
  {
    assert [x] + (a + ps[0]) == ([x] + a) + ps[0];
  }

  lemma {:induction false} CutPrefix(a: string, s: string, cs: set<char>)
    requires forall c :: c in a ==> c !in cs
    ensures CutAtAny(a + s, cs) == [a + CutAtAny(s, cs)[0]] + CutAtAny(s, cs)[1..]
  {
    hide CutAtAny, Prepend;
    if a == "" {
      assert a + s == s;
      assert a + CutAtAny(s, cs)[0] == CutAtAny(s, cs)[0];
    } else {
      CutPrefix(a[1..], s, cs);
      assert (a + s)[0] == a[0] && (a + s)[1..] == a[1..] + s;
      CutUnfold(a + s, cs);
      PrependTwice(a[0], a[1..], CutAtAny(s, cs));
      assert [a[0]] + a[1..] == a;
    }
  }

  lemma {:induction false} PiecesIsCut(s: string, c: char)
    ensures Pieces(s, [c]) == CutAtAny(s, {c})
    decreases |s|
  {
    match Find(s, [c], 0)
    case None =>
      forall x | x in s ensures x !in {c} {
        var k :| 0 <= k < |s| && s[k] == x;
        assert !OccursAt(s, [c], k);
      }
      CutPrefix(s, "", {c});
      assert s + "" == s;
    case Some(i) =>
      forall x | x in s[..i] ensures x !in {c} {
        var k :| 0 <= k < i && s[k] == x;
        assert !OccursAt(s, [c], k);
      }
      assert s[i] == s[i..i + 1][0] == c;
      PiecesIsCut(s[i + 1..], c);
      CutPrefix(s[..i], s[i..], {c});
      assert s == s[..i] + s[i..] && s[i..][1..] == s[i + 1..];
      assert s[..i] + "" == s[..i];
  }

  lemma PiecesOfEmpty(d: string)
    requires d != ""
    ensures Pieces("", d) == [""]
  {
  }

  lemma SplitEachOne(p: string, ps: seq<string>, d: string)
    requires d != ""
    ensures SplitEach([p] + ps, d) == Pieces(p, d) + SplitEach(ps, d)
  {
    hide Pieces;
    assert ([p] + ps)[1..] == ps;
  }

  lemma CutOfLonger(x: char, p: string, c: char)
    ensures x != c ==> Pieces([x] + p, [c]) == Prepend(x, Pieces(p, [c]))
    ensures x == c ==> Pieces([x] + p, [c]) == [""] + Pieces(p, [c])
  {
    hide Pieces, CutAtAny, Prepend;
    PiecesIsCut(p, c);
    PiecesIsCut([x] + p, c);
    assert ([x] + p)[1..] == p;
    CutUnfold([x] + p, {c});
  }

  lemma PrependConcat(x: char, ps: seq<string>, qs: seq<string>)
    requires |ps| >= 1
    ensures Prepend(x, ps) + qs == Prepend(x, ps + qs)
  {
    assert (ps + qs)[1..] == ps[1..] + qs;
  }

  lemma PrependIsCons(x: char, ps: seq<string>)
    requires |ps| >= 1
    ensures Prepend(x, ps) == [[x] + ps[0]] + ps[1..] && ps == [ps[0]] + ps[1..]
  {
  }

  lemma AssociateLists(a: seq<string>, b: seq<string>, c: seq<string>)
    ensures (a + b) + c == a + (b + c)
  {
  }

  lemma SplitEachOfPrepend(x: char, ps: seq<string>, c: char)
    requires |ps| >= 1
    ensures |SplitEach(ps, [c])| >= 1
    ensures SplitEach(Prepend(x, ps), [c]) ==
      if x == c then [""] + SplitEach(ps, [c]) else Prepend(x, SplitEach(ps, [c]))
  {
    hide *;
    var first, tail := Pieces(ps[0], [c]), SplitEach(ps[1..], [c]);
    PrependIsCons(x, ps);
    SplitEachOne([x] + ps[0], ps[1..], [c]);
    SplitEachOne(ps[0], ps[1..], [c]);
    CutOfLonger(x, ps[0], c);
    if x == c {
      AssociateLists([""], first, tail);
    } else {
      PrependConcat(x, first, tail);
    }
  }

  /** Cutting every piece again at one more character is one pass with the larger set. */
  lemma {:induction false} SplitEachRefinesCut(s: string, cs: set<char>, c: char)
    ensures SplitEach(CutAtAny(s, cs), [c]) == CutAtAny(s, cs + {c})
  {
    if s == "" {
      SplitEachOne("", [], [c]);
      PiecesOfEmpty([c]);
    } else {
      SplitEachRefinesCut(s[1..], cs, c);
      SplitEachRefinesCutStep(s, cs, c);
    }
  }

  lemma SplitEachRefinesCutStep(s: string, cs: set<char>, c: char)
    requires s != "" && SplitEach(CutAtAny(s[1..], cs), [c]) == CutAtAny(s[1..], cs + {c})
    ensures SplitEach(CutAtAny(s, cs), [c]) == CutAtAny(s, cs + {c})
  {
    hide CutAtAny, Pieces, SplitEach;
    CutUnfold(s, cs);
    CutUnfold(s, cs + {c});
    if s[0] in cs {
      SplitEachOne("", CutAtAny(s[1..], cs), [c]);
      PiecesOfEmpty([c]);
    } else {
      SplitEachOfPrepend(s[0], CutAtAny(s[1..], cs), c);
    }
  }

  function Singles(cs: string): (ds: seq<string>)
    ensures |ds| == |cs| && forall k :: 0 <= k < |cs| ==> ds[k] == [cs[k]]
  {
    seq(|cs|, k requires 0 <= k < |cs| => [cs[k]])
  }

  /** split with a list of one-character delimiters is one pass over the set of those characters. */
  lemma {:induction false} SplitManyIsOnePass(s: string, seen: set<char>, cs: string)
    ensures SplitByAll(CutAtAny(s, seen), Singles(cs)) == CutAtAny(s, seen + set c | c in cs)
    decreases |cs|
  {
    if cs == "" {
      assert seen + (set c | c in cs) == seen;
    } else {
      SplitEachRefinesCut(s, seen, cs[0]);
      SplitManyIsOnePass(s, seen + {cs[0]}, cs[1..]);
      assert Singles(cs)[1..] == Singles(cs[1..]);
      assert seen + {cs[0]} + (set c | c in cs[1..]) == seen + set c | c in cs;
    }
  }

  /** Hence the order (and repetition) of one-character delimiters does not matter. */
  lemma SplitOrderIrrelevant(s: string, cs: string, ds: string)
    requires (set c | c in cs) == (set c | c in ds)
    ensures SplitByAll([s], Singles(cs)) == SplitByAll([s], Singles(ds)) == CutAtAny(s, set c | c in cs)
  {
    NoCut(s);
    SplitManyIsOnePass(s, {}, cs);
    SplitManyIsOnePass(s, {}, ds);
    assert {} + (set c | c in cs) == (set c | c in cs);
    assert {} + (set c | c in ds) == (set c | c in ds);
  }

  lemma NoCut(s: string)
    ensures CutAtAny(s, {}) == [s]
  {
    CutPrefix(s, "", {});
    assert s + "" == s;
  }

  /** Splitting what was joined gives the list back exactly when no piece contains the delimiter character. */
  lemma SplitOfJoin(ps: seq<string>, c: char)
    requires |ps| >= 1
    ensures Pieces(Join(ps, [c]), [c]) == ps <==> forall k :: 0 <= k < |ps| ==> c !in ps[k]
  {
    if k :| 0 <= k < |ps| && c in ps[k] {
      PiecesAreClean(Join(ps, [c]), [c]);
      CharIsContained(ps[k], c);
    } else {
      PiecesIsCut(Join(ps, [c]), c);
      CutOfJoin(ps, c);
    }
  }

  lemma CharIsContained(s: string, c: char)
    requires c in s
    ensures Contains(s, [c])
  {
    var j :| 0 <= j < |s| && s[j] == c;
    assert OccursAt(s, [c], j);
  }

  lemma {:induction false} CutOfJoin(ps: seq<string>, c: char)
    requires |ps| >= 1
    requires forall k :: 0 <= k < |ps| ==> c !in ps[k]
    ensures CutAtAny(Join(ps, [c]), {c}) == ps
  {
    if |ps| == 1 {
      CutPrefix(ps[0], "", {c});
      assert ps[0] + "" == ps[0];
    } else {
      var tail := Join(ps[1..], [c]);
      CutOfJoin(ps[1..], c);
      assert ([c] + tail)[1..] == tail;
      CutPrefix(ps[0], [c] + tail, {c});
      assert ps[0] + [c] + tail == ps[0] + ([c] + tail);
      assert ps[0] + "" == ps[0];
    }
  }

  // ------------------------------------------------------- splitting by texts of any length

  predicate NoneContains(ps: seq<string>, q: string) {
    forall k :: 0 <= k < |ps| ==> !Contains(ps[k], q)
  }

  lemma PartLacks(s: string, q: string, i: nat, n: nat)
    requires i + n <= |s| && !Contains(s, q)
    ensures !Contains(s[..i], q) && !Contains(s[i + n..], q)
  {
    hide OccursAt, Find;
    var a, b := s[..i], s[i + n..];
    assert s == a + s[i..] && s == s[..i + n] + b;
    if Contains(a, q) {
      var k := Find(a, q, 0).value;
      OccursFits(a, q, k);
      OccursInLeft(a, s[i..], q, k);
    }
    if Contains(b, q) {
      OccursInRight(s[..i + n], b, q, Find(b, q, 0).value);
    }
  }

  /** A text that a string lacks is in none of its pieces. */
  lemma {:induction false} PiecesLack(s: string, p: string, q: string)
    requires p != "" && !Contains(s, q)
    ensures NoneContains(Pieces(s, p), q)
    decreases |s|
  {
    hide OccursAt, Find, Contains, Pieces;
    PiecesUnfold(s, p);
    match Find(s, p, 0)
    case None =>
    case Some(i) =>
      FoundParts(s, p, i);
      PartLacks(s, q, i, |p|);
      PiecesLack(s[i + |p|..], p, q);
  }

  lemma {:induction false} SplitEachLacks(ps: seq<string>, d: string, q: string)
    requires d != "" && (q == d || NoneContains(ps, q))
    ensures NoneContains(SplitEach(ps, d), q)
  {
    hide Contains, Pieces;
    if ps != [] {
      if q == d {
        PiecesAreClean(ps[0], d);
      } else {
        PiecesLack(ps[0], d, q);
      }
      SplitEachLacks(ps[1..], d, q);
    }
  }

  lemma {:induction false} SplitByAllLacks(ps: seq<string>, ds: seq<string>, q: string)
    requires "" !in ds && (q in ds || NoneContains(ps, q))
    ensures NoneContains(SplitByAll(ps, ds), q)
    decreases |ds|
  {
    hide NoneContains, SplitEach;
    if ds != [] {
      assert ds[0] in ds;
      if q == ds[0] || q !in ds[1..] {
        SplitEachLacks(ps, ds[0], q);
      }
      SplitByAllLacks(SplitEach(ps, ds[0]), ds[1..], q);
    }
  }

  function Flat(ps: seq<string>): string {
    if ps == [] then "" else ps[0] + Flat(ps[1..])
  }

  lemma {:induction false} FlatConcat(a: seq<string>, b: seq<string>)
    ensures Flat(a + b) == Flat(a) + Flat(b)
  {
    if a == [] {
      assert a + b == b;
    } else {
      assert (a + b)[0] == a[0] && (a + b)[1..] == a[1..] + b;
      FlatConcat(a[1..], b);
    }
  }

  predicate Within(d: string, q: string) {
    forall c :: c in d ==> c in q
  }

  lemma {:induction false} JoinedOutside(ps: seq<string>, d: string, q: string)
    requires |ps| >= 1 && Within(d, q)
    ensures Outside(Join(ps, d), q) == Outside(Flat(ps), q)
  {
    hide Outside;
    if |ps| == 1 {
      assert Flat(ps[1..]) == "" && ps[0] + "" == ps[0];
    } else {
      JoinedOutside(ps[1..], d, q);
      OutsideConcat(ps[0], Flat(ps[1..]), q);
      OutsideConcat(ps[0] + d, Join(ps[1..], d), q);
      OutsideConcat(ps[0], d, q);
      NothingOutside(d, q);
      assert Outside(ps[0], q) + "" == Outside(ps[0], q);
    }
  }

  lemma {:induction false} SplitEachKeeps(ps: seq<string>, d: string, q: string)
    requires d != "" && Within(d, q)
    ensures Outside(Flat(SplitEach(ps, d)), q) == Outside(Flat(ps), q)
  {
    hide Outside, Pieces, Join, Within;
    if ps != [] {
      SplitEachKeeps(ps[1..], d, q);
      JoinOfSplit(ps[0], d);
      JoinedOutside(Pieces(ps[0], d), d, q);
      FlatConcat(Pieces(ps[0], d), SplitEach(ps[1..], d));
      OutsideConcat(Flat(Pieces(ps[0], d)), Flat(SplitEach(ps[1..], d)), q);
      OutsideConcat(ps[0], Flat(ps[1..]), q);
    }
  }

  lemma {:induction false} SplitByAllKeeps(ps: seq<string>, ds: seq<string>, q: string)
    requires forall k :: 0 <= k < |ds| ==> ds[k] != "" && Within(ds[k], q)
    ensures Outside(Flat(SplitByAll(ps, ds)), q) == Outside(Flat(ps), q)
    decreases |ds|
  {
    hide Outside, Flat, Within, SplitEach;
    if ds != [] {
      SplitEachKeeps(ps, ds[0], q);
      SplitByAllKeeps(SplitEach(ps, ds[0]), ds[1..], q);
    }
  }

  /**
    Splitting by several delimiters of any length: no piece contains any of them, and every character that is
    in none of them is kept, in order.
   */
  lemma SplitManyIsClean(s: string, ds: seq<string>, q: string)
    requires "" !in ds && forall k :: 0 <= k < |ds| ==> Within(ds[k], q)
    ensures forall k :: 0 <= k < |ds| ==> NoneContains(SplitByAll([s], ds), ds[k])
    ensures Outside(Flat(SplitByAll([s], ds)), q) == Outside(s, q)
  {
    hide NoneContains, Outside, SplitByAll, Within;
    forall k | 0 <= k < |ds| ensures NoneContains(SplitByAll([s], ds), ds[k]) {
      SplitByAllLacks([s], ds, ds[k]);
    }
    forall k | 0 <= k < |ds| ensures ds[k] != "" {
      assert ds[k] in ds;
    }
    SplitByAllKeeps([s], ds, q);
    assert Flat([s]) == s;
  }
}
