/** parse undoes format: reading by position finds what the replacements put there. */
module DateRoundTrips {
  import opened Wrappers
  import opened StringUtil
  import opened CastUtil
  import opened Calendar
  import opened Dates
  import opened DateFormats
  import opened DateLayouts

  // -------------------------------------------------------- where the tokens are found

  /** The tokens contained in another field's token. */
  predicate Clash(f: Field, g: Field) {
    (f == MonthNumber && g == MonthName) || (f == Day && g == DayName)
  }

  lemma SameLength(s: string, p: string)
    requires |s| == |p| && s != p
    ensures !Contains(s, p)
  {
    assert s[0..|p|] == s;
  }

  lemma TokensApart(f: Field, g: Field)
    requires f != g && !Clash(f, g)
    ensures !Contains(TOKENS.Of(g), TOKENS.Of(f))
  {
    hide Contains;
    if f == MonthNumber && g == Minute {
      SameLength("mi", "mm");
    } else {
      var c := match f
        case Year => 'y' case MonthNumber => 'm' case MonthName => 'm' case Day => 'd'
        case DayName => 'd' case Hour => 'h' case Minute => 'i' case Second => 's';
      NotContained(TOKENS.Of(g), TOKENS.Of(f), c);
    }
  }

  lemma TokenIsLowercase(f: Field)
    ensures Lowercase(TOKENS.Of(f)) && |TOKENS.Of(f)| >= 2
  {
  }

  /** No field of the parts has a token that contains the token of `f`. */
  predicate Unambiguous(parts: seq<Part>, f: Field) {
    forall k :: 0 <= k < |parts| ==> !Clash(f, parts[k].field)
  }

  lemma FindPastSymbols(sep: string, rest: string, p: string)
    requires Symbols(sep) && Lowercase(p)
    ensures Find(sep + rest, p, 0) == Shifted(Find(rest, p, 0), |sep|)
  {
    assert p != "";
    hide Find, NoStraddle, OccursAt, Symbols, Lowercase;
    SymbolsAreClean(sep, p);
    SeamSeparates(sep, rest, p);
    FindConcat(sep, rest, p);
  }

  lemma FindInPart(x: string, sep: string, rest: string, p: string)
    requires Symbols(sep) && Lowercase(p) && (sep == "" ==> rest == "")
    ensures Find(x, p, 0).Some? ==> Find(x + sep + rest, p, 0) == Find(x, p, 0)
    ensures Find(x, p, 0).None? ==> Find(x + sep + rest, p, 0) == Shifted(Find(rest, p, 0), |x| + |sep|)
  {
    assert p != "";
    hide Find, NoStraddle, OccursAt, Symbols, Lowercase;
    PartSeams(x, sep, rest, p);
    FindPastSymbols(sep, rest, p);
    Associate3(x, sep, rest);
    FindConcat(x, sep + rest, p);
  }

  lemma {:induction false} FindInRender(parts: seq<Part>, f: Field)
    requires Separated(parts) && Unambiguous(parts, f)
    ensures Find(Render(parts, TOKENS), TOKENS.Of(f), 0) == Offset(parts, f)
  {
    hide Find, OccursAt, Symbols;
    TokenIsLowercase(f);
    if parts != [] {
      TailParts(parts);
      FindInRender(parts[1..], f);
      var x := TOKENS.Of(parts[0].field);
      if parts[0].field == f {
        ReplacedWhole(x, "");
      } else {
        TokensApart(f, parts[0].field);
      }
      FindInPart(x, parts[0].sep, Render(parts[1..], TOKENS), TOKENS.Of(f));
    } else {
      FindInEmpty(TOKENS.Of(f));
    }
  }

  lemma FindInEmpty(p: string)
    requires p != ""
    ensures Find("", p, 0).None?
  {
  }

  lemma FindInSpec(l: Layout, f: Field)
    requires Symbols(l.lead) && Separated(l.parts) && Unambiguous(l.parts, f)
    ensures Find(SpecOf(l), TOKENS.Of(f), 0) == Shifted(Offset(l.parts, f), |l.lead|)
  {
    TokenIsLowercase(f);
    FindInRender(l.parts, f);
    SymbolsAreClean(l.lead, TOKENS.Of(f));
    hide Find, OccursAt, Symbols, NoStraddle, Render, Offset;
    SeamSeparates(l.lead, Render(l.parts, TOKENS), TOKENS.Of(f));
    FindConcat(l.lead, Render(l.parts, TOKENS), TOKENS.Of(f));
  }

  // ------------------------------------------------------------ what stands at a position

  predicate SameWidths(t: Texts) {
    forall f: Field :: |t.Of(f)| == |TOKENS.Of(f)|
  }

  lemma RenderHead(parts: seq<Part>, t: Texts)
    requires parts != []
    ensures Render(parts, t) == (t.Of(parts[0].field) + parts[0].sep) + Render(parts[1..], t)
  {
  }

  lemma OffsetHead(parts: seq<Part>, f: Field)
    requires Offset(parts, f).Some?
    ensures parts != []
    ensures parts[0].field == f ==> Offset(parts, f).value == 0
    ensures parts[0].field != f ==>
      Offset(parts[1..], f).Some?
      && Offset(parts, f).value == Offset(parts[1..], f).value + |TOKENS.Of(parts[0].field)| + |parts[0].sep|
  {
  }

  lemma FieldInFront(s: string, x: string, sep: string, rest: string)
    requires s == (x + sep) + rest
    ensures |x| <= |s| && s[0..|x|] == x
  {
  }

  lemma FieldBehind(s: string, a: string, b: string, o: nat, p: nat, x: string)
    requires s == a + b && o == p + |a| && p + |x| <= |b| && b[p..p + |x|] == x
    ensures o + |x| <= |s| && s[o..o + |x|] == x
  {
    SuffixSlice(a, b, p, |x|);
  }

  lemma {:induction false} FieldAtOffset(parts: seq<Part>, t: Texts, f: Field)
    requires SameWidths(t) && Offset(parts, f).Some?
    ensures var o := Offset(parts, f).value;
      o + |t.Of(f)| <= |Render(parts, t)| && Render(parts, t)[o..o + |t.Of(f)|] == t.Of(f)
  {
    OffsetHead(parts, f);
    RenderHead(parts, t);
    var g := parts[0].field;
    assert |t.Of(g)| == |TOKENS.Of(g)|;
    hide *;
    var head, rest := t.Of(g) + parts[0].sep, Render(parts[1..], t);
    if g == f {
      FieldInFront(Render(parts, t), t.Of(g), parts[0].sep, rest);
    } else {
      FieldAtOffset(parts[1..], t, f);
      FieldBehind(Render(parts, t), head, rest, Offset(parts, f).value, Offset(parts[1..], f).value, t.Of(f));
    }
  }

  lemma SuffixSlice(a: string, b: string, o: nat, n: nat)
    requires o + n <= |b|
    ensures (a + b)[|a| + o..|a| + o + n] == b[o..o + n]
  {
  }

  lemma CutField(l: Layout, t: Texts, f: Field)
    requires SameWidths(t) && Offset(l.parts, f).Some?
    ensures Cut(l.lead + Render(l.parts, t), |l.lead| + Offset(l.parts, f).value, |TOKENS.Of(f)|) == Ok(t.Of(f))
  {
    hide Render, Offset;
    FieldAtOffset(l.parts, t, f);
    assert |t.Of(f)| == |TOKENS.Of(f)|;
    SuffixSlice(l.lead, Render(l.parts, t), Offset(l.parts, f).value, |t.Of(f)|);
  }

  /** A field other than the day is read exactly when the format has it. */
  lemma PickField(l: Layout, t: Texts, f: Field)
    requires Symbols(l.lead) && Separated(l.parts) && Unambiguous(l.parts, f) && SameWidths(t)
    ensures Pick(SpecOf(l), TOKENS.Of(f), 0, l.lead + Render(l.parts, t), |TOKENS.Of(f)|)
      == Ok(if Has(l.parts, f) then t.Of(f) else "")
    ensures Contains(SpecOf(l), TOKENS.Of(f)) <==> Has(l.parts, f)
  {
    hide Render, Offset, Find, Symbols, Separated, Cut, SpecOf, Has, OccursAt;
    FindInSpec(l, f);
    OffsetOfField(l.parts, f);
    if Has(l.parts, f) {
      CutField(l, t, f);
    }
  }

  // -------------------------------------------------------------------- finding the day

  lemma UniqueTail(parts: seq<Part>)
    requires parts != [] && OncePerField(parts)
    ensures OncePerField(parts[1..]) && !Has(parts[1..], parts[0].field)
  {
  }

  lemma NotNamed(parts: seq<Part>)
    requires !Has(parts, DayName)
    ensures Unambiguous(parts, Day)
  {
  }

  /** Behind the day name, the day is found exactly when it comes later. */
  lemma {:induction false} DayBehindName(parts: seq<Part>)
    requires Separated(parts) && OncePerField(parts) && Offset(parts, DayName).Some?
    ensures var q, o := Offset(parts, DayName).value, Offset(parts, Day);
      && q + 3 <= |Render(parts, TOKENS)|
      && Find(Render(parts, TOKENS)[q + 3..], "dd", 0) ==
         (if o.Some? && o.value > q then Some(o.value - q - 3) else None)
      && (o.Some? && o.value > q ==> o.value >= q + 3)
  {
    hide Find, OccursAt, Symbols;
    TailParts(parts);
    UniqueTail(parts);
    var rest := Render(parts[1..], TOKENS);
    OffsetOfField(parts[1..], parts[0].field);
    if parts[0].field == DayName {
      NotNamed(parts[1..]);
      FindInRender(parts[1..], Day);
      TokenIsLowercase(Day);
      FindPastSymbols(parts[0].sep, rest, "dd");
      Associate3("ddd", parts[0].sep, rest);
      DropPrefix("ddd", parts[0].sep + rest, 0);
    } else {
      DayBehindName(parts[1..]);
      var n := |TOKENS.Of(parts[0].field)| + |parts[0].sep|;
      var q := Offset(parts[1..], DayName).value;
      DropPrefix(TOKENS.Of(parts[0].field) + parts[0].sep, rest, q + 3);
      assert Offset(parts, DayName) == Some(n + q);
    }
  }

  lemma DropPrefix(a: string, b: string, n: nat)
    requires n <= |b|
    ensures (a + b)[|a| + n..] == b[n..]
  {
  }

  lemma TailHas(parts: seq<Part>, f: Field)
    requires parts != []
    ensures Has(parts[1..], f) ==> Has(parts, f)
  {
    forall k | 0 <= k < |parts| - 1 ensures parts[1..][k] == parts[k + 1] {
    }
  }

  /** Without a day name the search starts at two and misses a day that starts before. */
  lemma DayMissed(l: Layout)
    requires Symbols(l.lead) && Separated(l.parts) && OncePerField(l.parts) && !Has(l.parts, DayName)
    requires Offset(l.parts, Day).Some? && |l.lead| + Offset(l.parts, Day).value < 2
    ensures Find(SpecOf(l), "dd", 2).None?
  {
    hide Find, OccursAt, Symbols;
    TokenIsLowercase(l.parts[0].field);
    TokenIsLowercase(Day);
    assert l.parts[0].field == Day;
    var sep, rest := l.parts[0].sep, Render(l.parts[1..], TOKENS);
    TailParts(l.parts);
    UniqueTail(l.parts);
    TailHas(l.parts, DayName);
    NotNamed(l.parts[1..]);
    FindInRender(l.parts[1..], Day);
    OffsetOfField(l.parts[1..], Day);
    FindPastSymbols(sep, rest, "dd");
    FindInPart("d", sep, rest, "dd");
    ShortIsClean("d", "dd");
    FindInSuffix(SpecOf(l), "dd", 2);
    Associate3("dd", sep, rest);
    if l.lead == "" {
      DropPrefix("dd", sep + rest, 0);
      assert SpecOf(l) == "dd" + (sep + rest);
    } else {
      DropPrefix(l.lead, "dd" + sep + rest, 1);
      Associate3("d", "d" + sep, rest);
      DropPrefix("d", "d" + sep + rest, 0);
      assert "dd" + sep == "d" + ("d" + sep);
    }
  }

  lemma ShortIsClean(s: string, p: string)
    requires |s| < |p|
    ensures Find(s, p, 0).None?
  {
  }

  /** The day is read exactly when its position in the format can be found. */
  lemma PickDay(l: Layout, t: Texts)
    requires WellFormed(l) && SameWidths(t)
    ensures Pick(SpecOf(l), "dd", After(Find(SpecOf(l), "ddd", 0), 3), l.lead + Render(l.parts, t), 2)
      == Ok(if DayIsFound(l) then t.dd else "")
  {
    hide Find, OccursAt, Symbols, Separated, OncePerField, Render, Offset, Cut, Has;
    OffsetOfField(l.parts, Day);
    OffsetOfField(l.parts, DayName);
    FindInSpec(l, DayName);
    CutField(l, t, Day);
    assert t.Of(Day) == t.dd;
    if Has(l.parts, DayName) {
      DayBehindName(l.parts);
      var q := Offset(l.parts, DayName).value;
      DropPrefix(l.lead, Render(l.parts, TOKENS), q + 3);
      FindInSuffix(SpecOf(l), "dd", |l.lead| + q + 3);
    } else {
      NotNamed(l.parts);
      FindInSpec(l, Day);
      if DayIsFound(l) {
        FindFrom(SpecOf(l), "dd", 2);
      } else {
        DayMissed(l);
      }
    }
  }

  // ------------------------------------------------------------------ what a built date shows

  /** The fields of a date made by Date(int, int, int) and setTime, named by the date they show. */
  predicate BuiltAs(f: Fields, c: Civil, hh: int, mi: int, ss: int) {
    && Gregorian(c) && InRange(c) && c.year <= 9999 && FromDays(DaysOf(c)) == c
    && 0 <= hh <= 24 && 0 <= mi <= 60 && 0 <= ss <= 60
    && f.day == Padded(c.day) && f.month == Padded(c.month) && f.monthw == GetMonFd(Padded(c.month))
    && f.year == Padded(c.year) && f.dayw == HalfDayName(GetDayName(c.day, c.month, c.year))
    && f.hh == Padded(hh) && f.mm == Padded(mi) && f.ss == Padded(ss)
    && f.nanoseconds == 0 && f.timeZoneOffset == 0.0
  }

  /** f is the value of a date built for 1 March 1900 up to year 9999, with a time set. */
  predicate Built(f: Fields, now: Fields, y: int, m: int, d: int, hh: int, mi: int, ss: int) {
    && InRange(Civil(y, m, d)) && y <= 9999
    && OfYmd(now, y, m, d).Ok? && WithTime(OfYmd(now, y, m, d).value, hh, mi, ss) == Ok(f)
  }

  lemma BuiltDateShows(f: Fields, now: Fields, y: int, m: int, d: int, hh: int, mi: int, ss: int) returns (c: Civil)
    requires Built(f, now, y, m, d, hh, mi, ss)
    ensures BuiltAs(f, c, hh, mi, ss)
  {
    hide GetDays, FromDays, ValidateDate, Padded, GetMonFd, GetDayName, HalfDayName, Leap;
    var given := Civil(y, m, d);
    c := FromDays(GetDays(y, m, d));
    DateRoundTrip(given);
    ValidateIsGregorian(given);
    ValidateIsGregorian(c);
    DateRoundTrip(c);
  }

  lemma ToUpperKeeps(s: string)
    requires NoLowercase(s)
    ensures ToUpper(s) == s
  {
  }

  /** No signs: nothing in a printed date looks like a time zone. */
  predicate NoSign(s: string) {
    '+' !in s && '-' !in s
  }

  function MonthDigits(m: int): string
    requires 1 <= m <= 12
  {
    if m <= 9 then ['0', DigitOf(m)] else ['1', DigitOf(m - 10)]
  }

  lemma NameOfEarlyMonth(s: string, m: int)
    requires 1 <= m <= 6 && ToUpper(s) == s == MonthDigits(m)
    ensures GetMonFd(s) == MONTHS[m - 1]
  {
    hide ToUpper;
  }

  lemma NameOfLateMonth(s: string, m: int)
    requires 7 <= m <= 12 && ToUpper(s) == s == MonthDigits(m)
    ensures GetMonFd(s) == MONTHS[m - 1]
  {
    hide ToUpper;
  }

  lemma EarlyMonthOfName(s: string, m: int)
    requires 1 <= m <= 6 && ToUpper(s) == s == MONTHS[m - 1]
    ensures GetMon(s) == MonthDigits(m)
  {
    hide ToUpper;
  }

  lemma LateMonthOfName(s: string, m: int)
    requires 7 <= m <= 12 && ToUpper(s) == s == MONTHS[m - 1]
    ensures GetMon(s) == MonthDigits(m)
  {
    hide ToUpper;
  }

  lemma MonthPadded(m: int)
    requires 1 <= m <= 12
    ensures Padded(m) == MonthDigits(m) != "-1" && NoLowercase(MonthDigits(m))
  {
    if m >= 10 {
      assert Decimal(m / 10) == "1";
    }
  }

  lemma MonthIsPlain(m: int)
    requires 1 <= m <= 12
    ensures var name := MONTHS[m - 1]; |name| == 3 && NoLowercase(name) && NoSign(name)
  {
  }

  /** Month digits and month name determine each other. */
  lemma MonthNames(m: int)
    requires 1 <= m <= 12
    ensures var name := GetMonFd(Padded(m)); |name| == 3 && NoLowercase(name) && NoSign(name)
    ensures GetMon(GetMonFd(Padded(m))) == Padded(m) != "-1"
  {
    hide Padded, GetMon, GetMonFd, ToUpper, MonthDigits, NoLowercase, NoSign;
    MonthPadded(m);
    ToUpperKeeps(MonthDigits(m));
    if m <= 6 {
      NameOfEarlyMonth(Padded(m), m);
    } else {
      NameOfLateMonth(Padded(m), m);
    }
    MonthIsPlain(m);
    ToUpperKeeps(MONTHS[m - 1]);
    if m <= 6 {
      EarlyMonthOfName(MONTHS[m - 1], m);
    } else {
      LateMonthOfName(MONTHS[m - 1], m);
    }
  }

  lemma DayNameShown(c: Civil)
    requires Gregorian(c) && InRange(c)
    ensures var name := HalfDayName(GetDayName(c.day, c.month, c.year));
      |name| == 3 && NoLowercase(name) && NoSign(name)
  {
    hide DaySum, Leap, ValidateDate;
    ValidateIsGregorian(c);
    DayCodeSum(c);
    hide DayCode;
    var code := DayCode(c.day, c.month, c.year);
    assert code in {0, 1, 2, 3, 4, 5, 6};
  }

  lemma DigitsArePlain(s: string)
    requires forall c :: c in s ==> IsDigit(c)
    ensures NoLowercase(s) && '+' !in s && '-' !in s
  {
    forall k | 0 <= k < |s| ensures !('a' <= s[k] <= 'z') {
      assert s[k] in s;
    }
  }

  lemma NumberShown(n: int)
    requires 0 <= n
    ensures NoLowercase(Padded(n)) && NoSign(Padded(n)) && ReadInt(Padded(n)) == Ok(n)
    ensures n < 100 ==> |Padded(n)| == 2
    ensures 1000 <= n < 10000 ==> |Padded(n)| == 4
  {
    hide ReadInt;
    PaddedWidth(n);
    DigitsArePlain(Padded(n));
    ReadPadded(n);
  }

  lemma BuiltNumbers(f: Fields, c: Civil, hh: int, mi: int, ss: int)
    requires BuiltAs(f, c, hh, mi, ss)
    ensures ReadInt(f.year) == Ok(c.year) && ReadInt(f.month) == Ok(c.month) && ReadInt(f.day) == Ok(c.day)
    ensures ReadInt(f.hh) == Ok(hh) && ReadInt(f.mm) == Ok(mi) && ReadInt(f.ss) == Ok(ss)
    ensures GetMon(f.monthw) == f.month != "-1"
    ensures |f.year| == 4 && |f.month| == 2 && |f.monthw| == 3 && f.timeZoneOffset == 0.0
  {
    hide Padded, GetMon, GetMonFd, GetDayName, ReadInt, Leap, NoLowercase, NoSign, HalfDayName;
    NumberShown(c.year);
    NumberShown(c.month);
    NumberShown(c.day);
    NumberShown(hh);
    NumberShown(mi);
    NumberShown(ss);
    MonthNames(c.month);
  }

  lemma BuiltTexts(f: Fields, c: Civil, hh: int, mi: int, ss: int)
    requires BuiltAs(f, c, hh, mi, ss)
    ensures var t := Shown(f); Plain(f) && SameWidths(t) && forall g: Field :: NoSign(t.Of(g))
  {
    hide Padded, GetMon, GetMonFd, GetDayName, ReadInt, Leap, NoLowercase, NoSign, HalfDayName;
    NumberShown(c.year);
    NumberShown(c.month);
    NumberShown(c.day);
    NumberShown(hh);
    NumberShown(mi);
    NumberShown(ss);
    MonthNames(c.month);
    DayNameShown(c);
  }

  // ----------------------------------------------------------------- signs in the separators

  /** What follows the first plus of a text; without one, the text from its first minus on. */
  function SignSuffix(s: string): string {
    match Find(s, "+", 0)
    case Some(i) => s[i + 1..]
    case None =>
      match Find(s, "-", 0)
      case Some(i) => s[i..]
      case None => ""
  }

  lemma SingleNeverStraddles(a: string, b: string, c: char)
    ensures NoStraddle(a, b, [c])
  {
  }

  lemma FindCharInPart(x: string, sep: string, rest: string, c: char)
    requires c !in x
    ensures Find(x + sep + rest, [c], 0) == Shifted(Find(sep + rest, [c], 0), |x|)
    ensures Find(sep + rest, [c], 0)
      == if Find(sep, [c], 0).Some? then Find(sep, [c], 0) else Shifted(Find(rest, [c], 0), |sep|)
  {
    NotContained(x, [c], c);
    hide Find, OccursAt, NoStraddle;
    Associate3(x, sep, rest);
    SingleNeverStraddles(x, sep + rest, c);
    SingleNeverStraddles(sep, rest, c);
    FindConcat(x, sep + rest, [c]);
    FindConcat(sep, rest, [c]);
  }

  /** A character that is in no field stands at the same place in the format and in the printed date. */
  lemma {:induction false} SameCharPlace(parts: seq<Part>, t: Texts, c: char)
    requires SameWidths(t) && forall g: Field :: c !in t.Of(g) && c !in TOKENS.Of(g)
    ensures Find(Render(parts, t), [c], 0) == Find(Render(parts, TOKENS), [c], 0)
  {
    hide Find, OccursAt;
    if parts != [] {
      SameCharPlace(parts[1..], t, c);
      var g := parts[0].field;
      assert |t.Of(g)| == |TOKENS.Of(g)| && c !in t.Of(g) && c !in TOKENS.Of(g);
      FindCharInPart(t.Of(g), parts[0].sep, Render(parts[1..], t), c);
      FindCharInPart(TOKENS.Of(g), parts[0].sep, Render(parts[1..], TOKENS), c);
    }
  }

  lemma TokensHaveNoSign()
    ensures forall g: Field :: NoSign(TOKENS.Of(g))
  {
  }

  lemma SamePlace(l: Layout, t: Texts, c: char)
    requires SameWidths(t) && (forall g: Field :: NoSign(t.Of(g))) && (c == '+' || c == '-')
    ensures Find(l.lead + Render(l.parts, t), [c], 0) == Find(SpecOf(l), [c], 0)
  {
    TokensHaveNoSign();
    hide Find, OccursAt, Render;
    forall g: Field ensures c !in t.Of(g) && c !in TOKENS.Of(g) {
      assert NoSign(t.Of(g)) && NoSign(TOKENS.Of(g));
    }
    SameCharPlace(l.parts, t, c);
    SingleNeverStraddles(l.lead, Render(l.parts, t), c);
    SingleNeverStraddles(l.lead, Render(l.parts, TOKENS), c);
    FindConcat(l.lead, Render(l.parts, t), [c]);
    FindConcat(l.lead, Render(l.parts, TOKENS), [c]);
  }

  /** parse takes every sign for the start of a time zone. */
  lemma TimezoneOfPrinted(l: Layout, t: Texts)
    requires SameWidths(t) && forall g: Field :: NoSign(t.Of(g))
    ensures var s := l.lead + Render(l.parts, t); PickTimezone(SpecOf(l), s) == Ok(SignSuffix(s))
  {
    hide Find, Render, SpecOf;
    SamePlace(l, t, '+');
    SamePlace(l, t, '-');
  }

  /** Everything parse cuts out of a printed date. */
  lemma PicksOfPrinted(l: Layout, t: Texts)
    requires WellFormed(l) && SameWidths(t) && forall g: Field :: NoSign(t.Of(g))
    ensures var s, named := l.lead + Render(l.parts, t), Has(l.parts, MonthName);
      Picked(SpecOf(l), s) == Ok(Picks(t.year, "", if DayIsFound(l) then t.dd else "", if named then t.mmm else "",
        if named then "" else t.mm, t.hh, t.mi, t.ss, SignSuffix(s)))
  {
    hide Pick, Find, Contains, SpecOf, Render, Separated, Symbols, OncePerField, DayIsFound, PickTimezone, SignSuffix;
    PickField(l, t, Year);
    PickField(l, t, DayName);
    PickDay(l, t);
    PickField(l, t, MonthName);
    if !Has(l.parts, MonthName) {
      PickField(l, t, MonthNumber);
    }
    PickField(l, t, Hour);
    PickField(l, t, Minute);
    PickField(l, t, Second);
    TimezoneOfPrinted(l, t);
  }

  /** The constructor called by parse on the cut-out texts. */
  lemma MakesSameDate(f: Fields, c: Civil, hh: int, mi: int, ss: int, named: bool, dayFound: bool, now: Fields)
    requires BuiltAs(f, c, hh, mi, ss)
    ensures MakeDate(f.year, if named then f.monthw else "", if named then "" else f.month,
        if dayFound then f.day else "", now)
      == if dayFound then Ok(OfDays(now, DaysOf(c)).(nanoseconds := 0, timeZoneOffset := 0.0)) else Thrown(INVALID_DATE)
  {
    assert ReadInt("") == Ok(0) && !ValidateDate(0, c.month, c.year);
    hide OfDays, GetDays, Leap, FromDays, GetDayName, Padded, GetMonFd, GetMon, ReadInt, ValidateDate, HalfDayName;
    BuiltNumbers(f, c, hh, mi, ss);
    ValidateIsGregorian(c);
  }

  /** The fields that parse fills in are those of the printed date. */
  lemma Refilled(f: Fields, c: Civil, hh: int, mi: int, ss: int, later: Fields, offset: real)
    requires BuiltAs(f, c, hh, mi, ss)
    ensures WithTime(OfDays(later, DaysOf(c)).(nanoseconds := 0, timeZoneOffset := offset), hh, mi, ss)
      == Ok(f.(weekday := later.weekday, timeZoneOffset := offset))
  {
    hide GetDays, Padded, GetMonFd, GetDayName, HalfDayName, Gregorian, InRange;
  }

  lemma FromPrintedPicks(f: Fields, c: Civil, hh: int, mi: int, ss: int, named: bool, dayFound: bool, tzv: string,
      later: Fields, readOffset: string -> Option<real>)
    requires BuiltAs(f, c, hh, mi, ss)
    ensures FromPicks(Picks(f.year, "", if dayFound then f.day else "", if named then f.monthw else "",
        if named then "" else f.month, f.hh, f.mm, f.ss, tzv), later, readOffset)
      == if dayFound then WithTimezone(f.(weekday := later.weekday), tzv, readOffset) else Thrown(INVALID_DATE)
  {
    hide MakeDate, ReadInt, GetMon, BuiltAs, OfDays, WithTime;
    BuiltNumbers(f, c, hh, mi, ss);
    MakesSameDate(f, c, hh, mi, ss, named, dayFound, later);
    Refilled(f, c, hh, mi, ss, later, 0.0);
    if readOffset(tzv).Some? {
      Refilled(f, c, hh, mi, ss, later, readOffset(tzv).value);
    }
  }

  lemma ParsedText(l: Layout, f: Fields, c: Civil, hh: int, mi: int, ss: int, later: Fields,
      readOffset: string -> Option<real>)
    requires WellFormed(l) && BuiltAs(f, c, hh, mi, ss)
    ensures var s := l.lead + Render(l.parts, Shown(f));
      Parsed(SpecOf(l), s, later, readOffset)
      == if DayIsFound(l) then WithTimezone(f.(weekday := later.weekday), SignSuffix(s), readOffset)
         else Thrown(INVALID_DATE)
  {
    hide WellFormed, SpecOf, Render, DayIsFound, Picked, FromPicks, SignSuffix, Has, BuiltAs, ReadInt,
      Plain, SameWidths, NoSign;
    BuiltTexts(f, c, hh, mi, ss);
    PicksOfPrinted(l, Shown(f));
    var s := l.lead + Render(l.parts, Shown(f));
    FromPrintedPicks(f, c, hh, mi, ss, Has(l.parts, MonthName), DayIsFound(l), SignSuffix(s), later, readOffset);
  }

  /**
    parse(format(d)) for every well-formed format and every date built for 1 March 1900 to year
    9999 with a time of day. The weekday number is the clock's, since no constructor sets it.
   */
  lemma ParseOfFormat(l: Layout, f: Fields, now: Fields, y: int, m: int, d: int, hh: int, mi: int, ss: int,
      later: Fields, showOffset: real -> string, readOffset: string -> Option<real>)
    requires WellFormed(l) && Built(f, now, y, m, d, hh, mi, ss)
    ensures Formatted(SpecOf(l), f, showOffset) == Ok(l.lead + Render(l.parts, Shown(f)))
    ensures var s := l.lead + Render(l.parts, Shown(f));
      Parsed(SpecOf(l), s, later, readOffset)
      == if DayIsFound(l) then WithTimezone(f.(weekday := later.weekday), SignSuffix(s), readOffset)
         else Thrown(INVALID_DATE)
  {
    hide Built, WellFormed, SpecOf, Render, DayIsFound, Substituted, Parsed, SignSuffix, Plain, SameWidths, NoSign,
      BuiltAs, ReadInt, GetMon;
    var c := BuiltDateShows(f, now, y, m, d, hh, mi, ss);
    BuiltTexts(f, c, hh, mi, ss);
    BuiltNumbers(f, c, hh, mi, ss);
    LayoutParts(l);
    FormatIsPositional(l, f);
    ParsedText(l, f, c, hh, mi, ss, later, readOffset);
  }

  /**
    parse undoes format exactly when the format lets the day be found and no sign in it is read
    as a time zone other than zero.
   */
  lemma ParseUndoesFormat(l: Layout, f: Fields, now: Fields, y: int, m: int, d: int, hh: int, mi: int, ss: int,
      later: Fields, showOffset: real -> string, readOffset: string -> Option<real>)
    requires WellFormed(l) && Built(f, now, y, m, d, hh, mi, ss)
    ensures Formatted(SpecOf(l), f, showOffset) == Ok(l.lead + Render(l.parts, Shown(f)))
    ensures var s := l.lead + Render(l.parts, Shown(f));
      Parsed(SpecOf(l), s, later, readOffset) == Ok(f.(weekday := later.weekday))
      <==> DayIsFound(l) && (SignSuffix(s) == "" || readOffset(SignSuffix(s)) == Some(0.0))
  {
    hide Formatted, Parsed, DayIsFound, SignSuffix, WellFormed, SpecOf, Built, BuiltAs, Render, ReadInt, GetMon;
    var c := BuiltDateShows(f, now, y, m, d, hh, mi, ss);
    BuiltNumbers(f, c, hh, mi, ss);
    ParseOfFormat(l, f, now, y, m, d, hh, mi, ss, later, showOffset, readOffset);
  }

  /** No sign in the format, no time zone in the printed date. */
  lemma NoSignNoTimezone(l: Layout, t: Texts)
    requires SameWidths(t) && (forall g: Field :: NoSign(t.Of(g))) && NoSign(SpecOf(l))
    ensures SignSuffix(l.lead + Render(l.parts, t)) == ""
  {
    NotContained(SpecOf(l), "+", '+');
    NotContained(SpecOf(l), "-", '-');
    hide Find, Render, SpecOf, OccursAt;
    SamePlace(l, t, '+');
    SamePlace(l, t, '-');
  }

  lemma LayoutParts(l: Layout)
    requires WellFormed(l)
    ensures Symbols(l.lead) && Separated(l.parts)
  {
  }
}
