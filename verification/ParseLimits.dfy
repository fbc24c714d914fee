/** Formats whose printed dates parse does not read back, with the dates and texts. */
module ParseLimits {
  import opened Wrappers
  import opened StringUtil
  import opened CastUtil
  import opened Calendar
  import opened Dates
  import opened DateFormats
  import opened DateLayouts
  import opened DateRoundTrips
  import opened DateTexts

  const TIME: seq<Part> := [Part(Hour, ":"), Part(Minute, ":"), Part(Second, "")]

  /** dd/mm/yyyy hh:mi:ss */
  const DAY_FIRST := Layout("", [Part(Day, "/"), Part(DateLayouts.MonthNumber, "/"), Part(Year, " ")] + TIME)

  /** yyyy-mm-dd hh:mi:ss */
  const DASHED := Layout("", [Part(Year, "-"), Part(DateLayouts.MonthNumber, "-"), Part(Day, " ")] + TIME)

  lemma RenderCons(p: Part, parts: seq<Part>, t: Texts)
    ensures Render([p] + parts, t) == t.Of(p.field) + p.sep + Render(parts, t)
  {
    assert ([p] + parts)[1..] == parts;
  }

  lemma RenderTime(t: Texts)
    ensures Render(TIME, t) == t.hh + ":" + t.mi + ":" + t.ss
  {
    assert TIME == [Part(Hour, ":")] + ([Part(Minute, ":")] + ([Part(Second, "")] + []));
    RenderCons(Part(Hour, ":"), [Part(Minute, ":")] + ([Part(Second, "")] + []), t);
    RenderCons(Part(Minute, ":"), [Part(Second, "")] + [], t);
    RenderCons(Part(Second, ""), [], t);
  }

  lemma RenderThree(p: Part, q: Part, r: Part, t: Texts)
    ensures Render([p, q, r] + TIME, t) ==
            t.Of(p.field) + p.sep + (t.Of(q.field) + q.sep + (t.Of(r.field) + r.sep + (t.hh + ":" + t.mi + ":" + t.ss)))
  {
    hide Render;
    RenderTime(t);
    assert [p, q, r] + TIME == [p] + ([q] + ([r] + TIME));
    RenderCons(p, [q] + ([r] + TIME), t);
    RenderCons(q, [r] + TIME, t);
    RenderCons(r, TIME, t);
  }

  lemma Lookup(p: Part, q: Part, r: Part, k: nat)
    requires k < 6
    ensures var parts := [p, q, r] + TIME;
      && |parts| == 6
      && parts[k] == if k == 0 then p else if k == 1 then q else if k == 2 then r
                     else if k == 3 then Part(Hour, ":") else if k == 4 then Part(Minute, ":") else Part(Second, "")
  {
  }

  lemma HasAt(parts: seq<Part>, k: nat)
    requires k < |parts|
    ensures Has(parts, parts[k].field)
  {
  }

  lemma HasNot(parts: seq<Part>, f: Field)
    requires forall k :: 0 <= k < |parts| ==> parts[k].field != f
    ensures !Has(parts, f)
  {
  }

  lemma OneOfThree(f: Field, g: Field, h: Field)
    requires {f, g, h} == {Year, DateLayouts.MonthNumber, Day}
    ensures f == Year || f == DateLayouts.MonthNumber || f == Day
    ensures g == Year || g == DateLayouts.MonthNumber || g == Day
    ensures h == Year || h == DateLayouts.MonthNumber || h == Day
    ensures Year == f || Year == g || Year == h
    ensures DateLayouts.MonthNumber == f || DateLayouts.MonthNumber == g || DateLayouts.MonthNumber == h
    ensures Day == f || Day == g || Day == h
  {
    var given, dates := {f, g, h}, {Year, DateLayouts.MonthNumber, Day};
    assert f in dates && g in dates && h in dates;
    assert Year in given && DateLayouts.MonthNumber in given && Day in given;
  }

  /** Three date fields in any order with one symbol behind each, then the time, form a layout that format handles. */
  lemma ThreeThenTime(p: Part, q: Part, r: Part)
    requires {p.field, q.field, r.field} == {Year, DateLayouts.MonthNumber, Day}
    requires p.field != q.field && q.field != r.field && p.field != r.field
    requires Symbols(p.sep) && Symbols(q.sep) && Symbols(r.sep) && p.sep != "" && q.sep != "" && r.sep != ""
    ensures WellFormed(Layout("", [p, q, r] + TIME))
    ensures !Has([p, q, r] + TIME, MonthName) && !Has([p, q, r] + TIME, DayName)
  {
    var parts := [p, q, r] + TIME;
    hide Has, Symbols;
    forall k | 0 <= k < 6 ensures
        && |parts| == 6
        && parts[k] == (if k == 0 then p else if k == 1 then q else if k == 2 then r
                     else if k == 3 then Part(Hour, ":") else if k == 4 then Part(Minute, ":") else Part(Second, "")) {
      Lookup(p, q, r, k);
    }
    assert Symbols("") && Symbols(":") by { PlainSymbols(); }
    HasAt(parts, 0);
    HasAt(parts, 1);
    HasAt(parts, 2);
    HasAt(parts, 3);
    HasAt(parts, 4);
    HasAt(parts, 5);
    OneOfThree(p.field, q.field, r.field);
    HasNot(parts, MonthName);
    HasNot(parts, DayName);
  }

  lemma PlainSymbols()
    ensures Symbols("") && Symbols(":") && Symbols("/") && Symbols("-") && Symbols(" ")
  {
  }

  lemma TimeText()
    ensures "hh" + ":" + "mi" + ":" + "ss" == "hh:mi:ss"
  {
  }

  lemma DayFirstSpec()
    ensures "dd" + "/" + ("mm" + "/" + ("yyyy" + " " + ("hh" + ":" + "mi" + ":" + "ss"))) == "dd/mm/yyyy hh:mi:ss"
  {
    TimeText();
    assert "yyyy" + " " + "hh:mi:ss" == "yyyy hh:mi:ss";
    assert "mm" + "/" + "yyyy hh:mi:ss" == "mm/yyyy hh:mi:ss";
    assert "dd" + "/" + "mm/yyyy hh:mi:ss" == "dd/mm/yyyy hh:mi:ss";
  }

  lemma DashedSpec()
    ensures "yyyy" + "-" + ("mm" + "-" + ("dd" + " " + ("hh" + ":" + "mi" + ":" + "ss"))) == "yyyy-mm-dd hh:mi:ss"
  {
    TimeText();
    assert "dd" + " " + "hh:mi:ss" == "dd hh:mi:ss";
    assert "mm" + "-" + "dd hh:mi:ss" == "mm-dd hh:mi:ss";
    assert "yyyy" + "-" + "mm-dd hh:mi:ss" == "yyyy-mm-dd hh:mi:ss";
  }

  lemma DayFirstText(t: Texts)
    ensures SpecOf(DAY_FIRST) == "dd/mm/yyyy hh:mi:ss"
    ensures DAY_FIRST.lead + Render(DAY_FIRST.parts, t) ==
            t.dd + "/" + (t.mm + "/" + (t.year + " " + (t.hh + ":" + t.mi + ":" + t.ss)))
  {
    hide Render;
    var p, q, r := Part(Day, "/"), Part(DateLayouts.MonthNumber, "/"), Part(Year, " ");
    RenderThree(p, q, r, TOKENS);
    RenderThree(p, q, r, t);
    LeadsNothing(Render(DAY_FIRST.parts, t));
    LeadsNothing(Render(DAY_FIRST.parts, TOKENS));
    DayFirstSpec();
  }

  lemma LeadsNothing(s: string)
    ensures "" + s == s
  {
  }

  lemma DayFirst()
    ensures WellFormed(DAY_FIRST) && !DayIsFound(DAY_FIRST)
  {
    var p, q, r := Part(Day, "/"), Part(DateLayouts.MonthNumber, "/"), Part(Year, " ");
    PlainSymbols();
    ThreeThenTime(p, q, r);
    assert DAY_FIRST == Layout("", [p, q, r] + TIME);
    hide Render, WellFormed, Has, Symbols;
    Lookup(p, q, r, 0);
    assert Offset(DAY_FIRST.parts, Day) == Some(0);
  }

  lemma DashedText(t: Texts)
    ensures SpecOf(DASHED) == "yyyy-mm-dd hh:mi:ss"
    ensures DASHED.lead + Render(DASHED.parts, t) ==
            t.year + "-" + (t.mm + "-" + (t.dd + " " + (t.hh + ":" + t.mi + ":" + t.ss)))
  {
    hide Render;
    var p, q, r := Part(Year, "-"), Part(DateLayouts.MonthNumber, "-"), Part(Day, " ");
    RenderThree(p, q, r, TOKENS);
    RenderThree(p, q, r, t);
    LeadsNothing(Render(DASHED.parts, t));
    LeadsNothing(Render(DASHED.parts, TOKENS));
    DashedSpec();
  }

  lemma Dashed()
    ensures WellFormed(DASHED) && DayIsFound(DASHED)
  {
    var p, q, r := Part(Year, "-"), Part(DateLayouts.MonthNumber, "-"), Part(Day, " ");
    PlainSymbols();
    ThreeThenTime(p, q, r);
    assert DASHED == Layout("", [p, q, r] + TIME);
    DayInDashed();
    hide Render, WellFormed, Has, Symbols, Offset;
  }

  lemma DayInDashed()
    ensures Offset(DASHED.parts, Day).Some? && Offset(DASHED.parts, Day).value == 8
  {
    var a, b, c := Part(Year, "-"), Part(DateLayouts.MonthNumber, "-"), Part(Day, " ");
    var tail := [c] + TIME;
    assert DASHED.parts[1..] == [b] + tail && ([b] + tail)[1..] == tail;
    assert Offset(tail, Day) == Some(0);
    assert Offset([b] + tail, Day) == Some(3);
  }

  function Clock(f: Fields): string {
    f.hh + ":" + f.mm + ":" + f.ss
  }

  /** dd/mm/yyyy hh:mi:ss: every date prints, and parse refuses every print, because it takes the day to be missing. */
  lemma DayFirstFails(f: Fields, now: Fields, y: int, m: int, d: int, hh: int, mi: int, ss: int,
      later: Fields, showOffset: real -> string, readOffset: string -> Option<real>)
    requires Built(f, now, y, m, d, hh, mi, ss)
    ensures var s := f.day + "/" + (f.month + "/" + (f.year + " " + Clock(f)));
      && Formatted("dd/mm/yyyy hh:mi:ss", f, showOffset) == Ok(s)
      && Parsed("dd/mm/yyyy hh:mi:ss", s, later, readOffset) == Thrown(INVALID_DATE)
  {
    hide *;
    DayFirst();
    DayFirstText(Shown(f));
    ShownTexts(f);
    ParseOfFormat(DAY_FIRST, f, now, y, m, d, hh, mi, ss, later, showOffset, readOffset);
  }

  lemma ShownTexts(f: Fields)
    ensures var t := Shown(f);
      && t.year == f.year && t.mm == f.month && t.dd == f.day && t.hh + ":" + t.mi + ":" + t.ss == Clock(f)
  {
  }

  lemma FirstDash(year: string, rest: string)
    requires NoSign(year) && '+' !in rest
    ensures SignSuffix(year + "-" + rest) == "-" + rest
  {
    var s := year + "-" + rest;
    NotContained(s, "+", '+');
    assert OccursAt(s, "-", |year|);
    forall k | 0 <= k < |year| ensures !OccursAt(s, "-", k) {
      assert s[k] == year[k] && year[k] in year;
      if OccursAt(s, "-", k) {
        OccursChar(s, "-", k, 0);
      }
    }
    LeastIsFound(s, "-", |year|);
    assert s[|year|..] == "-" + rest;
  }

  /** yyyy-mm-dd hh:mi:ss: every text from the first dash on is taken for a time zone. */
  lemma DashesAreTimezones(f: Fields, now: Fields, y: int, m: int, d: int, hh: int, mi: int, ss: int,
      later: Fields, showOffset: real -> string, readOffset: string -> Option<real>)
    requires Built(f, now, y, m, d, hh, mi, ss)
    ensures var zone := "-" + (f.month + "-" + (f.day + " " + Clock(f)));
      var s := f.year + zone;
      && Formatted("yyyy-mm-dd hh:mi:ss", f, showOffset) == Ok(s)
      && Parsed("yyyy-mm-dd hh:mi:ss", s, later, readOffset) ==
         if readOffset(zone).None? then Thrown(BAD_TIMEZONE)
         else Ok(f.(weekday := later.weekday, timeZoneOffset := readOffset(zone).value))
  {
    hide *;
    Dashed();
    DashedText(Shown(f));
    ShownTexts(f);
    ParseOfFormat(DASHED, f, now, y, m, d, hh, mi, ss, later, showOffset, readOffset);
    ZoneOfPrinted(f, now, y, m, d, hh, mi, ss);
    var zone := "-" + (f.month + "-" + (f.day + " " + Clock(f)));
    ZoneOfWhole(f, later, zone, readOffset);
  }

  lemma ZoneOfPrinted(f: Fields, now: Fields, y: int, m: int, d: int, hh: int, mi: int, ss: int)
    requires Built(f, now, y, m, d, hh, mi, ss)
    ensures var rest := f.month + "-" + (f.day + " " + Clock(f));
      && f.year + "-" + rest == f.year + ("-" + rest)
      && SignSuffix(f.year + "-" + rest) == "-" + rest
  {
    hide *;
    var c := BuiltDateShows(f, now, y, m, d, hh, mi, ss);
    BuiltTexts(f, c, hh, mi, ss);
    NoSignInRest(f);
    FirstDash(f.year, f.month + "-" + (f.day + " " + Clock(f)));
  }

  lemma NoSignInRest(f: Fields)
    requires forall g: Field :: NoSign(Shown(f).Of(g))
    ensures NoSign(f.year) && '+' !in f.month + "-" + (f.day + " " + Clock(f))
  {
    assert NoSign(Shown(f).Of(Year)) && NoSign(Shown(f).Of(DateLayouts.MonthNumber)) && NoSign(Shown(f).Of(Day));
    assert NoSign(Shown(f).Of(Hour)) && NoSign(Shown(f).Of(Minute)) && NoSign(Shown(f).Of(Second));
  }

  lemma Two(n: int)
    requires 0 <= n < 100
    ensures Padded(n) == [DigitOf(n / 10), DigitOf(n % 10)]
  {
    if n >= 10 {
      assert Decimal(n / 10) == [DigitOf(n / 10)];
    }
  }

  lemma Four(n: int)
    requires 1000 <= n < 10000
    ensures Padded(n) == [DigitOf(n / 1000), DigitOf(n / 100 % 10), DigitOf(n / 10 % 10), DigitOf(n % 10)]
  {
    assert Decimal(n / 1000) == [DigitOf(n / 1000)];
    assert Decimal(n / 100) == Decimal(n / 1000) + [DigitOf(n / 100 % 10)];
    assert Decimal(n / 10) == Decimal(n / 100) + [DigitOf(n / 10 % 10)];
  }

  /** 15 March 2024, 10:20:30. */
  lemma ExampleDate(now: Fields) returns (f: Fields)
    ensures Built(f, now, 2024, 3, 15, 10, 20, 30)
    ensures f.year == "2024" && f.month == "03" && f.day == "15" && Clock(f) == "10:20:30"
  {
    var c := Civil(2024, 3, 15);
    hide GetDays, FromDays, Padded, GetMonFd, GetDayName, HalfDayName;
    DateRoundTrip(c);
    f := WithTime(OfYmd(now, 2024, 3, 15).value, 10, 20, 30).value;
    Four(2024);
    Two(3);
    Two(15);
    Two(10);
    Two(20);
    Two(30);
  }

  /** The two failures on one date: a refused text, and a text read as a time zone. */
  lemma ExampleFailures(now: Fields, later: Fields, showOffset: real -> string, readOffset: string -> Option<real>)
    returns (f: Fields)
    ensures Built(f, now, 2024, 3, 15, 10, 20, 30)
    ensures Formatted("dd/mm/yyyy hh:mi:ss", f, showOffset) == Ok("15/03/2024 10:20:30")
    ensures Parsed("dd/mm/yyyy hh:mi:ss", "15/03/2024 10:20:30", later, readOffset) == Thrown(INVALID_DATE)
    ensures Formatted("yyyy-mm-dd hh:mi:ss", f, showOffset) == Ok("2024-03-15 10:20:30")
    ensures readOffset("-03-15 10:20:30").None? ==>
      Parsed("yyyy-mm-dd hh:mi:ss", "2024-03-15 10:20:30", later, readOffset) == Thrown(BAD_TIMEZONE)
  {
    f := ExampleDate(now);
    hide *;
    DayFirstFails(f, now, 2024, 3, 15, 10, 20, 30, later, showOffset, readOffset);
    DashesAreTimezones(f, now, 2024, 3, 15, 10, 20, 30, later, showOffset, readOffset);
    assert "15" + "/" + ("03" + "/" + ("2024" + " " + "10:20:30")) == "15/03/2024 10:20:30";
    assert "-" + ("03" + "-" + ("15" + " " + "10:20:30")) == "-03-15 10:20:30";
    assert "2024" + "-03-15 10:20:30" == "2024-03-15 10:20:30";
  }

  // ------------------------------------------------------------------------- the short year

  lemma DayNumberDeviation(y: int)
    ensures -1600 <= 400 * YearStart(y) - 146097 * y <= 1600
  {
  }

  /** The year of a day number, valid or not, is within three years of the mean. */
  lemma YearNearDays(g: int)
    ensures -3 * 146097 <= 146097 * (FromDays(g).year - 1900) - 400 * g <= 3 * 146097
  {
    hide YearStart;
    var e := EstimateYear(g);
    DayNumberDeviation(e);
    DayNumberDeviation(e - 1);
    assert -3652425 < 10000 * g + 14780 - 3652425 * e < 3652425;
  }

  /** A date of the first century has a day number from which no date of the twentieth or later is made. */
  lemma FirstCenturyStays(y: int, m: int, d: int)
    requires 0 <= y <= 99 && 1 <= m <= 12 && 1 <= d <= 31
    ensures FromDays(GetDays(y, m, d)).year < 1900
  {
    hide YearStart, FromDays;
    var mi := Rem(m + 9, 12);
    assert 0 <= mi <= 11 && 0 <= MonthStart(mi) <= 337;
    DayNumberDeviation(y - 1900 - Quot(mi, 10));
    YearNearDays(GetDays(y, m, d));
  }

  lemma FoundFirst(s: string, token: string, k: nat)
    requires token != "" && OccursAt(s, token, k) && forall i :: 0 <= i < k ==> s[i] != token[0]
    ensures Find(s, token, 0) == Some(k)
  {
    hide OccursAt, Find;
    OccursFits(s, token, k);
    forall i | 0 <= i < k ensures !OccursAt(s, token, i) {
      if OccursAt(s, token, i) {
        OccursChar(s, token, i, 0);
      }
    }
    LeastIsFound(s, token, k);
  }

  lemma ShortTokens()
    ensures Find("yy/mm/dd", "yy", 0) == Some(0) && Find("yy/mm/dd", "mm", 0) == Some(3)
    ensures Find("yy/mm/dd", "dd", 0) == Some(6)
  {
    var s := "yy/mm/dd";
    assert s[0..2] == "yy" && s[3..5] == "mm" && s[6..8] == "dd";
    hide Find;
    FoundFirst(s, "yy", 0);
    FoundFirst(s, "mm", 3);
    FoundFirst(s, "dd", 6);
  }

  lemma DayAfterTwo()
    ensures Find("yy/mm/dd", "dd", 2) == Some(6)
  {
    hide OccursAt, Find;
    ShortTokens();
    FindFrom("yy/mm/dd", "dd", 2);
  }

  /** The fields that the format does not have. */
  lemma TokenAbsent(token: string)
    requires token == "yyyy" || token == "ddd" || token == "mmm" || token == "hh" || token == "mi" || token == "ss"
    ensures Find("yy/mm/dd", token, 0) == None
  {
    var s := "yy/mm/dd";
    forall k | 0 <= k ensures !OccursAt(s, token, k) {
      if OccursAt(s, token, k) {
        OccursFits(s, token, k);
        OccursChar(s, token, k, 0);
        OccursChar(s, token, k, |token| - 1);
      }
    }
    NoneIsFound(s, token);
  }

  lemma PickAbsent(token: string, s: string, n: nat)
    requires token == "yyyy" || token == "ddd" || token == "mmm" || token == "hh" || token == "mi" || token == "ss"
    ensures Pick("yy/mm/dd", token, 0, s, n) == Ok("") && !Contains("yy/mm/dd", token)
  {
    TokenAbsent(token);
    hide Find;
  }

  lemma PickAt(token: string, from: nat, k: nat, s: string)
    requires Find("yy/mm/dd", token, from) == Some(k) && k + 2 <= |s|
    ensures Pick("yy/mm/dd", token, from, s, 2) == Ok(s[k..k + 2])
  {
    hide Find;
  }

  lemma PickedShortYear(mm: string, dd: string, yy: string)
    requires |mm| == |dd| == |yy| == 2 && NoSign(mm) && NoSign(dd) && NoSign(yy)
    ensures Picked("yy/mm/dd", yy + "/" + mm + "/" + dd) == Ok(Picks("", yy, dd, "", mm, "", "", "", ""))
  {
    var s := yy + "/" + mm + "/" + dd;
    assert |s| == 8 && s[0..2] == yy && s[3..5] == mm && s[6..8] == dd;
    assert NoSign(s) && NoSign("yy/mm/dd");
    TokenAbsent("ddd");
    ShortTokens();
    DayAfterTwo();
    hide Find, Contains, Pick, PickTimezone, NoSign;
    PickAt("yy", 0, 0, s);
    PickAt("mm", 0, 3, s);
    PickAt("dd", 2, 6, s);
    PickAbsent("yyyy", s, 4);
    PickAbsent("ddd", s, 3);
    PickAbsent("mmm", s, 3);
    PickAbsent("hh", s, 2);
    PickAbsent("mi", s, 2);
    PickAbsent("ss", s, 2);
    ZoneOfUnsigned(s);
  }

  lemma ZoneOfUnsigned(s: string)
    requires NoSign(s) && NoSign("yy/mm/dd")
    ensures PickTimezone("yy/mm/dd", s) == Ok("")
  {
    hide PickTimezone;
    TimezoneOfUnsigned("yy/mm/dd", s);
  }

  /** The date fields of the short format are printed apart. */
  lemma PrintedShortYear(f: Fields)
    requires Plain(f) && |f.year| >= 2
    ensures Substituted("yy/mm/dd", f) == f.year[2..] + "/" + f.month + "/" + f.day
  {
    PlainSymbols();
    FieldTexts(f);
    hide Substituted, Plain, Symbols;
    OneField(f, DateLayouts.MonthNumber);
    OneField(f, Day);
    ShortYear(f);
    assert "yy" + "/" + "mm" == "yy/mm" && "yy/mm" + "/" + "dd" == "yy/mm/dd";
    PrintedApart("yy", "/", "mm", f);
    PrintedApart("yy/mm", "/", "dd", f);
  }

  lemma OneField(f: Fields, g: Field)
    requires Plain(f) && |f.year| >= 2
    ensures Substituted(TOKENS.Of(g), f) == Shown(f).Of(g)
  {
    var l := Layout("", [Part(g, "")]);
    PlainSymbols();
    hide Substituted;
    FormatIsPositional(l, f);
    RenderCons(Part(g, ""), [], TOKENS);
    RenderCons(Part(g, ""), [], Shown(f));
    assert [Part(g, "")] + [] == [Part(g, "")];
    assert SpecOf(l) == TOKENS.Of(g);
    assert "" + Render(l.parts, Shown(f)) == Shown(f).Of(g);
  }

  /**
    yy/mm/dd: the year of the century is read as a year of the first century, so no date from 1 March 1900 on
    comes back.
   */
  lemma ShortYearIsLost(f: Fields, now: Fields, y: int, m: int, d: int, hh: int, mi: int, ss: int,
      later: Fields, showOffset: real -> string, readOffset: string -> Option<real>) returns (c: Civil)
    requires Built(f, now, y, m, d, hh, mi, ss)
    ensures BuiltAs(f, c, hh, mi, ss)
    ensures var s := f.year[2..] + "/" + f.month + "/" + f.day;
      && Formatted("yy/mm/dd", f, showOffset) == Ok(s)
      && var r := Parsed("yy/mm/dd", s, later, readOffset);
        && (r.Ok? <==> ValidateDate(c.day, c.month, c.year % 100))
        && (r.Ok? ==> r.value.year == Padded(FromDays(GetDays(c.year % 100, c.month, c.day)).year) != f.year)
  {
    hide Built, BuiltAs, Plain, SameWidths, NoSign, Substituted, Picked, FromPicks, ReadInt, GetMon, OfYmd, FromDays,
      GetDays, ValidateDate, Padded;
    c := BuiltDateShows(f, now, y, m, d, hh, mi, ss);
    BuiltTexts(f, c, hh, mi, ss);
    BuiltNumbers(f, c, hh, mi, ss);
    ShortYearOfBuilt(f, c, hh, mi, ss);
    ShortYear(f);
    PrintedShortYear(f);
    OffsetIsAppended("yy/mm/dd", f, 0.0, showOffset);
    assert f.(timeZoneOffset := 0.0) == f;
    ShortTexts(f);
    PickedShortYear(f.month, f.day, f.year[2..]);
    ReadsFirstCentury(f, c, later, readOffset);
    BuiltInFirstCentury(f, c, hh, mi, ss, later);
  }

  lemma ShortTexts(f: Fields)
    requires SameWidths(Shown(f)) && forall g: Field :: NoSign(Shown(f).Of(g))
    ensures |f.day| == 2 && |f.year| == 4 && NoSign(f.month) && NoSign(f.day) && NoSign(f.year[2..])
  {
    var t := Shown(f);
    assert |t.Of(Day)| == 2 && |t.Of(Year)| == 4;
    assert NoSign(t.Of(DateLayouts.MonthNumber)) && NoSign(t.Of(Day)) && NoSign(t.Of(Year));
  }

  lemma ReadsFirstCentury(f: Fields, c: Civil, later: Fields, readOffset: string -> Option<real>)
    requires ReadInt(f.month) == Ok(c.month) && ReadInt(f.day) == Ok(c.day) && |f.month| == 2 && |f.year| == 4
    requires ReadInt(f.year[2..]) == Ok(c.year % 100)
    ensures FromPicks(Picks("", f.year[2..], f.day, "", f.month, "", "", "", ""), later, readOffset) ==
            match OfYmd(later, c.year % 100, c.month, c.day)
            case Thrown(e) => Thrown(e)
            case Ok(g) => WithTime(g, 0, 0, 0)
  {
    assert ReadInt("") == Ok(0);
    hide ReadInt, OfYmd, WithTime;
  }

  lemma BuiltInFirstCentury(f: Fields, c: Civil, hh: int, mi: int, ss: int, later: Fields)
    requires BuiltAs(f, c, hh, mi, ss)
    ensures var r, year := OfYmd(later, c.year % 100, c.month, c.day),
                           FromDays(GetDays(c.year % 100, c.month, c.day)).year;
      && (r.Ok? <==> ValidateDate(c.day, c.month, c.year % 100))
      && (r.Ok? ==>
        && r.value.year == Padded(year) != f.year
        && WithTime(r.value, 0, 0, 0).Ok? && WithTime(r.value, 0, 0, 0).value.year == r.value.year)
  {
    MonthLengthBound(c.year, c.month);
    hide Padded, FromDays, GetDays, GetMonFd, GetDayName, HalfDayName, ValidateDate, Leap, MonthLength;
    FirstCenturyStays(c.year % 100, c.month, c.day);
    ReadPadded(c.year);
    ReadPadded(FromDays(GetDays(c.year % 100, c.month, c.day)).year);
  }
}
