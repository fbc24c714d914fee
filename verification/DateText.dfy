/** The names of days and months, the short year, the nanoseconds and the offset in a printed date. */
module DateTexts {
  import opened Wrappers
  import opened StringUtil
  import opened CastUtil
  import opened Calendar
  import opened Dates
  import opened DateFormats
  import opened DateLayouts
  import opened DateRoundTrips

  // ----------------------------------------------------------------------------- names

  lemma DayCodeOfWeek(k: nat)
    requires k < 7
    ensures ValidateDate(2 + k, 1, 2000) && DayCode(2 + k, 1, 2000) == k
  {
    assert MonthDays(1) == 0;
    assert !ValidateDate(0, 1, 2000);
  }

  /** The week from 2 to 8 January 2000; the day after has the next name by WeekdayAdvances. */
  lemma KnownWeek()
    ensures GetDayName(2, 1, 2000) == "SUNDAY" && GetDayName(3, 1, 2000) == "MONDAY"
    ensures GetDayName(4, 1, 2000) == "TUESDAY" && GetDayName(5, 1, 2000) == "WEDNESDAY"
    ensures GetDayName(6, 1, 2000) == "THURSDAY" && GetDayName(7, 1, 2000) == "FRIDAY"
    ensures GetDayName(8, 1, 2000) == "SATURDAY"
  {
    DayCodeOfWeek(0);
    DayCodeOfWeek(1);
    DayCodeOfWeek(2);
    DayCodeOfWeek(3);
    DayCodeOfWeek(4);
    DayCodeOfWeek(5);
    DayCodeOfWeek(6);
    hide DayCode, ValidateDate;
  }

  /** Equal weekdays have equal names, and the names of the week are those of the known one. */
  lemma NameOfDay(c: Civil)
    requires ValidateDate(c.day, c.month, c.year)
    ensures 0 <= DayCode(c.day, c.month, c.year) < 7
    ensures GetDayName(c.day, c.month, c.year) == GetDayName(2 + DayCode(c.day, c.month, c.year), 1, 2000)
  {
    hide DayCode, ValidateDate, DaySum, Leap;
    ValidateIsGregorian(c);
    DayCodeSum(c);
    DayCodeOfWeek(DayCode(c.day, c.month, c.year));
  }

  lemma DigitsOfMonth(m: int)
    requires 1 <= m <= 12
    ensures GetMonFd(MonthDigits(m)) == MONTHS[m - 1]
  {
    hide GetMonFd, ToUpper, Padded;
    MonthPadded(m);
    ToUpperKeeps(MonthDigits(m));
    if m <= 6 {
      NameOfEarlyMonth(MonthDigits(m), m);
    } else {
      NameOfLateMonth(MonthDigits(m), m);
    }
  }

  /** The names that the month digits stand for, and back. */
  lemma NamesOfMonths()
    ensures GetMonFd("01") == "JAN" && GetMonFd("02") == "FEB" && GetMonFd("03") == "MAR" && GetMonFd("04") == "APR"
    ensures GetMonFd("05") == "MAY" && GetMonFd("06") == "JUN" && GetMonFd("07") == "JUL" && GetMonFd("08") == "AUG"
    ensures GetMonFd("09") == "SEP" && GetMonFd("10") == "OCT" && GetMonFd("11") == "NOV" && GetMonFd("12") == "DEC"
  {
    hide GetMonFd;
    DigitsOfMonth(1);
    DigitsOfMonth(2);
    DigitsOfMonth(3);
    DigitsOfMonth(4);
    DigitsOfMonth(5);
    DigitsOfMonth(6);
    DigitsOfMonth(7);
    DigitsOfMonth(8);
    DigitsOfMonth(9);
    DigitsOfMonth(10);
    DigitsOfMonth(11);
    DigitsOfMonth(12);
  }

  /** What a date made from a day number is called: by the calendar's day, in the first three letters. */
  lemma NamesOfDate(now: Fields, days: int)
    requires days >= 0 && ValidateDate(FromDays(days).day, FromDays(days).month, FromDays(days).year)
    ensures var f, c := OfDays(now, days), FromDays(days);
      && |f.dayw| == 3 && f.dayw <= GetDayName(2 + DayCode(c.day, c.month, c.year), 1, 2000)
      && f.monthw == GetMonFd(Padded(c.month)) && GetMon(f.monthw) == f.month == Padded(c.month)
  {
    hide FromDays, ValidateDate, DayCode, GetMon, GetMonFd, Padded;
    FromDaysSmall(days);
    NameOfDay(FromDays(days));
    KnownWeek();
    MonthNames(FromDays(days).month);
  }

  /** A time of day is taken from 0:0:0 to 24:60:60, and read back from its fields; nothing else changes. */
  lemma TimeIsTaken(f: Fields, hh: int, mi: int, ss: int)
    ensures var r := WithTime(f, hh, mi, ss);
      && (r.Ok? <==> 0 <= hh <= 24 && 0 <= mi <= 60 && 0 <= ss <= 60)
      && (r.Thrown? ==> r.message == "Invalid Time")
      && (r.Ok? ==>
        && ReadInt(r.value.hh) == Ok(hh) && ReadInt(r.value.mm) == Ok(mi) && ReadInt(r.value.ss) == Ok(ss)
        && |r.value.hh| == |r.value.mm| == |r.value.ss| == 2 && r.value.nanoseconds == 0
        && r.value.(hh := f.hh, mm := f.mm, ss := f.ss, nanoseconds := f.nanoseconds) == f)
  {
    hide ReadInt, Padded;
    if WithTime(f, hh, mi, ss).Ok? {
      NumberShown(hh);
      NumberShown(mi);
      NumberShown(ss);
    }
  }

  // ------------------------------------------------------ fields apart from one another

  lemma ReplacedApart(x: string, sep: string, y: string, p: string, w: string)
    requires Symbols(sep) && sep != "" && Lowercase(p)
    ensures Replaced(x + sep + y, p, w) == Replaced(x, p, w) + sep + Replaced(y, p, w)
  {
    assert p != "";
    PartSeams(x, sep, y, p);
    SymbolsAreClean(sep, p);
    hide Replaced, Find, NoStraddle, OccursAt, Symbols, Lowercase;
    Associate3(x, sep, y);
    ReplacedConcat(x, sep + y, p, w);
    ReplacedConcat(sep, y, p, w);
    ReplacedClean(sep, p, w);
    Associate3(Replaced(x, p, w), sep, Replaced(y, p, w));
  }

  lemma TokensAreLowercase()
    ensures Lowercase("hh") && Lowercase("mi") && Lowercase("ss") && Lowercase("ns") && Lowercase("ddd")
    ensures Lowercase("dd") && Lowercase("mmm") && Lowercase("mm") && Lowercase("yyyy") && Lowercase("yy")
  {
  }

  /** The four replacements of the clock fields. */
  function ClockPart(spec: string, d: Fields): string {
    Replaced(Replaced(Replaced(Replaced(spec, "hh", d.hh), "mi", d.mm), "ss", d.ss), "ns", Show(d.nanoseconds))
  }

  /** The four replacements of day and month, whose tokens contain one another. */
  function DayPart(spec: string, d: Fields): string {
    Replaced(Replaced(Replaced(Replaced(spec, "ddd", d.dayw), "dd", d.day), "mmm", d.monthw), "mm", d.month)
  }

  function YearPart(spec: string, d: Fields): string
    requires |d.year| >= 2
  {
    Replaced(Replaced(spec, "yyyy", d.year), "yy", d.year[2..])
  }

  lemma ThreeParts(spec: string, d: Fields)
    requires |d.year| >= 2
    ensures Substituted(spec, d) == YearPart(DayPart(ClockPart(spec, d), d), d)
  {
    hide Replaced, Show;
  }

  lemma ClockApart(x: string, sep: string, y: string, d: Fields)
    requires Symbols(sep) && sep != ""
    ensures ClockPart(x + sep + y, d) == ClockPart(x, d) + sep + ClockPart(y, d)
  {
    TokensAreLowercase();
    hide Replaced, Symbols, Show, Lowercase;
    ReplacedApart(x, sep, y, "hh", d.hh);
    var x1, y1 := Replaced(x, "hh", d.hh), Replaced(y, "hh", d.hh);
    ReplacedApart(x1, sep, y1, "mi", d.mm);
    var x2, y2 := Replaced(x1, "mi", d.mm), Replaced(y1, "mi", d.mm);
    ReplacedApart(x2, sep, y2, "ss", d.ss);
    ReplacedApart(Replaced(x2, "ss", d.ss), sep, Replaced(y2, "ss", d.ss), "ns", Show(d.nanoseconds));
  }

  lemma DayApart(x: string, sep: string, y: string, d: Fields)
    requires Symbols(sep) && sep != ""
    ensures DayPart(x + sep + y, d) == DayPart(x, d) + sep + DayPart(y, d)
  {
    TokensAreLowercase();
    hide Replaced, Symbols, Show, Lowercase;
    ReplacedApart(x, sep, y, "ddd", d.dayw);
    var x1, y1 := Replaced(x, "ddd", d.dayw), Replaced(y, "ddd", d.dayw);
    ReplacedApart(x1, sep, y1, "dd", d.day);
    var x2, y2 := Replaced(x1, "dd", d.day), Replaced(y1, "dd", d.day);
    ReplacedApart(x2, sep, y2, "mmm", d.monthw);
    ReplacedApart(Replaced(x2, "mmm", d.monthw), sep, Replaced(y2, "mmm", d.monthw), "mm", d.month);
  }

  lemma YearApart(x: string, sep: string, y: string, d: Fields)
    requires Symbols(sep) && sep != "" && |d.year| >= 2
    ensures YearPart(x + sep + y, d) == YearPart(x, d) + sep + YearPart(y, d)
  {
    TokensAreLowercase();
    hide Replaced, Symbols, Show, Lowercase;
    ReplacedApart(x, sep, y, "yyyy", d.year);
    ReplacedApart(Replaced(x, "yyyy", d.year), sep, Replaced(y, "yyyy", d.year), "yy", d.year[2..]);
  }

  /**
    Any two formats with symbols between them are printed independently, whatever stands in the fields of
    the date and however their own fields follow each other.
   */
  lemma PrintedApart(x: string, sep: string, y: string, d: Fields)
    requires Symbols(sep) && sep != "" && |d.year| >= 2
    ensures Substituted(x + sep + y, d) == Substituted(x, d) + sep + Substituted(y, d)
  {
    hide Symbols, Substituted, ClockPart, DayPart, YearPart;
    ThreeParts(x, d);
    ThreeParts(y, d);
    ThreeParts(x + sep + y, d);
    ClockApart(x, sep, y, d);
    DayApart(ClockPart(x, d), sep, ClockPart(y, d), d);
    YearApart(DayPart(ClockPart(x, d), d), sep, DayPart(ClockPart(y, d), d), d);
  }

  lemma Unchanged(s: string, c: char, p: string, w: string)
    requires c in p && c !in s
    ensures Replaced(s, p, w) == s
  {
    NotContained(s, p, c);
    hide Find, OccursAt;
    ReplacedClean(s, p, w);
  }

  /** The short year is the year without its first two characters. */
  lemma ShortYear(d: Fields)
    requires |d.year| >= 2
    ensures Substituted("yy", d) == d.year[2..]
  {
    hide Replaced, Show;
    Unchanged("yy", 'h', "hh", d.hh);
    Unchanged("yy", 'm', "mi", d.mm);
    Unchanged("yy", 's', "ss", d.ss);
    Unchanged("yy", 'n', "ns", Show(d.nanoseconds));
    Unchanged("yy", 'd', "ddd", d.dayw);
    Unchanged("yy", 'd', "dd", d.day);
    Unchanged("yy", 'm', "mmm", d.monthw);
    Unchanged("yy", 'm', "mm", d.month);
    SameLengthOrLonger("yy", "yyyy", d.year);
    ReplacedWhole("yy", d.year[2..]);
  }

  lemma SameLengthOrLonger(s: string, p: string, w: string)
    requires |s| < |p|
    ensures Replaced(s, p, w) == s
  {
    ShortIsClean(s, p);
    ReplacedClean(s, p, w);
  }

  /** "ns" is replaced by the nanoseconds as they are, without padding. */
  lemma PrintedNanoseconds(d: Fields)
    requires |d.year| >= 2
    ensures Substituted("ns", d) == Show(d.nanoseconds)
  {
    ShowLacksLetters(d.nanoseconds);
    hide Replaced, Show;
    Unchanged("ns", 'h', "hh", d.hh);
    Unchanged("ns", 'm', "mi", d.mm);
    SameLength("ns", "ss");
    ReplacedClean("ns", "ss", d.ss);
    ReplacedWhole("ns", Show(d.nanoseconds));
    Unchanged(Show(d.nanoseconds), 'd', "ddd", d.dayw);
    Unchanged(Show(d.nanoseconds), 'd', "dd", d.day);
    Unchanged(Show(d.nanoseconds), 'm', "mmm", d.monthw);
    Unchanged(Show(d.nanoseconds), 'm', "mm", d.month);
    Unchanged(Show(d.nanoseconds), 'y', "yyyy", d.year);
    Unchanged(Show(d.nanoseconds), 'y', "yy", d.year[2..]);
  }

  lemma ShowLacksLetters(n: int)
    ensures 'd' !in Show(n) && 'm' !in Show(n) && 'y' !in Show(n)
  {
    assert !IsDigit('d') && !IsDigit('m') && !IsDigit('y');
  }

  /** The short year of a built date is its year within the century, in two digits. */
  lemma ShortYearOfBuilt(f: Fields, c: Civil, hh: int, mi: int, ss: int)
    requires BuiltAs(f, c, hh, mi, ss)
    ensures |Substituted("yy", f)| == 2 && ReadInt(Substituted("yy", f)) == Ok(c.year % 100)
  {
    hide Substituted, ReadInt, Decimal, BuiltAs, ValueOf;
    BuiltNumbers(f, c, hh, mi, ss);
    ShortYear(f);
    YearOfBuilt(f, c, hh, mi, ss);
    TwoDigits(c.year);
  }

  lemma YearOfBuilt(f: Fields, c: Civil, hh: int, mi: int, ss: int)
    requires BuiltAs(f, c, hh, mi, ss)
    ensures 1900 <= c.year <= 9999 && f.year == Decimal(c.year)
  {
    assert "" + Decimal(c.year) == Decimal(c.year);
  }

  lemma DecimalStep(n: nat)
    requires n >= 10
    ensures Decimal(n) == Decimal(n / 10) + [DigitOf(n % 10)]
  {
  }

  lemma ValueOfTwo(a: nat, b: nat)
    requires a < 10 && b < 10
    ensures ReadInt([DigitOf(a), DigitOf(b)]) == Ok(10 * a + b)
  {
    var s := [DigitOf(a), DigitOf(b)];
    assert s[..1] == [DigitOf(a)] && [DigitOf(a)][..0] == "";
    assert DigitValue(DigitOf(a)) == a && DigitValue(DigitOf(b)) == b;
    ReadDigitString(s);
    hide ReadInt;
    assert ValueOf([DigitOf(a)]) == a;
  }

  lemma WidthOfFour(n: nat)
    requires 1000 <= n < 10000
    ensures |Decimal(n)| == 4
  {
    hide Decimal;
    PaddedWidth(n);
    assert "" + Decimal(n) == Decimal(n);
  }

  lemma TwoDigits(n: nat)
    requires 1000 <= n < 10000
    ensures |Decimal(n)| == 4 && ReadInt(Decimal(n)[2..]) == Ok(n % 100)
  {
    hide Decimal, ReadInt, DigitOf;
    WidthOfFour(n);
    DecimalStep(n);
    DecimalStep(n / 10);
    assert n / 10 / 10 == n / 100 && n % 100 == 10 * (n / 10 % 10) + n % 10;
    assert Decimal(n)[2..] == [DigitOf(n / 10 % 10), DigitOf(n % 10)];
    ValueOfTwo(n / 10 % 10, n % 10);
  }

  // ----------------------------------------------------------------------------- the offset

  /** The sign and the number that format puts behind the date. */
  function OffsetText(o: real, showOffset: real -> string): string {
    if o == 0.0 then "" else (if o > 0.0 then "+" else "-") + showOffset(o)
  }

  lemma OffsetIsAppended(spec: string, f: Fields, o: real, showOffset: real -> string)
    requires |f.year| >= 2
    ensures Formatted(spec, f.(timeZoneOffset := o), showOffset) ==
            Ok(Substituted(spec, f) + OffsetText(o, showOffset))
  {
    hide Replaced, Show;
    assert Substituted(spec, f.(timeZoneOffset := o)) == Substituted(spec, f);
    var text := Substituted(spec, f);
    assert text + "" == text;
    assert text + "+" + showOffset(o) == text + ("+" + showOffset(o));
    assert text + "-" + showOffset(o) == text + ("-" + showOffset(o));
  }

  /** A field that was cut out in full is cut out of a longer text alike. */
  lemma PickedFromLonger(spec: string, token: string, from: nat, s: string, len: nat, x: string, more: string)
    requires Pick(spec, token, from, s, len) == Ok(x) && (|x| == len || Find(spec, token, from).None?)
    ensures Pick(spec, token, from, s + more, len) == Ok(x)
  {
    hide Find;
    if Find(spec, token, from).Some? {
      var i := Find(spec, token, from).value;
      assert i + len <= |s|;
      assert (s + more)[i..i + len] == s[i..i + len];
    }
  }

  lemma PickedField(l: Layout, t: Texts, f: Field, more: string)
    requires Symbols(l.lead) && Separated(l.parts) && Unambiguous(l.parts, f) && SameWidths(t)
    ensures Pick(SpecOf(l), TOKENS.Of(f), 0, l.lead + Render(l.parts, t) + more, |TOKENS.Of(f)|)
      == Ok(if Has(l.parts, f) then t.Of(f) else "")
  {
    hide Pick, SpecOf, Render, Symbols, Separated, Find, Has;
    PickField(l, t, f);
    assert |t.Of(f)| == |TOKENS.Of(f)|;
    PickedFromLonger(SpecOf(l), TOKENS.Of(f), 0, l.lead + Render(l.parts, t), |TOKENS.Of(f)|,
      if Has(l.parts, f) then t.Of(f) else "", more);
  }

  /** Everything that parse cuts out of a printed date with more behind it, but for the time zone. */
  lemma PicksOfLonger(l: Layout, t: Texts, more: string)
    requires WellFormed(l) && SameWidths(t) && DayIsFound(l)
    ensures var s, named := l.lead + Render(l.parts, t) + more, Has(l.parts, MonthName);
      Picked(SpecOf(l), s) ==
      match PickTimezone(SpecOf(l), s)
      case Thrown(e) => Thrown(e)
      case Ok(tzv) => Ok(Picks(t.year, "", t.dd, if named then t.mmm else "",
        if named then "" else t.mm, t.hh, t.mi, t.ss, tzv))
  {
    hide Pick, Find, Contains, SpecOf, Render, Separated, Symbols, OncePerField, DayIsFound, PickTimezone;
    PickField(l, t, Year);
    PickField(l, t, MonthName);
    PickedField(l, t, Year, more);
    PickedField(l, t, DayName, more);
    PickDay(l, t);
    assert |t.Of(Day)| == 2;
    PickedFromLonger(SpecOf(l), "dd", DateFormats.After(Find(SpecOf(l), "ddd", 0), 3), l.lead + Render(l.parts, t), 2,
      t.dd, more);
    PickedField(l, t, MonthName, more);
    if !Has(l.parts, MonthName) {
      PickedField(l, t, DateLayouts.MonthNumber, more);
    }
    PickedField(l, t, Hour, more);
    PickedField(l, t, Minute, more);
    PickedField(l, t, Second, more);
  }

  /** Without a sign in the format, a plus makes the whole text the time zone and a minus alone throws. */
  lemma TimezoneOfUnsigned(spec: string, s: string)
    requires NoSign(spec)
    ensures PickTimezone(spec, s) ==
            if '+' in s then Ok(s) else if '-' in s then Thrown(OUT_OF_RANGE) else Ok("")
  {
    NotContained(spec, "+", '+');
    NotContained(spec, "-", '-');
    CharIsFound(s, '+');
    CharIsFound(s, '-');
    hide Find, OccursAt;
    assert s[0..] == s;
  }

  lemma CharIsFound(s: string, c: char)
    ensures Contains(s, [c]) <==> c in s
  {
    hide Find;
    if c in s {
      CharIsContained(s, c);
    } else {
      NotContained(s, [c], c);
    }
  }

  /**
    An offset that was printed behind a format without signs is never read back: a negative one makes parse
    throw, and with a plus the whole text is read as the offset.
   */
  lemma OffsetIsNotReadBack(l: Layout, f: Fields, now: Fields, y: int, m: int, d: int, hh: int, mi: int, ss: int,
      o: real, later: Fields, showOffset: real -> string, readOffset: string -> Option<real>)
    requires WellFormed(l) && DayIsFound(l) && NoSign(SpecOf(l)) && Built(f, now, y, m, d, hh, mi, ss) && o != 0.0
    ensures var text := l.lead + Render(l.parts, Shown(f)) + OffsetText(o, showOffset);
      && Formatted(SpecOf(l), f.(timeZoneOffset := o), showOffset) == Ok(text)
      && Parsed(SpecOf(l), text, later, readOffset) ==
         if o < 0.0 && '+' !in text then Thrown(OUT_OF_RANGE)
         else if readOffset(text).None? then Thrown(BAD_TIMEZONE)
         else Ok(f.(weekday := later.weekday, timeZoneOffset := readOffset(text).value))
  {
    hide Formatted, Built, WellFormed, SpecOf, Render, DayIsFound, Substituted, Picked, FromPicks, Plain, SameWidths,
      NoSign, BuiltAs, ReadInt, GetMon, Has, PickTimezone;
    var c := BuiltDateShows(f, now, y, m, d, hh, mi, ss);
    BuiltTexts(f, c, hh, mi, ss);
    BuiltNumbers(f, c, hh, mi, ss);
    LayoutParts(l);
    FormatIsPositional(l, f);
    OffsetIsAppended(SpecOf(l), f, o, showOffset);
    var more := OffsetText(o, showOffset);
    var text := l.lead + Render(l.parts, Shown(f)) + more;
    assert more[0] == (if o > 0.0 then '+' else '-') && more[0] == text[|text| - |more|];
    TimezoneOfUnsigned(SpecOf(l), text);
    PicksOfLonger(l, Shown(f), more);
    if '+' in text {
      FromPrintedPicks(f, c, hh, mi, ss, Has(l.parts, MonthName), true, text, later, readOffset);
      ZoneOfWhole(f, later, text, readOffset);
    }
  }

  lemma ZoneOfWhole(f: Fields, later: Fields, zone: string, readOffset: string -> Option<real>)
    requires zone != ""
    ensures WithTimezone(f.(weekday := later.weekday), zone, readOffset) ==
            if readOffset(zone).None? then Thrown(BAD_TIMEZONE)
            else Ok(f.(weekday := later.weekday, timeZoneOffset := readOffset(zone).value))
  {
  }
}
