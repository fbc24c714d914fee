/** The Date class: its string fields, the setters that fill them, and the operations built on them. */
module Dates {
  import opened Wrappers
  import opened CastUtil
  import opened Calendar

  const INVALID_DATE := "Invalid date"
  const INVALID_MONTH := "Invalid month"
  const INVALID_TIME := "Invalid Time"

  function UpperChar(c: char): char {
    if 'a' <= c <= 'z' then c - 'a' + 'A' else c
  }

  function ToUpper(s: string): (u: string)
    ensures |u| == |s|
  {
    seq(|s|, k requires 0 <= k < |s| => UpperChar(s[k]))
  }

  const MONTHS: seq<string> :=
    ["JAN", "FEB", "MAR", "APR", "MAY", "JUN", "JUL", "AUG", "SEP", "OCT", "NOV", "DEC"]
  const WEEKDAYS: seq<string> :=
    ["SUNDAY", "MONDAY", "TUESDAY", "WEDNESDAY", "THURSDAY", "FRIDAY", "SATURDAY"]

  /** getMon: the two digits of a month name, in any case of letters. */
  function GetMon(mmm: string): string {
    var u := ToUpper(mmm);
    if u == "JAN" then "01" else if u == "FEB" then "02" else if u == "MAR" then "03"
    else if u == "APR" then "04" else if u == "MAY" then "05" else if u == "JUN" then "06"
    else if u == "JUL" then "07" else if u == "AUG" then "08" else if u == "SEP" then "09"
    else if u == "OCT" then "10" else if u == "NOV" then "11" else if u == "DEC" then "12"
    else "-1"
  }

  /** getMonFd: the name of a month given in digits. */
  function GetMonFd(digits: string): string {
    var u := ToUpper(digits);
    if u == "01" || u == "1" then "JAN" else if u == "02" || u == "2" then "FEB"
    else if u == "03" || u == "3" then "MAR" else if u == "04" || u == "4" then "APR"
    else if u == "05" || u == "5" then "MAY" else if u == "06" || u == "6" then "JUN"
    else if u == "07" || u == "7" then "JUL" else if u == "08" || u == "8" then "AUG"
    else if u == "09" || u == "9" then "SEP" else if u == "10" then "OCT"
    else if u == "11" then "NOV" else if u == "12" then "DEC"
    else "-1"
  }

  /** getDayName: empty for a date that validateDate refuses. */
  function GetDayName(d: int, m: int, y: int): string {
    if !ValidateDate(d, m, y) then ""
    else
      var code := DayCode(d, m, y);
      if 0 <= code < 7 then WEEKDAYS[code] else ""
  }

  function HalfDayName(name: string): string {
    if |name| > 3 then name[..3] else name
  }

  /** The values of the fields of a Date object. */
  datatype Fields = Fields(
    day: string, month: string, monthw: string, year: string, weekday: int, dayw: string,
    hh: string, mm: string, ss: string, nanoseconds: int, timeZoneOffset: real)

  /** getDateFromDays: day, month, year and day name are set, the rest is left as the clock had it. */
  function OfDays(now: Fields, days: int): Fields {
    var c := FromDays(days);
    now.(day := Padded(c.day), month := Padded(c.month), monthw := GetMonFd(Padded(c.month)),
      year := Padded(c.year), dayw := HalfDayName(GetDayName(c.day, c.month, c.year)))
  }

  /** Date(int, int, int). */
  function OfYmd(now: Fields, y: int, m: int, d: int): Result<Fields> {
    if !ValidateDate(d, m, y) then Thrown(INVALID_DATE)
    else Ok(OfDays(now, GetDays(y, m, d)).(nanoseconds := 0, timeZoneOffset := 0.0))
  }

  /** Date(int, string, int). */
  function OfYmd3(now: Fields, y: int, mmm: string, d: int): Result<Fields> {
    var mm := GetMon(mmm);
    if mm == "-1" then Thrown(INVALID_MONTH)
    else
      var m :- ReadInt(mm);
      OfYmd(now, y, m, d)
  }

  /** setTime. */
  function WithTime(f: Fields, hh: int, mi: int, ss: int): Result<Fields> {
    if hh > 24 || hh < 0 || mi < 0 || mi > 60 || ss < 0 || ss > 60 then Thrown(INVALID_TIME)
    else Ok(f.(hh := Padded(hh), mm := Padded(mi), ss := Padded(ss), nanoseconds := 0))
  }

  function MonthOf(f: Fields): Result<int> {
    if f.month != "" then ReadInt(f.month) else ReadInt(GetMon(f.monthw))
  }

  function PlusDays(f: Fields, days: int, now: Fields): Result<Fields> {
    var m :- MonthOf(f);
    var y :- ReadInt(f.year);
    var d :- ReadInt(f.day);
    Ok(OfDays(now, GetDays(y + Quot(m, 12), Rem(m, 12), d + days)))
  }

  function PlusMonths(f: Fields, months: int, now: Fields): Result<Fields> {
    var m :- MonthOf(f);
    var y :- ReadInt(f.year);
    var d :- ReadInt(f.day);
    Ok(OfDays(now, GetDays(y + Quot(m + months, 12), Rem(m + months, 12), d)))
  }

  function PlusHours(f: Fields, hours: int, now: Fields): Result<Fields> {
    var h :- ReadInt(f.hh);
    var g :- PlusDays(f, Quot(h + hours, 24), now);
    Ok(g.(hh := Padded(Rem(h + hours, 24))))
  }

  function PlusMinutes(f: Fields, minutes: int, now: Fields): Result<Fields> {
    var mi :- ReadInt(f.mm);
    var g :- PlusHours(f, Quot(mi + minutes, 60), now);
    Ok(g.(mm := Padded(Rem(mi + minutes, 60))))
  }

  function PlusSeconds(f: Fields, seconds: int, now: Fields): Result<Fields> {
    var s :- ReadInt(f.ss);
    var g :- PlusMinutes(f, Quot(s + seconds, 60), now);
    Ok(g.(ss := Padded(Rem(s + seconds, 60))))
  }

  /** The clock behind `Date()` is a parameter: each default construction reads `now`. */
  class Date {
    var day: string
    var month: string
    var monthw: string
    var year: string
    var weekday: int
    var dayw: string
    var hh: string
    var mm: string
    var ss: string
    var nanoseconds: int
    var timeZoneOffset: real

    function Value(): Fields
      reads this
    {
      Fields(day, month, monthw, year, weekday, dayw, hh, mm, ss, nanoseconds, timeZoneOffset)
    }

    constructor Now(now: Fields)
      ensures Value() == now
    {
      day, month, monthw, year := now.day, now.month, now.monthw, now.year;
      weekday, dayw := now.weekday, now.dayw;
      hh, mm, ss := now.hh, now.mm, now.ss;
      nanoseconds, timeZoneOffset := now.nanoseconds, now.timeZoneOffset;
    }

    method SetDay(d: int)
      modifies this`day
      ensures day == Padded(d)
    {
      day := Padded(d);
    }

    method SetMonth(m: int)
      modifies this`month, this`monthw
      ensures month == Padded(m) && monthw == GetMonFd(Padded(m))
    {
      month := Padded(m);
      monthw := GetMonFd(month);
    }

    method SetYear(y: int)
      modifies this`year
      ensures year == Padded(y)
    {
      year := Padded(y);
    }

    method SetHh(h: int)
      modifies this`hh
      ensures hh == Padded(h)
    {
      hh := Padded(h);
    }

    method SetMm(m: int)
      modifies this`mm
      ensures mm == Padded(m)
    {
      mm := Padded(m);
    }

    method SetSs(s: int)
      modifies this`ss
      ensures ss == Padded(s)
    {
      ss := Padded(s);
    }

    /** Throws and leaves the object alone, or sets the three fields and clears the nanoseconds. */
    method SetTime(h: int, mi: int, s: int) returns (r: Result<()>)
      modifies this
      ensures match WithTime(old(Value()), h, mi, s)
        case Ok(f) => r == Ok(()) && Value() == f
        case Thrown(e) => r == Thrown(e) && Value() == old(Value())
    {
      if h > 24 || h < 0 || mi < 0 || mi > 60 || s < 0 || s > 60 {
        return Thrown(INVALID_TIME);
      }
      SetHh(h);
      SetMm(mi);
      SetSs(s);
      nanoseconds := 0;
      return Ok(());
    }

    static method GetDateFromDays(now: Fields, days: int) returns (d: Date)
      ensures fresh(d) && d.Value() == OfDays(now, days)
    {
      hide GetMonFd, GetDayName, HalfDayName, Padded, YearStart, EstimateYear, MonthStart, Quot, Rem;
      var y := EstimateYear(days);
      var ddd := days - YearStart(y);
      if ddd < 0 {
        y := y - 1;
        ddd := days - YearStart(y);
      }
      var mi := Quot(100 * ddd + 52, 3060);
      var m := Rem(mi + 2, 12) + 1;
      y := y + Quot(mi + 2, 12) + 1900;
      var dd := ddd - MonthStart(mi) + 1;
      assert FromDays(days) == Civil(y, m, dd);
      d := new Date.Now(now);
      d.SetDay(dd);
      d.SetMonth(m);
      d.SetYear(y);
      d.dayw := HalfDayName(GetDayName(dd, m, y));
    }

    /** The constructor Date(int, int, int), which may throw. */
    static method Make(now: Fields, y: int, m: int, d: int) returns (r: Result<Date>)
      ensures match OfYmd(now, y, m, d)
        case Ok(f) => r.Ok? && fresh(r.value) && r.value.Value() == f
        case Thrown(e) => r == Thrown(e)
    {
      hide ValidateDate, OfDays, GetDays;
      if !ValidateDate(d, m, y) {
        return Thrown(INVALID_DATE);
      }
      var date := GetDateFromDays(now, GetDays(y, m, d));
      date.nanoseconds := 0;
      date.timeZoneOffset := 0.0;
      return Ok(date);
    }

    method AddDays(days: int, now: Fields) returns (r: Result<Date>)
      ensures match PlusDays(Value(), days, now)
        case Ok(f) => r.Ok? && fresh(r.value) && r.value.Value() == f
        case Thrown(e) => r == Thrown(e)
    {
      hide OfDays, ReadInt, MonthOf, GetDays, Padded, Quot, Rem;
      var m :- MonthOf(Value());
      var y :- ReadInt(year);
      var d :- ReadInt(day);
      var date := GetDateFromDays(now, GetDays(y + Quot(m, 12), Rem(m, 12), d + days));
      return Ok(date);
    }

    method AddMonths(months: int, now: Fields) returns (r: Result<Date>)
      ensures match PlusMonths(Value(), months, now)
        case Ok(f) => r.Ok? && fresh(r.value) && r.value.Value() == f
        case Thrown(e) => r == Thrown(e)
    {
      hide OfDays, ReadInt, MonthOf, GetDays, Padded, Quot, Rem;
      var m :- MonthOf(Value());
      var y :- ReadInt(year);
      var d :- ReadInt(day);
      var date := GetDateFromDays(now, GetDays(y + Quot(m + months, 12), Rem(m + months, 12), d));
      return Ok(date);
    }

    method AddHours(hours: int, now: Fields) returns (r: Result<Date>)
      ensures match PlusHours(Value(), hours, now)
        case Ok(f) => r.Ok? && fresh(r.value) && r.value.Value() == f
        case Thrown(e) => r == Thrown(e)
    {
      hide OfDays, ReadInt, MonthOf, GetDays, Padded, Quot, Rem, PlusDays;
      var h :- ReadInt(hh);
      var d :- AddDays(Quot(h + hours, 24), now);
      d.SetHh(Rem(h + hours, 24));
      return Ok(d);
    }

    method AddMinutes(minutes: int, now: Fields) returns (r: Result<Date>)
      ensures match PlusMinutes(Value(), minutes, now)
        case Ok(f) => r.Ok? && fresh(r.value) && r.value.Value() == f
        case Thrown(e) => r == Thrown(e)
    {
      hide OfDays, ReadInt, MonthOf, GetDays, Padded, Quot, Rem, PlusHours;
      var mi :- ReadInt(mm);
      var d :- AddHours(Quot(mi + minutes, 60), now);
      d.SetMm(Rem(mi + minutes, 60));
      return Ok(d);
    }

    method AddSeconds(seconds: int, now: Fields) returns (r: Result<Date>)
      ensures match PlusSeconds(Value(), seconds, now)
        case Ok(f) => r.Ok? && fresh(r.value) && r.value.Value() == f
        case Thrown(e) => r == Thrown(e)
    {
      hide OfDays, ReadInt, MonthOf, GetDays, Padded, Quot, Rem, PlusMinutes;
      var s :- ReadInt(ss);
      var d :- AddMinutes(Quot(s + seconds, 60), now);
      d.SetSs(Rem(s + seconds, 60));
      return Ok(d);
    }
  }

  /** The numbers that the fields of a Date show. */
  predicate Shows(f: Fields, t: Moment) {
    && MonthOf(f) == Ok(t.date.month) && ReadInt(f.year) == Ok(t.date.year) && ReadInt(f.day) == Ok(t.date.day)
    && ReadInt(f.hh) == Ok(t.hh) && ReadInt(f.mm) == Ok(t.mi) && ReadInt(f.ss) == Ok(t.ss)
  }

  lemma OfDaysShows(now: Fields, days: int)
    requires days >= 0
    ensures var f, c := OfDays(now, days), FromDays(days);
      MonthOf(f) == Ok(c.month) && ReadInt(f.year) == Ok(c.year) && ReadInt(f.day) == Ok(c.day)
  {
    hide FromDays, ReadInt, ValidateDate, DayCode;
    FromDaysValid(days);
    var c := FromDays(days);
    FromDaysSmall(days);
    ReadPadded(c.month);
    ReadPadded(c.year);
    ReadPadded(c.day);
  }

  /**
    addSeconds on the string fields: whatever the clock showed when the result was created, it adds
    the seconds to what getSeconds computes of the start, or of the same day of the next year for a
    start in December. Whether that is the calendar's moment is said in the module DateAdditions.
   */
  lemma PlusSecondsLinear(f: Fields, t: Moment, n: int, now: Fields)
    requires Shows(f, t) && n >= 0
    requires 1 <= t.date.month <= 12 && t.date.day >= 1 && InRange(t.date)
    requires t.hh >= 0 && t.mi >= 0 && t.ss >= 0
    ensures var u := AddSeconds(t, n);
      && PlusSeconds(f, n, now).Ok? && Shows(PlusSeconds(f, n, now).value, u)
      && SecondsOf(u) == SecondsOf(t.(date := YearSlip(t.date))) + n
      && (SecondsOf(u) == SecondsOf(t) + n <==> t.date.month != 12)
  {
    AddSecondsLinear(t, n);
    PlusSecondsShows(f, t, n, now);
  }

  lemma PlusDaysShows(f: Fields, t: Moment, n: int, now: Fields)
    requires Shows(f, t) && n >= 0
    requires 1 <= t.date.month <= 12 && t.date.day >= 1 && InRange(t.date)
    ensures var r, c := PlusDays(f, n, now), AddDays(t.date, n);
      && r.Ok? && MonthOf(r.value) == Ok(c.month)
      && ReadInt(r.value.year) == Ok(c.year) && ReadInt(r.value.day) == Ok(c.day)
  {
    hide FromDays, ReadInt, GetDays, OfDays, Padded, MonthOf, InRange, YearSlip, Quot, Rem;
    var c := t.date;
    AddDaysNatural(c, n);
    QuotOfMonth(c.month);
    OfDaysShows(now, GetDays(c.year + Quot(c.month, 12), Rem(c.month, 12), c.day + n));
  }

  lemma PlusMonthsShows(f: Fields, t: Moment, n: int, now: Fields)
    requires Shows(f, t) && n >= 0 && Gregorian(t.date) && InRange(t.date)
    ensures var r, c := PlusMonths(f, n, now), AddMonths(t.date, n);
      && r.Ok? && MonthOf(r.value) == Ok(c.month)
      && ReadInt(r.value.year) == Ok(c.year) && ReadInt(r.value.day) == Ok(c.day)
  {
    hide FromDays, ReadInt, GetDays, OfDays, Padded, MonthOf, Quot, Rem, MonthLength;
    var c := t.date;
    MonthsStayInRange(c, n);
    OfDaysShows(now, GetDays(c.year + Quot(c.month + n, 12), Rem(c.month + n, 12), c.day));
  }

  lemma MonthsStayInRange(c: Civil, n: int)
    requires Gregorian(c) && InRange(c) && n >= 0
    ensures GetDays(c.year + Quot(c.month + n, 12), Rem(c.month + n, 12), c.day) >= 0
  {
    hide GetDays, MonthLength, Quot, Rem;
    var r := MonthsLater(c, n);
    MonthsAsParts(c, n);
    var s := if r.month == 12 then YearSlip(r) else r;
    DaysLinear(s.year, 12, c.day, 0);
    DaysInRange(s);
  }

  lemma QuotOfMonth(m: int)
    requires m >= 0
    ensures Quot(m, 12) == m / 12 && Rem(m, 12) == m % 12
  {
  }

  lemma PlusSecondsShows(f: Fields, t: Moment, n: int, now: Fields)
    requires Shows(f, t) && n >= 0
    requires 1 <= t.date.month <= 12 && t.date.day >= 1 && InRange(t.date)
    requires t.hh >= 0 && t.mi >= 0 && t.ss >= 0
    ensures PlusSeconds(f, n, now).Ok? && Shows(PlusSeconds(f, n, now).value, AddSeconds(t, n))
  {
    hide ReadInt, PlusDays, AddDays, Padded, InRange, GetMon;
    var minutes := t.mi + (t.ss + n) / 60;
    var hours := t.hh + minutes / 60;
    PlusDaysShows(f, t, hours / 24, now);
    ReadPadded(hours % 24);
    ReadPadded(minutes % 60);
    ReadPadded((t.ss + n) % 60);
  }
}
