/** When the additions of a Date reach the day that the calendar does. */
module DateAdditions {
  import opened Wrappers
  import opened CastUtil
  import opened Calendar
  import opened Dates

  /** The Gregorian date `n` days after `c`. */
  function Later(c: Civil, n: nat): (d: Civil)
    requires Gregorian(c)
    ensures Gregorian(d)
  {
    if n == 0 then c else NextIsGregorian(Later(c, n - 1)); NextDay(Later(c, n - 1))
  }

  lemma NextIsGregorian(c: Civil)
    requires Gregorian(c)
    ensures Gregorian(NextDay(c))
  {
  }

  /** What the day numbers lag behind the calendar; it changes at the leap days that they miscount. */
  function Lag(c: Civil): int {
    if MarchYear(c) % 400 < 300 then 1 else 0
  }

  lemma {:induction false} LaterCounts(c: Civil, n: nat)
    requires Gregorian(c) && InRange(c)
    ensures InRange(Later(c, n)) && DaySum(Later(c, n)) == DaySum(c) + n
  {
    hide DaySum;
    if n > 0 {
      LaterCounts(c, n - 1);
      DaySumAdvances(Later(c, n - 1));
    }
  }

  /** The day number of a later date: the days between, less what the lag grew by. */
  lemma DaysOfLater(c: Civil, n: nat)
    requires Gregorian(c) && InRange(c)
    ensures InRange(Later(c, n)) && DaysOf(Later(c, n)) == DaysOf(c) + n + Lag(c) - Lag(Later(c, n))
  {
    hide DaySum, DaysOf;
    LaterCounts(c, n);
    DaySumOfDayNumber(c);
    DaySumOfDayNumber(Later(c, n));
  }

  /** Where addDays is right: outside December, and when no miscounted leap day lies between or at the end. */
  predicate Counted(c: Civil, d: Civil) {
    c.month != 12 && Lag(d) == Lag(c) && !(LeapDay(d) && d.year % 400 == 0)
  }

  /** addDays(n) reaches the date n days later exactly when that date is counted from the start. */
  lemma AddDaysExact(c: Civil, n: nat)
    requires Gregorian(c) && InRange(c)
    ensures AddDays(c, n) == Later(c, n) <==> Counted(c, Later(c, n))
  {
    hide DaysOf, AddDays, FromDays, Later, Lag;
    var d := Later(c, n);
    DaysOfLater(c, n);
    AddDaysLinear(c, n);
    if c.month == 12 {
      YearSlipGap(c);
      LagIsSmall(c);
      LagIsSmall(d);
    } else if Lag(d) == Lag(c) {
      AddDaysNumber(c, n);
      ValidateIsGregorian(d);
      DateRoundTrip(d);
    }
  }

  lemma LagIsSmall(c: Civil)
    ensures 0 <= Lag(c) <= 1
  {
  }

  lemma AddDaysNumber(c: Civil, n: nat)
    requires 1 <= c.month <= 11
    ensures AddDays(c, n) == FromDays(DaysOf(c) + n)
  {
    hide FromDays, GetDays;
    DaysLinear(c.year, c.month, c.day, n);
  }

  lemma {:induction false} LaterLater(c: Civil, n: nat, m: nat)
    requires Gregorian(c)
    ensures Later(Later(c, n), m) == Later(c, n + m)
  {
    hide NextDay, Gregorian;
    if m > 0 {
      LaterLater(c, n, m - 1);
    }
  }

  lemma {:induction false} LaterInMonth(c: Civil, n: nat)
    requires Gregorian(c) && c.day + n <= MonthLength(c.year, c.month)
    ensures Later(c, n) == c.(day := c.day + n)
  {
    hide Leap;
    if n > 0 {
      LaterInMonth(c, n - 1);
    }
  }

  lemma OneDayLater(c: Civil)
    requires Gregorian(c)
    ensures Later(c, 1) == NextDay(c)
  {
    assert Later(c, 0) == c;
  }

  lemma FortyDaysLater()
    ensures Later(Civil(2000, 2, 1), 40) == Civil(2000, 3, 12)
  {
    hide Later;
    LaterInMonth(Civil(2000, 2, 1), 28);
    OneDayLater(Civil(2000, 2, 29));
    LaterInMonth(Civil(2000, 3, 1), 11);
    LaterLater(Civil(2000, 2, 1), 28, 12);
    LaterLater(Civil(2000, 2, 29), 1, 11);
  }

  lemma SharedNumbers()
    ensures GetDays(2000, 2, 41) == GetDays(2000, 3, 13) && GetDays(2000, 2, 29) == GetDays(2000, 3, 1)
  {
  }

  /** Two starts outside December from which addDays is one day late. */
  lemma AddDaysRunsLate()
    ensures Later(Civil(2000, 2, 1), 40) == Civil(2000, 3, 12) && AddDays(Civil(2000, 2, 1), 40) == Civil(2000, 3, 13)
    ensures Later(Civil(2000, 2, 28), 1) == Civil(2000, 2, 29) && AddDays(Civil(2000, 2, 28), 1) == Civil(2000, 3, 1)
  {
    hide Later, GetDays, FromDays;
    FortyDaysLater();
    OneDayLater(Civil(2000, 2, 28));
    SharedNumbers();
    DateRoundTrip(Civil(2000, 3, 13));
    DateRoundTrip(Civil(2000, 3, 1));
  }

  // --------------------------------------------------------------------- hours, minutes, seconds

  /** The seconds since midnight. */
  function Clock(t: Moment): int {
    (t.hh * 60 + t.mi) * 60 + t.ss
  }

  /** The moment `n` seconds after `t`. */
  function LaterMoment(t: Moment, n: nat): Moment
    requires Gregorian(t.date) && t.hh >= 0 && t.mi >= 0 && t.ss >= 0
  {
    var total := Clock(t) + n;
    Moment(Later(t.date, total / 86400), total / 3600 % 24, total / 60 % 60, total % 60)
  }

  lemma Carries(h: int, m: int, s: int)
    requires h >= 0 && m >= 0 && s >= 0
    ensures var total, minutes := (h * 60 + m) * 60 + s, m + s / 60;
      var hours := h + minutes / 60;
      && total / 86400 == hours / 24 && total / 3600 % 24 == hours % 24
      && total / 60 % 60 == minutes % 60 && total % 60 == s % 60
  {
    var minutes := h * 60 + m + s / 60;
    CarryOnce(h * 60 + m, s, 60);
    CarryOnce(h, m + s / 60, 60);
    var total := (h * 60 + m) * 60 + s;
    assert total / 60 == minutes && minutes / 60 == h + (m + s / 60) / 60;
    assert total / 3600 == total / 60 / 60 && total / 86400 == total / 3600 / 24;
  }

  lemma CarryOnce(a: int, b: int, n: int)
    requires n == 60
    ensures (a * n + b) / n == a + b / n && (a * n + b) % n == b % n
  {
  }

  /**
    addSeconds reaches the moment n seconds later exactly when the date it carries to is counted from the
    start; the time of day is always right.
   */
  lemma AddSecondsExact(t: Moment, n: nat)
    requires Gregorian(t.date) && InRange(t.date) && t.hh >= 0 && t.mi >= 0 && t.ss >= 0
    ensures var r, u := AddSeconds(t, n), LaterMoment(t, n);
      && r.hh == u.hh && r.mi == u.mi && r.ss == u.ss
      && (r == u <==> Counted(t.date, u.date))
  {
    hide AddDays, Later, Counted, Gregorian, InRange;
    Carries(t.hh, t.mi, t.ss + n);
    AddDaysExact(t.date, (Clock(t) + n) / 86400);
  }

  /** The fields of a Date show at most one moment. */
  lemma ShowsOne(f: Fields, t: Moment, u: Moment)
    requires Shows(f, t) && Shows(f, u)
    ensures t == u
  {
    hide MonthOf;
  }

  /** The same on the string fields of a Date, whatever the clock shows. */
  lemma PlusSecondsExact(f: Fields, t: Moment, n: nat, now: Fields)
    requires Shows(f, t) && Gregorian(t.date) && InRange(t.date) && t.hh >= 0 && t.mi >= 0 && t.ss >= 0
    ensures PlusSeconds(f, n, now).Ok?
    ensures Shows(PlusSeconds(f, n, now).value, LaterMoment(t, n)) <==> Counted(t.date, LaterMoment(t, n).date)
  {
    PlusSecondsLinear(f, t, n, now);
    AddSecondsExact(t, n);
    hide Shows, PlusSeconds, AddSeconds, LaterMoment, Counted;
    var g := PlusSeconds(f, n, now).value;
    if Shows(g, LaterMoment(t, n)) {
      ShowsOne(g, AddSeconds(t, n), LaterMoment(t, n));
    }
  }

  // ------------------------------------------------------- each addition on the string fields

  predicate ShowsDate(f: Fields, c: Civil) {
    MonthOf(f) == Ok(c.month) && ReadInt(f.year) == Ok(c.year) && ReadInt(f.day) == Ok(c.day)
  }

  /** What no addition carries over from the date it is called on: the result has it from the clock. */
  predicate TakesFrom(g: Fields, now: Fields) {
    g.weekday == now.weekday && g.nanoseconds == now.nanoseconds && g.timeZoneOffset == now.timeZoneOffset
  }

  lemma ShowsOneDate(f: Fields, c: Civil, d: Civil)
    requires ShowsDate(f, c) && ShowsDate(f, d)
    ensures c == d
  {
    hide MonthOf, ReadInt;
  }

  /** addDays: the date is right exactly when it is counted from the start; the time of day is the clock's. */
  lemma PlusDaysExact(f: Fields, t: Moment, n: nat, now: Fields)
    requires Shows(f, t) && Gregorian(t.date) && InRange(t.date)
    ensures PlusDays(f, n, now).Ok?
    ensures var g, d := PlusDays(f, n, now).value, Later(t.date, n);
      && (ShowsDate(g, d) <==> Counted(t.date, d))
      && g.hh == now.hh && g.mm == now.mm && g.ss == now.ss && TakesFrom(g, now)
  {
    PlusDaysShows(f, t, n, now);
    AddDaysExact(t.date, n);
    DaysFromClock(f, n, now);
    hide PlusDays, Later, Counted, AddDays, MonthOf, ReadInt, Shows, Gregorian, InRange, TakesFrom;
    var g := PlusDays(f, n, now).value;
    if ShowsDate(g, Later(t.date, n)) {
      ShowsOneDate(g, AddDays(t.date, n), Later(t.date, n));
    }
  }

  lemma DaysFromClock(f: Fields, n: int, now: Fields)
    ensures PlusDays(f, n, now).Ok? ==>
      var g := PlusDays(f, n, now).value;
      g.hh == now.hh && g.mm == now.mm && g.ss == now.ss && TakesFrom(g, now)
  {
    hide FromDays, ReadInt, GetMonFd, GetDayName, HalfDayName, Padded, GetDays, MonthOf, Quot, Rem;
  }

  lemma PlusHoursParts(f: Fields, t: Moment, n: nat, now: Fields)
    requires Shows(f, t) && t.hh >= 0 && PlusDays(f, (t.hh + n) / 24, now).Ok?
    ensures var g := PlusDays(f, (t.hh + n) / 24, now).value;
      && PlusHours(f, n, now) == Ok(g.(hh := Padded((t.hh + n) % 24)))
      && ReadInt(Padded((t.hh + n) % 24)) == Ok((t.hh + n) % 24)
  {
    hide ReadInt, PlusDays, Padded, MonthOf;
    ReadPadded((t.hh + n) % 24);
  }

  /** addHours: the hour is right, and the date exactly when it is counted; minute and second are the clock's. */
  lemma PlusHoursExact(f: Fields, t: Moment, n: nat, now: Fields)
    requires Shows(f, t) && Gregorian(t.date) && InRange(t.date) && t.hh >= 0
    ensures PlusHours(f, n, now).Ok?
    ensures var g, d := PlusHours(f, n, now).value, Later(t.date, (t.hh + n) / 24);
      && (ShowsDate(g, d) <==> Counted(t.date, d)) && ReadInt(g.hh) == Ok((t.hh + n) % 24)
      && g.mm == now.mm && g.ss == now.ss && TakesFrom(g, now)
  {
    PlusDaysExact(f, t, (t.hh + n) / 24, now);
    PlusHoursParts(f, t, n, now);
    hide PlusHours, PlusDays, Later, Counted, ReadInt, Shows, Gregorian, InRange, Padded, GetMon;
  }

  lemma PlusMinutesParts(f: Fields, t: Moment, n: nat, now: Fields)
    requires Shows(f, t) && t.mi >= 0 && PlusHours(f, (t.mi + n) / 60, now).Ok?
    ensures var g := PlusHours(f, (t.mi + n) / 60, now).value;
      && PlusMinutes(f, n, now) == Ok(g.(mm := Padded((t.mi + n) % 60)))
      && ReadInt(Padded((t.mi + n) % 60)) == Ok((t.mi + n) % 60)
  {
    hide ReadInt, PlusHours, Padded, MonthOf;
    ReadPadded((t.mi + n) % 60);
  }

  /** addMinutes: hour and minute are right, and the date exactly when it is counted; the second is the clock's. */
  lemma PlusMinutesExact(f: Fields, t: Moment, n: nat, now: Fields)
    requires Shows(f, t) && Gregorian(t.date) && InRange(t.date) && t.hh >= 0 && t.mi >= 0
    ensures PlusMinutes(f, n, now).Ok?
    ensures var g, hours := PlusMinutes(f, n, now).value, t.hh + (t.mi + n) / 60;
      var d := Later(t.date, hours / 24);
      && (ShowsDate(g, d) <==> Counted(t.date, d))
      && ReadInt(g.hh) == Ok(hours % 24) && ReadInt(g.mm) == Ok((t.mi + n) % 60)
      && g.ss == now.ss && TakesFrom(g, now)
  {
    hide *;
    var k := (t.mi + n) / 60;
    PlusHoursExact(f, t, k, now);
    PlusMinutesParts(f, t, n, now);
    MinuteApart(PlusHours(f, k, now).value, Padded((t.mi + n) % 60), Later(t.date, (t.hh + k) / 24), now);
  }

  lemma MinuteApart(g: Fields, mm: string, d: Civil, now: Fields)
    ensures ShowsDate(g.(mm := mm), d) <==> ShowsDate(g, d)
    ensures TakesFrom(g.(mm := mm), now) <==> TakesFrom(g, now)
  {
    hide MonthOf, ReadInt;
    assert MonthOf(g.(mm := mm)) == MonthOf(g) by {
      SameMonth(g, g.(mm := mm));
    }
  }

  lemma SameMonth(f: Fields, g: Fields)
    requires f.month == g.month && f.monthw == g.monthw
    ensures MonthOf(f) == MonthOf(g)
  {
  }

  /**
    addMonths on the string fields shows the same day n months later exactly when that month is not December
    and is long enough by the leap years of the day numbers.
   */
  lemma PlusMonthsExact(f: Fields, t: Moment, n: nat, now: Fields)
    requires Shows(f, t) && Gregorian(t.date) && InRange(t.date)
    ensures PlusMonths(f, n, now).Ok?
    ensures var g, r := PlusMonths(f, n, now).value, MonthsLater(t.date, n);
      && 1 <= r.month <= 12
      && (ShowsDate(g, r) <==> r.month != 12 && r.day <= CountedLength(r.year, r.month))
      && g.hh == now.hh && g.mm == now.mm && g.ss == now.ss && TakesFrom(g, now)
  {
    hide PlusMonths, MonthOf, ReadInt, MonthLength, InRange, CountedLength, MonthsLater, AddMonths, Shows, TakesFrom;
    PlusMonthsShows(f, t, n, now);
    AddMonthsLands(t.date, n);
    MonthsFromClock(f, n, now);
    var g := PlusMonths(f, n, now).value;
    if ShowsDate(g, MonthsLater(t.date, n)) {
      ShowsOneDate(g, AddMonths(t.date, n), MonthsLater(t.date, n));
    }
  }

  lemma MonthsFromClock(f: Fields, n: int, now: Fields)
    ensures PlusMonths(f, n, now).Ok? ==>
      var g := PlusMonths(f, n, now).value;
      g.hh == now.hh && g.mm == now.mm && g.ss == now.ss && TakesFrom(g, now)
  {
    hide FromDays, ReadInt, GetMonFd, GetDayName, HalfDayName, Padded, GetDays, MonthOf, Quot, Rem;
  }
}
