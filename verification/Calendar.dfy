/**
  The arithmetic of Date.cpp on plain numbers. Day numbers count from 1 March 1900 and years
  start in March, so that the leap day is the last day of its year.
 */
module Calendar {

  datatype Civil = Civil(year: int, month: int, day: int)

  // C++ division and remainder truncate toward zero.
  function Quot(a: int, b: int): int
    requires b > 0
  {
    if a >= 0 then a / b else -(-a / b)
  }

  function Rem(a: int, b: int): int
    requires b > 0
  {
    a - b * Quot(a, b)
  }

  /** The closed form for the days before year `y` that getDays and getDateFromDays share. */
  function YearStart(y: int): int {
    365 * y + Quot(y, 4) - Quot(y, 100) + Quot(y, 400)
  }

  function MonthStart(mi: int): int {
    Quot(mi * 306 + 5, 10)
  }

  /** Date::getDays. */
  function GetDays(y: int, m: int, d: int): int {
    var mi := Rem(m + 9, 12);
    YearStart(y - 1900 - Quot(mi, 10)) + MonthStart(mi) + (d - 1)
  }

  function Estimate(days: int, bias: int): int {
    Quot(10000 * days + bias, 3652425)
  }

  function EstimateYear(days: int): int {
    Estimate(days, 14780)
  }

  /** The numbers computed by Date::getDateFromDays. */
  function FromDays(days: int): Civil {
    var e := EstimateYear(days);
    var y := if days - YearStart(e) < 0 then e - 1 else e;
    var ddd := days - YearStart(y);
    var mi := Quot(100 * ddd + 52, 3060);
    Civil(y + Quot(mi + 2, 12) + 1900, Rem(mi + 2, 12) + 1, ddd - MonthStart(mi) + 1)
  }

  predicate Leap(y: int) {
    y % 4 == 0 && (y % 100 != 0 || y % 400 == 0)
  }

  /** Date::validateDate. */
  predicate ValidateDate(d: int, m: int, y: int) {
    && !(d < 1 || d > 31 || y < 0)
    && !(m < 1 || m > 12)
    && (if m == 2 then
          if Leap(y) then !(d < 1 || d > 29) else !(d < 1 || d > 28)
        else if m in {1, 3, 5, 7, 8, 10, 12} then !(d < 1 || d > 31)
        else if m in {4, 6, 9, 11} then !(d < 1 || d > 30)
        else true)
  }

  /** What the fall-through switch of getDayName adds to the day of the month. */
  function MonthDays(m: int): int {
    (if m == 12 then 30 else 0) + (if 11 <= m <= 12 then 31 else 0) + (if 10 <= m <= 12 then 30 else 0)
    + (if 9 <= m <= 12 then 31 else 0) + (if 8 <= m <= 12 then 31 else 0) + (if 7 <= m <= 12 then 30 else 0)
    + (if 6 <= m <= 12 then 31 else 0) + (if 5 <= m <= 12 then 30 else 0) + (if 4 <= m <= 12 then 31 else 0)
    + (if 3 <= m <= 12 then 28 else 0) + (if 2 <= m <= 12 then 31 else 0)
  }

  /** The value of `days` when getDayName reaches its last switch; 0 stands for Sunday. */
  function DayCode(d: int, m: int, y: int): int {
    var code := Rem(YearStart(y - 1), 7);
    Rem(code + d + MonthDays(m) + (if Leap(y) && m > 2 then 1 else 0), 7)
  }

  // ------------------------------------------------- the Gregorian calendar, independently

  /** RFC 3339, section 5.7 and appendix C. */
  function MonthLength(y: int, m: int): int
    requires 1 <= m <= 12
  {
    if m == 2 then (if Leap(y) then 29 else 28)
    else if m == 4 || m == 6 || m == 9 || m == 11 then 30
    else 31
  }

  predicate Gregorian(c: Civil) {
    0 <= c.year && 1 <= c.month <= 12 && 1 <= c.day <= MonthLength(c.year, c.month)
  }

  function NextDay(c: Civil): Civil
    requires Gregorian(c)
  {
    if c.day < MonthLength(c.year, c.month) then c.(day := c.day + 1)
    else if c.month < 12 then Civil(c.year, c.month + 1, 1)
    else Civil(c.year + 1, 1, 1)
  }

  /** The year whose March opens the March-based year of the date. */
  function MarchYear(c: Civil): int {
    if c.month >= 3 then c.year else c.year - 1
  }

  /** The dates the day numbers are meant for: 1 March 1900 and later. */
  predicate InRange(c: Civil) {
    MarchYear(c) >= 1900
  }

  function DaysOf(c: Civil): int {
    GetDays(c.year, c.month, c.day)
  }

  predicate LeapDay(c: Civil) {
    c.month == 2 && c.day == 29
  }

  lemma ValidateIsGregorian(c: Civil)
    ensures ValidateDate(c.day, c.month, c.year) <==> Gregorian(c)
  {
  }

  // ------------------------------------------------------------- the year estimate

  /** Ten thousand times the leap days of y years, against the average of 2425 a year. */
  lemma LeapDeviation(y: int)
    requires y >= 0
    ensures -14775 <= 10000 * YearStart(y) - 3652425 * y <= 7200
  {
    var a, r := y / 400, y % 400;
    var b, q := r / 100, r % 100;
    var c, d := q / 4, q % 4;
    assert y == 400 * a + 100 * b + 4 * c + d;
    assert y / 4 == 100 * a + 25 * b + c && y / 100 == 4 * a + b;
    assert 10000 * YearStart(y) - 3652425 * y == -2500 * b + 300 * c - 2425 * d;
  }

  lemma DivisionSteps(y: int)
    requires y >= 0
    ensures (y + 1) / 4 == y / 4 + if (y + 1) % 4 == 0 then 1 else 0
    ensures (y + 1) / 100 == y / 100 + if (y + 1) % 100 == 0 then 1 else 0
    ensures (y + 1) / 400 == y / 400 + if (y + 1) % 400 == 0 then 1 else 0
  {
  }

  lemma CenturiesDivide(y: int)
    ensures y % 100 == 0 ==> y % 4 == 0
    ensures y % 400 == 0 ==> y % 100 == 0
  {
  }

  lemma YearLength(y: int)
    requires y >= 0
    ensures YearStart(y + 1) == YearStart(y) + 365 + if Leap(y + 1) then 1 else 0
  {
    DivisionSteps(y);
    CenturiesDivide(y + 1);
  }

  predicate InYear(g: int, y: int) {
    y >= 0 && YearStart(y) <= g < YearStart(y + 1)
  }

  lemma {:induction false} YearStartMonotone(y: int, z: int)
    requires 0 <= y <= z
    ensures YearStart(y) + 365 * (z - y) <= YearStart(z)
    decreases z - y
  {
    if y < z {
      YearStartMonotone(y, z - 1);
      YearLength(z - 1);
    }
  }

  lemma InYearUnique(g: int, y: int, z: int)
    requires InYear(g, y) && InYear(g, z)
    ensures y == z
  {
    if y < z { YearStartMonotone(y + 1, z); }
    if z < y { YearStartMonotone(z + 1, y); }
  }

  lemma {:induction false} YearExists(g: int) returns (y: int)
    requires g >= 0
    ensures InYear(g, y)
    decreases g
  {
    if g < 365 {
      y := 0;
      YearLength(0);
    } else {
      y := YearExists(g - 1);
      YearLength(y);
      YearLength(y + 1);
      if g == YearStart(y + 1) {
        y := y + 1;
      }
    }
  }

  /** The estimate is the year of the day, or the year after it. */
  lemma EstimateIsYearOrNext(g: int, y: int)
    requires g >= 0 && InYear(g, y)
    ensures EstimateYear(g) == y || EstimateYear(g) == y + 1
  {
    LeapDeviation(y);
    LeapDeviation(y + 1);
  }

  ghost predicate BiasWorks(bias: int) {
    forall g, y :: g >= 0 && InYear(g, y) ==> y <= Estimate(g, bias) <= y + 1
  }

  /** How tight 14780 is: one correction step suffices for every day exactly for these constants. */
  lemma BiasRange(bias: int)
    ensures BiasWorks(bias) <==> 14775 <= bias <= 3655224
  {
    if 14775 <= bias <= 3655224 {
      forall g, y | g >= 0 && InYear(g, y) ensures y <= Estimate(g, bias) <= y + 1 {
        LeapDeviation(y);
        LeapDeviation(y + 1);
      }
    } else if bias < 14775 {
      YearLength(303);
      assert InYear(YearStart(303), 303);
      assert Estimate(YearStart(303), bias) < 303;
    } else {
      YearLength(95);
      assert InYear(YearStart(96) - 1, 95);
      assert Estimate(YearStart(96) - 1, bias) > 96;
    }
  }

  // ------------------------------------------------------ day number to date and back

  lemma MonthTable(mi: int)
    requires 0 <= mi <= 12
    ensures MonthStart(mi) ==
      if mi == 0 then 0 else if mi == 1 then 31 else if mi == 2 then 61 else if mi == 3 then 92
      else if mi == 4 then 122 else if mi == 5 then 153 else if mi == 6 then 184 else if mi == 7 then 214
      else if mi == 8 then 245 else if mi == 9 then 275 else if mi == 10 then 306 else if mi == 11 then 337
      else 367
  {
  }

  lemma MonthNumber(mi: int)
    requires 0 <= mi <= 11
    ensures (mi + 2) % 12 + 1 == if mi >= 10 then mi - 9 else mi + 3
    ensures (mi + 2) / 12 == if mi >= 10 then 1 else 0
  {
  }

  lemma MonthOfDay(ddd: int)
    requires 0 <= ddd <= 365
    ensures var mi := (100 * ddd + 52) / 3060; 0 <= mi <= 11 && MonthStart(mi) <= ddd < MonthStart(mi + 1)
  {
    var mi := (100 * ddd + 52) / 3060;
    assert 3060 * mi <= 100 * ddd + 52 < 3060 * mi + 3060;
    assert mi in {0, 1, 2, 3, 4, 5, 6, 7, 8, 9, 10, 11};
  }

  /** The parts of getDateFromDays named: year, day in the year, month counted from March. */
  lemma FromDaysParts(g: int) returns (y: int, ddd: int, mi: int)
    requires g >= 0
    ensures InYear(g, y) && ddd == g - YearStart(y) && 0 <= ddd <= 365 && 0 <= mi <= 11
    ensures MonthStart(mi) <= ddd < MonthStart(mi + 1)
    ensures ddd == 365 ==> Leap(y + 1)
    ensures FromDays(g) == Civil(y + (mi + 2) / 12 + 1900, (mi + 2) % 12 + 1, ddd - MonthStart(mi) + 1)
  {
    hide YearStart, MonthStart, EstimateYear;
    y := YearExists(g);
    EstimateIsYearOrNext(g, y);
    YearLength(y);
    ddd := g - YearStart(y);
    mi := (100 * ddd + 52) / 3060;
    MonthOfDay(ddd);
  }

  lemma DaysOfParts(y: int, mi: int, d: int)
    requires y >= 0 && 0 <= mi <= 11
    ensures GetDays(y + (mi + 2) / 12 + 1900, (mi + 2) % 12 + 1, d) == YearStart(y) + MonthStart(mi) + d - 1
  {
    hide YearStart, MonthStart;
    MonthNumber(mi);
  }

  /** getDays undoes getDateFromDays on every day number. */
  lemma DaysRoundTrip(g: int)
    requires g >= 0
    ensures DaysOf(FromDays(g)) == g
  {
    hide GetDays, FromDays, YearStart, MonthStart;
    var y, ddd, mi := FromDaysParts(g);
    DaysOfParts(y, mi, ddd - MonthStart(mi) + 1);
  }

  /** The month counted from March. */
  function MarchMonth(m: int): int {
    if m >= 3 then m - 3 else m + 9
  }

  lemma MonthOfCivil(m: int)
    requires 1 <= m <= 12
    ensures var mi := MarchMonth(m); m == (mi + 2) % 12 + 1 && (mi + 2) / 12 == if m >= 3 then 0 else 1
  {
    MonthNumber(MarchMonth(m));
  }

  lemma FromDaysSmall(g: int)
    requires g >= 0
    ensures var c := FromDays(g); 1 <= c.month <= 12 && 1 <= c.day <= 31 && c.year >= 1900
  {
    hide FromDays, YearStart, MonthStart, Leap;
    var y, ddd, mi := FromDaysParts(g);
    MonthNumber(mi);
    MonthTable(mi);
    MonthTable(mi + 1);
  }

  lemma PartsOfDate(c: Civil) returns (y: int, mi: int)
    requires Gregorian(c) && InRange(c)
    ensures y == MarchYear(c) - 1900 >= 0 && mi == MarchMonth(c.month) && 0 <= mi <= 11
    ensures c == Civil(y + (mi + 2) / 12 + 1900, (mi + 2) % 12 + 1, c.day)
    ensures DaysOf(c) == YearStart(y) + MonthStart(mi) + c.day - 1
  {
    hide GetDays, YearStart, MonthStart, Leap;
    y := MarchYear(c) - 1900;
    mi := MarchMonth(c.month);
    MonthOfCivil(c.month);
    DaysOfParts(y, mi, c.day);
  }

  /** The offset of a date in its March-based year. */
  lemma OffsetBounds(c: Civil)
    requires Gregorian(c)
    ensures var mi := MarchMonth(c.month); var off := MonthStart(mi) + c.day - 1;
      && 0 <= off < MonthStart(mi + 1) && (if LeapDay(c) then off == 365 && Leap(c.year) else off <= 364)
  {
    hide MonthStart, Leap;
    MonthTable(MarchMonth(c.month));
    MonthTable(MarchMonth(c.month) + 1);
  }

  /** getDateFromDays finds the year and the month the day number was made of. */
  lemma FromDaysIs(y: int, mi: int, d: int)
    requires y >= 0 && 0 <= mi <= 11 && 1 <= d
    requires 0 <= MonthStart(mi) + d - 1 < MonthStart(mi + 1)
    requires YearStart(y) + MonthStart(mi) + d - 1 < YearStart(y + 1)
    ensures FromDays(YearStart(y) + MonthStart(mi) + d - 1) == Civil(y + (mi + 2) / 12 + 1900, (mi + 2) % 12 + 1, d)
  {
    hide GetDays, FromDays, YearStart;
    var g := YearStart(y) + MonthStart(mi) + d - 1;
    YearStartMonotone(0, y);
    YearStartZero();
    var z, ddd, mj := FromDaysParts(g);
    InYearUnique(g, y, z);
    assert ddd == MonthStart(mi) + d - 1;
    MonthIntervalsDisjoint(mi, mj, ddd);
  }

  lemma YearStartZero()
    ensures YearStart(0) == 0 && YearStart(-1) == -365
  {
  }

  lemma MonthIntervalsDisjoint(mi: int, mj: int, off: int)
    requires 0 <= mi && 0 <= mj
    requires MonthStart(mi) <= off < MonthStart(mi + 1) && MonthStart(mj) <= off < MonthStart(mj + 1)
    ensures mi == mj
  {
  }

  /**
    The leap days of the day numbers: 1900 is not a multiple of 400, so year y of the count is
    long when y - 1900 passes the leap rule.
   */
  lemma CountedLeapYears(y: int)
    ensures Leap(y - 1900) <==> (if y % 400 == 0 then false else if y % 400 == 300 then true else Leap(y))
  {
    CenturiesDivide(y);
    CenturiesDivide(y - 1900);
    Remainder4(y);
    Remainder100(y);
    Remainder400(y);
    Century300(y);
  }

  lemma Remainder4(y: int)
    ensures (y - 1900) % 4 == y % 4
  {
  }

  lemma Remainder100(y: int)
    ensures (y - 1900) % 100 == y % 100
  {
  }

  lemma Remainder400(y: int)
    ensures (y - 1900) % 400 == if y % 400 >= 300 then y % 400 - 300 else y % 400 + 100
  {
  }

  lemma Century300(y: int)
    ensures y % 400 == 300 ==> y % 100 == 0
  {
  }

  /**
    getDateFromDays undoes getDays on every valid date from 1 March 1900 on, except on the leap
    days of years divisible by 400: those come back as 1 March.
   */
  lemma DateRoundTrip(c: Civil)
    requires ValidateDate(c.day, c.month, c.year) && InRange(c)
    ensures FromDays(DaysOf(c)) == if LeapDay(c) && c.year % 400 == 0 then Civil(c.year, 3, 1) else c
  {
    ValidateIsGregorian(c);
    hide GetDays, FromDays, YearStart, MonthStart, Leap, ValidateDate;
    var y, mi := PartsOfDate(c);
    OffsetBounds(c);
    YearLength(y);
    if LeapDay(c) {
      CountedLeapYears(c.year);
      if c.year % 400 == 0 {
        YearLength(y + 1);
        MonthTable(0);
        MonthTable(1);
        FromDaysIs(y + 1, 0, 1);
      } else {
        FromDaysIs(y, mi, 29);
      }
    } else {
      FromDaysIs(y, mi, c.day);
    }
  }

  lemma FourCenturies(q: int)
    requires q >= 0
    ensures YearStart(400 * q) == 146097 * q
  {
    assert 400 * q / 4 == 100 * q && 400 * q / 100 == 4 * q && 400 * q / 400 == q;
  }

  lemma LastDayOfCycle(g: int, q: int)
    requires q >= 0 && g == 146097 * q + 146096
    ensures g % 146097 == 146096
  {
  }

  /** The last day number of every 400-year cycle of the count becomes a 29 February that does not exist. */
  lemma InventedDate(q: int)
    requires q >= 0
    ensures FromDays(146097 * q + 146096) == Civil(400 * q + 2300, 2, 29)
    ensures !ValidateDate(29, 2, 400 * q + 2300)
  {
    hide FromDays, YearStart, MonthStart;
    var y := 400 * q + 399;
    FourCenturies(q + 1);
    CycleEnds(q);
    YearLength(y);
    MonthTable(11);
    MonthTable(12);
    MonthNumber(11);
    FromDaysIs(y, 11, 29);
  }

  lemma CycleEnds(q: int)
    ensures Leap(400 * q + 400) && !Leap(400 * q + 2300)
    ensures (400 * q + 2300) % 400 == 300
  {
    assert 400 * q + 400 == 400 * (q + 1) && 400 * q + 2300 == 400 * (q + 5) + 300;
    CenturiesDivide(400 * q + 400);
    Century300(400 * q + 2300);
  }

  lemma InventedOnlyThen(g: int)
    requires g >= 0 && LeapDay(FromDays(g)) && FromDays(g).year % 400 == 300
    ensures g % 146097 == 146096
  {
    hide FromDays, YearStart, MonthStart;
    var y, ddd, mi := FromDaysParts(g);
    MonthNumber(mi);
    MonthTable(11);
    assert mi == 11 && ddd == 365 && (y + 1901) % 400 == 300;
    var q := (y + 1901) / 400 - 5;
    assert y == 400 * q + 399 && q >= 0;
    FourCenturies(q + 1);
    CycleEnds(q);
    YearLength(y);
    LastDayOfCycle(g, q);
  }

  /**
    getDateFromDays yields a date that validateDate accepts exactly for the day numbers that do not end
    a 400-year cycle of the count; those become 29 February of the years 300 modulo 400.
   */
  lemma FromDaysValid(g: int)
    requires g >= 0
    ensures var c := FromDays(g);
      && InRange(c)
      && (ValidateDate(c.day, c.month, c.year) <==> g % 146097 != 146096)
      && (g % 146097 == 146096 ==> LeapDay(c) && c.year == 400 * (g / 146097) + 2300)
  {
    hide FromDays, YearStart, MonthStart, Leap, ValidateDate;
    FromDaysRefused(g);
    if g % 146097 == 146096 {
      InventedDate(g / 146097);
    } else if LeapDay(FromDays(g)) && FromDays(g).year % 400 == 300 {
      InventedOnlyThen(g);
    }
  }

  lemma FromDaysRefused(g: int)
    requires g >= 0
    ensures var c := FromDays(g);
      && InRange(c)
      && (ValidateDate(c.day, c.month, c.year) <==> !(LeapDay(c) && c.year % 400 == 300))
  {
    hide FromDays, YearStart, MonthStart, Leap, ValidateDate;
    var y, ddd, mi := FromDaysParts(g);
    MonthNumber(mi);
    MonthTable(mi);
    MonthTable(mi + 1);
    var c := FromDays(g);
    ValidateIsGregorian(c);
    if c.month == 2 {
      assert c.year == y + 1901;
      CountedLeapYears(c.year);
      NotLeapCentury(c.year);
    }
  }

  lemma NotLeapCentury(y: int)
    ensures y % 400 == 300 ==> !Leap(y)
    ensures y % 400 == 0 ==> Leap(y)
  {
  }

  lemma NextDayParts(c: Civil)
    requires Gregorian(c) && InRange(c)
    ensures Gregorian(NextDay(c)) && InRange(NextDay(c))
  {
    hide Leap;
  }

  /**
    The day number counts days: the next Gregorian day has the next number, except that the leap
    day of a year divisible by 400 shares its number with 1 March, and that one number is
    skipped after 28 February of the years 300 modulo 400.
   */
  lemma DaysCountDays(c: Civil)
    requires Gregorian(c) && InRange(c)
    ensures DaysOf(NextDay(c)) - DaysOf(c) ==
      if LeapDay(c) && c.year % 400 == 0 then 0
      else if c.month == 2 && c.day == 28 && c.year % 400 == 300 then 2
      else 1
  {
    hide GetDays, YearStart, MonthStart, Leap;
    NextDayParts(c);
    var y, mi := PartsOfDate(c);
    var z, mj := PartsOfDate(NextDay(c));
    MonthTable(mi);
    MonthTable(mj);
    if c.month == 2 {
      YearLength(y);
      CountedLeapYears(c.year);
      NotLeapCentury(c.year);
    }
  }

  // ------------------------------------------------------------------------- weekdays

  /** The sum whose remainder is the weekday. */
  function DaySum(c: Civil): int {
    YearStart(c.year - 1) + c.day + MonthDays(c.month) + if Leap(c.year) && c.month > 2 then 1 else 0
  }

  lemma SumRemainder(a: int, b: int)
    ensures (a % 7 + b) % 7 == (a + b) % 7
    ensures (b - 1) % 7 == (b - 365) % 7
  {
  }

  lemma DayCodeSum(c: Civil)
    requires c.year >= 0 && c.day >= 1 && 1 <= c.month <= 12
    ensures DayCode(c.day, c.month, c.year) == DaySum(c) % 7
  {
    hide Leap, MonthDays, YearStart;
    MonthDaysTable(c.month);
    YearStartZero();
    var start := YearStart(c.year - 1);
    SumRemainder(start, DaySum(c) - start);
    if c.year >= 1 {
      YearStartMonotone(0, c.year - 1);
      assert Rem(start, 7) == start % 7;
    } else {
      assert Rem(start, 7) == -1;
    }
  }

  lemma MonthDaysTable(m: int)
    requires 1 <= m <= 12
    ensures MonthDays(m) ==
      if m == 1 then 0 else if m == 2 then 31 else if m == 3 then 59 else if m == 4 then 90
      else if m == 5 then 120 else if m == 6 then 151 else if m == 7 then 181 else if m == 8 then 212
      else if m == 9 then 243 else if m == 10 then 273 else if m == 11 then 304 else 334
  {
  }

  lemma DaySumAdvances(c: Civil)
    requires Gregorian(c)
    ensures DaySum(NextDay(c)) == DaySum(c) + if c == Civil(0, 12, 31) then 0 else 1
  {
    hide Leap, MonthDays, YearStart;
    MonthDaysTable(c.month);
    MonthDaysTable(NextDay(c).month);
    NotLeapCentury(0);
    YearStartZero();
    if c.year >= 1 {
      YearLength(c.year - 1);
    }
  }

  /** The next day has the next weekday, on every valid date but one: 31 December of year 0. */
  lemma WeekdayAdvances(c: Civil)
    requires ValidateDate(c.day, c.month, c.year)
    ensures var n := NextDay(c);
      DayCode(n.day, n.month, n.year) == (DayCode(c.day, c.month, c.year) + 1) % 7
      <==> c != Civil(0, 12, 31)
  {
    hide DayCode, DaySum, Leap, ValidateDate;
    ValidateIsGregorian(c);
    DaySumAdvances(c);
    DayCodeSum(c);
    DayCodeSum(NextDay(c));
  }

  lemma YearStartShift(y: int)
    requires y >= 1900
    ensures YearStart(y) == YearStart(y - 1900) + 693960 + if y % 400 < 300 then 1 else 0
  {
    var a, r := y / 400, y % 400;
    assert (y - 1900) / 400 == a - 5 + (r + 100) / 400;
    assert (y - 1900) / 100 == y / 100 - 19 && (y - 1900) / 4 == y / 4 - 475;
  }

  lemma DaySumOfDayNumber(c: Civil)
    requires Gregorian(c) && InRange(c)
    ensures DaySum(c) == DaysOf(c) + 693655 + if MarchYear(c) % 400 < 300 then 1 else 0
  {
    hide YearStart, MonthDays, MonthStart, Leap, GetDays;
    var y, mi := PartsOfDate(c);
    MonthTable(mi);
    MonthDaysTable(c.month);
    YearLength(c.year - 1);
    YearStartShift(MarchYear(c));
  }

  /**
    The weekday and the day number agree up to the leap days the day number miscounts: they
    differ by one in the three centuries after each 29 February of a year divisible by 400.
   */
  lemma WeekdayOfDayNumber(c: Civil)
    requires ValidateDate(c.day, c.month, c.year) && InRange(c)
    ensures DayCode(c.day, c.month, c.year) ==
      (DaysOf(c) + 4 + (if MarchYear(c) % 400 < 300 then 1 else 0)) % 7
  {
    hide DayCode, DaySum, DaysOf, Leap, ValidateDate;
    ValidateIsGregorian(c);
    DaySumOfDayNumber(c);
    DayCodeSum(c);
  }

  /** In particular the plain formula holds exactly in the March-based years 300 to 399 modulo 400. */
  lemma WeekdayPlainFormula(c: Civil)
    requires ValidateDate(c.day, c.month, c.year) && InRange(c)
    ensures DayCode(c.day, c.month, c.year) == (DaysOf(c) + 4) % 7 <==> MarchYear(c) % 400 >= 300
  {
    hide DayCode, DaysOf, ValidateDate;
    WeekdayOfDayNumber(c);
  }

  // -------------------------------------------------------------------- time of day

  datatype Moment = Moment(date: Civil, hh: int, mi: int, ss: int)

  function GetHours(y: int, m: int, d: int, hh: int): int {
    (GetDays(y, m, d) + Quot(hh, 24)) * 24 + Rem(hh, 24)
  }

  function GetMinutes(y: int, m: int, d: int, hh: int, mi: int): int {
    (GetHours(y, m, d, hh) + Quot(mi, 60)) * 60 + Rem(mi, 60)
  }

  function GetSeconds(y: int, m: int, d: int, hh: int, mi: int, ss: int): int {
    (GetMinutes(y, m, d, hh, mi) + Quot(ss, 60)) * 60 + Rem(ss, 60)
  }

  function SecondsOf(t: Moment): int {
    GetSeconds(t.date.year, t.date.month, t.date.day, t.hh, t.mi, t.ss)
  }

  /** addDays: the month is split into years and a remainder before the day number is taken. */
  function AddDays(c: Civil, days: int): Civil {
    FromDays(GetDays(c.year + Quot(c.month, 12), Rem(c.month, 12), c.day + days))
  }

  function AddMonths(c: Civil, months: int): Civil {
    FromDays(GetDays(c.year + Quot(c.month + months, 12), Rem(c.month + months, 12), c.day))
  }

  /** addSeconds with the calls of addMinutes, addHours and addDays it makes. */
  function AddSeconds(t: Moment, seconds: int): Moment {
    var minutes := t.mi + Quot(t.ss + seconds, 60);
    var hours := t.hh + Quot(minutes, 60);
    Moment(AddDays(t.date, Quot(hours, 24)), Rem(hours, 24), Rem(minutes, 60), Rem(t.ss + seconds, 60))
  }

  lemma SecondsOfSum(t: Moment)
    ensures SecondsOf(t) == ((DaysOf(t.date) * 24 + t.hh) * 60 + t.mi) * 60 + t.ss
  {
    hide GetDays;
  }

  lemma DaysLinear(y: int, m: int, d: int, n: int)
    ensures GetDays(y, m, d + n) == GetDays(y, m, d) + n
    ensures GetDays(y, 0, d) == GetDays(y, 12, d)
  {
    hide YearStart, MonthStart;
  }

  lemma DaysInRange(c: Civil)
    requires 1 <= c.month <= 12 && c.day >= 1 && InRange(c)
    ensures DaysOf(c) >= 0
  {
    hide GetDays, YearStart, MonthStart;
    MonthOfCivil(c.month);
    MonthTable(MarchMonth(c.month));
    var y, mi := MarchYear(c) - 1900, MarchMonth(c.month);
    DaysOfParts(y, mi, c.day);
    YearStartMonotone(0, y);
    YearStartZero();
  }

  /** A December date is moved one year ahead before anything is added to it. */
  function YearSlip(c: Civil): Civil {
    if c.month == 12 then c.(year := c.year + 1) else c
  }

  lemma AddDaysNatural(c: Civil, n: int)
    requires 1 <= c.month <= 12 && c.day >= 1 && InRange(c) && n >= 0
    ensures GetDays(c.year + c.month / 12, c.month % 12, c.day + n) == DaysOf(YearSlip(c)) + n >= 0
  {
    hide GetDays;
    var s := YearSlip(c);
    DaysLinear(s.year, s.month, c.day, n);
    DaysLinear(s.year, 12, c.day + n, 0);
    DaysInRange(s);
  }

  /** addDays adds to the day number of the start, or of the same day a year later for a start in December. */
  lemma AddDaysLinear(c: Civil, n: int)
    requires 1 <= c.month <= 12 && c.day >= 1 && InRange(c) && n >= 0
    ensures DaysOf(AddDays(c, n)) == DaysOf(YearSlip(c)) + n
  {
    hide GetDays, FromDays;
    AddDaysNatural(c, n);
    DaysRoundTrip(DaysOf(YearSlip(c)) + n);
  }

  lemma YearSlipGap(c: Civil)
    requires c.month == 12 && InRange(c)
    ensures DaysOf(YearSlip(c)) >= DaysOf(c) + 365
  {
    hide GetDays, YearStart, MonthStart, Leap;
    MonthNumber(9);
    DaysOfParts(c.year - 1900, 9, c.day);
    DaysOfParts(c.year - 1899, 9, c.day);
    YearLength(c.year - 1900);
  }

  lemma Carry(hh: int, mi: int, ss: int)
    ensures var h := hh + (mi + ss / 60) / 60;
      ((h / 24 * 24 + h % 24) * 60 + (mi + ss / 60) % 60) * 60 + ss % 60 == (hh * 60 + mi) * 60 + ss
  {
  }

  /**
    addSeconds adds the seconds to what getSeconds computes, with hour, minute and second normalised,
    exactly outside December; a start in December is first moved to the same day of the next year.
    What getSeconds computes is not always the calendar's count: see the module DateAdditions.
   */
  lemma AddSecondsLinear(t: Moment, n: int)
    requires 1 <= t.date.month <= 12 && t.date.day >= 1 && InRange(t.date)
    requires t.hh >= 0 && t.mi >= 0 && t.ss >= 0 && n >= 0
    ensures var r := AddSeconds(t, n);
      && 0 <= r.hh < 24 && 0 <= r.mi < 60 && 0 <= r.ss < 60
      && SecondsOf(r) == SecondsOf(t.(date := YearSlip(t.date))) + n
      && (SecondsOf(r) == SecondsOf(t) + n <==> t.date.month != 12)
  {
    hide DaysOf, AddDays, SecondsOf;
    var r := AddSeconds(t, n);
    var hours := t.hh + (t.mi + (t.ss + n) / 60) / 60;
    AddDaysLinear(t.date, hours / 24);
    SecondsOfSum(r);
    SecondsOfSum(t);
    SecondsOfSum(t.(date := YearSlip(t.date)));
    Carry(t.hh, t.mi, t.ss + n);
    if t.date.month == 12 {
      YearSlipGap(t.date);
    }
  }

  /** The month `n` months after that of the date. */
  function MonthsLater(c: Civil, n: int): Civil
    requires n >= 0 && c.month >= 1
  {
    Civil(c.year + (c.month - 1 + n) / 12, (c.month - 1 + n) % 12 + 1, c.day)
  }

  /** How long the day numbers take a month to be: their leap years are those of 1900 plus a leap year. */
  function CountedLength(y: int, m: int): int
    requires 1 <= m <= 12
  {
    if m == 2 then (if Leap(y - 1900) then 29 else 28) else MonthLength(y, m)
  }

  /** Where a day number lands that was made of a month and a day up to 31. */
  lemma DayOfMonthLands(y: int, m: int, d: int)
    requires 1 <= m <= 12 && 1 <= d <= 31 && InRange(Civil(y, m, d))
    ensures FromDays(GetDays(y, m, d)) ==
            var len := CountedLength(y, m); if d <= len then Civil(y, m, d) else Civil(y, m + 1, d - len)
  {
    hide GetDays, FromDays, YearStart, MonthStart, Leap;
    var c := Civil(y, m, d);
    var z, mi := MarchYear(c) - 1900, MarchMonth(m);
    MonthOfCivil(m);
    DaysOfParts(z, mi, d);
    YearLength(z);
    MonthTable(mi);
    MonthTable(mi + 1);
    var len := CountedLength(y, m);
    if d <= len {
      FromDaysIs(z, mi, d);
    } else if mi < 11 {
      MonthTable(mi + 2);
      MonthNumber(mi + 1);
      FromDaysIs(z, mi + 1, d - len);
    } else {
      YearLength(z + 1);
      MonthTable(0);
      MonthTable(1);
      FromDaysIs(z + 1, 0, d - len);
    }
  }

  /**
    addMonths keeps the day and lands in the right month exactly when that month is not December and,
    by the leap years of the day numbers, has the day. A December is one year late; a day that is
    missing runs over into the next month.
   */
  lemma AddMonthsLands(c: Civil, n: int)
    requires Gregorian(c) && InRange(c) && n >= 0
    ensures var r, t := MonthsLater(c, n), AddMonths(c, n);
      && 1 <= r.month <= 12
      && (t == r <==> r.month != 12 && r.day <= CountedLength(r.year, r.month))
      && t == if r.month == 12 then YearSlip(r)
              else if r.day <= CountedLength(r.year, r.month) then r
              else Civil(r.year, r.month + 1, r.day - CountedLength(r.year, r.month))
  {
    hide GetDays, FromDays, ValidateDate, Leap, MonthLength;
    var r := MonthsLater(c, n);
    MonthsAsParts(c, n);
    MonthLengthBound(c.year, c.month);
    MonthLengthBound(r.year + 1, 12);
    var s := if r.month == 12 then YearSlip(r) else r;
    DaysLinear(s.year, 12, c.day, 0);
    DayOfMonthLands(s.year, s.month, c.day);
  }

  lemma MonthLengthBound(y: int, m: int)
    requires 1 <= m <= 12
    ensures MonthLength(y, m) <= 31 && MonthLength(y, 12) == 31
  {
  }

  lemma TwelveSteps(k: int)
    requires k >= 0
    ensures (k + 1) / 12 == k / 12 + (if k % 12 == 11 then 1 else 0)
    ensures (k + 1) % 12 == (if k % 12 == 11 then 0 else k % 12 + 1)
    ensures k / 12 == 0 ==> k % 12 == k
  {
  }

  lemma MonthsAsParts(c: Civil, n: int)
    requires c.month >= 1 && n >= 0
    ensures var r := MonthsLater(c, n);
      && 1 <= r.month <= 12 && r.year >= c.year && (r.year == c.year ==> r.month >= c.month || c.month > 12)
      && Rem(c.month + n, 12) == (if r.month == 12 then 0 else r.month)
      && Quot(c.month + n, 12) == r.year - c.year + if r.month == 12 then 1 else 0
  {
    TwelveSteps(c.month - 1 + n);
  }

  /** 31 January 2001 and a month is 3 March. */
  lemma AddMonthsRunsOver()
    ensures AddMonths(Civil(2001, 1, 31), 1) == Civil(2001, 3, 3)
  {
    hide GetDays, FromDays;
    AddMonthsLands(Civil(2001, 1, 31), 1);
  }
}
