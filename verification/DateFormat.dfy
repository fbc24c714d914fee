/** DateFormat: a date is printed by replacing field tokens in the format, and read back by position. */
module DateFormats {
  import opened Wrappers
  import opened StringUtil
  import opened CastUtil
  import opened Calendar
  import opened Dates

  const NO_MONTH := "Invalid Date month specified"
  const NO_YEAR := "Invalid Date year specified"
  const BAD_TIMEZONE := "Invalid Timezone specified"

  /** The text that ten successive replaceAll calls leave. */
  function Substituted(spec: string, d: Fields): string
    requires |d.year| >= 2
  {
    var t1 := Replaced(spec, "hh", d.hh);
    var t2 := Replaced(t1, "mi", d.mm);
    var t3 := Replaced(t2, "ss", d.ss);
    var t4 := Replaced(t3, "ns", Show(d.nanoseconds));
    var t5 := Replaced(t4, "ddd", d.dayw);
    var t6 := Replaced(t5, "dd", d.day);
    var t7 := Replaced(t6, "mmm", d.monthw);
    var t8 := Replaced(t7, "mm", d.month);
    var t9 := Replaced(t8, "yyyy", d.year);
    Replaced(t9, "yy", d.year[2..])
  }

  /** DateFormat::format. How a float is printed is a parameter. */
  function Formatted(spec: string, d: Fields, showOffset: real -> string): Result<string> {
    if |d.year| < 2 then Thrown(OUT_OF_RANGE)
    else
      var text := Substituted(spec, d);
      if d.timeZoneOffset > 0.0 then Ok(text + "+" + showOffset(d.timeZoneOffset))
      else if d.timeZoneOffset < 0.0 then Ok(text + "-" + showOffset(d.timeZoneOffset))
      else Ok(text)
  }

  /** std::string::substr. */
  function Cut(s: string, pos: nat, len: nat): Result<string> {
    if pos > |s| then Thrown(OUT_OF_RANGE)
    else if pos + len <= |s| then Ok(s[pos..pos + len]) else Ok(s[pos..])
  }

  /** The characters of `s` where the token stands in the format; empty when it does not. */
  function Pick(spec: string, token: string, from: nat, s: string, len: nat): Result<string> {
    match Find(spec, token, from)
    case None => Ok("")
    case Some(i) => Cut(s, i, len)
  }

  /** A position plus `n`, where npos is the largest size_t and the sum wraps around. */
  function After(o: Option<nat>, n: nat): nat
    requires n >= 1
  {
    match o
    case None => n - 1
    case Some(i) => i + n
  }

  function PickTimezone(spec: string, s: string): Result<string> {
    if Contains(s, "+") then
      var pos := After(Find(spec, "+", 0), 1);
      if pos > |s| then Thrown(OUT_OF_RANGE) else Ok(s[pos..])
    else if Contains(s, "-") then
      match Find(spec, "-", 0)
      case None => Thrown(OUT_OF_RANGE)
      case Some(i) => if i > |s| then Thrown(OUT_OF_RANGE) else Ok(s[i..])
    else Ok("")
  }

  function MakeDate(year: string, mmm: string, mm: string, dd: string, now: Fields): Result<Fields> {
    if mmm != "" then
      var y :- ReadInt(year);
      var d :- ReadInt(dd);
      OfYmd3(now, y, mmm, d)
    else if mm != "" then
      var y :- ReadInt(year);
      var m :- ReadInt(mm);
      var d :- ReadInt(dd);
      OfYmd(now, y, m, d)
    else Thrown(NO_MONTH)
  }

  function WithTimezone(f: Fields, tzv: string, readOffset: string -> Option<real>): Result<Fields> {
    if tzv == "" then Ok(f)
    else
      match readOffset(tzv)
      case None => Thrown(BAD_TIMEZONE)
      case Some(v) => Ok(f.(timeZoneOffset := v))
  }

  /** The texts parse has cut out of the date when it starts to convert them. */
  datatype Picks = Picks(
    yyyy: string, yy: string, dd: string, mmm: string, mm: string, hh: string, mi: string, ss: string, tzv: string)

  function Picked(spec: string, s: string): Result<Picks> {
    var yyyy :- Pick(spec, "yyyy", 0, s, 4);
    var yy :- if Contains(spec, "yyyy") then Ok("") else Pick(spec, "yy", 0, s, 2);
    var ddd :- Pick(spec, "ddd", 0, s, 3);
    var dd :- Pick(spec, "dd", After(Find(spec, "ddd", 0), 3), s, 2);
    var mmm :- Pick(spec, "mmm", 0, s, 3);
    var mm :- if Contains(spec, "mmm") then Ok("") else Pick(spec, "mm", 0, s, 2);
    var hh :- Pick(spec, "hh", 0, s, 2);
    var mi :- Pick(spec, "mi", 0, s, 2);
    var ss :- Pick(spec, "ss", 0, s, 2);
    var tzv :- PickTimezone(spec, s);
    Ok(Picks(yyyy, yy, dd, mmm, mm, hh, mi, ss, tzv))
  }

  function FromPicks(p: Picks, now: Fields, readOffset: string -> Option<real>): Result<Fields> {
    var made :-
      if p.yyyy != "" then MakeDate(p.yyyy, p.mmm, p.mm, p.dd, now)
      else if p.yy != "" then MakeDate(p.yy, p.mmm, p.mm, p.dd, now)
      else Thrown(NO_YEAR);
    var date :- WithTimezone(made, p.tzv, readOffset);
    var h :- ReadInt(p.hh);
    var m :- ReadInt(p.mi);
    var s :- ReadInt(p.ss);
    WithTime(date, h, m, s)
  }

  /** DateFormat::parse. How a float is read is a parameter. */
  function Parsed(spec: string, s: string, now: Fields, readOffset: string -> Option<real>): Result<Fields> {
    var p :- Picked(spec, s);
    FromPicks(p, now, readOffset)
  }

  class DateFormat {
    const formatspec: string
    const showOffset: real -> string
    const readOffset: string -> Option<real>

    constructor (format: string, showOffset: real -> string, readOffset: string -> Option<real>)
      ensures this.formatspec == format && this.showOffset == showOffset && this.readOffset == readOffset
    {
      this.formatspec := format;
      this.showOffset := showOffset;
      this.readOffset := readOffset;
    }

    method Format(date: Date) returns (r: Result<string>)
      ensures r == Formatted(formatspec, date.Value(), showOffset)
    {
      hide Replaced, Show;
      var temp := formatspec;
      temp := ReplaceAll(temp, "hh", date.hh);
      temp := ReplaceAll(temp, "mi", date.mm);
      temp := ReplaceAll(temp, "ss", date.ss);
      temp := ReplaceAll(temp, "ns", Show(date.nanoseconds));
      temp := ReplaceAll(temp, "ddd", date.dayw);
      temp := ReplaceAll(temp, "dd", date.day);
      temp := ReplaceAll(temp, "mmm", date.monthw);
      temp := ReplaceAll(temp, "mm", date.month);
      temp := ReplaceAll(temp, "yyyy", date.year);
      if |date.year| < 2 {
        return Thrown(OUT_OF_RANGE);
      }
      temp := ReplaceAll(temp, "yy", date.year[2..]);
      if date.timeZoneOffset > 0.0 {
        temp := temp + "+" + showOffset(date.timeZoneOffset);
      } else if date.timeZoneOffset < 0.0 {
        temp := temp + "-" + showOffset(date.timeZoneOffset);
      }
      return Ok(temp);
    }

    method Parse(strdate: string, now: Fields) returns (r: Result<Date>)
      ensures match Parsed(formatspec, strdate, now, readOffset)
        case Ok(f) => r.Ok? && fresh(r.value) && r.value.Value() == f
        case Thrown(e) => r == Thrown(e)
    {
      hide Picked, ReadInt, MakeDate;
      var p :- CutOut(strdate);
      if p.yyyy == "" && p.yy == "" {
        return Thrown(NO_YEAR);
      }
      var date :- Construct(if p.yyyy != "" then p.yyyy else p.yy, p.mmm, p.mm, p.dd, now);
      if p.tzv != "" {
        var offset := readOffset(p.tzv);
        if offset.None? {
          return Thrown(BAD_TIMEZONE);
        }
        date.timeZoneOffset := offset.value;
      }
      var h :- ReadInt(p.hh);
      var m :- ReadInt(p.mi);
      var s :- ReadInt(p.ss);
      var _ :- date.SetTime(h, m, s);
      return Ok(date);
    }

    /** The part of parse that cuts the texts of the fields out of the date. */
    method CutOut(strdate: string) returns (r: Result<Picks>)
      ensures r == Picked(formatspec, strdate)
    {
      hide Pick, PickTimezone, Find, Contains;
      var yyyy :- Pick(formatspec, "yyyy", 0, strdate, 4);
      var yy := "";
      if !Contains(formatspec, "yyyy") {
        yy :- Pick(formatspec, "yy", 0, strdate, 2);
      }
      var ddd :- Pick(formatspec, "ddd", 0, strdate, 3);
      var dd :- Pick(formatspec, "dd", After(Find(formatspec, "ddd", 0), 3), strdate, 2);
      var mmm :- Pick(formatspec, "mmm", 0, strdate, 3);
      var mm := "";
      if !Contains(formatspec, "mmm") {
        mm :- Pick(formatspec, "mm", 0, strdate, 2);
      }
      var hh :- Pick(formatspec, "hh", 0, strdate, 2);
      var mi :- Pick(formatspec, "mi", 0, strdate, 2);
      var ss :- Pick(formatspec, "ss", 0, strdate, 2);
      var tzv :- PickTimezone(formatspec, strdate);
      return Ok(Picks(yyyy, yy, dd, mmm, mm, hh, mi, ss, tzv));
    }

    /** The choice of constructor in parse. */
    static method Construct(year: string, mmm: string, mm: string, dd: string, now: Fields) returns (r: Result<Date>)
      ensures match MakeDate(year, mmm, mm, dd, now)
        case Ok(f) => r.Ok? && fresh(r.value) && r.value.Value() == f
        case Thrown(e) => r == Thrown(e)
    {
      hide ReadInt, GetMon, ValidateDate, OfDays, GetDays, OfYmd;
      if mmm != "" {
        var y :- ReadInt(year);
        var d :- ReadInt(dd);
        var digits := GetMon(mmm);
        if digits == "-1" {
          return Thrown(INVALID_MONTH);
        }
        var m :- ReadInt(digits);
        r := Date.Make(now, y, m, d);
      } else if mm != "" {
        var y :- ReadInt(year);
        var m :- ReadInt(mm);
        var d :- ReadInt(dd);
        r := Date.Make(now, y, m, d);
      } else {
        r := Thrown(NO_MONTH);
      }
    }
  }
}
