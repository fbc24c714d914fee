/** Decimal printing and reading as CastUtil.h does them: a string stream one way, strtol the other way. */
module CastUtil {
  import opened Wrappers

  const CONVERSION_ERROR := "Conversion exception - string to int"

  predicate IsDigit(c: char) {
    '0' <= c <= '9'
  }

  function DigitOf(d: int): (c: char)
    requires 0 <= d < 10
    ensures IsDigit(c)
  {
    '0' + d as char
  }

  function DigitValue(c: char): (d: nat)
    requires IsDigit(c)
    ensures d < 10
  {
    (c - '0') as int
  }

  function Decimal(n: nat): (s: string)
    ensures |s| >= 1 && forall c :: c in s ==> IsDigit(c)
  {
    if n < 10 then [DigitOf(n)] else Decimal(n / 10) + [DigitOf(n % 10)]
  }

  /** lexical_cast<string>(int). */
  function Show(n: int): string {
    if n < 0 then "-" + Decimal(-n) else Decimal(n)
  }

  /** The setters of Date put one zero in front of anything up to nine. */
  function Padded(n: int): string {
    (if n <= 9 then "0" else "") + Show(n)
  }

  function ValueOf(s: string): nat
    requires forall c :: c in s ==> IsDigit(c)
  {
    if s == "" then 0 else 10 * ValueOf(s[..|s| - 1]) + DigitValue(s[|s| - 1])
  }

  /** The part of a string that a C function sees. */
  function CString(s: string): string {
    if s == "" || s[0] == '\0' then "" else [s[0]] + CString(s[1..])
  }

  predicate IsSpace(c: char) {
    c == ' ' || '\t' <= c <= '\r'
  }

  function SkipSpaces(s: string): string {
    if s != "" && IsSpace(s[0]) then SkipSpaces(s[1..]) else s
  }

  function ReadDigits(s: string): Result<int> {
    if s != "" && forall c :: c in s ==> IsDigit(c) then Ok(ValueOf(s)) else Thrown(CONVERSION_ERROR)
  }

  /**
    lexical_cast<int>(string): strtol in base ten, refused when it stops before the end of the
    C string. An empty string is read as zero. Overflow is not modelled.
   */
  function ReadInt(s: string): Result<int> {
    var t := CString(s);
    var u := SkipSpaces(t);
    if t == "" then Ok(0)
    else if u != "" && u[0] == '-' then
      match ReadDigits(u[1..])
      case Ok(n) => Ok(-n)
      case Thrown(m) => Thrown(m)
    else if u != "" && u[0] == '+' then ReadDigits(u[1..])
    else ReadDigits(u)
  }

  lemma {:induction false} CStringOfText(s: string)
    requires '\0' !in s
    ensures CString(s) == s
  {
    if s != "" {
      assert s[0] in s;
      CStringOfText(s[1..]);
    }
  }

  lemma {:induction false} ValueOfDecimal(n: nat)
    ensures ValueOf(Decimal(n)) == n
  {
    if n >= 10 {
      ValueOfDecimal(n / 10);
      var s := Decimal(n);
      assert s[..|s| - 1] == Decimal(n / 10);
    }
  }

  lemma {:induction false} ValueOfLeadingZero(s: string)
    requires forall c :: c in s ==> IsDigit(c)
    ensures ValueOf("0" + s) == ValueOf(s)
  {
    if s == "" {
      assert "0" + s == "0";
    } else {
      ValueOfLeadingZero(s[..|s| - 1]);
      assert ("0" + s)[..|s|] == "0" + s[..|s| - 1];
    }
  }

  lemma ReadDigitString(s: string)
    requires s != "" && forall c :: c in s ==> IsDigit(c)
    ensures ReadInt(s) == Ok(ValueOf(s))
  {
    CStringOfText(s);
    assert s[0] in s;
  }

  /** Reading undoes printing, for every integer. */
  lemma ReadShow(n: int)
    ensures ReadInt(Show(n)) == Ok(n)
  {
    hide CString, ValueOf, Decimal, ReadInt;
    if n < 0 {
      ReadNegative(Decimal(-n));
      ValueOfDecimal(-n);
    } else {
      ReadDigitString(Decimal(n));
      ValueOfDecimal(n);
    }
  }

  lemma ReadNegative(s: string)
    requires s != "" && forall c :: c in s ==> IsDigit(c)
    ensures ReadInt("-" + s) == Result<int>.Ok(-(ValueOf(s) as int))
  {
    CStringOfText("-" + s);
    assert ("-" + s)[1..] == s;
  }

  lemma ReadZeroMinus(s: string)
    requires s != "" && forall c :: c in s ==> IsDigit(c)
    ensures ReadInt("0" + ("-" + s)) == Thrown(CONVERSION_ERROR)
  {
    var t := "0" + ("-" + s);
    assert t[1] == '-' && t[1] in t && t[0] in t;
    CStringOfText(t);
  }

  /** Reading undoes the zero-padded printing of the Date setters exactly for non-negative numbers. */
  lemma ReadPadded(n: int)
    ensures ReadInt(Padded(n)) == if n >= 0 then Ok(n) else Thrown(CONVERSION_ERROR)
  {
    hide CString, ValueOf, Decimal, ReadInt;
    if n < 0 {
      ReadZeroMinus(Decimal(-n));
    } else {
      var s := Decimal(n);
      ReadDigitString(s);
      ReadDigitString("0" + s);
      ValueOfDecimal(n);
      ValueOfLeadingZero(s);
      assert "" + s == s;
    }
  }

  /** Two digits up to 99, four digits from 1000 to 9999: the widths the date patterns rely on. */
  lemma PaddedWidth(n: nat)
    ensures forall c :: c in Padded(n) ==> IsDigit(c)
    ensures n < 100 ==> |Padded(n)| == 2
    ensures 1000 <= n < 10000 ==> |Padded(n)| == 4
  {
    if 1000 <= n < 10000 {
      assert |Decimal(n / 1000)| == 1;
      assert |Decimal(n / 100)| == 2;
      assert |Decimal(n / 10)| == 3;
    } else if 10 <= n < 100 {
      assert |Decimal(n / 10)| == 1;
    }
  }

  // ------------------------------------------------------------------ which texts are numbers

  predicate Blank(s: string) {
    forall c :: c in s ==> IsSpace(c)
  }

  /** Blanks, an optional sign and at least one digit. */
  predicate IsNumber(blanks: string, sign: string, digits: string) {
    && Blank(blanks) && (sign == "" || sign == "+" || sign == "-")
    && digits != "" && forall c :: c in digits ==> IsDigit(c)
  }

  lemma {:induction false} SkipsBlanks(blanks: string, s: string)
    requires Blank(blanks) && (s == "" || !IsSpace(s[0]))
    ensures SkipSpaces(blanks + s) == s
  {
    if blanks == "" {
      assert blanks + s == s;
    } else {
      assert blanks[0] in blanks && (blanks + s)[1..] == blanks[1..] + s;
      SkipsBlanks(blanks[1..], s);
    }
  }

  /** Every such text is read as the number it shows. */
  lemma NumbersAreRead(blanks: string, sign: string, digits: string)
    requires IsNumber(blanks, sign, digits)
    ensures var n := ValueOf(digits) as int;
      ReadInt(blanks + (sign + digits)) == Ok(if sign == "-" then -n else n)
  {
    hide CString, ValueOf;
    var s := blanks + (sign + digits);
    assert digits[0] in digits;
    assert (sign + digits)[0] == if sign == "" then digits[0] else sign[0];
    forall c | c in s ensures c != '\0' {
      assert c in blanks || c in sign || c in digits;
    }
    CStringOfText(s);
    SkipsBlanks(blanks, sign + digits);
    if sign != "" {
      assert (sign + digits)[1..] == digits;
    } else {
      assert sign + digits == digits;
    }
  }

  lemma {:induction false} BlanksSkipped(s: string) returns (blanks: string)
    ensures Blank(blanks) && s == blanks + SkipSpaces(s)
  {
    blanks := "";
    if s != "" && IsSpace(s[0]) {
      var more := BlanksSkipped(s[1..]);
      blanks := [s[0]] + more;
      assert s == [s[0]] + s[1..];
    }
  }

  /** Nothing else is read but a text that is empty up to its first NUL, which counts as zero. */
  lemma OnlyNumbersAreRead(s: string) returns (blanks: string, sign: string, digits: string)
    ensures CString(s) == "" ==> ReadInt(s) == Ok(0)
    ensures ReadInt(s).Ok? && CString(s) != "" ==>
      IsNumber(blanks, sign, digits) && CString(s) == blanks + (sign + digits)
  {
    hide CString, ValueOf;
    blanks := BlanksSkipped(CString(s));
    var u := SkipSpaces(CString(s));
    sign := if u != "" && (u[0] == '-' || u[0] == '+') then [u[0]] else "";
    digits := u[|sign|..];
    assert u == sign + digits;
    assert sign == "" ==> digits == u;
  }
}
