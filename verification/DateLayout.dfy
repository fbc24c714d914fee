/**
  Date formats as a sequence of field tokens set apart by symbols, and the proof that the ten
  replacements of format substitute every field at its own place.
 */
module DateLayouts {
  import opened Wrappers
  import opened StringUtil
  import opened CastUtil
  import opened Dates
  import opened DateFormats

  datatype Field = Year | MonthNumber | MonthName | Day | DayName | Hour | Minute | Second

  /** A field and the symbols after it. */
  datatype Part = Part(field: Field, sep: string)

  datatype Layout = Layout(lead: string, parts: seq<Part>)

  /** One text for each field. */
  datatype Texts = Texts(
    year: string, mm: string, mmm: string, dd: string, ddd: string, hh: string, mi: string, ss: string)
  {
    function Of(f: Field): string {
      match f
      case Year => year
      case MonthNumber => mm
      case MonthName => mmm
      case Day => dd
      case DayName => ddd
      case Hour => hh
      case Minute => mi
      case Second => ss
    }
  }

  const TOKENS := Texts("yyyy", "mm", "mmm", "dd", "ddd", "hh", "mi", "ss")

  function Shown(d: Fields): Texts {
    Texts(d.year, d.month, d.monthw, d.day, d.dayw, d.hh, d.mm, d.ss)
  }

  function Render(parts: seq<Part>, t: Texts): string {
    if parts == [] then "" else t.Of(parts[0].field) + parts[0].sep + Render(parts[1..], t)
  }

  function SpecOf(l: Layout): string {
    l.lead + Render(l.parts, TOKENS)
  }

  predicate Letter(c: char) {
    'a' <= c <= 'z' || 'A' <= c <= 'Z'
  }

  /** No letters and no digits. */
  predicate Symbols(s: string) {
    forall k :: 0 <= k < |s| ==> !Letter(s[k]) && !IsDigit(s[k])
  }

  predicate Has(parts: seq<Part>, f: Field) {
    exists k :: 0 <= k < |parts| && parts[k].field == f
  }

  /** The symbols between two fields are not empty. */
  predicate Separated(parts: seq<Part>) {
    && (forall k :: 0 <= k < |parts| ==> Symbols(parts[k].sep))
    && (forall k :: 0 <= k < |parts| - 1 ==> parts[k].sep != "")
  }

  predicate OncePerField(parts: seq<Part>) {
    forall i, j :: 0 <= i < j < |parts| ==> parts[i].field != parts[j].field
  }

  predicate WellFormed(l: Layout) {
    && Symbols(l.lead) && Separated(l.parts) && OncePerField(l.parts)
    && Has(l.parts, Year) && Has(l.parts, Day) && Has(l.parts, Hour) && Has(l.parts, Minute) && Has(l.parts, Second)
    && (Has(l.parts, MonthNumber) <==> !Has(l.parts, MonthName))
  }

  /** Where the token of a field starts in the rendered parts. */
  function Offset(parts: seq<Part>, f: Field): Option<nat> {
    if parts == [] then None
    else if parts[0].field == f then Some(0)
    else Shifted(Offset(parts[1..], f), |TOKENS.Of(parts[0].field)| + |parts[0].sep|)
  }

  /**
    parse looks for the day behind the day name; without a day name the search starts at offset
    two, where npos + 3 wraps around to.
   */
  predicate DayIsFound(l: Layout)
    requires WellFormed(l)
  {
    OffsetOfField(l.parts, Day);
    var dd := Offset(l.parts, Day).value;
    if Has(l.parts, DayName) then
      OffsetOfField(l.parts, DayName);
      Offset(l.parts, DayName).value < dd
    else |l.lead| + dd >= 2
  }

  lemma {:induction false} OffsetOfField(parts: seq<Part>, f: Field)
    ensures Offset(parts, f).Some? <==> Has(parts, f)
  {
    if parts != [] {
      OffsetOfField(parts[1..], f);
      if Has(parts, f) && parts[0].field != f {
        var k :| 0 <= k < |parts| && parts[k].field == f;
        assert parts[1..][k - 1].field == f;
      }
    }
  }

  // ------------------------------------------------- one replaceAll over a rendered layout

  predicate Lowercase(p: string) {
    p != "" && forall k :: 0 <= k < |p| ==> 'a' <= p[k] <= 'z'
  }

  lemma SymbolsAreClean(sep: string, p: string)
    requires Symbols(sep) && Lowercase(p)
    ensures !Contains(sep, p)
    ensures sep != "" ==> sep[0] !in p && sep[|sep| - 1] !in p
  {
    assert p[0] in p && p[0] !in sep;
    NotContained(sep, p, p[0]);
  }

  lemma TailParts(parts: seq<Part>)
    requires parts != [] && Separated(parts)
    ensures Separated(parts[1..]) && (parts[0].sep == "" ==> parts[1..] == [])
  {
  }

  /** Both seams of `x + sep + rest` keep occurrences of a lowercase pattern apart. */
  lemma PartSeams(x: string, sep: string, rest: string, p: string)
    requires Symbols(sep) && Lowercase(p) && (sep == "" ==> rest == "")
    ensures NoStraddle(x, sep + rest, p) && NoStraddle(sep, rest, p)
  {
    SymbolsAreClean(sep, p);
    if sep != "" {
      assert (sep + rest)[0] == sep[0];
    }
    SeamSeparates(x, sep + rest, p);
    SeamSeparates(sep, rest, p);
  }

  function ReplaceText(x: string, p: string, w: string): string {
    if x == p then w else x
  }

  function ReplaceTexts(t: Texts, p: string, w: string): Texts {
    Texts(ReplaceText(t.year, p, w), ReplaceText(t.mm, p, w), ReplaceText(t.mmm, p, w), ReplaceText(t.dd, p, w),
      ReplaceText(t.ddd, p, w), ReplaceText(t.hh, p, w), ReplaceText(t.mi, p, w), ReplaceText(t.ss, p, w))
  }

  /** Each text is the pattern or does not contain it. */
  predicate AllOrNothing(t: Texts, p: string) {
    forall f: Field :: t.Of(f) == p || !Contains(t.Of(f), p)
  }

  lemma Associate3(x: string, y: string, z: string)
    ensures x + y + z == x + (y + z)
  {
  }

  lemma ReplacedPart(x: string, sep: string, rest: string, p: string, w: string)
    requires Symbols(sep) && Lowercase(p) && (sep == "" ==> rest == "")
    requires x == p || !Contains(x, p)
    ensures Replaced(x + sep + rest, p, w) == ReplaceText(x, p, w) + sep + Replaced(rest, p, w)
  {
    assert p != "";
    PartSeams(x, sep, rest, p);
    SymbolsAreClean(sep, p);
    hide Replaced, Find, NoStraddle, OccursAt, Symbols, Lowercase;
    Associate3(x, sep, rest);
    ReplacedConcat(x, sep + rest, p, w);
    ReplacedConcat(sep, rest, p, w);
    ReplacedWhole(p, w);
    ReplacedClean(x, p, w);
    ReplacedClean(sep, p, w);
    Associate3(ReplaceText(x, p, w), sep, Replaced(rest, p, w));
  }

  lemma ReplacedClean(x: string, p: string, w: string)
    requires p != ""
    ensures !Contains(x, p) ==> Replaced(x, p, w) == x
  {
  }

  lemma {:induction false} ReplacedRender(parts: seq<Part>, t: Texts, p: string, w: string)
    requires Separated(parts) && Lowercase(p) && AllOrNothing(t, p)
    ensures Replaced(Render(parts, t), p, w) == Render(parts, ReplaceTexts(t, p, w))
  {
    hide Replaced, Separated, Contains, Lowercase;
    if parts == [] {
      EmptyIsClean(p, w);
    } else {
      TailParts(parts);
      ReplacedRender(parts[1..], t, p, w);
      var x := t.Of(parts[0].field);
      assert x == p || !Contains(x, p);
      PartIsSymbols(parts);
      ReplacedPart(x, parts[0].sep, Render(parts[1..], t), p, w);
      assert ReplaceTexts(t, p, w).Of(parts[0].field) == ReplaceText(x, p, w);
    }
  }

  lemma PartIsSymbols(parts: seq<Part>)
    requires parts != [] && Separated(parts)
    ensures Symbols(parts[0].sep)
  {
  }

  lemma EmptyIsClean(p: string, w: string)
    requires Lowercase(p)
    ensures Replaced("", p, w) == ""
  {
  }

  lemma ReplacedSpec(l: Layout, t: Texts, p: string, w: string)
    requires Symbols(l.lead) && Separated(l.parts) && Lowercase(p) && AllOrNothing(t, p)
    ensures Replaced(l.lead + Render(l.parts, t), p, w) == l.lead + Render(l.parts, ReplaceTexts(t, p, w))
  {
    SymbolsAreClean(l.lead, p);
    SeamSeparates(l.lead, Render(l.parts, t), p);
    ReplacedConcat(l.lead, Render(l.parts, t), p, w);
    ReplacedUnfold(l.lead, p, w);
    ReplacedRender(l.parts, t, p, w);
  }

  // --------------------------------------------------------- the ten replacements in order

  predicate NoLowercase(s: string) {
    forall k :: 0 <= k < |s| ==> !('a' <= s[k] <= 'z')
  }

  /** Nothing in the printed fields can be taken for a token. */
  predicate Plain(d: Fields) {
    forall f: Field :: NoLowercase(Shown(d).Of(f))
  }

  /** One character of the pattern is missing from every other text, or that text is too short. */
  lemma CleanTexts(t: Texts, p: string, c: char)
    requires c in p
    requires forall f: Field :: t.Of(f) == p || |t.Of(f)| < |p| || c !in t.Of(f)
    ensures AllOrNothing(t, p)
  {
    forall f: Field ensures t.Of(f) == p || !Contains(t.Of(f), p) {
      if t.Of(f) != p {
        NotContained(t.Of(f), p, c);
      }
    }
  }

  lemma PlainLacks(d: Fields, c: char)
    requires Plain(d) && 'a' <= c <= 'z'
    ensures forall f: Field :: c !in Shown(d).Of(f)
  {
    forall f: Field ensures c !in Shown(d).Of(f) {
      assert NoLowercase(Shown(d).Of(f));
    }
  }

  lemma FormatsHour(l: Layout, d: Fields)
    requires Symbols(l.lead) && Separated(l.parts)
    ensures Replaced(SpecOf(l), "hh", d.hh) == l.lead + Render(l.parts, TOKENS.(hh := d.hh))
  {
    hide Replaced, Render, Contains;
    CleanTexts(TOKENS, "hh", 'h');
    ReplacedSpec(l, TOKENS, "hh", d.hh);
  }

  lemma FormatsMinute(l: Layout, d: Fields)
    requires Symbols(l.lead) && Separated(l.parts) && Plain(d)
    ensures var t := TOKENS.(hh := d.hh);
      Replaced(l.lead + Render(l.parts, t), "mi", d.mm) == l.lead + Render(l.parts, t.(mi := d.mm))
  {
    hide Replaced, Render, Contains;
    PlainLacks(d, 'i');
    assert Shown(d).Of(Hour) == d.hh;
    CleanTexts(TOKENS.(hh := d.hh), "mi", 'i');
    ReplacedSpec(l, TOKENS.(hh := d.hh), "mi", d.mm);
  }

  lemma FormatsSecond(l: Layout, d: Fields)
    requires Symbols(l.lead) && Separated(l.parts) && Plain(d)
    ensures var t := TOKENS.(hh := d.hh, mi := d.mm);
      Replaced(l.lead + Render(l.parts, t), "ss", d.ss) == l.lead + Render(l.parts, t.(ss := d.ss))
  {
    hide Replaced, Render, Contains;
    PlainLacks(d, 's');
    assert Shown(d).Of(Hour) == d.hh && Shown(d).Of(Minute) == d.mm;
    CleanTexts(TOKENS.(hh := d.hh, mi := d.mm), "ss", 's');
    ReplacedSpec(l, TOKENS.(hh := d.hh, mi := d.mm), "ss", d.ss);
  }

  /** Time of day first, then the day name before the day and the month name before the month. */
  lemma FormatsTime(l: Layout, d: Fields)
    requires Symbols(l.lead) && Separated(l.parts) && Plain(d)
    ensures var t := TOKENS.(hh := d.hh, mi := d.mm, ss := d.ss);
      Replaced(Replaced(Replaced(SpecOf(l), "hh", d.hh), "mi", d.mm), "ss", d.ss) == l.lead + Render(l.parts, t)
  {
    hide Replaced, Render, Plain;
    FormatsHour(l, d);
    FormatsMinute(l, d);
    FormatsSecond(l, d);
  }

  lemma FormatsDay(l: Layout, d: Fields)
    requires Symbols(l.lead) && Separated(l.parts) && Plain(d)
    ensures var t := TOKENS.(hh := d.hh, mi := d.mm, ss := d.ss);
      Replaced(Replaced(Replaced(l.lead + Render(l.parts, t), "ns", Show(d.nanoseconds)), "ddd", d.dayw), "dd", d.day)
      == l.lead + Render(l.parts, t.(ddd := d.dayw, dd := d.day))
  {
    hide Replaced, Render, Contains, Show;
    PlainLacks(d, 'n');
    PlainLacks(d, 'd');
    var t3 := TOKENS.(hh := d.hh, mi := d.mm, ss := d.ss);
    var t4 := t3.(ddd := d.dayw);
    assert Shown(d).Of(Hour) == d.hh && Shown(d).Of(Minute) == d.mm && Shown(d).Of(Second) == d.ss;
    assert Shown(d).Of(DayName) == d.dayw;
    CleanTexts(t3, "ns", 'n');
    ReplacedSpec(l, t3, "ns", Show(d.nanoseconds));
    CleanTexts(t3, "ddd", 'd');
    ReplacedSpec(l, t3, "ddd", d.dayw);
    CleanTexts(t4, "dd", 'd');
    ReplacedSpec(l, t4, "dd", d.day);
  }

  lemma FormatsMonth(l: Layout, d: Fields)
    requires Symbols(l.lead) && Separated(l.parts) && Plain(d)
    ensures var t := Shown(d).(year := "yyyy", mm := "mm", mmm := "mmm");
      Replaced(Replaced(l.lead + Render(l.parts, t), "mmm", d.monthw), "mm", d.month)
      == l.lead + Render(l.parts, t.(mmm := d.monthw, mm := d.month))
  {
    hide Replaced, Render, Contains;
    PlainLacks(d, 'm');
    var t6 := Shown(d).(year := "yyyy", mm := "mm", mmm := "mmm");
    var t7 := t6.(mmm := d.monthw);
    FieldTexts(d);
    CleanTexts(t6, "mmm", 'm');
    ReplacedSpec(l, t6, "mmm", d.monthw);
    CleanTexts(t7, "mm", 'm');
    ReplacedSpec(l, t7, "mm", d.month);
  }

  lemma FieldTexts(d: Fields)
    ensures var t := Shown(d);
      && t.Of(Year) == d.year && t.Of(MonthNumber) == d.month && t.Of(MonthName) == d.monthw
      && t.Of(Day) == d.day && t.Of(DayName) == d.dayw
      && t.Of(Hour) == d.hh && t.Of(Minute) == d.mm && t.Of(Second) == d.ss
  {
  }

  lemma FormatsYear(l: Layout, d: Fields)
    requires Symbols(l.lead) && Separated(l.parts) && Plain(d) && |d.year| >= 2
    ensures var t := Shown(d).(year := "yyyy");
      Replaced(Replaced(l.lead + Render(l.parts, t), "yyyy", d.year), "yy", d.year[2..])
      == l.lead + Render(l.parts, Shown(d))
  {
    hide Replaced, Render, Contains;
    PlainLacks(d, 'y');
    var t8 := Shown(d).(year := "yyyy");
    FieldTexts(d);
    CleanTexts(t8, "yyyy", 'y');
    ReplacedSpec(l, t8, "yyyy", d.year);
    CleanTexts(Shown(d), "yy", 'y');
    ReplacedSpec(l, Shown(d), "yy", d.year[2..]);
  }

  /** The ten replacements in sequence put every field exactly where its token stands. */
  lemma FormatIsPositional(l: Layout, d: Fields)
    requires Symbols(l.lead) && Separated(l.parts) && Plain(d) && |d.year| >= 2
    ensures Substituted(SpecOf(l), d) == l.lead + Render(l.parts, Shown(d))
  {
    hide Replaced, Render, Plain, Symbols, Separated, Show;
    FormatsTime(l, d);
    FormatsDay(l, d);
    FormatsMonth(l, d);
    FormatsYear(l, d);
  }
}
