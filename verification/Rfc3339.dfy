/**
 * Times as the service stores them: RFC 3339 text in UTC (section 5.6 of RFC 3339).
 * An instant is a number of whole seconds since 0000-01-01T00:00:00Z, proleptic Gregorian.
 */
module Rfc3339 {
  import opened Text

  predicate IsLeap(y: int) {
    y % 4 == 0 && (y % 100 != 0 || y % 400 == 0)
  }

  function YearLength(y: int): (n: nat) {
    if IsLeap(y) then 366 else 365
  }

  function DaysBeforeYear(y: int): int {
    365 * y + (y + 3) / 4 - (y + 99) / 100 + (y + 399) / 400
  }

  lemma YearStep(y: int)
    ensures DaysBeforeYear(y + 1) == DaysBeforeYear(y) + YearLength(y)
  {
    FourStep(y);
    HundredStep(y);
    FourHundredStep(y);
  }

  lemma FourStep(y: int)
    ensures (y + 4) / 4 - (y + 3) / 4 == if y % 4 == 0 then 1 else 0
  {
  }

  lemma HundredStep(y: int)
    ensures (y + 100) / 100 - (y + 99) / 100 == if y % 100 == 0 then 1 else 0
    ensures y % 100 == 0 ==> y % 4 == 0
  {
  }

  lemma FourHundredStep(y: int)
    ensures (y + 400) / 400 - (y + 399) / 400 == if y % 400 == 0 then 1 else 0
    ensures y % 400 == 0 ==> y % 100 == 0
  {
  }

  lemma {:induction false} YearsGrow(y: int, z: int)
    requires y < z
    ensures DaysBeforeYear(y) + YearLength(y) <= DaysBeforeYear(z)
    decreases z - y
  {
    if z == y + 1 {
      YearStep(y);
    } else {
      YearsGrow(y, z - 1);
      YearStep(z - 1);
    }
  }

  function MonthLength(y: int, m: nat): (n: nat)
    requires 1 <= m <= 12
    ensures 28 <= n <= 31
  {
    if m == 2 then (if IsLeap(y) then 29 else 28)
    else if m == 4 || m == 6 || m == 9 || m == 11 then 30
    else 31
  }

  function DaysBeforeMonth(y: int, m: nat): (n: nat)
    requires 1 <= m <= 13
    ensures m == 13 ==> n == YearLength(y)
    ensures m <= 12 ==> n + MonthLength(y, m) <= YearLength(y)
  {
    var leap := if IsLeap(y) then 1 else 0;
    match m
    case 1 => 0
    case 2 => 31
    case 3 => 59 + leap
    case 4 => 90 + leap
    case 5 => 120 + leap
    case 6 => 151 + leap
    case 7 => 181 + leap
    case 8 => 212 + leap
    case 9 => 243 + leap
    case 10 => 273 + leap
    case 11 => 304 + leap
    case 12 => 334 + leap
    case _ => 365 + leap
  }

  lemma MonthStep(y: int, m: nat)
    requires 1 <= m <= 12
    ensures DaysBeforeMonth(y, m + 1) == DaysBeforeMonth(y, m) + MonthLength(y, m)
  {
  }

  const DAY := 86400

  /** UTC calendar fields. */
  datatype Civil = Civil(year: int, month: nat, day: nat, hour: nat, minute: nat, second: nat)

  predicate ValidDate(y: int, m: nat, d: nat) {
    1 <= m <= 12 && 1 <= d <= MonthLength(y, m)
  }

  predicate ValidCivil(c: Civil) {
    ValidDate(c.year, c.month, c.day) && c.hour < 24 && c.minute < 60 && c.second < 60
  }

  /** Day number of a calendar date; calendar order is the order of day numbers. */
  function DayOfDate(y: int, m: nat, d: nat): int
    requires ValidDate(y, m, d)
  {
    DaysBeforeYear(y) + DaysBeforeMonth(y, m) + d - 1
  }

  function SecondsOf(c: Civil): int
    requires ValidCivil(c)
  {
    DayOfDate(c.year, c.month, c.day) * DAY + c.hour * 3600 + c.minute * 60 + c.second
  }

  /** Instants whose UTC year is -1 to 10000: all that an RFC 3339 text with an offset can name. */
  type Instant = t: int | -31536000 <= t < 315601142400

  /** The bounds are the first second of year -1 and of year 10001. */
  lemma InstantBounds()
    ensures DaysBeforeYear(-1) == -365 && DaysBeforeYear(10001) == 3652791
    ensures -365 * DAY == -31536000 && 3652791 * DAY == 315601142400
  {
  }

  function DayNumber(t: int): int { t / DAY }

  function YearFrom(day: int, y: int): (r: int)
    requires DaysBeforeYear(y) <= day
    ensures y <= r && DaysBeforeYear(r) <= day < DaysBeforeYear(r + 1)
    decreases day - DaysBeforeYear(y)
  {
    YearStep(y);
    if day < DaysBeforeYear(y + 1) then y else YearFrom(day, y + 1)
  }

  function MonthFrom(y: int, dayOfYear: nat, m: nat): (r: nat)
    requires 1 <= m <= 12
    requires DaysBeforeMonth(y, m) <= dayOfYear < YearLength(y)
    ensures m <= r <= 12 && DaysBeforeMonth(y, r) <= dayOfYear < DaysBeforeMonth(y, r + 1)
    decreases 12 - m
  {
    if m == 12 || dayOfYear < DaysBeforeMonth(y, m + 1) then m else MonthFrom(y, dayOfYear, m + 1)
  }

  /** The UTC calendar fields of an instant. */
  function CivilOf(t: Instant): (c: Civil)
    ensures ValidCivil(c) && SecondsOf(c) == t
    ensures -1 <= c.year <= 10000
  {
    InstantBounds();
    var day := DayNumber(t);
    var year := YearFrom(day, -1);
    YearBound(day, year);
    YearStep(year);
    var dayOfYear := day - DaysBeforeYear(year);
    var month := MonthFrom(year, dayOfYear, 1);
    MonthStep(year, month);
    var rest := t % DAY;
    Civil(year, month, dayOfYear - DaysBeforeMonth(year, month) + 1,
          rest / 3600, rest % 3600 / 60, rest % 60)
  }

  lemma YearBound(day: int, year: int)
    requires DaysBeforeYear(year) <= day < DaysBeforeYear(10001)
    ensures year <= 10000
  {
    if year > 10001 {
      YearsGrow(10001, year);
    }
  }

  /** Order on calendar fields, most significant first. */
  predicate Earlier(a: Civil, b: Civil) {
    a.year < b.year || (a.year == b.year &&
    (a.month < b.month || (a.month == b.month &&
    (a.day < b.day || (a.day == b.day &&
    (a.hour < b.hour || (a.hour == b.hour &&
    (a.minute < b.minute || (a.minute == b.minute && a.second < b.second)))))))))
  }

  lemma {:induction false} MonthsGrow(y: int, m: nat, n: nat)
    requires 1 <= m < n <= 12
    ensures DaysBeforeMonth(y, m) + MonthLength(y, m) <= DaysBeforeMonth(y, n)
    decreases n - m
  {
    if n > m + 1 {
      MonthsGrow(y, m, n - 1);
    }
  }

  lemma DateOrder(y: int, m: nat, d: nat, y': int, m': nat, d': nat)
    requires ValidDate(y, m, d) && ValidDate(y', m', d')
    requires y < y' || (y == y' && (m < m' || (m == m' && d < d')))
    ensures DayOfDate(y, m, d) < DayOfDate(y', m', d')
  {
    if y < y' {
      YearsGrow(y, y');
    } else if m < m' {
      MonthsGrow(y, m, m');
    }
  }

  /** Calendar fields compare as the instants they name do. */
  lemma CivilOrder(a: Civil, b: Civil)
    requires ValidCivil(a) && ValidCivil(b)
    ensures Earlier(a, b) <==> SecondsOf(a) < SecondsOf(b)
  {
    if (a.year, a.month, a.day) == (b.year, b.month, b.day) {
    } else if Earlier(a, b) {
      DateOrder(a.year, a.month, a.day, b.year, b.month, b.day);
    } else {
      assert Earlier(b, a);
      DateOrder(b.year, b.month, b.day, a.year, a.month, a.day);
    }
  }

  lemma CivilUnique(c: Civil, t: Instant)
    requires ValidCivil(c) && SecondsOf(c) == t
    ensures CivilOf(t) == c
  {
    CivilOrder(c, CivilOf(t));
    CivilOrder(CivilOf(t), c);
  }

  /** Go prints at least four digits for the year, after the sign if there is one. */
  function YearText(y: int): string
    requires -1 <= y <= 10000
  {
    if y < 0 then "-" + Pad(-y, 4) else if y <= 9999 then Pad(y, 4) else Pad(y, 5)
  }

  function AfterYear(c: Civil): (s: string)
    ensures |s| == 16
  {
    "-" + Pad(c.month, 2) + "-" + Pad(c.day, 2) + "T" +
    Pad(c.hour, 2) + ":" + Pad(c.minute, 2) + ":" + Pad(c.second, 2) + "Z"
  }

  /** Time.UTC().Format(time.RFC3339): whole seconds, offset written as Z. */
  function Format(t: Instant): string {
    YearText(CivilOf(t).year) + AfterYear(CivilOf(t))
  }

  /** The years whose text has exactly four digits. */
  predicate FourDigitYear(t: Instant) {
    0 <= CivilOf(t).year <= 9999
  }

  lemma TwoDigits()
    ensures Pow10(2) == 100 && Pow10(4) == 10000 && Pow10(5) == 100000
  {
    assert Pow10(1) == 10;
    assert Pow10(3) == 1000;
  }

  /** One separator and one two-digit field. */
  lemma FieldOrder(sep: char, m: nat, n: nat, x: string, y: string)
    requires m < 100 && n < 100
    ensures Less([sep] + Pad(m, 2) + x, [sep] + Pad(n, 2) + y) <==> m < n || (m == n && Less(x, y))
    ensures [sep] + Pad(m, 2) + x == [sep] + Pad(n, 2) + y ==> m == n && x == y
  {
    TwoDigits();
    var a, b := [sep] + Pad(m, 2), [sep] + Pad(n, 2);
    LessConcat(a, b, x, y);
    LessConcat([sep], [sep], Pad(m, 2), Pad(n, 2));
    PadOrder(m, n, 2);
    NumberPad(m, 2);
    NumberPad(n, 2);
    assert a[1..] == Pad(m, 2) && b[1..] == Pad(n, 2);
    if a + x == b + y {
      assert (a + x)[..3] == a && (b + y)[..3] == b;
      assert (a + x)[3..] == x && (b + y)[3..] == y;
    }
  }

  function AfterDate(c: Civil): string {
    "T" + Pad(c.hour, 2) + (":" + Pad(c.minute, 2) + (":" + Pad(c.second, 2) + "Z"))
  }

  lemma AfterYearShape(c: Civil)
    ensures AfterYear(c) == "-" + Pad(c.month, 2) + ("-" + Pad(c.day, 2) + AfterDate(c))
  {
  }

  lemma ClockOrder(a: Civil, b: Civil)
    requires ValidCivil(a) && ValidCivil(b)
    ensures Less(AfterDate(a), AfterDate(b)) <==>
      a.hour < b.hour || (a.hour == b.hour &&
      (a.minute < b.minute || (a.minute == b.minute && a.second < b.second)))
    ensures AfterDate(a) == AfterDate(b) ==> a.hour == b.hour && a.minute == b.minute && a.second == b.second
  {
    FieldOrder(':', a.second, b.second, "Z", "Z");
    FieldOrder(':', a.minute, b.minute, ":" + Pad(a.second, 2) + "Z", ":" + Pad(b.second, 2) + "Z");
    FieldOrder('T', a.hour, b.hour,
               ":" + Pad(a.minute, 2) + (":" + Pad(a.second, 2) + "Z"),
               ":" + Pad(b.minute, 2) + (":" + Pad(b.second, 2) + "Z"));
    assert !Less("Z", "Z");
  }

  lemma AfterYearOrder(a: Civil, b: Civil)
    requires ValidCivil(a) && ValidCivil(b) && a.year == b.year
    ensures Less(AfterYear(a), AfterYear(b)) <==> Earlier(a, b)
    ensures AfterYear(a) == AfterYear(b) ==> a == b
  {
    AfterYearShape(a);
    AfterYearShape(b);
    ClockOrder(a, b);
    FieldOrder('-', a.day, b.day, AfterDate(a), AfterDate(b));
    FieldOrder('-', a.month, b.month, "-" + Pad(a.day, 2) + AfterDate(a), "-" + Pad(b.day, 2) + AfterDate(b));
  }

  /** Section 5.1 of RFC 3339: on four-digit years, order on the text is order in time. */
  lemma TextOrderIsTimeOrder(s: Instant, t: Instant)
    requires FourDigitYear(s) && FourDigitYear(t)
    ensures Less(Format(s), Format(t)) <==> s < t
    ensures Format(s) == Format(t) <==> s == t
  {
    var a, b := CivilOf(s), CivilOf(t);
    CivilOrder(a, b);
    YearOrder(a, b);
    if a.year == b.year {
      AfterYearOrder(a, b);
    }
  }

  lemma YearOrder(a: Civil, b: Civil)
    requires 0 <= a.year <= 9999 && 0 <= b.year <= 9999
    ensures Less(YearText(a.year) + AfterYear(a), YearText(b.year) + AfterYear(b)) <==>
      a.year < b.year || (a.year == b.year && Less(AfterYear(a), AfterYear(b)))
    ensures YearText(a.year) + AfterYear(a) == YearText(b.year) + AfterYear(b) ==>
      a.year == b.year && AfterYear(a) == AfterYear(b)
  {
    var x, y := AfterYear(a), AfterYear(b);
    TwoDigits();
    PadOrder(a.year, b.year, 4);
    NumberPad(a.year, 4);
    NumberPad(b.year, 4);
    LessConcat(Pad(a.year, 4), Pad(b.year, 4), x, y);
    if Pad(a.year, 4) + x == Pad(b.year, 4) + y {
      Cut(Pad(a.year, 4), Pad(b.year, 4), x, y);
    }
  }

  lemma Cut(a: string, b: string, x: string, y: string)
    requires |a| == |b| && a + x == b + y
    ensures a == b && x == y
  {
    assert (a + x)[..|a|] == a && (b + y)[..|a|] == b;
    assert (a + x)[|a|..] == x && (b + y)[|a|..] == y;
  }

  /** The twenty-character UTC form around its six fields. */
  function Frame(f: seq<string>): (s: string)
    requires |f| == 6
    requires |f[0]| == 4 && forall i :: 1 <= i < 6 ==> |f[i]| == 2
    ensures |s| == 20
    ensures s[..4] == f[0] && s[5..7] == f[1] && s[8..10] == f[2]
    ensures s[11..13] == f[3] && s[14..16] == f[4] && s[17..19] == f[5]
    ensures s[4] == '-' && s[7] == '-' && s[10] == 'T' && s[13] == ':' && s[16] == ':' && s[19] == 'Z'
  {
    f[0] + ['-'] + f[1] + ['-'] + f[2] + ['T'] + f[3] + [':'] + f[4] + [':'] + f[5] + ['Z']
  }

  function FieldTexts(c: Civil): (f: seq<string>)
    requires 0 <= c.year
  {
    [Pad(c.year, 4), Pad(c.month, 2), Pad(c.day, 2), Pad(c.hour, 2), Pad(c.minute, 2), Pad(c.second, 2)]
  }

  lemma FormatIsFrame(c: Civil)
    requires 0 <= c.year <= 9999
    ensures YearText(c.year) + AfterYear(c) == Frame(FieldTexts(c))
  {
  }

  predicate IsFramed(s: string) {
    && |s| == 20
    && s[4] == '-' && s[7] == '-' && s[10] == 'T' && s[13] == ':' && s[16] == ':' && s[19] == 'Z'
    && AllDigits(s[..4]) && AllDigits(s[5..7]) && AllDigits(s[8..10])
    && AllDigits(s[11..13]) && AllDigits(s[14..16]) && AllDigits(s[17..19])
  }

  function Unframe(s: string): (f: seq<string>)
    requires |s| == 20
  {
    [s[..4], s[5..7], s[8..10], s[11..13], s[14..16], s[17..19]]
  }

  lemma FrameUnframe(s: string)
    requires IsFramed(s)
    ensures Frame(Unframe(s)) == s
  {
    assert s == s[..4] + [s[4]] + s[5..7] + [s[7]] + s[8..10] + [s[10]] +
                s[11..13] + [s[13]] + s[14..16] + [s[16]] + s[17..19] + [s[19]];
  }

  function Fields(s: string): Civil
    requires IsFramed(s)
  {
    Civil(Number(s[..4]), Number(s[5..7]), Number(s[8..10]),
          Number(s[11..13]), Number(s[14..16]), Number(s[17..19]))
  }

  lemma FieldsOfFrame(c: Civil)
    requires ValidCivil(c) && 0 <= c.year <= 9999
    ensures IsFramed(Frame(FieldTexts(c))) && Fields(Frame(FieldTexts(c))) == c
  {
    TwoDigits();
    NumberPad(c.year, 4);
    NumberPad(c.month, 2);
    NumberPad(c.day, 2);
    NumberPad(c.hour, 2);
    NumberPad(c.minute, 2);
    NumberPad(c.second, 2);
  }

  lemma TextsOfFields(s: string)
    requires IsFramed(s)
    ensures 0 <= Fields(s).year <= 9999
    ensures FieldTexts(Fields(s)) == Unframe(s)
  {
    TwoDigits();
    PadNumber(s[..4]);
    PadNumber(s[5..7]);
    PadNumber(s[8..10]);
    PadNumber(s[11..13]);
    PadNumber(s[14..16]);
    PadNumber(s[17..19]);
  }

  lemma InRange(c: Civil)
    requires ValidCivil(c) && 0 <= c.year <= 9999
    ensures -31536000 <= SecondsOf(c) < 315601142400
  {
    InstantBounds();
    YearsGrow(-1, c.year);
    YearsGrow(c.year, 10001);
  }

  /** time.Parse on the texts this service writes: the UTC form without fractions. */
  function Parse(s: string): (t: Option<Instant>) {
    if IsFramed(s) && ValidCivil(Fields(s)) then
      TextsOfFields(s);
      InRange(Fields(s));
      Some(SecondsOf(Fields(s)))
    else None
  }

  /** What is written reads back to the second. */
  lemma ParseFormat(t: Instant)
    requires FourDigitYear(t)
    ensures Parse(Format(t)) == Some(t)
  {
    FormatIsFrame(CivilOf(t));
    FieldsOfFrame(CivilOf(t));
  }

  /** What reads back was written so: parsing then formatting changes no character. */
  lemma FormatParse(s: string)
    requires Parse(s).Some?
    ensures FourDigitYear(Parse(s).value) && Format(Parse(s).value) == s
  {
    TextsOfFields(s);
    CivilUnique(Fields(s), Parse(s).value);
    FormatIsFrame(Fields(s));
    FrameUnframe(s);
  }

  /** The text is the twenty characters of the UTC form for these fields. */
  ghost predicate Writes(s: string, c: Civil)
    requires c.year >= 0
  {
    s == Pad(c.year, 4) + "-" + Pad(c.month, 2) + "-" + Pad(c.day, 2) + "T" +
         Pad(c.hour, 2) + ":" + Pad(c.minute, 2) + ":" + Pad(c.second, 2) + "Z"
  }

  /** A time is written as its UTC calendar fields; a text is read as a time exactly if that time is written so. */
  lemma ParseExactly(s: string, t: Instant)
    ensures FourDigitYear(t) ==> Writes(Format(t), CivilOf(t))
    ensures Parse(s) == Some(t) <==> FourDigitYear(t) && s == Format(t)
  {
    hide CivilOf, Pad, Parse;
    if Parse(s) == Some(t) { FormatParse(s); }
    if FourDigitYear(t) { ParseFormat(t); }
  }

  /** The Gregorian leap years, and the days from year 0 to the Unix epoch. */
  lemma CalendarFacts()
    ensures IsLeap(2000) && IsLeap(2024) && !IsLeap(1900) && !IsLeap(2023)
    ensures DaysBeforeYear(0) == 0 && DaysBeforeYear(1970) == 719528
  {
  }
}
