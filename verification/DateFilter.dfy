/** The date filter of GET /events: two eight-digit days against the stored start time. */
module DateFilter {
  import opened Text
  import opened Rfc3339

  /** A day number whose midnight has a four-digit UTC year. */
  predicate FilterDay(day: int) {
    DaysBeforeYear(0) <= day < DaysBeforeYear(10000)
  }

  datatype Parsed = Day(day: Option<int>) | Invalid

  predicate IsDayText(s: string) {
    |s| == 8 && AllDigits(s) && ValidDate(Number(s[..4]), Number(s[4..6]), Number(s[6..8]))
  }

  /** parseDateFilter: absent and empty both mean no bound. */
  function ParseDateFilter(value: Option<string>): (r: Parsed)
    ensures r.Day? && r.day.Some? ==> FilterDay(r.day.value)
  {
    if value.None? || value.value == "" then Day(None)
    else if IsDayText(value.value) then
      var s := value.value;
      DigitsInRange(s[..4]);
      DateInRange(Number(s[..4]), Number(s[4..6]), Number(s[6..8]));
      Day(Some(DayOfDate(Number(s[..4]), Number(s[4..6]), Number(s[6..8]))))
    else Invalid
  }

  lemma DigitsInRange(s: string)
    requires |s| == 4 && AllDigits(s)
    ensures Number(s) <= 9999
  {
    PadNumber(s);
    TwoDigits();
  }

  lemma DateInRange(y: int, m: nat, d: nat)
    requires ValidDate(y, m, d) && 0 <= y <= 9999
    ensures FilterDay(DayOfDate(y, m, d))
  {
    if y > 0 { YearsGrow(0, y); }
    YearsGrow(y, 10000);
  }

  function DayText(y: nat, m: nat, d: nat): string {
    Pad(y, 4) + Pad(m, 2) + Pad(d, 2)
  }

  /** Every calendar date of years 0 to 9999 has exactly one text, and it parses to that day. */
  lemma DayTextParses(y: nat, m: nat, d: nat)
    requires ValidDate(y, m, d) && y <= 9999
    ensures ParseDateFilter(Some(DayText(y, m, d))) == Day(Some(DayOfDate(y, m, d)))
  {
    TwoDigits();
    NumberPad(y, 4);
    NumberPad(m, 2);
    NumberPad(d, 2);
    DayTextPieces(Pad(y, 4), Pad(m, 2), Pad(d, 2));
  }

  lemma DayTextPieces(a: string, b: string, c: string)
    requires |a| == 4 && |b| == 2 && |c| == 2 && AllDigits(a) && AllDigits(b) && AllDigits(c)
    ensures var s := a + b + c;
            |s| == 8 && AllDigits(s) && s[..4] == a && s[4..6] == b && s[6..8] == c
  {
  }

  lemma DayTextOf(s: string)
    requires IsDayText(s)
    ensures Number(s[..4]) <= 9999 && s == DayText(Number(s[..4]), Number(s[4..6]), Number(s[6..8]))
  {
    hide Pad, Number, ValidDate;
    DigitsInRange(s[..4]);
    PadNumber(s[..4]);
    PadNumber(s[4..6]);
    PadNumber(s[6..8]);
    assert s == s[..4] + s[4..6] + s[6..8];
  }

  ghost predicate NamesDay(s: string, day: int) {
    exists y: nat, m: nat, d: nat ::
      y <= 9999 && ValidDate(y, m, d) && s == DayText(y, m, d) && day == DayOfDate(y, m, d)
  }

  /** A text is read as a day exactly when it is that day's eight digits; empty is no bound, all else is refused. */
  lemma ParseDateExactly(s: string)
    ensures ParseDateFilter(Some(s)) == Day(None) <==> s == ""
    ensures forall day :: ParseDateFilter(Some(s)) == Day(Some(day)) <==> NamesDay(s, day)
    ensures ParseDateFilter(Some(s)) == Invalid <==> s != "" && forall day :: !NamesDay(s, day)
  {
    hide DayText, DayOfDate, Number, ValidDate;
    if IsDayText(s) {
      DayTextOf(s);
      assert NamesDay(s, DayOfDate(Number(s[..4]), Number(s[4..6]), Number(s[6..8])));
    }
    forall day | NamesDay(s, day) ensures ParseDateFilter(Some(s)) == Day(Some(day)) {
      var y: nat, m: nat, d: nat :|
        y <= 9999 && ValidDate(y, m, d) && s == DayText(y, m, d) && day == DayOfDate(y, m, d);
      DayTextParses(y, m, d);
    }
  }

  lemma DayInstant(day: int)
    requires FilterDay(day)
    ensures -31536000 <= day * 86400 && day * 86400 + 86399 < 315601142400
  {
    InstantBounds();
    YearsGrow(-1, 0);
    YearsGrow(10000, 10001);
  }

  /** The year of an instant is in range exactly when its second lies in that year. */
  lemma YearOfInstant(t: Instant, y: int)
    ensures CivilOf(t).year >= y <==> DayNumber(t) >= DaysBeforeYear(y)
  {
    var c := CivilOf(t);
    assert DayNumber(t) == DayOfDate(c.year, c.month, c.day);
    YearStep(c.year);
    if c.year < y {
      YearsGrow(c.year, y);
    } else if y < c.year {
      YearsGrow(y, c.year);
    }
  }

  function Midnight(day: int): (t: Instant)
    requires FilterDay(day)
    ensures t == day * 86400 && DayNumber(t) == day
  {
    DayInstant(day);
    day * 86400
  }

  /** endOfDayUTC: the last second of the day; the formatter drops the nanoseconds. */
  function EndOfDay(day: int): (t: Instant)
    requires FilterDay(day)
    ensures t == day * 86400 + 86399 && DayNumber(t) == day
  {
    DayInstant(day);
    day * 86400 + 86399
  }

  /** applyEventDateFilter against the stored text. */
  predicate Selected(startedAt: string, from: Option<int>, to: Option<int>)
    requires from.Some? ==> FilterDay(from.value)
    requires to.Some? ==> FilterDay(to.value)
  {
    && (from.Some? ==> !Less(startedAt, Format(Midnight(from.value))))
    && (to.Some? ==> !Less(Format(EndOfDay(to.value)), startedAt))
  }

  /** The UTC calendar date of the start lies in the closed interval. */
  predicate InInterval(start: Instant, from: Option<int>, to: Option<int>) {
    && (from.Some? ==> from.value <= DayNumber(start))
    && (to.Some? ==> DayNumber(start) <= to.value)
  }

  lemma FourDigitDay(t: Instant)
    ensures FourDigitYear(t) <==> FilterDay(DayNumber(t))
  {
    YearOfInstant(t, 0);
    YearOfInstant(t, 10000);
  }

  /** The stored text of year -1 starts with a sign, which sorts below every digit. */
  lemma NegativeYearIsFirst(s: Instant, t: Instant)
    requires CivilOf(s).year == -1 && FourDigitYear(t)
    ensures Less(Format(s), Format(t)) && !Less(Format(t), Format(s))
  {
    assert Format(s)[0] == '-';
    assert Format(t)[0] == Pad(CivilOf(t).year, 4)[0];
  }

  /** Year -1 included, stored text compares with a four-digit year as the times do. */
  lemma AgainstBound(start: Instant, t: Instant)
    requires CivilOf(start).year <= 9999 && FourDigitYear(t)
    ensures Less(Format(start), Format(t)) <==> start < t
    ensures Less(Format(t), Format(start)) <==> t < start
  {
    if CivilOf(start).year == -1 {
      NegativeYearIsFirst(start, t);
      YearOfInstant(start, 0);
      YearOfInstant(t, 0);
    } else {
      TextOrderIsTimeOrder(start, t);
      TextOrderIsTimeOrder(t, start);
    }
  }

  lemma BoundsAgree(start: Instant, day: int)
    requires FilterDay(day) && CivilOf(start).year <= 9999
    ensures Less(Format(start), Format(Midnight(day))) <==> DayNumber(start) < day
    ensures Less(Format(EndOfDay(day)), Format(start)) <==> day < DayNumber(start)
  {
    FourDigitDay(Midnight(day));
    FourDigitDay(EndOfDay(day));
    AgainstBound(start, Midnight(day));
    AgainstBound(start, EndOfDay(day));
  }

  /** The string filter selects an event of a year up to 9999 exactly when its date is in the interval. */
  lemma FilterSelectsDates(start: Instant, from: Option<int>, to: Option<int>)
    requires CivilOf(start).year <= 9999
    requires from.Some? ==> FilterDay(from.value)
    requires to.Some? ==> FilterDay(to.value)
    ensures Selected(Format(start), from, to) <==> InInterval(start, from, to)
  {
    if from.Some? { BoundsAgree(start, from.value); }
    if to.Some? { BoundsAgree(start, to.value); }
  }

  /** 9999-12-31, the last day a date bound can name. */
  function LastDay(): (day: int)
    ensures FilterDay(day) && day == DaysBeforeYear(10000) - 1
  {
    YearStep(9999);
    DateInRange(9999, 12, 31);
    DayOfDate(9999, 12, 31)
  }

  /** A five-digit year, reachable through a negative offset, sorts below 9999. */
  lemma YearTenThousandMisplaced(start: Instant)
    requires CivilOf(start).year == 10000
    ensures Selected(Format(start), None, Some(LastDay()))
    ensures !InInterval(start, None, Some(LastDay()))
  {
    assert LastDay() < DayNumber(start) by {
      YearOfInstant(start, 10000);
    }
    FirstDigit(start);
    LastDayText();
    LessByFirst(Format(start), Format(EndOfDay(LastDay())));
  }

  lemma LessByFirst(s: string, t: string)
    requires |s| > 0 && |t| > 0 && s[0] < t[0]
    ensures !Less(t, s)
  {
  }

  lemma FirstDigit(start: Instant)
    requires CivilOf(start).year == 10000
    ensures |Format(start)| > 0 && Format(start)[0] == '1'
  {
    LeadingDigit();
  }

  lemma LastDayText()
    ensures |Format(EndOfDay(LastDay()))| > 0 && Format(EndOfDay(LastDay()))[0] == '9'
  {
    hide CivilOf, Format, LastDay, EndOfDay, DaysBeforeYear;
    var last := EndOfDay(LastDay());
    YearOfInstant(last, 9999);
    YearOfInstant(last, 10000);
    YearStep(9999);
    FirstDigitBefore(last);
  }

  lemma FirstDigitBefore(t: Instant)
    requires CivilOf(t).year == 9999
    ensures |Format(t)| > 0 && Format(t)[0] == '9'
  {
    hide CivilOf;
    LeadingDigit();
  }

  lemma LeadingDigit()
    ensures Pad(9999, 4)[0] == '9' && Pad(10000, 5)[0] == '1'
  {
    assert Pad(9, 1) == "9" && Pad(1, 1) == "1";
    assert Pad(99, 2)[0] == '9' && Pad(10, 2)[0] == '1';
    assert Pad(999, 3)[0] == '9' && Pad(100, 3)[0] == '1';
    assert Pad(1000, 4)[0] == '1';
  }

  /** Right for every pair of bounds exactly when the UTC year of the start is at most 9999. */
  ghost predicate FilterIsRight(start: Instant) {
    forall from: Option<int>, to: Option<int> ::
      (from.Some? ==> FilterDay(from.value)) && (to.Some? ==> FilterDay(to.value)) ==>
      (Selected(Format(start), from, to) <==> InInterval(start, from, to))
  }

  lemma FilterIsRightExactly(start: Instant)
    ensures FilterIsRight(start) <==> CivilOf(start).year <= 9999
  {
    if CivilOf(start).year <= 9999 {
      forall from: Option<int>, to: Option<int> |
        (from.Some? ==> FilterDay(from.value)) && (to.Some? ==> FilterDay(to.value))
        ensures Selected(Format(start), from, to) <==> InInterval(start, from, to)
      {
        FilterSelectsDates(start, from, to);
      }
    } else {
      YearTenThousandMisplaced(start);
    }
  }
}
