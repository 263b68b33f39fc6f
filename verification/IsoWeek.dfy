/** ISO 8601 week dates of the vendored fmt library (chrono.h), proved against the definition
    in section 4.1.4 of ISO 8601:2004: a week runs from Monday to Sunday, belongs to the year
    that holds its Thursday, and is numbered by the Thursdays of that year. */
module IsoWeek {
  import opened Arith

  const DAYS_PER_WEEK: int := 7

  // C division and remainder truncate toward zero.
  function TruncDiv(a: int, b: int): int
    requires b > 0
  {
    if a >= 0 then a / b else -((-a) / b)
  }

  function TruncMod(a: int, b: int): int
    requires b > 0
  {
    a - TruncDiv(a, b) * b
  }

  // ---------- the code ----------

  function WeekdayTerm(year: int): int {
    TruncMod(year + TruncDiv(year, 4) - TruncDiv(year, 100) + TruncDiv(year, 400), DAYS_PER_WEEK)
  }

  function IsoYearWeeks(currYear: int): int {
    52 + if WeekdayTerm(currYear) == 4 || WeekdayTerm(currYear - 1) == 3 then 1 else 0
  }

  function IsoWeekNum(yday: int, wday: int): int {
    TruncDiv(yday + 11 - (if wday == 0 then DAYS_PER_WEEK else wday), DAYS_PER_WEEK)
  }

  function IsoWeekYear(year: int, yday: int, wday: int): int {
    var w := IsoWeekNum(yday, wday);
    if w < 1 then year - 1
    else if w > IsoYearWeeks(year) then year + 1
    else year
  }

  function IsoWeekOfYear(year: int, yday: int, wday: int): int {
    var w := IsoWeekNum(yday, wday);
    if w < 1 then IsoYearWeeks(year - 1)
    else if w > IsoYearWeeks(year) then 1
    else w
  }

  // ---------- the calendar ----------

  /** Days from Monday, January 1 of year 1 to January 1 of the given year, in the proleptic
      Gregorian calendar. Dafny's division rounds down for the positive divisors used here. */
  function DaysBefore(year: int): int {
    var y := year - 1;
    365 * y + y / 4 - y / 100 + y / 400
  }

  predicate IsLeap(year: int) {
    year % 4 == 0 && (year % 100 != 0 || year % 400 == 0)
  }

  function DaysIn(year: int): (days: int)
    ensures days == 365 || days == 366
  {
    if IsLeap(year) then 366 else 365
  }

  predicate IsDate(year: int, yday: int) {
    0 <= yday < DaysIn(year)
  }

  /** The weekday that the calendar gives to a date, counted as tm_wday does: 0 is Sunday. */
  function Weekday(year: int, yday: int): int {
    (DaysBefore(year) + yday + 1) % 7
  }

  /** The day number of the Thursday in the Monday-to-Sunday week of a day. */
  function ThursdayOf(day: int): int {
    day - day % 7 + 3
  }

  /** The definition: (weekYear, week) is the ISO week of a day when the Thursday of its week
      is the week-th Thursday of weekYear. */
  predicate IsIsoWeek(day: int, weekYear: int, week: int) {
    var thursday := ThursdayOf(day);
    && DaysBefore(weekYear) <= thursday < DaysBefore(weekYear + 1)
    && week == (thursday - DaysBefore(weekYear)) / 7 + 1
  }

  lemma DivStep(y: int, d: int)
    requires d > 0
    ensures y / d == (y - 1) / d + if y % d == 0 then 1 else 0
  {
    var q, r := (y - 1) / d, (y - 1) % d;
    assert y - 1 == q * d + r;
    if r + 1 < d {
      QuotientUnique(y, d, q, r + 1);
    } else {
      assert y == (q + 1) * d;
      QuotientUnique(y, d, q + 1, 0);
    }
  }

  lemma YearLength(year: int)
    ensures DaysBefore(year + 1) == DaysBefore(year) + DaysIn(year)
  {
    DivStep(year, 4);
    DivStep(year, 100);
    DivStep(year, 400);
  }

  /** The terms the code compares with 3 and 4 are weekdays at the turn of a year. */
  lemma WeekdayTermIsNewYear(year: int)
    requires year >= 0
    ensures WeekdayTerm(year) == DaysBefore(year + 1) % 7
  {
    var p := year + year / 4 - year / 100 + year / 400;
    QuotientUnique(DaysBefore(year + 1), 7, 52 * year + p / 7, p % 7);
  }

  /** The number of Thursdays in a year of `len` days whose first day is day `b`. */
  function Thursdays(b: int, len: int): int {
    52 + if (b + len) % 7 == 4 || b % 7 == 3 then 1 else 0
  }

  lemma ThursdaysCounted(b: int, len: int, thursday: int)
    requires (len == 365 || len == 366) && thursday % 7 == 3 && b <= thursday < b + len
    ensures 1 <= (thursday - b) / 7 + 1 <= Thursdays(b, len)
    ensures (thursday - b) / 7 + 1 == Thursdays(b, len) <==> b + len <= thursday + 7
  {
  }

  /** The number of weeks that a year really has. */
  function YearWeeks(year: int): (weeks: int)
    ensures weeks == 52 || weeks == 53
  {
    Thursdays(DaysBefore(year), DaysIn(year))
  }

  /** iso_year_weeks counts the Thursdays of a year if and only if the year is not negative or has
      52 of them. */
  lemma YearWeeksCountsThursdaysIff(year: int)
    ensures IsoYearWeeks(year) == YearWeeks(year) <==> year >= 0 || YearWeeks(year) == 52
    ensures year < 0 ==> IsoYearWeeks(year) == 52
    ensures YearWeeks(-1) == 52
  {
    ThursdaysAroundZero();
    if year >= 1 {
      YearWeeksPositive(year);
    } else {
      NoLongYears(year);
    }
    hide *;
  }

  /** Below year 1 every remainder is zero or negative, so no year has 53 weeks. */
  lemma NoLongYears(year: int)
    requires year <= 0
    ensures IsoYearWeeks(year) == 52
  {
    WeekdayTermNotPositive(year);
    WeekdayTermNotPositive(year - 1);
    hide WeekdayTerm;
  }

  lemma WeekdayTermNotPositive(year: int)
    requires year <= 0
    ensures WeekdayTerm(year) <= 0
  {
    var n := -year;
    var s := n + n / 4 - n / 100 + n / 400;
    assert TruncDiv(year, 4) == -(n / 4) && TruncDiv(year, 100) == -(n / 100) && TruncDiv(year, 400) == -(n / 400);
    assert n / 100 <= n;
    assert TruncMod(-s, DAYS_PER_WEEK) == -(s % 7);
  }

  lemma ThursdaysAroundZero()
    ensures YearWeeks(0) == 52 && YearWeeks(-1) == 52
  {
    hide DaysBefore;
    DaysBeforeSmall();
  }

  lemma YearWeeksPositive(year: int)
    requires year >= 1
    ensures IsoYearWeeks(year) == YearWeeks(year)
  {
    hide DaysBefore, DaysIn, WeekdayTerm;
    YearLength(year);
    WeekdayTermIsNewYear(year);
    WeekdayTermIsNewYear(year - 1);
  }

  lemma DaysBeforeSmall()
    ensures DaysBefore(0) == -366 && DaysBefore(-1) == -731 && DaysBefore(-2) == -1096
  {
  }

  /** The week number of a date is one more than the number of whole weeks from January 1 to
      the Thursday of its week, which may lie in a neighbouring year. */
  lemma WeekNumByThursday(b: int, yday: int)
    requires 0 <= yday
    ensures var t := ThursdayOf(b + yday) - b;
            && yday - 3 <= t <= yday + 3
            && IsoWeekNum(yday, (b + yday + 1) % 7) == (t + 7) / 7
  {
  }

  /** The three branches of the code, on the day numbers b0 < b1 < b2 < b3 on which the
      previous, the current, the next and the following year begin. */
  lemma ThreeBranches(b1: int, len0: int, len1: int, len2: int, yday: int, w: int)
    requires {len0, len1, len2} <= {365, 366}
    requires 0 <= yday < len1
    requires w == (ThursdayOf(b1 + yday) - b1 + 7) / 7
    ensures var thursday := ThursdayOf(b1 + yday);
            if w < 1 then
              && b1 - len0 <= thursday < b1
              && Thursdays(b1 - len0, len0) == (thursday - (b1 - len0)) / 7 + 1
            else if w > Thursdays(b1, len1) then
              && b1 + len1 <= thursday < b1 + len1 + len2
              && 1 == (thursday - (b1 + len1)) / 7 + 1
            else
              && b1 <= thursday < b1 + len1
              && w == (thursday - b1) / 7 + 1
  {
    var thursday := ThursdayOf(b1 + yday);
    assert thursday % 7 == 3;
    assert len0 in {365, 366} && len1 in {365, 366} && len2 in {365, 366};
    if thursday < b1 {
      ThursdaysCounted(b1 - len0, len0, thursday);
    } else if thursday < b1 + len1 {
      ThursdaysCounted(b1, len1, thursday);
    } else {
      ThursdaysCounted(b1, len1, thursday - 7);
    }
  }

  /** The ISO week date of a date by the true number of weeks, for every year. */
  lemma WeekDateByThursdays(year: int, yday: int)
    requires IsDate(year, yday)
    ensures var w := IsoWeekNum(yday, Weekday(year, yday));
      && 0 <= w <= 53
      && var day := DaysBefore(year) + yday;
      if w < 1 then IsIsoWeek(day, year - 1, YearWeeks(year - 1))
      else if w > YearWeeks(year) then IsIsoWeek(day, year + 1, 1)
      else IsIsoWeek(day, year, w)
  {
    hide DaysBefore;
    var b := DaysBefore(year);
    YearLength(year - 1);
    YearLength(year);
    YearLength(year + 1);
    WeekNumByThursday(b, yday);
    hide IsoWeekNum;
    ThreeBranches(b, DaysIn(year - 1), DaysIn(year), DaysIn(year + 1), yday, IsoWeekNum(yday, Weekday(year, yday)));
  }

  /** From year 0 on every date is regular. Before that, the dates that are not are the days of a
      53rd week: those the week number puts before the first week of a year whose predecessor has
      53 weeks, and those it puts into week 53 of a year that has one. */
  predicate Regular(year: int, yday: int) {
    var w := IsoWeekNum(yday, Weekday(year, yday));
    year >= 0 || ((w < 1 ==> YearWeeks(year - 1) == 52) && (w > 52 ==> YearWeeks(year) == 52))
  }

  /** Main result: for every date of every year, negative ones included, the code computes the ISO
      week date if and only if the date is regular. */
  lemma WeekDateCorrectIff(year: int, yday: int)
    requires IsDate(year, yday)
    ensures var wday := Weekday(year, yday);
      IsIsoWeek(DaysBefore(year) + yday, IsoWeekYear(year, yday, wday), IsoWeekOfYear(year, yday, wday))
      <==> Regular(year, yday)
  {
    hide DaysBefore, IsoYearWeeks, YearWeeks, IsoWeekNum, IsIsoWeek, IsDate, Weekday;
    var wday := Weekday(year, yday);
    var day, w := DaysBefore(year) + yday, IsoWeekNum(yday, wday);
    var wy, week := IsoWeekYear(year, yday, wday), IsoWeekOfYear(year, yday, wday);
    WeekDateByThursdays(year, yday);
    YearWeeksCountsThursdaysIff(year);
    YearWeeksCountsThursdaysIff(year - 1);
    var trueYear := if w < 1 then year - 1 else if w > YearWeeks(year) then year + 1 else year;
    var trueWeek := if w < 1 then YearWeeks(year - 1) else if w > YearWeeks(year) then 1 else w;
    assert IsIsoWeek(day, trueYear, trueWeek);
    if IsIsoWeek(day, wy, week) { IsoWeekUnique(day, wy, week, trueYear, trueWeek); }
  }

  /** Dates around the turn of a year, from a calendar: Saturday, January 1 of 2005 is in week 53 of
      2004, Monday, December 29 of 2008 in week 1 of 2009, and Sunday, January 3 of 2010 in week 53
      of 2009. */
  lemma KnownDates()
    ensures Weekday(2005, 0) == 6 && IsoWeekYear(2005, 0, 6) == 2004 && IsoWeekOfYear(2005, 0, 6) == 53
    ensures Weekday(2008, 363) == 1 && IsoWeekYear(2008, 363, 1) == 2009 && IsoWeekOfYear(2008, 363, 1) == 1
    ensures Weekday(2010, 2) == 0 && IsoWeekYear(2010, 2, 0) == 2009 && IsoWeekOfYear(2010, 2, 0) == 53
  {
    KnownYears();
    assert IsoWeekNum(0, 6) == 0 && IsoWeekNum(363, 1) == 53 && IsoWeekNum(2, 0) == 0;
    hide IsoYearWeeks, IsoWeekNum, DaysBefore;
  }

  lemma KnownYears()
    ensures IsoYearWeeks(2004) == 53 && IsoYearWeeks(2008) == 52 && IsoYearWeeks(2009) == 53
    ensures DaysBefore(2005) == 731946 && DaysBefore(2008) == 733041 && DaysBefore(2010) == 733772
  {
  }

  /** There are dates that are not: January 1 of year -1 gets week 52 instead of week 53. */
  lemma YearBeforeZeroFails()
    ensures IsDate(-1, 0) && Weekday(-1, 0) == 5
    ensures IsoWeekYear(-1, 0, 5) == -2 && IsoWeekOfYear(-1, 0, 5) == 52
    ensures IsIsoWeek(DaysBefore(-1), -2, 53) && !IsIsoWeek(DaysBefore(-1), -2, 52)
  {
    hide DaysBefore, IsoYearWeeks;
    DaysBeforeSmall();
    NoLongYears(-2);
    assert IsoWeekNum(0, 5) == 0;
  }

  /** A day has only one ISO week date. */
  lemma IsoWeekUnique(day: int, y1: int, w1: int, y2: int, w2: int)
    requires IsIsoWeek(day, y1, w1) && IsIsoWeek(day, y2, w2)
    ensures y1 == y2 && w1 == w2
  {
    if y1 < y2 {
      DaysBeforeMonotone(y1 + 1, y2);
    } else if y2 < y1 {
      DaysBeforeMonotone(y2 + 1, y1);
    }
  }

  lemma {:induction false} DaysBeforeMonotone(y1: int, y2: int)
    requires y1 <= y2
    ensures DaysBefore(y1) <= DaysBefore(y2)
    decreases y2 - y1
  {
    if y1 < y2 {
      YearLength(y1);
      DaysBeforeMonotone(y1 + 1, y2);
    }
  }

  /** From one day to the next, across every year boundary: between regular dates the code's week
      date stays the same except when a Monday begins, and then moves on by one week, within the
      year or from the last week of a year to week 1 of the next. */
  lemma NextDay(y1: int, d1: int, y2: int, d2: int)
    requires IsDate(y1, d1) && IsDate(y2, d2) && Regular(y1, d1) && Regular(y2, d2)
    requires DaysBefore(y2) + d2 == DaysBefore(y1) + d1 + 1
    ensures var wd1, wd2 := Weekday(y1, d1), Weekday(y2, d2);
            var wy1, w1 := IsoWeekYear(y1, d1, wd1), IsoWeekOfYear(y1, d1, wd1);
            var wy2, w2 := IsoWeekYear(y2, d2, wd2), IsoWeekOfYear(y2, d2, wd2);
            && 1 <= w1 <= YearWeeks(wy1)
            && if wd2 != 1 then wy2 == wy1 && w2 == w1
               else if w1 < YearWeeks(wy1) then wy2 == wy1 && w2 == w1 + 1
               else wy2 == wy1 + 1 && w2 == 1
  {
    hide DaysBefore, DaysIn, IsoYearWeeks, YearWeeks, IsoWeekOfYear, IsoWeekYear, IsoWeekNum, Regular;
    WeekDateCorrectIff(y1, d1);
    WeekDateCorrectIff(y2, d2);
    var day := DaysBefore(y1) + d1;
    var wy, w := IsoWeekYear(y1, d1, Weekday(y1, d1)), IsoWeekOfYear(y1, d1, Weekday(y1, d1));
    var wy2, w2 := IsoWeekYear(y2, d2, Weekday(y2, d2)), IsoWeekOfYear(y2, d2, Weekday(y2, d2));
    NextWeek(day, wy, w);
    NextThursday(day);
    if (day + 2) % 7 != 1 {
      IsoWeekUnique(day + 1, wy, w, wy2, w2);
    } else if w < YearWeeks(wy) {
      IsoWeekUnique(day + 1, wy, w + 1, wy2, w2);
    } else {
      IsoWeekUnique(day + 1, wy + 1, 1, wy2, w2);
    }
  }

  /** Where the ISO week of the next day is, by the definition alone. */
  lemma NextWeek(day: int, wy: int, w: int)
    requires IsIsoWeek(day, wy, w)
    ensures 1 <= w <= YearWeeks(wy)
    ensures if (day + 2) % 7 != 1 then IsIsoWeek(day + 1, wy, w)
            else if w < YearWeeks(wy) then IsIsoWeek(day + 1, wy, w + 1)
            else IsIsoWeek(day + 1, wy + 1, 1)
  {
    hide DaysBefore, DaysIn;
    YearLength(wy);
    YearLength(wy + 1);
    NextThursday(day);
    ThursdaysCounted(DaysBefore(wy), DaysIn(wy), ThursdayOf(day));
  }

  lemma NextThursday(day: int)
    ensures ThursdayOf(day) % 7 == 3
    ensures ThursdayOf(day + 1) == ThursdayOf(day) + if (day + 2) % 7 == 1 then 7 else 0
  {
  }
}
