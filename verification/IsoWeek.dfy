/**
 ISO 8601 week dates as section 7.27.3.5 of ISO/IEC 9899:2011 describes them for %G and %V: weeks
 start on Monday, and week 1 is the week that contains the first Thursday of the year.
 */
module IsoWeek {
  import opened Calendar

  // The code.

  const DAYS_PER_WEEK := 7

  function IsoYearWeeks(currYear: int): int {
    var prevYear := currYear - 1;
    var currP := TruncMod(currYear + TruncDiv(currYear, 4) - TruncDiv(currYear, 100) + TruncDiv(currYear, 400), DAYS_PER_WEEK);
    var prevP := TruncMod(prevYear + TruncDiv(prevYear, 4) - TruncDiv(prevYear, 100) + TruncDiv(prevYear, 400), DAYS_PER_WEEK);
    52 + if currP == 4 || prevP == 3 then 1 else 0
  }

  function IsoWeekNum(yday: int, wday: int): int {
    TruncDiv(yday + 11 - (if wday == 0 then DAYS_PER_WEEK else wday), DAYS_PER_WEEK)
  }

  function IsoWeekYear(tm: Tm): int {
    var year := tm.Year();
    var w := IsoWeekNum(tm.yday, tm.wday);
    if w < 1 then year - 1
    else if w > IsoYearWeeks(year) then year + 1
    else year
  }

  function IsoWeekOfYear(tm: Tm): int {
    var year := tm.Year();
    var w := IsoWeekNum(tm.yday, tm.wday);
    if w < 1 then IsoYearWeeks(year - 1)
    else if w > IsoYearWeeks(year) then 1
    else w
  }

  // The standard.

  /** 1 is Monday, 7 is Sunday. */
  function IsoWeekDay(wday: int): int {
    if wday == 0 then 7 else wday
  }

  function FirstThursday(year: int): int {
    NewYear(year) + (3 - NewYear(year)) % 7
  }

  /** A year has as many weeks as Thursdays. */
  function WeeksIn(year: int): int {
    (NewYear(year + 1) - 1 - FirstThursday(year)) / 7 + 1
  }

  /** The week date names this day, and is a proper one. */
  predicate Denotes(year: int, week: int, weekDay: int, day: int) {
    && 1 <= week <= WeeksIn(year)
    && 1 <= weekDay <= 7
    && day == FirstThursday(year) + 7 * (week - 1) + (weekDay - 4)
  }

  lemma FirstThursdayIs(year: int)
    ensures WeekDay(FirstThursday(year)) == 4
    ensures NewYear(year) <= FirstThursday(year) < NewYear(year) + 7
  {
    var n := NewYear(year);
    var q, r := (3 - n) / 7, (3 - n) % 7;
    assert FirstThursday(year) + 1 == 4 + 7 * (-q);
  }

  /** No day has two week dates. */
  lemma WeekDateUnique(day: int, y1: int, w1: int, d1: int, y2: int, w2: int, d2: int)
    requires Denotes(y1, w1, d1, day) && Denotes(y2, w2, d2, day)
    ensures y1 == y2 && w1 == w2 && d1 == d2
  {
    FirstThursdayIs(y1);
    FirstThursdayIs(y2);
    SameWeek(FirstThursday(y1), w1 - 1, d1 - 4, FirstThursday(y2), w2 - 1, d2 - 4);
    YearUnique(FirstThursday(y1) + 7 * (w1 - 1), y1, y2);
  }

  lemma SameWeek(t1: int, k1: int, e1: int, t2: int, k2: int, e2: int)
    requires WeekDay(t1) == 4 && WeekDay(t2) == 4 && -3 <= e1 <= 3 && -3 <= e2 <= 3
    requires t1 + 7 * k1 + e1 == t2 + 7 * k2 + e2
    ensures e1 == e2
  {
  }

  // Year lengths.

  /** The remainder the code computes is the weekday of the next 1 January, Monday being 0. */
  lemma RemainderIsNextNewYear(y: int)
    ensures (y + LeapYears(y)) % 7 == NewYear(y + 1) % 7
  {
    NewYearClosed(y + 1);
    ModShift(y + LeapYears(y), 52 * y);
  }

  lemma ModShift(x: int, k: int)
    ensures (x + 7 * k) % 7 == x % 7
  {
  }

  lemma WeeksInCases(year: int)
    ensures WeeksIn(year) == if NewYear(year) % 7 == 3 || NewYear(year + 1) % 7 == 4 then 53 else 52
  {
    var a := NewYear(year) % 7;
    var c := (3 - NewYear(year)) % 7;
    NewYearNext(year);
    assert c == if a <= 3 then 3 - a else 10 - a;
    assert NewYear(year + 1) % 7 == (a + YearLength(year)) % 7;
  }

  lemma CodeRemainder(y: int)
    requires y >= 0
    ensures TruncMod(y + TruncDiv(y, 4) - TruncDiv(y, 100) + TruncDiv(y, 400), 7) == NewYear(y + 1) % 7
  {
    RemainderIsNextNewYear(y);
    assert y / 100 <= y;
  }

  lemma YearWeeksCorrect(year: int)
    requires year >= 1
    ensures IsoYearWeeks(year) == WeeksIn(year)
  {
    CodeRemainder(year);
    CodeRemainder(year - 1);
    WeeksInCases(year);
  }

  /** Before year 1 the truncating remainders are never positive, so no long year is seen. */
  lemma YearWeeksBeforeYearOne(year: int)
    requires year <= 0
    ensures IsoYearWeeks(year) == 52
  {
  }

  // The result.

  lemma FirstThursdayNext(year: int)
    ensures FirstThursday(year + 1) == FirstThursday(year) + 7 * WeeksIn(year)
  {
    FirstThursdayIs(year);
    FirstThursdayIs(year + 1);
    var a, b := FirstThursday(year), FirstThursday(year + 1);
    NewYearNext(year);
  }

  /** The Thursday of the day's week, counted from the first Thursday of the day's calendar year. */
  lemma WeekNumCountsThursdays(tm: Tm)
    requires tm.ValidDay() && tm.wday == WeekDay(tm.Day())
    ensures tm.Day() == FirstThursday(tm.Year()) + 7 * (IsoWeekNum(tm.yday, tm.wday) - 1) + (IsoWeekDay(tm.wday) - 4)
    ensures 1 <= IsoWeekDay(tm.wday) <= 7 && 0 <= IsoWeekNum(tm.yday, tm.wday)
  {
    var n, t := NewYear(tm.Year()), tm.yday - IsoWeekDay(tm.wday) + 4;
    assert IsoWeekNum(tm.yday, tm.wday) == (t + 7) / 7;
  }

  /** The true week date of a day, by the three cases the code distinguishes. */
  lemma WeekDateByCases(tm: Tm)
    requires tm.ValidDay() && tm.wday == WeekDay(tm.Day())
    ensures var y, w, d := tm.Year(), IsoWeekNum(tm.yday, tm.wday), IsoWeekDay(tm.wday);
            && (w < 1 ==> Denotes(y - 1, WeeksIn(y - 1), d, tm.Day()))
            && (1 <= w <= WeeksIn(y) ==> Denotes(y, w, d, tm.Day()))
            && (w > WeeksIn(y) ==> Denotes(y + 1, 1, d, tm.Day()))
  {
    var y, w := tm.Year(), IsoWeekNum(tm.yday, tm.wday);
    WeekNumCountsThursdays(tm);
    hide IsoWeekNum, WeekDay;
    FirstThursdayNext(y - 1);
    FirstThursdayNext(y);
    WeeksInCases(y - 1);
    WeeksInCases(y + 1);
    if w > WeeksIn(y) {
      FirstThursdayIs(y + 1);
      NewYearNext(y);
    }
  }

  /** From year 1 on, every day gets the week date that denotes it. */
  lemma WeekDateCorrect(tm: Tm)
    requires tm.ValidDay() && tm.wday == WeekDay(tm.Day()) && tm.Year() >= 1
    ensures Denotes(IsoWeekYear(tm), IsoWeekOfYear(tm), IsoWeekDay(tm.wday), tm.Day())
  {
    var y, w := tm.Year(), IsoWeekNum(tm.yday, tm.wday);
    WeekDateByCases(tm);
    YearWeeksCorrect(y);
    if w < 1 {
      if y == 1 {
        FirstYearHasNoWeekZero(tm);
      }
      YearWeeksCorrect(y - 1);
    }
  }

  lemma FirstYearHasNoWeekZero(tm: Tm)
    requires tm.ValidDay() && tm.wday == WeekDay(tm.Day()) && tm.Year() == 1
    ensures IsoWeekNum(tm.yday, tm.wday) >= 1
  {
    WeekNumCountsThursdays(tm);
    assert FirstThursday(1) == 3;
  }

  /** The weekday of 1 January, Monday being 0, from the fields of a day in that year. */
  function NewYearsDay(tm: Tm): int {
    (tm.wday + 6 - tm.yday) % 7
  }

  /** A year has 53 weeks if it starts on a Thursday, or ends on one. */
  predicate IsLong(newYearsDay: int, year: int) {
    newYearsDay == 3 || (newYearsDay + YearLength(year)) % 7 == 4
  }

  /** In a 53rd week before year 1: either of this year, or, in its first days, of the year before. */
  predicate InOldLongWeek(tm: Tm) {
    var y, w := tm.Year(), IsoWeekNum(tm.yday, tm.wday);
    y < 1 &&
    if w < 1 then IsLong((NewYearsDay(tm) - YearLength(y - 1)) % 7, y - 1) else w == 53 && IsLong(NewYearsDay(tm), y)
  }

  lemma NewYearsDayIs(tm: Tm)
    requires tm.wday == WeekDay(tm.Day())
    ensures NewYearsDay(tm) == NewYear(tm.Year()) % 7
  {
  }

  /** The test on the fields is right about both years it may be asked about. */
  lemma IsLongIff(tm: Tm)
    requires tm.wday == WeekDay(tm.Day())
    ensures var y := tm.Year();
            && (IsLong(NewYearsDay(tm), y) <==> WeeksIn(y) == 53)
            && (IsLong((NewYearsDay(tm) - YearLength(y - 1)) % 7, y - 1) <==> WeeksIn(y - 1) == 53)
  {
    var y := tm.Year();
    NewYearsDayIs(tm);
    NewYearNext(y);
    NewYearNext(y - 1);
    WeeksInCases(y);
    WeeksInCases(y - 1);
    SumMod(NewYear(y), YearLength(y));
    SumMod(NewYear(y), -YearLength(y - 1));
    SumMod(NewYear(y) - YearLength(y - 1), YearLength(y - 1));
  }

  lemma SumMod(a: int, b: int)
    ensures (a % 7 + b) % 7 == (a + b) % 7
  {
    assert a + b == a % 7 + b + 7 * (a / 7);
    ModShift(a % 7 + b, a / 7);
  }

  /** Over all years, positive or not: the days that get a wrong week date are exactly these. */
  lemma WeekDateCorrectIff(tm: Tm)
    requires tm.ValidDay() && tm.wday == WeekDay(tm.Day())
    ensures Denotes(IsoWeekYear(tm), IsoWeekOfYear(tm), IsoWeekDay(tm.wday), tm.Day()) <==> !InOldLongWeek(tm)
  {
    if tm.Year() >= 1 {
      WeekDateCorrect(tm);
    } else {
      OldWeekDate(tm);
    }
  }

  function TrueWeekYear(tm: Tm): int {
    var y, w := tm.Year(), IsoWeekNum(tm.yday, tm.wday);
    if w < 1 then y - 1 else if w > WeeksIn(y) then y + 1 else y
  }

  function TrueWeek(tm: Tm): int {
    var y, w := tm.Year(), IsoWeekNum(tm.yday, tm.wday);
    if w < 1 then WeeksIn(y - 1) else if w > WeeksIn(y) then 1 else w
  }

  lemma OldCodeIsTrueIff(tm: Tm)
    requires tm.wday == WeekDay(tm.Day()) && tm.Year() < 1
    ensures IsoWeekYear(tm) == TrueWeekYear(tm) && IsoWeekOfYear(tm) == TrueWeek(tm) <==> !InOldLongWeek(tm)
  {
    hide IsLong, NewYearsDay, WeekDay, WeeksIn, IsoWeekNum, IsoYearWeeks;
    var y := tm.Year();
    YearWeeksBeforeYearOne(y);
    YearWeeksBeforeYearOne(y - 1);
    WeeksInCases(y);
    WeeksInCases(y - 1);
    IsLongIff(tm);
  }

  lemma OldWeekDate(tm: Tm)
    requires tm.ValidDay() && tm.wday == WeekDay(tm.Day()) && tm.Year() < 1
    ensures Denotes(IsoWeekYear(tm), IsoWeekOfYear(tm), IsoWeekDay(tm.wday), tm.Day()) <==> !InOldLongWeek(tm)
  {
    hide InOldLongWeek, WeekDay, FirstThursday, WeeksIn, IsoWeekNum, IsoYearWeeks, Denotes;
    var d, day := IsoWeekDay(tm.wday), tm.Day();
    OldCodeIsTrueIff(tm);
    WeekDateByCases(tm);
    if Denotes(IsoWeekYear(tm), IsoWeekOfYear(tm), d, day) {
      WeekDateUnique(day, IsoWeekYear(tm), IsoWeekOfYear(tm), d, TrueWeekYear(tm), TrueWeek(tm), d);
    }
  }

  /** There are such days: 31 December of year -2, a Thursday. */
  lemma OldLongWeekExists()
    ensures var tm := Tm(0, 0, 0, 31, 11, -1902, 4, 364);
            tm.ValidDay() && tm.wday == WeekDay(tm.Day()) && InOldLongWeek(tm)
  {
    NewYearClosed(-2);
    assert NewYear(-2) % 7 == 3;
  }
}
