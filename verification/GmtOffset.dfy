/** The offset from UTC on systems whose std::tm has no tm_gmtoff. */
module GmtOffset {
  import opened Calendar

  /** An arithmetic right shift by two rounds down. */
  function ShiftRight2(a: int): int {
    a / 4
  }

  function CalculateGmtOffset(local: Tm, gmt: Tm): int {
    var localYear := local.year + (1900 - 1);
    var gmtYear := gmt.year + (1900 - 1);
    var days :=
      (local.yday - gmt.yday
       + (ShiftRight2(localYear) - ShiftRight2(gmtYear)) - (TruncDiv(localYear, 100) - TruncDiv(gmtYear, 100))
       + (ShiftRight2(TruncDiv(localYear, 100)) - ShiftRight2(TruncDiv(gmtYear, 100)))
       + (localYear - gmtYear) * 365);
    var hours := 24 * days + (local.hour - gmt.hour);
    var mins := 60 * hours + (local.min - gmt.min);
    60 * mins + (local.sec - gmt.sec)
  }

  /** utc_minutes_offset: whole minutes, rounded toward zero. */
  function UtcMinutesOffset(local: Tm, gmt: Tm): int {
    TruncDiv(CalculateGmtOffset(local, gmt), 60)
  }

  /** What the code takes for the leap years up to y, with its mix of truncation and shifts. */
  function CodeLeapYears(y: int): int {
    ShiftRight2(y) - TruncDiv(y, 100) + ShiftRight2(TruncDiv(y, 100))
  }

  /** Years whose century division rounds the wrong way and is not made up for by the shift. */
  predicate OffByOne(y: int) {
    y < 0 && y % 100 != 0 && (y / 100) % 4 != 3
  }

  lemma CodeLeapYearsError(y: int)
    ensures CodeLeapYears(y) == LeapYears(y) - if OffByOne(y) then 1 else 0
  {
    DivNext(y / 100 + 1, 4);
  }

  /** Seconds since year 1, given the number of leap years before the year. */
  function SecondsWith(tm: Tm, leapYears: int): int {
    (((365 * (tm.Year() - 1) + leapYears + tm.yday) * 24 + tm.hour) * 60 + tm.min) * 60 + tm.sec
  }

  lemma SecondsByCount(tm: Tm)
    ensures tm.Seconds() == SecondsWith(tm, LeapYears(tm.Year() - 1))
  {
    NewYearClosed(tm.Year());
    var leapYears := LeapYears(tm.Year() - 1);
    assert tm.Day() == 365 * (tm.Year() - 1) + leapYears + tm.yday;
  }

  /**
   For any two broken-down times, of any years, the computed offset is their true distance in
   seconds exactly when the rounding errors of the two years cancel.
   */
  lemma OffsetIsTrueDifferenceIff(local: Tm, gmt: Tm)
    ensures CalculateGmtOffset(local, gmt) == local.Seconds() - gmt.Seconds()
       <==> OffByOne(local.Year() - 1) == OffByOne(gmt.Year() - 1)
  {
    SecondsByCount(local);
    SecondsByCount(gmt);
    CodeLeapYearsError(local.Year() - 1);
    CodeLeapYearsError(gmt.Year() - 1);
  }

  /** In particular it always is from year 1 on. */
  lemma OffsetIsTrueDifference(local: Tm, gmt: Tm)
    requires local.Year() >= 1 && gmt.Year() >= 1
    ensures CalculateGmtOffset(local, gmt) == local.Seconds() - gmt.Seconds()
    ensures UtcMinutesOffset(local, gmt) == TruncDiv(local.Seconds() - gmt.Seconds(), 60)
  {
    OffsetIsTrueDifferenceIff(local, gmt);
  }

  /** Before that it can miss by a day: midnight around the start of year -99. */
  lemma OffsetFailsBeforeYearOne()
    ensures var local := Tm(0, 0, 0, 1, 0, -1999, 0, 0);
            var gmt := Tm(0, 0, 0, 31, 11, -2000, 0, 364);
            && local.ValidDay() && gmt.ValidDay()
            && local.Seconds() - gmt.Seconds() == 86400
            && CalculateGmtOffset(local, gmt) != 86400
  {
    var local := Tm(0, 0, 0, 1, 0, -1999, 0, 0);
    var gmt := Tm(0, 0, 0, 31, 11, -2000, 0, 364);
    NewYearNext(-100);
    OffsetIsTrueDifferenceIff(local, gmt);
  }
}
