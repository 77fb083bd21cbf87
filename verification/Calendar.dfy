/**
 The proleptic Gregorian calendar that both date computations are measured against, and the C and
 C++ integer operators they use. Day 0 is Monday, 1 January of year 1.
 */
module Calendar {

  /** Division and remainder that truncate toward zero. */
  function TruncDiv(a: int, b: int): int
    requires b > 0
  {
    if a >= 0 then a / b else -((-a) / b)
  }

  function TruncMod(a: int, b: int): int
    requires b > 0
  {
    a - b * TruncDiv(a, b)
  }

  predicate IsLeap(year: int) {
    year % 4 == 0 && (year % 100 != 0 || year % 400 == 0)
  }

  function YearLength(year: int): int {
    if IsLeap(year) then 366 else 365
  }

  /** The day number of 1 January: what the years in between add up to. */
  function NewYear(year: int): int
    decreases if year >= 1 then year - 1 else 1 - year
  {
    if year == 1 then 0
    else if year > 1 then NewYear(year - 1) + YearLength(year - 1)
    else NewYear(year + 1) - YearLength(year)
  }

  lemma NewYearNext(year: int)
    ensures NewYear(year + 1) == NewYear(year) + YearLength(year)
  {
  }

  /** The number of leap years among years 1 to y, continued to all integers. */
  function LeapYears(y: int): int {
    y / 4 - y / 100 + y / 400
  }

  lemma LeapYearsNext(y: int)
    ensures LeapYears(y) == LeapYears(y - 1) + if IsLeap(y) then 1 else 0
  {
    DivNext(y, 4);
    DivNext(y, 100);
    DivNext(y, 400);
  }

  lemma DivNext(y: int, n: int)
    requires n > 0
    ensures y / n == (y - 1) / n + if y % n == 0 then 1 else 0
  {
    var q, r := y / n, y % n;
    assert y == q * n + r;
    if r == 0 {
      assert y - 1 == (q - 1) * n + (n - 1);
      DivUnique(y - 1, n, q - 1, n - 1);
    } else {
      assert y - 1 == q * n + (r - 1);
      DivUnique(y - 1, n, q, r - 1);
    }
  }

  lemma DivUnique(a: int, n: int, q: int, r: int)
    requires n > 0 && a == q * n + r && 0 <= r < n
    ensures a / n == q && a % n == r
  {
    var q', r' := a / n, a % n;
    assert a == q' * n + r';
    MultipleIsFar(q - q', n);
    assert (q - q') * n == r' - r;
  }

  lemma MultipleIsFar(d: int, n: int)
    requires n > 0
    ensures d >= 1 ==> d * n >= n
    ensures d <= -1 ==> d * n <= -n
  {
    assert d >= 1 ==> (d - 1) * n >= 0;
    assert d <= -1 ==> (-d - 1) * n >= 0;
  }

  /** The closed form of the day count, by induction over the years in both directions. */
  lemma {:induction false} NewYearClosed(year: int)
    ensures NewYear(year) == 365 * (year - 1) + LeapYears(year - 1)
    decreases if year >= 1 then year - 1 else 1 - year
  {
    if year > 1 {
      NewYearClosed(year - 1);
      LeapYearsNext(year - 1);
    } else if year < 1 {
      NewYearClosed(year + 1);
      LeapYearsNext(year);
    }
  }

  lemma {:induction false} NewYearMonotonic(y1: int, y2: int)
    requires y1 <= y2
    ensures NewYear(y1) <= NewYear(y2)
    decreases y2 - y1
  {
    if y1 < y2 {
      NewYearNext(y2 - 1);
      NewYearMonotonic(y1, y2 - 1);
    }
  }

  /** Years do not overlap, so a day lies in only one. */
  lemma YearUnique(day: int, y1: int, y2: int)
    requires NewYear(y1) <= day < NewYear(y1 + 1) && NewYear(y2) <= day < NewYear(y2 + 1)
    ensures y1 == y2
  {
    if y1 < y2 {
      NewYearMonotonic(y1 + 1, y2);
    } else if y2 < y1 {
      NewYearMonotonic(y2 + 1, y1);
    }
  }

  /** std::tm without the daylight saving flag; `wday` counts from Sunday. */
  datatype Tm = Tm(sec: int, min: int, hour: int, mday: int, mon: int, year: int, wday: int, yday: int) {
    /** The calendar year; tm_year counts from 1900. */
    function Year(): int {
      year + 1900
    }

    predicate ValidDay() {
      0 <= yday < YearLength(Year())
    }

    function Day(): int {
      NewYear(Year()) + yday
    }

    function Seconds(): int {
      ((Day() * 24 + hour) * 60 + min) * 60 + sec
    }
  }

  /** 0 is Sunday; day 0 is a Monday. */
  function WeekDay(day: int): int {
    (day + 1) % 7
  }
}
