/** The Gregorian calendar as successive days, and the closed form that MyTime::toTime computes
    instead (MyTime.h). */
module Calendar {
  datatype Date = Date(year: int, month: int, day: int)

  predicate Leap(year: int) { (year % 4 == 0 && year % 100 != 0) || year % 400 == 0 }

  const MON_DAY: seq<int> := [31, 28, 31, 30, 31, 30, 31, 31, 30, 31, 30, 31]

  function DaysIn(year: int, month: int): (n: int)
    requires 1 <= month <= 12
    ensures 28 <= n <= 31
  {
    if month == 2 && Leap(year) then 29 else MON_DAY[month - 1]
  }

  predicate Valid(d: Date) { 1 <= d.month <= 12 && 1 <= d.day <= DaysIn(d.year, d.month) }

  const EPOCH := Date(1970, 1, 1)

  function NextDay(d: Date): (r: Date)
    requires Valid(d)
    ensures Valid(r)
  {
    if d.day < DaysIn(d.year, d.month) then d.(day := d.day + 1)
    else if d.month < 12 then Date(d.year, d.month + 1, 1)
    else Date(d.year + 1, 1, 1)
  }

  function PrevDay(d: Date): (r: Date)
    requires Valid(d)
    ensures Valid(r)
  {
    if d.day > 1 then d.(day := d.day - 1)
    else if d.month > 1 then Date(d.year, d.month - 1, DaysIn(d.year, d.month - 1))
    else Date(d.year - 1, 12, 31)
  }

  /** The day n days after the first of January 1970, or before it. */
  function DateOf(n: int): (d: Date)
    ensures Valid(d)
    decreases if n < 0 then -n else n
  {
    if n == 0 then EPOCH else if n > 0 then NextDay(DateOf(n - 1)) else PrevDay(DateOf(n + 1))
  }

  lemma DateOfNext(n: int)
    ensures DateOf(n + 1) == NextDay(DateOf(n))
  {
  }

  function YearLength(year: int): int { if Leap(year) then 366 else 365 }

  /** Days from the first of January 1970 to the first of January of a year, year by year. */
  function YearStart(year: int): int
    decreases if year < 1970 then 1970 - year else year - 1970
  {
    if year == 1970 then 0
    else if year > 1970 then YearStart(year - 1) + YearLength(year - 1)
    else YearStart(year + 1) - YearLength(year)
  }

  function MonthStart(year: int, month: int): int
    requires 1 <= month <= 13
    decreases month
  {
    if month == 1 then 0 else MonthStart(year, month - 1) + DaysIn(year, month - 1)
  }

  /** Days since the first of January 1970. */
  function DayNo(d: Date): int
    requires Valid(d)
  {
    YearStart(d.year) + MonthStart(d.year, d.month) + d.day - 1
  }

  lemma YearNext(year: int)
    ensures YearStart(year + 1) == YearStart(year) + YearLength(year)
  {
  }

  lemma MonthsFill(year: int)
    ensures MonthStart(year, 13) == YearLength(year)
  {
    assert MonthStart(year, 4) == 90 + if Leap(year) then 1 else 0;
    assert MonthStart(year, 7) == MonthStart(year, 4) + 91;
    assert MonthStart(year, 10) == MonthStart(year, 7) + 92;
  }

  /** Counting days agrees with stepping from day to day. */
  lemma DayNoNext(d: Date)
    requires Valid(d)
    ensures DayNo(NextDay(d)) == DayNo(d) + 1
  {
    if d.month == 12 && d.day == 31 {
      YearNext(d.year);
      MonthsFill(d.year);
      assert MonthStart(d.year, 13) == MonthStart(d.year, 12) + 31;
    }
  }

  lemma {:induction false} DayNoOf(n: int)
    ensures DayNo(DateOf(n)) == n
    decreases if n < 0 then -n else n
  {
    if n != 0 {
      var before := if n > 0 then n - 1 else n + 1;
      DayNoOf(before);
      DayNoStep(if n > 0 then before else n);
    }
  }

  lemma DayNoStep(n: int)
    ensures DayNo(DateOf(n + 1)) == DayNo(DateOf(n)) + 1
  {
    var d := DateOf(n);
    DateOfNext(n);
    DayNoNext(d);
  }

  // Order

  predicate Before(a: Date, b: Date) {
    a.year < b.year || (a.year == b.year && (a.month < b.month || (a.month == b.month && a.day < b.day)))
  }

  lemma {:induction false} YearsGrow(y: int, z: int)
    requires y <= z
    ensures YearStart(z) - YearStart(y) >= 365 * (z - y)
    decreases z - y
  {
    if y < z {
      YearsGrow(y, z - 1);
      YearNext(z - 1);
    }
  }

  lemma {:induction false} MonthsGrow(year: int, m: int, n: int)
    requires 1 <= m <= n <= 13
    ensures MonthStart(year, n) - MonthStart(year, m) >= 28 * (n - m)
    ensures m < n ==> MonthStart(year, n) >= MonthStart(year, m) + DaysIn(year, m)
    decreases n - m
  {
    if m < n {
      MonthsGrow(year, m, n - 1);
    }
  }

  lemma WithinYear(d: Date)
    requires Valid(d)
    ensures YearStart(d.year) <= DayNo(d) < YearStart(d.year + 1)
  {
    MonthsGrow(d.year, 1, d.month);
    MonthsGrow(d.year, d.month, 13);
    MonthsFill(d.year);
    YearNext(d.year);
  }

  /** Counting days keeps the order of dates. */
  lemma DayNoOrder(a: Date, b: Date)
    requires Valid(a) && Valid(b)
    ensures Before(a, b) <==> DayNo(a) < DayNo(b)
    ensures a == b <==> DayNo(a) == DayNo(b)
  {
    if Before(a, b) {
      DayNoGrows(a, b);
    } else if Before(b, a) {
      DayNoGrows(b, a);
    }
  }

  lemma DayNoGrows(a: Date, b: Date)
    requires Valid(a) && Valid(b) && Before(a, b)
    ensures DayNo(a) < DayNo(b)
  {
    if a.year < b.year {
      WithinYear(a);
      WithinYear(b);
      YearsGrow(a.year + 1, b.year);
    } else if a.month < b.month {
      MonthsGrow(a.year, a.month, b.month);
    }
  }

  /** Every date is reached by stepping, and by its own number of steps. */
  lemma DateOfNo(d: Date)
    requires Valid(d)
    ensures DateOf(DayNo(d)) == d
  {
    DayNoOf(DayNo(d));
    DayNoOrder(DateOf(DayNo(d)), d);
  }

  // The closed form

  /** C's division and remainder, rounding towards zero. */
  function Quot(a: int, b: int): int
    requires b > 0
  {
    if a >= 0 then a / b else -((-a) / b)
  }

  function Rem(a: int, b: int): int
    requires b > 0
  {
    a - b * Quot(a, b)
  }

  /** toTime's count of leap years between 1970 and a year. */
  function LeapYears(year: int): int {
    var i := Quot(year - 2001, 100);
    Quot(year - 1969, 4) - (Quot(i, 4) * 3 + Rem(i, 4))
  }

  /** toTime's day offset. No month is added up for a month below 1. */
  function CodeDay(d: Date): int
    requires d.month <= 13
  {
    CodeMonths(if d.month < 1 then 0 else d.month - 1) + (if Leap(d.year) && d.month > 2 then 1 else 0) + (d.day - 1) +
    (d.year - 1970) * 365 + LeapYears(d.year)
  }

  /** Sum of the first entries of mon_day. */
  function CodeMonths(n: nat): int
    requires n <= 12
  {
    if n == 0 then 0 else CodeMonths(n - 1) + MON_DAY[n - 1]
  }

  lemma {:induction false} CodeMonthsRight(year: int, month: int)
    requires 1 <= month <= 13
    ensures MonthStart(year, month) == CodeMonths(month - 1) + if Leap(year) && month > 2 then 1 else 0
    decreases month
  {
    if month > 1 {
      CodeMonthsRight(year, month - 1);
    }
  }

  /** From 1970 on, the leap-year formula counts what the year-by-year definition adds up. */
  lemma {:induction false} LeapYearsRight(year: int)
    requires year >= 1970
    ensures YearStart(year) == (year - 1970) * 365 + LeapYears(year)
    decreases year
  {
    if year > 1970 {
      LeapYearsRight(year - 1);
      LeapYearsStep(year - 1);
    }
  }

  lemma LeapYearsStep(year: int)
    requires year >= 1970
    ensures LeapYears(year + 1) == LeapYears(year) + if Leap(year) then 1 else 0
  {
    QuarterStep(year);
    if year < 2001 {
      CenturiesOld(year);
    } else {
      CenturiesNew(year);
      CenturiesNew(year + 1);
      CenturyStep(year);
    }
  }

  lemma QuarterStep(year: int)
    requires year >= 1970
    ensures (year + 1 - 1969) / 4 == (year - 1969) / 4 + if year % 4 == 0 then 1 else 0
    ensures var skipped := year % 100 == 0 && year % 400 != 0;
            (skipped ==> year % 4 == 0) && (Leap(year) <==> year % 4 == 0 && !skipped)
    ensures year % 100 == 0 && year < 2001 ==> year == 2000
  {
    assert year % 400 == 0 ==> year == 100 * (4 * (year / 400)) && year == 4 * (100 * (year / 400));
  }

  lemma CenturiesOld(year: int)
    requires 1970 <= year < 2001
    ensures LeapYears(year) == (year - 1969) / 4 && LeapYears(year + 1) == (year + 1 - 1969) / 4
  {
  }

  lemma CenturiesNew(year: int)
    requires year >= 2001
    ensures LeapYears(year) == (year - 1969) / 4 - (year - 2001) / 100 + (year - 2001) / 100 / 4
  {
  }

  /** A century year is skipped unless 400 divides it. */
  lemma CenturyStep(year: int)
    requires year >= 2001
    ensures var c, next := (year - 2001) / 100, (year - 2000) / 100;
            next - next / 4 == c - c / 4 + if year % 100 == 0 && year % 400 != 0 then 1 else 0
  {
    var c := (year - 2001) / 100;
    if year % 100 == 0 {
      assert year == 2100 + 100 * c;
      assert year % 400 == 0 <==> (c + 1) % 4 == 0;
    } else {
      assert (year - 2000) / 100 == c;
    }
  }

  /** Between 1902 and 1969 it is right only in years that follow a leap year's place. */
  lemma {:induction false} YearStartEarly(year: int)
    requires 1902 <= year <= 1970
    ensures YearStart(year) == (year - 1970) * 365 - (1972 - year) / 4
    decreases 1970 - year
  {
    if year < 1970 {
      YearStartEarly(year + 1);
      assert Leap(year) <==> year % 4 == 0;
      assert (1972 - year) / 4 == (1971 - year) / 4 + if year % 4 == 0 then 1 else 0;
    }
  }

  lemma LeapYearsEarly(year: int)
    requires 1902 <= year < 1970
    ensures LeapYears(year) == -((1969 - year) / 4)
  {
  }

  /** toTime's day offset is the day count exactly from 1970 on, and before that in one year of four. */
  lemma ClosedFormExact(d: Date)
    requires Valid(d) && d.year >= 1902
    ensures CodeDay(d) == DayNo(d) <==> d.year >= 1970 || d.year % 4 == 1
  {
    CodeMonthsRight(d.year, d.month);
    FormulaExact(d.year);
  }

  lemma FormulaExact(year: int)
    requires year >= 1902
    ensures YearStart(year) == (year - 1970) * 365 + LeapYears(year) <==> year >= 1970 || year % 4 == 1
  {
    if year >= 1970 {
      LeapYearsRight(year);
    } else {
      YearStartEarly(year);
      LeapYearsEarly(year);
    }
  }

  /** The lengths of the months, and the leap years. */
  lemma MonthLengths(year: int)
    ensures forall m :: 1 <= m <= 12 && m in {1, 3, 5, 7, 8, 10, 12} ==> DaysIn(year, m) == 31
    ensures forall m :: 1 <= m <= 12 && m in {4, 6, 9, 11} ==> DaysIn(year, m) == 30
    ensures DaysIn(year, 2) == if year % 400 == 0 || (year % 4 == 0 && year % 100 != 0) then 29 else 28
  {
  }

  /** C++ division: the quotient is cut towards zero, and the remainder has the sign of the dividend. */
  lemma QuotMeans(a: int, b: int)
    requires b > 0
    ensures a == b * Quot(a, b) + Rem(a, b) && -b < Rem(a, b) < b
    ensures (a >= 0 ==> Rem(a, b) >= 0 && Quot(a, b) >= 0) && (a <= 0 ==> Rem(a, b) <= 0 && Quot(a, b) <= 0)
  {
    if a >= 0 {
      WholeParts(a, b);
    } else {
      WholeParts(-a, b);
      Negated(b, (-a) / b);
    }
  }

  lemma WholeParts(n: nat, b: int)
    requires b > 0
    ensures n / b >= 0 && 0 <= n - b * (n / b) < b
  {
    assert n == b * (n / b) + n % b;
  }

  lemma Negated(b: int, x: int)
    ensures b * -x == -(b * x)
  {
  }
}
