/** mkgmtime: broken-down time to seconds since the epoch, against counting years, months and days. */
module Calendar {

  /** As struct tm has it: years since 1900, months from 0, days from 1. */
  datatype Tm = Tm(year: int, mon: int, mday: int, hour: int, min: int, sec: int)

  // ---------- the code ----------

  /** Division and remainder as C++ has them, towards zero. */
  function TruncDiv(a: int, b: int): int
    requires b > 0
  {
    if a >= 0 then a / b else -(-a / b)
  }

  function TruncMod(a: int, b: int): int
    requires b > 0
  {
    a - b * TruncDiv(a, b)
  }

  const MONTH_DAY: seq<int> := [0, 31, 59, 90, 120, 151, 181, 212, 243, 273, 304, 334]

  /** The month from 0 to 11 and its year, for any month number. */
  function Normal(tm: Tm): (r: (int, int))
    ensures 0 <= r.1 < 12
  {
    var month, year := TruncMod(tm.mon, 12), tm.year + TruncDiv(tm.mon, 12);
    if month < 0 then (year - 1, month + 12) else (year, month)
  }

  /** It is the same month, counted from year 0. */
  lemma NormalIs(tm: Tm)
    ensures 12 * Normal(tm).0 + Normal(tm).1 == 12 * tm.year + tm.mon && 0 <= Normal(tm).1 < 12
  {
  }

  function YearForLeap(year: int, month: int): int {
    if month > 1 then year + 1 else year
  }

  function MkGmTime(tm: Tm): int {
    var (year, month) := Normal(tm);
    var y := YearForLeap(year, month);
    tm.sec + 60 * (tm.min + 60 * (tm.hour + 24 * (MONTH_DAY[month] + tm.mday - 1 + 365 * (year - 70)
      + TruncDiv(y - 69, 4) - TruncDiv(y - 1, 100) + TruncDiv(y + 299, 400))))
  }

  // ---------- the calendar ----------

  /** The Gregorian rule, for a year since 1900. */
  predicate Leap(year: int) {
    var y := year + 1900;
    y % 4 == 0 && (y % 100 != 0 || y % 400 == 0)
  }

  function DaysInYear(year: int): int {
    if Leap(year) then 366 else 365
  }

  function DaysInMonth(year: int, month: int): int {
    if month == 1 then (if Leap(year) then 29 else 28)
    else if month == 3 || month == 5 || month == 8 || month == 10 then 30
    else 31
  }

  /** Days from the start of 1970 to the start of a year, counted year by year. */
  function YearStart(year: int): int
    decreases if year >= 70 then year - 70 else 70 - year
  {
    if year == 70 then 0
    else if year > 70 then YearStart(year - 1) + DaysInYear(year - 1)
    else YearStart(year + 1) - DaysInYear(year)
  }

  /** Days from the start of the year to the start of a month, counted month by month. */
  function MonthStart(year: int, month: nat): int {
    if month == 0 then 0 else MonthStart(year, month - 1) + DaysInMonth(year, month - 1)
  }

  function DayNumber(year: int, month: nat, mday: int): int {
    YearStart(year) + MonthStart(year, month) + mday - 1
  }

  /** Seconds since the epoch. */
  function Seconds(tm: Tm): int {
    var (year, month) := Normal(tm);
    ((DayNumber(year, month, tm.mday) * 24 + tm.hour) * 60 + tm.min) * 60 + tm.sec
  }

  // ---------- the code counts right ----------

  /** Leap days before a year, by rounding down. */
  function LeapDays(year: int): int {
    (year - 69) / 4 - (year - 1) / 100 + (year + 299) / 400
  }

  lemma LeapDaysStep(year: int)
    ensures LeapDays(year + 1) - LeapDays(year) == if Leap(year) then 1 else 0
  {
    OneMore(year - 69, 4);
    OneMore(year - 1, 100);
    OneMore(year + 299, 400);
    assert (year - 68) % 4 == 0 <==> (year + 1900) % 4 == 0;
    assert year % 100 == 0 <==> (year + 1900) % 100 == 0;
    assert (year + 300) % 400 == 0 <==> (year + 1900) % 400 == 0;
  }

  lemma OneMore(a: int, b: int)
    requires b > 1
    ensures (a + 1) / b - a / b == if (a + 1) % b == 0 then 1 else 0
  {
    var q, r := a / b, a % b;
    assert a == q * b + r;
    if r == b - 1 {
      assert a + 1 == (q + 1) * b;
      Quotient(a + 1, b, q + 1, 0);
    } else {
      assert a + 1 == q * b + (r + 1);
      Quotient(a + 1, b, q, r + 1);
    }
  }

  lemma Quotient(a: int, b: int, q: int, r: int)
    requires b > 0 && 0 <= r < b && a == q * b + r
    ensures a / b == q && a % b == r
  {
    var d := a / b - q;
    assert a == (a / b) * b + a % b;
    assert (a / b) * b == d * b + q * b;
    assert d * b == r - a % b;
    assert (d >= 1 ==> d * b >= b) && (d <= -1 ==> d * b <= -b);
  }

  /** Years counted one by one come to the closed form. */
  lemma {:induction false} YearStartIs(year: int)
    ensures YearStart(year) == 365 * (year - 70) + LeapDays(year)
    decreases if year >= 70 then year - 70 else 70 - year
  {
    if year > 70 {
      YearStartIs(year - 1);
      LeapDaysStep(year - 1);
    } else if year < 70 {
      YearStartIs(year + 1);
      LeapDaysStep(year);
    }
  }

  /** The table is the months of an ordinary year; from March on a leap year has a day more. */
  lemma {:induction false} MonthStartIs(year: int, month: nat)
    requires month < 12
    ensures MonthStart(year, month) == MONTH_DAY[month] + if month > 1 && Leap(year) then 1 else 0
  {
    if month > 0 {
      MonthStartIs(year, month - 1);
    }
  }

  /** How much too large division towards zero is: 1 for a negative number that is not a multiple. */
  function Excess(a: int, b: int): int
    requires b > 0
  {
    if a < 0 && a % b != 0 then 1 else 0
  }

  lemma TruncIsFloorAndExcess(a: int, b: int)
    requires b > 0
    ensures TruncDiv(a, b) == a / b + Excess(a, b)
  {
    if a < 0 {
      var q, r := a / b, a % b;
      assert a == q * b + r;
      if r == 0 {
        assert -a == (-q) * b;
        Quotient(-a, b, -q, 0);
      } else {
        assert -a == (-q - 1) * b + (b - r);
        Quotient(-a, b, -q - 1, b - r);
      }
    }
  }

  /** Where the three divisions, two added and one subtracted, are too large by as much on either side. */
  predicate RoundsRight(y: int) {
    Excess(y - 69, 4) + Excess(y + 299, 400) == Excess(y - 1, 100)
  }

  /** Which those are, with y counting from March: all from March 1968 on; from 1901 every fourth; from 1601 all but those
      after leap years; and before that only those. */
  lemma RoundsRightIs(y: int)
    ensures y >= 69 ==> RoundsRight(y)
    ensures 1 <= y < 69 ==> (RoundsRight(y) <==> y % 4 == 1)
    ensures -299 < y < 1 ==> (RoundsRight(y) <==> !Leap(y - 1))
    ensures y <= -299 ==> (RoundsRight(y) <==> Leap(y - 1))
  {
    assert (y - 69) % 4 == 0 <==> (y + 1899) % 4 == 0;
    assert (y - 1) % 100 == 0 <==> (y + 1899) % 100 == 0;
    assert (y + 299) % 400 == 0 <==> (y + 1899) % 400 == 0;
  }

  /** Without bounds on the year, mkgmtime counts right exactly where the errors of its divisions cancel. */
  lemma MkGmTimeIff(tm: Tm)
    ensures MkGmTime(tm) == Seconds(tm) <==> RoundsRight(YearForLeap(Normal(tm).0, Normal(tm).1))
  {
    hide TruncDiv, YearForLeap, DayNumber, Normal;
    var (year, month) := Normal(tm);
    var y := YearForLeap(year, month);
    TruncIsFloorAndExcess(y - 69, 4);
    TruncIsFloorAndExcess(y - 1, 100);
    TruncIsFloorAndExcess(y + 299, 400);
    hide Excess;
    LeapDaysTo(year, month, tm.mday);
  }

  lemma LeapDaysTo(year: int, month: nat, mday: int)
    requires month < 12
    ensures var y := YearForLeap(year, month);
      DayNumber(year, month, mday) == MONTH_DAY[month] + mday - 1 + 365 * (year - 70) + (y - 69) / 4 - (y - 1) / 100 + (y + 299) / 400
  {
    hide Leap, MonthStart, YearStart;
    YearStartIs(year);
    MonthStartIs(year, month);
    LeapDaysStep(year);
  }

  /** The time in the repository's test of formatting and parsing: 23:34:02 on the 6th of January 2011. */
  lemma KnownTime()
    ensures MkGmTime(Tm(111, 0, 6, 23, 34, 2)) == 1294356842 == Seconds(Tm(111, 0, 6, 23, 34, 2))
  {
    hide Seconds, YearStart, MonthStart, Leap;
    MkGmTimeIsSeconds(Tm(111, 0, 6, 23, 34, 2));
  }

  /** From 1970 on, the range a caller is promised, it is always right. */
  lemma MkGmTimeIsSeconds(tm: Tm)
    requires tm.year >= 70 && tm.mon >= 0
    ensures MkGmTime(tm) == Seconds(tm)
  {
    hide MkGmTime, Seconds;
    assert Normal(tm).0 >= 70 by {
      assert TruncDiv(tm.mon, 12) >= 0;
    }
    MkGmTimeIff(tm);
    RoundsRightIs(YearForLeap(Normal(tm).0, Normal(tm).1));
  }

  // ---------- and keeps the order ----------

  predicate ValidTm(tm: Tm) {
    && 0 <= tm.mon < 12 && 1 <= tm.mday <= DaysInMonth(tm.year, tm.mon)
    && 0 <= tm.hour < 24 && 0 <= tm.min < 60 && 0 <= tm.sec < 60
  }

  predicate Earlier(a: Tm, b: Tm) {
    || a.year < b.year
    || (a.year == b.year && (|| a.mon < b.mon
                             || (a.mon == b.mon && (|| a.mday < b.mday
                                                    || (a.mday == b.mday && SecondOfDay(a) < SecondOfDay(b))))))
  }

  function SecondOfDay(tm: Tm): int {
    (tm.hour * 60 + tm.min) * 60 + tm.sec
  }

  lemma {:induction false} YearsGrow(a: int, b: int)
    requires a < b
    ensures YearStart(a) + DaysInYear(a) <= YearStart(b)
    decreases b - a
  {
    hide Leap;
    if a + 1 < b {
      YearsGrow(a, b - 1);
    }
  }

  lemma {:induction false} MonthsGrow(year: int, a: nat, b: nat)
    requires a < b
    ensures MonthStart(year, a) + DaysInMonth(year, a) <= MonthStart(year, b)
    decreases b - a
  {
    hide Leap;
    if a + 1 < b {
      MonthsGrow(year, a, b - 1);
    }
  }

  lemma DayInYear(year: int, month: nat, mday: int)
    requires month < 12 && 1 <= mday <= DaysInMonth(year, month)
    ensures 0 <= MonthStart(year, month) + mday - 1 < DaysInYear(year)
  {
    MonthStartIs(year, month);
    MonthStartIs(year, 11);
    if month < 11 {
      MonthsGrow(year, month, 11);
    }
    if month > 0 {
      MonthsGrow(year, 0, month);
    }
  }

  /** Of two valid times the earlier one has fewer seconds. */
  lemma SecondsIncrease(a: Tm, b: Tm)
    requires ValidTm(a) && ValidTm(b) && Earlier(a, b)
    ensures Seconds(a) < Seconds(b)
  {
    hide YearStart, MonthStart, DaysInMonth, DaysInYear;
    DayInYear(a.year, a.mon, a.mday);
    DayInYear(b.year, b.mon, b.mday);
    var da, db := DayNumber(a.year, a.mon, a.mday), DayNumber(b.year, b.mon, b.mday);
    if a.year < b.year {
      YearsGrow(a.year, b.year);
    } else if a.mon < b.mon {
      MonthsGrow(a.year, a.mon, b.mon);
    }
    assert Seconds(a) == da * 86400 + SecondOfDay(a) && Seconds(b) == db * 86400 + SecondOfDay(b);
    assert da < db || (da == db && SecondOfDay(a) < SecondOfDay(b));
  }

  /** So mkgmtime keeps the order of times from 1970 on. */
  lemma MkGmTimeIncreases(a: Tm, b: Tm)
    requires ValidTm(a) && ValidTm(b) && Earlier(a, b) && a.year >= 70
    ensures MkGmTime(a) < MkGmTime(b)
  {
    hide MkGmTime, Seconds;
    MkGmTimeIsSeconds(a);
    MkGmTimeIsSeconds(b);
    SecondsIncrease(a, b);
  }
}
