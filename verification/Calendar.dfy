/**
 `time.gmtime` as the proleptic Gregorian calendar.  `GmTime` counts whole years and months off a
 day number, the way a clock runs; `MinutesOf` is the closed formula in the other direction.
 */
module Calendar {

  datatype Civil = Civil(year: nat, month: nat, day: nat, hour: nat, minute: nat)

  const EPOCH_YEAR: nat := 1970

  // Days between 0001-01-01 and 1970-01-01, and the first second of the year 10000.
  const EPOCH_DAY: nat := 719162
  const YEAR_10000: nat := 253402300800

  predicate IsLeap(year: nat)
  {
    year % 4 == 0 && (year % 100 != 0 || year % 400 == 0)
  }

  function YearLength(year: nat): nat
  {
    if IsLeap(year) then 366 else 365
  }

  function MonthLength(year: nat, month: nat): nat
  {
    if month == 2 then (if IsLeap(year) then 29 else 28)
    else if month == 4 || month == 6 || month == 9 || month == 11 then 30
    else 31
  }

  /** Peel whole years off a day count. */
  function YearAndDay(days: nat, year: nat): (nat, nat)
    decreases days
  {
    if days < YearLength(year) then (year, days) else YearAndDay(days - YearLength(year), year + 1)
  }

  /** Peel whole months off a zero-based day of the year. */
  function MonthAndDay(year: nat, month: nat, days: nat): (nat, nat)
    decreases 12 - month
  {
    if month >= 12 || days < MonthLength(year, month) then (month, days)
    else MonthAndDay(year, month + 1, days - MonthLength(year, month))
  }

  /** Year, month and day of a day number that counts from the first of January of a year. */
  function DateOf(days: nat, from: nat): (nat, nat, nat)
  {
    var (year, dayOfYear) := YearAndDay(days, from);
    var (month, dayOfMonth) := MonthAndDay(year, 1, dayOfYear);
    (year, month, dayOfMonth + 1)
  }

  /** `time.gmtime(t)`, to the minute. */
  function GmTime(t: nat): Civil
  {
    var (year, month, day) := DateOf(t / 86400, EPOCH_YEAR);
    Civil(year, month, day, t % 86400 / 3600, t % 3600 / 60)
  }

  // ---------- The closed formula ----------

  /** Days from 0001-01-01 to the first of January of `year`. */
  function DaysBeforeYear(year: nat): nat
    requires year >= 1
  {
    365 * (year - 1) + (year - 1) / 4 - (year - 1) / 100 + (year - 1) / 400
  }

  function DaysBeforeMonth(year: nat, month: nat): nat
    requires 1 <= month <= 12
  {
    [0, 31, 59, 90, 120, 151, 181, 212, 243, 273, 304, 334][month - 1] + (if month > 2 && IsLeap(year) then 1 else 0)
  }

  predicate Valid(c: Civil)
  {
    && c.year >= 1 && 1 <= c.month <= 12
    && 1 <= c.day <= MonthLength(c.year, c.month)
    && c.hour < 24 && c.minute < 60
  }

  /** Whole minutes between the epoch and the civil time c. */
  function MinutesOf(c: Civil): int
    requires Valid(c)
  {
    (DaysBeforeYear(c.year) - EPOCH_DAY + DaysBeforeMonth(c.year, c.month) + c.day - 1) * 1440 + c.hour * 60 + c.minute
  }

  lemma YearStep(year: nat)
    requires year >= 1
    ensures DaysBeforeYear(year + 1) == DaysBeforeYear(year) + YearLength(year)
  {
    DivStep(year - 1, 4);
    DivStep(year - 1, 100);
    DivStep(year - 1, 400);
    LeapFacts(year);
  }

  lemma DivStep(p: nat, m: nat)
    requires m == 4 || m == 100 || m == 400
    ensures (p + 1) / m == p / m + (if (p + 1) % m == 0 then 1 else 0)
  {
    if m == 4 {
    } else if m == 100 {
    } else {
    }
  }

  lemma LeapFacts(year: nat)
    ensures year % 400 == 0 ==> year % 100 == 0
    ensures year % 100 == 0 ==> year % 4 == 0
  {
    var q := year / 400;
    assert year % 400 == 0 ==> year == 100 * (4 * q);
    var r := year / 100;
    assert year % 100 == 0 ==> year == 4 * (25 * r);
  }

  lemma {:induction false} YearsGrow(y1: nat, y2: nat)
    requires 1 <= y1 <= y2
    ensures DaysBeforeYear(y1) + 365 * (y2 - y1) <= DaysBeforeYear(y2)
    ensures y1 < y2 ==> DaysBeforeYear(y1) + YearLength(y1) <= DaysBeforeYear(y2)
    decreases y2 - y1
  {
    if y1 < y2 {
      YearsGrow(y1, y2 - 1);
      YearStep(y2 - 1);
      if y1 == y2 - 1 {
        YearStep(y1);
      }
    }
  }

  lemma {:induction false} YearAndDayCounts(days: nat, year: nat)
    requires year >= 1
    ensures var (y, d) := YearAndDay(days, year);
            y >= year && d < YearLength(y) && DaysBeforeYear(y) + d == DaysBeforeYear(year) + days
    decreases days
  {
    if days >= YearLength(year) {
      YearStep(year);
      YearAndDayCounts(days - YearLength(year), year + 1);
    }
  }

  lemma {:induction false} MonthAndDayCounts(year: nat, month: nat, days: nat)
    requires 1 <= month <= 12
    requires DaysBeforeMonth(year, month) + days < YearLength(year)
    ensures var (m, d) := MonthAndDay(year, month, days);
            1 <= m <= 12 && d < MonthLength(year, m)
            && DaysBeforeMonth(year, m) + d == DaysBeforeMonth(year, month) + days
    decreases 12 - month
  {
    if month < 12 {
      assert DaysBeforeMonth(year, month + 1) == DaysBeforeMonth(year, month) + MonthLength(year, month);
      if days >= MonthLength(year, month) {
        MonthAndDayCounts(year, month + 1, days - MonthLength(year, month));
      }
    }
  }

  lemma DateCounts(days: nat, from: nat)
    requires from >= 1
    ensures var (year, month, day) := DateOf(days, from);
            && year >= from && 1 <= month <= 12 && 1 <= day <= MonthLength(year, month)
            && DaysBeforeYear(year) + DaysBeforeMonth(year, month) + day - 1 == DaysBeforeYear(from) + days
  {
    YearAndDayCounts(days, from);
    var (year, dayOfYear) := YearAndDay(days, from);
    assert DaysBeforeMonth(year, 1) == 0;
    MonthAndDayCounts(year, 1, dayOfYear);
  }

  lemma MinuteOfDay(days: nat, rest: nat)
    requires rest < 86400
    ensures var t := days * 86400 + rest;
            t / 60 == days * 1440 + rest / 3600 * 60 + t % 3600 / 60 && rest / 3600 < 24
  {
    var h, m := rest / 3600, rest % 3600;
    assert days * 86400 + rest == (days * 24 + h) * 3600 + m;
    assert (days * 86400 + rest) % 3600 == m;
    assert (days * 86400 + rest) / 60 == (days * 24 + h) * 60 + m / 60;
  }

  /** The clock and the formula are inverse: nothing but the seconds is lost. */
  lemma GmTimeInverse(t: nat)
    ensures Valid(GmTime(t)) && MinutesOf(GmTime(t)) == t / 60
  {
    DateCounts(t / 86400, EPOCH_YEAR);
    assert DaysBeforeYear(EPOCH_YEAR) == EPOCH_DAY;
    MinuteOfDay(t / 86400, t % 86400);
    assert t / 86400 * 86400 + t % 86400 == t;
  }

  lemma YearFits(t: nat)
    requires t < YEAR_10000
    ensures GmTime(t).year < 10000
  {
    YearAndDayCounts(t / 86400, EPOCH_YEAR);
  }

  /** Calendar order: by year, then month, day, hour, minute. */
  predicate Before(a: Civil, b: Civil)
  {
    a.year < b.year || (a.year == b.year &&
    (a.month < b.month || (a.month == b.month &&
    (a.day < b.day || (a.day == b.day &&
    (a.hour < b.hour || (a.hour == b.hour && a.minute < b.minute)))))))
  }

  lemma MonthsGrow(year: nat, m1: nat, m2: nat)
    requires 1 <= m1 < m2 <= 12
    ensures DaysBeforeMonth(year, m1) + MonthLength(year, m1) <= DaysBeforeMonth(year, m2)
  {
  }

  lemma DayOfYearFits(year: nat, month: nat)
    requires 1 <= month <= 12
    ensures DaysBeforeMonth(year, month) + MonthLength(year, month) <= YearLength(year)
  {
  }

  lemma BeforeIsEarlier(a: Civil, b: Civil)
    requires Valid(a) && Valid(b) && Before(a, b)
    ensures MinutesOf(a) < MinutesOf(b)
  {
    if a.year < b.year {
      YearsGrow(a.year, b.year);
      DayOfYearFits(a.year, a.month);
    } else if a.month < b.month {
      MonthsGrow(a.year, a.month, b.month);
    }
  }

  /** Civil times compare as their minutes do. */
  lemma CivilOrder(a: Civil, b: Civil)
    requires Valid(a) && Valid(b)
    ensures Before(a, b) <==> MinutesOf(a) < MinutesOf(b)
    ensures a == b <==> MinutesOf(a) == MinutesOf(b)
  {
    if Before(a, b) {
      BeforeIsEarlier(a, b);
    } else if Before(b, a) {
      BeforeIsEarlier(b, a);
    } else {
      assert a == b;
    }
  }

  /** Times compare as their minutes do. */
  lemma GmTimeOrder(t1: nat, t2: nat)
    ensures Before(GmTime(t1), GmTime(t2)) <==> t1 / 60 < t2 / 60
    ensures GmTime(t1) == GmTime(t2) <==> t1 / 60 == t2 / 60
  {
    GmTimeInverse(t1);
    GmTimeInverse(t2);
    CivilOrder(GmTime(t1), GmTime(t2));
  }
}
