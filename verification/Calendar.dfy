/**
  UTC calendar arithmetic as Date objects perform it (sections 21.4.1 and 21.4.4 of
  ECMA-262). Instants are milliseconds and days are whole days since the epoch.
*/
module Calendar {
  import opened Arithmetic

  const DAY_MS := 86_400_000

  predicate Leap(y: int) {
    y % 4 == 0 && (y % 100 != 0 || y % 400 == 0)
  }

  function DayFromYear(y: int): int {
    365 * (y - 1970) + (y - 1969) / 4 - (y - 1901) / 100 + (y - 1601) / 400
  }

  /** Number of days in a month; months are numbered 0 to 11. */
  function DaysInMonth(y: int, m: int): (r: int)
    requires 0 <= m < 12
    ensures 28 <= r <= 31
  {
    if m == 1 then (if Leap(y) then 29 else 28)
    else if m == 3 || m == 5 || m == 8 || m == 10 then 30
    else 31
  }

  /** Day within the year of the first of a month. */
  function DaysBeforeMonth(y: int, m: int): int
    requires 0 <= m < 12
  {
    [0, 31, 59, 90, 120, 151, 181, 212, 243, 273, 304, 334][m] + (if Leap(y) && m >= 2 then 1 else 0)
  }

  /** First day of the month with index `12 * year + month`. */
  function MonthStart(k: int): int {
    DayFromYear(k / 12) + DaysBeforeMonth(k / 12, k % 12)
  }

  function MonthDays(k: int): int {
    DaysInMonth(k / 12, k % 12)
  }

  /** Fixed points of the day numbering: the epoch, and two later new year's days. */
  lemma KnownDates()
    ensures DayFromYear(1970) == 0 && DayFromYear(2000) == 10_957 && DayFromYear(2026) == 20_454
  {
  }

  lemma MonthOfYear(y: int, m: int)
    requires 0 <= m < 12
    ensures MonthStart(12 * y + m) == DayFromYear(y) + DaysBeforeMonth(y, m)
    ensures MonthDays(12 * y + m) == DaysInMonth(y, m)
  {
    hide DayFromYear, DaysBeforeMonth, DaysInMonth;
    assert (12 * y + m) / 12 == y && (12 * y + m) % 12 == m;
  }

  /** The days around the ends of February in a common, a leap, a century and a fourth-century year. */
  lemma KnownFebruaries()
    ensures MonthStart(12 * 2026 + 2) - MonthStart(12 * 2026 + 1) == 28
    ensures MonthStart(12 * 2024 + 2) - MonthStart(12 * 2024 + 1) == 29
    ensures MonthStart(12 * 2100 + 2) - MonthStart(12 * 2100 + 1) == 28
    ensures MonthStart(12 * 2000 + 2) - MonthStart(12 * 2000 + 1) == 29
  {
    hide MonthStart, DayFromYear;
    MonthOfYear(2026, 1);
    MonthOfYear(2026, 2);
    MonthOfYear(2024, 1);
    MonthOfYear(2024, 2);
    MonthOfYear(2100, 1);
    MonthOfYear(2100, 2);
    MonthOfYear(2000, 1);
    MonthOfYear(2000, 2);
  }

  /** The months of a common year, from January to December. */
  lemma MonthsOf2026()
    ensures forall m | 0 <= m < 12 ::
              MonthDays(12 * 2026 + m) == [31, 28, 31, 30, 31, 30, 31, 31, 30, 31, 30, 31][m]
  {
    forall m | 0 <= m < 12
      ensures MonthDays(12 * 2026 + m) == [31, 28, 31, 30, 31, 30, 31, 31, 30, 31, 30, 31][m]
    {
      hide DaysBeforeMonth, DayFromYear, MonthStart, MonthDays;
      MonthOfYear(2026, m);
    }
  }

  // One more year starts a new group of `d` exactly when it is a multiple of `d`.
  lemma GroupStarts(x: int, d: int)
    requires d > 1
    ensures (x + 1) / d - x / d == if (x + 1) % d == 0 then 1 else 0
  {
    var q, r := x / d, x % d;
    if r == d - 1 {
      QuotientUnique(x + 1, d, q + 1, 0);
    } else {
      QuotientUnique(x + 1, d, q, r + 1);
    }
  }

  lemma CenturyIsFourth(y: int)
    ensures y % 400 == 0 ==> y % 100 == 0
    ensures y % 100 == 0 ==> y % 4 == 0
  {
  }

  lemma YearLength(y: int)
    ensures DayFromYear(y + 1) - DayFromYear(y) == if Leap(y) then 366 else 365
  {
    GroupStarts(y - 1969, 4);
    GroupStarts(y - 1901, 100);
    GroupStarts(y - 1601, 400);
    CenturyIsFourth(y);
    SameRemainders(y);
    YearShift(y);
  }

  lemma SameRemainders(y: int)
    ensures (y - 1968) % 4 == y % 4 && (y - 1900) % 100 == y % 100 && (y - 1600) % 400 == y % 400
  {
    QuotientUnique(y - 1968, 4, y / 4 - 492, y % 4);
    QuotientUnique(y - 1900, 100, y / 100 - 19, y % 100);
    QuotientUnique(y - 1600, 400, y / 400 - 4, y % 400);
  }

  lemma YearShift(y: int)
    ensures DayFromYear(y + 1) == 365 * (y - 1969) + (y - 1968) / 4 - (y - 1900) / 100 + (y - 1600) / 400
  {
  }

  /** Consecutive months abut: the day table and the leap-year rule fit together. */
  lemma MonthLength(k: int)
    ensures MonthStart(k + 1) == MonthStart(k) + MonthDays(k)
  {
    if k % 12 == 11 {
      YearLength(k / 12);
      assert (k + 1) / 12 == k / 12 + 1 && (k + 1) % 12 == 0;
    } else {
      assert (k + 1) / 12 == k / 12 && (k + 1) % 12 == k % 12 + 1;
    }
  }

  lemma {:induction false} MonthStartIncreases(k: int, n: nat)
    ensures MonthStart(k + n) >= MonthStart(k) + 28 * n
    decreases n
  {
    hide MonthStart;
    if n > 0 {
      MonthStartIncreases(k, n - 1);
      MonthLength(k + n - 1);
    }
  }

  function MonthIndexFrom(day: int, k: int): (r: int)
    ensures MonthStart(r) <= day < MonthStart(r + 1)
    decreases if day < MonthStart(k) then 1 else 0,
              if day < MonthStart(k) then MonthStart(k) - day else day - MonthStart(k)
  {
    hide MonthStart;
    MonthLength(k);
    MonthLength(k - 1);
    if day < MonthStart(k) then MonthIndexFrom(day, k - 1)
    else if day < MonthStart(k + 1) then k
    else MonthIndexFrom(day, k + 1)
  }

  /** Index of the month a day lies in. */
  function MonthIndex(day: int): (r: int)
    ensures MonthStart(r) <= day < MonthStart(r + 1)
  {
    hide MonthStart;
    MonthIndexFrom(day, 12 * 1970)
  }

  lemma MonthIndexUnique(day: int, k: int)
    requires MonthStart(k) <= day < MonthStart(k + 1)
    ensures MonthIndex(day) == k
  {
    hide MonthStart;
    var r := MonthIndex(day);
    if r < k {
      MonthStartIncreases(r + 1, k - (r + 1));
    } else if k < r {
      MonthStartIncreases(k + 1, r - (k + 1));
    }
  }

  // ---------------------------------------------------------- Date objects

  function Day(t: int): int { t / DAY_MS }

  function TimeWithinDay(t: int): int { t % DAY_MS }

  /** Day of the month, from 1. */
  function UtcDate(t: int): (r: int)
    ensures 1 <= r <= MonthDays(MonthIndex(Day(t)))
  {
    hide MonthStart, MonthDays, Day;
    MonthLength(MonthIndex(Day(t)));
    Day(t) - MonthStart(MonthIndex(Day(t))) + 1
  }

  /** The instant with day number `date` counted from the start of month `k`; any integer overflows into
      neighbouring months. */
  function MakeInstant(k: int, date: int, time: int): int {
    (MonthStart(k) + date - 1) * DAY_MS + time
  }

  function SetUtcDate(t: int, date: int): int {
    MakeInstant(MonthIndex(Day(t)), date, TimeWithinDay(t))
  }

  function AddUtcMonths(t: int, n: int): int {
    MakeInstant(MonthIndex(Day(t)) + n, UtcDate(t), TimeWithinDay(t))
  }

  /** Moving the day of the month is exact day arithmetic, across any number of months. */
  lemma SetUtcDateIsShift(t: int, n: int)
    ensures SetUtcDate(t, UtcDate(t) + n) == t + n * DAY_MS
  {
  }

  lemma AddUtcMonthsParts(t: int, n: int)
    ensures Day(AddUtcMonths(t, n)) == MonthStart(MonthIndex(Day(t)) + n) + UtcDate(t) - 1
    ensures TimeWithinDay(AddUtcMonths(t, n)) == TimeWithinDay(t)
  {
  }

  /** Moving by months keeps the day of the month exactly when the target month has that day;
      otherwise the date spills over into the following month. */
  lemma AddUtcMonthsDate(t: int, n: int)
    ensures var k := MonthIndex(Day(t)) + n;
            var r := AddUtcMonths(t, n);
            && (UtcDate(r) == UtcDate(t) <==> UtcDate(t) <= MonthDays(k))
            && (if UtcDate(t) <= MonthDays(k) then MonthIndex(Day(r)) == k
                else MonthIndex(Day(r)) == k + 1 && UtcDate(r) == UtcDate(t) - MonthDays(k))
  {
    hide MonthStart;
    var k := MonthIndex(Day(t)) + n;
    AddUtcMonthsParts(t, n);
    MonthLength(k);
    MonthLength(k + 1);
    if UtcDate(t) <= MonthDays(k) {
      MonthIndexUnique(Day(AddUtcMonths(t, n)), k);
    } else {
      MonthIndexUnique(Day(AddUtcMonths(t, n)), k + 1);
    }
  }

  lemma AddUtcMonthsIncreases(t: int, n: int)
    requires n >= 1
    ensures AddUtcMonths(t, n) > t
  {
    hide MonthStart;
    AddUtcMonthsParts(t, n);
    MonthStartIncreases(MonthIndex(Day(t)), n);
  }

  /** Two moves by months compose when the intermediate month has the day. */
  lemma AddUtcMonthsCompose(t: int, a: int, b: int)
    requires UtcDate(t) <= MonthDays(MonthIndex(Day(t)) + a)
    ensures AddUtcMonths(AddUtcMonths(t, a), b) == AddUtcMonths(t, a + b)
  {
    hide MonthStart, UtcDate, MonthDays;
    AddUtcMonthsDate(t, a);
    AddUtcMonthsParts(t, a);
  }

  lemma AddNoMonths(t: int)
    ensures AddUtcMonths(t, 0) == t
  {
  }
}
