/** Counting working days between two instants, both days included. */
module BusinessDays {
  import Calendar

  /** Midnight UTC of the day of an instant. */
  function NormalizeDateOnly(t: int): int {
    Calendar.MakeInstant(Calendar.MonthIndex(Calendar.Day(t)), Calendar.UtcDate(t), 0)
  }

  /** Day of the week, Sunday being 0 (section 21.4.1 of ECMA-262). */
  function WeekDay(day: int): int {
    (day + 4) % 7
  }

  predicate IsWorkday(day: int) {
    WeekDay(day) != 0 && WeekDay(day) != 6
  }

  /** The epoch was a Thursday, and so was 1 January 2026. */
  lemma KnownWeekDays()
    ensures WeekDay(0) == 4 && WeekDay(Calendar.DayFromYear(2026)) == 4
    ensures forall day :: WeekDay(day + 7) == WeekDay(day)
    ensures forall day :: WeekDay(day + 1) == if WeekDay(day) == 6 then 0 else WeekDay(day) + 1
  {
    Calendar.KnownDates();
  }

  function CountWorkdays(day: int, n: nat): nat {
    if n == 0 then 0 else CountWorkdays(day, n - 1) + (if IsWorkday(day + n - 1) then 1 else 0)
  }

  /** Working days among the first `r < 7` days of a week that starts on weekday `w`. */
  function Remainder(w: int, r: int): int {
    r - (if (7 - w) % 7 < r then 1 else 0) - (if 6 - w < r then 1 else 0)
  }

  /** Working days from day `a` to day `b`: five for each full week and the rest by weekday. */
  function ClosedForm(a: int, b: int): int {
    if a > b then 0
    else
      var n := b - a + 1;
      5 * (n / 7) + Remainder(WeekDay(a), n % 7)
  }

  // One more day within a week, and the day that completes it.
  lemma RemainderStep(w: int, r: int)
    requires 0 <= w < 7 && 0 <= r < 7
    ensures (if r == 6 then 5 else Remainder(w, r + 1))
         == Remainder(w, r) + (if (w + r) % 7 != 0 && (w + r) % 7 != 6 then 1 else 0)
  {
  }

  lemma WeekDayShift(a: int, n: nat)
    ensures WeekDay(a + n) == (WeekDay(a) + n % 7) % 7
  {
  }

  lemma {:induction false} CountIsClosedForm(a: int, n: nat)
    ensures CountWorkdays(a, n) == 5 * (n / 7) + Remainder(WeekDay(a), n % 7)
  {
    hide Remainder, WeekDay;
    if n > 0 {
      var m := n - 1;
      CountIsClosedForm(a, m);
      WeekDayShift(a, m);
      WeekDayRange(a);
      RemainderStep(WeekDay(a), m % 7);
      NextOfWeek(m);
      NothingLeft(WeekDay(a));
    } else {
      WeekDayRange(a);
      NothingLeft(WeekDay(a));
    }
  }

  lemma WeekDayRange(a: int)
    ensures 0 <= WeekDay(a) < 7
  {
  }

  lemma NextOfWeek(m: nat)
    ensures if m % 7 == 6 then (m + 1) / 7 == m / 7 + 1 && (m + 1) % 7 == 0
            else (m + 1) / 7 == m / 7 && (m + 1) % 7 == m % 7 + 1
  {
  }

  lemma NothingLeft(w: int)
    ensures 0 <= w < 7 ==> Remainder(w, 0) == 0
  {
  }

  lemma ClosedFormIsCount(a: int, b: int)
    requires a <= b + 1
    ensures ClosedForm(a, b) == CountWorkdays(a, b - a + 1)
  {
    hide Remainder, WeekDay;
    CountIsClosedForm(a, b - a + 1);
  }

  lemma {:induction false} CountSplits(a: int, m: nat, n: nat)
    ensures CountWorkdays(a, m + n) == CountWorkdays(a, m) + CountWorkdays(a + m, n)
  {
    if n > 0 {
      CountSplits(a, m, n - 1);
    }
  }

  /** Adjoining ranges add up, wherever the first range is cut. */
  lemma ClosedFormAdditive(a: int, b: int, c: int)
    requires a <= b + 1 <= c + 1
    ensures ClosedForm(a, b) + ClosedForm(b + 1, c) == ClosedForm(a, c)
  {
    hide ClosedForm;
    ClosedFormIsCount(a, b);
    ClosedFormIsCount(b + 1, c);
    ClosedFormIsCount(a, c);
    CountSplits(a, b - a + 1, c - b);
  }

  /** The week from Monday 5 January 2026: five working days from Monday to Friday, none at the weekend. */
  lemma KnownWeek()
    ensures var monday := Calendar.DayFromYear(2026) + 4;
            && ClosedForm(monday, monday + 4) == 5 && ClosedForm(monday, monday + 6) == 5
            && ClosedForm(monday + 5, monday + 6) == 0 && ClosedForm(monday + 4, monday + 7) == 2
            && forall day | monday <= day < monday + 5 :: ClosedForm(day, day) == 1
  {
    Calendar.KnownDates();
  }

  lemma NormalizedDay(t: int)
    ensures NormalizeDateOnly(t) == Calendar.Day(t) * Calendar.DAY_MS
  {
  }

  /** The day-by-day loop terminates and returns the closed form, for every pair of instants. */
  method BusinessDaysBetweenInclusive(from: int, to: int) returns (days: int)
    ensures days == ClosedForm(Calendar.Day(from), Calendar.Day(to))
  {
    hide CountWorkdays, NormalizeDateOnly, ClosedForm, WeekDay, Calendar.SetUtcDate, Calendar.UtcDate, Calendar.Day,
      Calendar.MonthDays, Calendar.MonthIndex, Calendar.MonthStart;
    ghost var first, last := Calendar.Day(from), Calendar.Day(to);
    var start, end := NormalizeDateOnly(from), NormalizeDateOnly(to);
    NormalizedDay(from);
    NormalizedDay(to);
    if start > end {
      NoRange(first, last);
      return 0;
    }
    var cursor := start;
    days := 0;
    ghost var n: nat := 0;
    NoDays(first);
    while cursor <= end
      invariant cursor == (first + n) * Calendar.DAY_MS && end == last * Calendar.DAY_MS
      invariant first + n <= last + 1
      invariant days == CountWorkdays(first, n)
      decreases end - cursor
    {
      OneMoreDay(first, n);
      MidnightDay(first + n);
      var day := WeekDay(Calendar.Day(cursor));
      if day != 0 && day != 6 {
        days := days + 1;
      }
      Calendar.SetUtcDateIsShift(cursor, 1);
      cursor := Calendar.SetUtcDate(cursor, Calendar.UtcDate(cursor) + 1);
      n := n + 1;
    }
    ClosedFormIsCount(first, last);
  }

  lemma MidnightDay(day: int)
    ensures Calendar.Day(day * Calendar.DAY_MS) == day
  {
  }

  lemma NoRange(a: int, b: int)
    requires a > b
    ensures ClosedForm(a, b) == 0
  {
  }

  lemma NoDays(a: int)
    ensures CountWorkdays(a, 0) == 0
  {
  }

  lemma OneMoreDay(a: int, n: nat)
    ensures CountWorkdays(a, n + 1) == CountWorkdays(a, n) + (if IsWorkday(a + n) then 1 else 0)
  {
  }
}
