/**
  Recurring task templates: the scheduler tick, the advance of the next run time
  and the tasks it generates through the task tables.
*/
module RecurringScheduler {
  import opened Common
  import opened DependencyGraph
  import opened TaskModel
  import opened TaskInvariants
  import opened TaskOutcomes
  import Calendar
  import TasksService

  const BATCH_SIZE := 50

  datatype Frequency = Daily | Weekly | Monthly

  datatype Template = Template(
    projectId: Id, statusId: Option<Id>, frequency: Frequency, interval: int,
    content: Content, endsAt: Option<int>, lastRunAt: Option<int>, nextRunAt: int, isActive: bool)

  datatype Sched = Sched(db: Db, templates: map<Id, Template>)

  // ---------------------------------------------------------- next run time

  function SafeInterval(interval: int): int {
    if interval > 1 then interval else 1
  }

  function CalculateNextRunAt(current: int, frequency: Frequency, interval: int): int {
    match frequency
    case Daily => Calendar.SetUtcDate(current, Calendar.UtcDate(current) + SafeInterval(interval))
    case Weekly => Calendar.SetUtcDate(current, Calendar.UtcDate(current) + 7 * SafeInterval(interval))
    case Monthly => Calendar.AddUtcMonths(current, SafeInterval(interval))
  }

  /** The next run time lies strictly later, for every frequency and every integer interval. */
  lemma NextRunAtIncreases(current: int, frequency: Frequency, interval: int)
    ensures CalculateNextRunAt(current, frequency, interval) > current
  {
    var n := SafeInterval(interval);
    Calendar.SetUtcDateIsShift(current, n);
    Calendar.SetUtcDateIsShift(current, 7 * n);
    Calendar.AddUtcMonthsIncreases(current, n);
  }

  /** The k-th schedule point after `first`. */
  function Point(first: int, f: Frequency, interval: int, k: nat): int {
    if k == 0 then first else CalculateNextRunAt(Point(first, f, interval, k - 1), f, interval)
  }

  /** The length of one period of a daily or weekly schedule. */
  function Period(f: Frequency, interval: int): int {
    (if f.Weekly? then 7 else 1) * SafeInterval(interval) * Calendar.DAY_MS
  }

  lemma DayAdvance(current: int, f: Frequency, interval: int)
    requires f.Daily? || f.Weekly?
    ensures CalculateNextRunAt(current, f, interval) == current + Period(f, interval)
  {
    Calendar.SetUtcDateIsShift(current, SafeInterval(interval));
    Calendar.SetUtcDateIsShift(current, 7 * SafeInterval(interval));
  }

  /** Daily and weekly schedules never drift: the k-th point is exactly k periods away. */
  lemma {:induction false} DayPointsExact(first: int, f: Frequency, interval: int, k: nat)
    requires f.Daily? || f.Weekly?
    ensures Point(first, f, interval, k) == first + k * Period(f, interval)
  {
    hide CalculateNextRunAt, Period;
    if k > 0 {
      DayPointsExact(first, f, interval, k - 1);
      DayAdvance(Point(first, f, interval, k - 1), f, interval);
      OneMoreStep(k, Period(f, interval));
    }
  }

  lemma OneMoreStep(k: int, step: int)
    ensures k * step == (k - 1) * step + step
  {
  }

  /** The month a monthly schedule aims at with its j-th point has the day of the month of the first. */
  predicate MonthHasDay(first: int, interval: int, j: nat) {
    Calendar.UtcDate(first) <= Calendar.MonthDays(Calendar.MonthIndex(Calendar.Day(first)) + j * SafeInterval(interval))
  }

  /** A monthly schedule keeps its day of the month, and is the plain shift by months, as long
      as every month visited has that day; days up to the 28th therefore never drift. */
  lemma {:induction false} MonthPointsExact(first: int, interval: int, k: nat)
    requires forall j: nat | j < k :: MonthHasDay(first, interval, j)
    ensures Point(first, Monthly, interval, k) == Calendar.AddUtcMonths(first, k * SafeInterval(interval))
  {
    hide Calendar.AddUtcMonths, Calendar.UtcDate, Calendar.MonthDays, Calendar.MonthIndex, SafeInterval;
    var n := SafeInterval(interval);
    if k > 0 {
      MonthPointsExact(first, interval, k - 1);
      assert MonthHasDay(first, interval, k - 1);
      Calendar.AddUtcMonthsCompose(first, (k - 1) * n, n);
      OneMoreStep(k, n);
    } else {
      Calendar.AddNoMonths(first);
    }
  }

  ghost predicate MonthsHaveDay(first: int, interval: int, k: nat) {
    forall j: nat | j <= k :: MonthHasDay(first, interval, j)
  }

  predicate SameDate(first: int, interval: int, j: nat) {
    Calendar.UtcDate(Point(first, Monthly, interval, j)) == Calendar.UtcDate(first)
  }

  ghost predicate DayKept(first: int, interval: int, k: nat) {
    forall j: nat | j <= k :: SameDate(first, interval, j)
  }

  lemma FirstKept(first: int, interval: int)
    ensures SameDate(first, interval, 0) && MonthHasDay(first, interval, 0)
  {
  }

  // While no month so far was too short, the next point keeps the day exactly when its month has it.
  lemma NextKeptIff(first: int, interval: int, k: nat)
    requires k > 0 && MonthsHaveDay(first, interval, k - 1)
    ensures SameDate(first, interval, k) <==> MonthHasDay(first, interval, k)
  {
    hide Calendar.AddUtcMonths, Calendar.UtcDate, Calendar.MonthDays, Calendar.MonthIndex, Calendar.Day,
      SafeInterval, Point;
    assert forall j: nat | j < k :: MonthHasDay(first, interval, j);
    MonthPointsExact(first, interval, k);
    Calendar.AddUtcMonthsDate(first, k * SafeInterval(interval));
  }

  /** How many days the k-th month has, which is what the date loses when the month is too short. */
  function DaysLost(first: int, interval: int, k: nat): (r: int)
    ensures r >= 28
  {
    Calendar.MonthDays(Calendar.MonthIndex(Calendar.Day(first)) + k * SafeInterval(interval))
  }

  /** From the first month that is too short on, the schedule runs on one of the first three days of
      the month, for ever. */
  lemma {:induction false} DriftIsForever(first: int, interval: int, k: nat, n: nat)
    requires 0 < k <= n && MonthsHaveDay(first, interval, k - 1) && !MonthHasDay(first, interval, k)
    ensures Calendar.UtcDate(Point(first, Monthly, interval, n))
        == Calendar.UtcDate(first) - DaysLost(first, interval, k) <= 3
    ensures !SameDate(first, interval, n)
    decreases n
  {
    hide Calendar.AddUtcMonths, Calendar.UtcDate, Calendar.MonthIndex, Calendar.Day, Calendar.MonthStart,
      SafeInterval;
    if n == k {
      assert forall j: nat | j < k :: MonthHasDay(first, interval, j);
      MonthPointsExact(first, interval, k);
      Calendar.AddUtcMonthsDate(first, k * SafeInterval(interval));
    } else {
      DriftIsForever(first, interval, k, n - 1);
      Calendar.AddUtcMonthsDate(Point(first, Monthly, interval, n - 1), SafeInterval(interval));
    }
  }

  /** The k-th point falls on the day of the month of the first exactly when every month up to it has
      that day: a day once lost is never found again. */
  lemma {:induction false} SameDateIff(first: int, interval: int, k: nat)
    ensures SameDate(first, interval, k) <==> MonthsHaveDay(first, interval, k)
  {
    hide MonthHasDay, SameDate, DaysLost, Point, Calendar.UtcDate;
    if k > 0 && !MonthsHaveDay(first, interval, k - 1) {
      var j := FirstShort(first, interval, k - 1);
      DriftIsForever(first, interval, j, k);
    } else if k > 0 {
      NextKeptIff(first, interval, k);
    } else {
      FirstKept(first, interval);
    }
  }

  lemma {:induction false} FirstShort(first: int, interval: int, k: nat) returns (j: nat)
    requires !MonthsHaveDay(first, interval, k)
    ensures 0 < j <= k && MonthsHaveDay(first, interval, j - 1) && !MonthHasDay(first, interval, j)
  {
    hide MonthHasDay, SameDate;
    FirstKept(first, interval);
    if k > 0 && !MonthsHaveDay(first, interval, k - 1) {
      j := FirstShort(first, interval, k - 1);
    } else {
      j := k;
    }
  }

  /** A monthly schedule keeps its day of the month throughout exactly when every month it aims at has
      that day. */
  lemma {:induction false} MonthlyKeepsDayIff(first: int, interval: int, k: nat)
    ensures DayKept(first, interval, k) <==> MonthsHaveDay(first, interval, k)
  {
    hide SameDate, MonthHasDay;
    if k > 0 {
      MonthlyKeepsDayIff(first, interval, k - 1);
      if MonthsHaveDay(first, interval, k - 1) {
        NextKeptIff(first, interval, k);
      }
    } else {
      FirstKept(first, interval);
    }
  }

  /** Midnight of a day, its month numbered from 0. */
  function Midnight(year: int, month: int, date: int): int {
    Calendar.MakeInstant(12 * year + month, date, 0)
  }

  lemma MidnightParts(year: int, month: int, date: int)
    requires 0 <= month < 12 && 1 <= date <= Calendar.MonthDays(12 * year + month)
    ensures Calendar.UtcDate(Midnight(year, month, date)) == date
    ensures Calendar.MonthIndex(Calendar.Day(Midnight(year, month, date))) == 12 * year + month
    ensures Calendar.TimeWithinDay(Midnight(year, month, date)) == 0
  {
    hide Calendar.MonthStart, Calendar.MonthDays;
    var k := 12 * year + month;
    assert Calendar.Day(Midnight(year, month, date)) == Calendar.MonthStart(k) + date - 1;
    Calendar.MonthLength(k);
    Calendar.MonthIndexUnique(Calendar.MonthStart(k) + date - 1, k);
  }

  // The epoch and the start of a year pin the numbering to the civil calendar.
  lemma Year2026()
    ensures Calendar.MonthStart(12 * 2026) == 20_454 && Calendar.MonthStart(12 * 2026 + 1) == 20_485
    ensures Calendar.MonthStart(12 * 2026 + 2) == 20_513 && Calendar.MonthStart(12 * 2026 + 3) == 20_544
    ensures Calendar.MonthDays(12 * 2026) == 31 && Calendar.MonthDays(12 * 2026 + 2) == 31
  {
    hide Calendar.MonthStart, Calendar.MonthDays, Calendar.DayFromYear;
    Calendar.KnownDates();
    Calendar.MonthOfYear(2026, 0);
    Calendar.MonthOfYear(2026, 1);
    Calendar.MonthOfYear(2026, 2);
    Calendar.MonthOfYear(2026, 3);
  }

  /** A monthly schedule that starts on 31 January 2026 goes on to 3 March and stays on the third. */
  lemma MonthlyDriftOccurs()
    ensures Midnight(2026, 0, 31) == 20_484 * Calendar.DAY_MS
    ensures Point(Midnight(2026, 0, 31), Monthly, 1, 1) == Midnight(2026, 2, 3)
    ensures Point(Midnight(2026, 0, 31), Monthly, 1, 2) == Midnight(2026, 3, 3)
    ensures !DayKept(Midnight(2026, 0, 31), 1, 1)
  {
    hide Calendar.MonthStart, Calendar.MonthDays, Calendar.MonthIndex, Calendar.UtcDate, Calendar.Day,
      Calendar.TimeWithinDay;
    var first, second := Midnight(2026, 0, 31), Midnight(2026, 2, 3);
    Year2026();
    MidnightParts(2026, 0, 31);
    MidnightParts(2026, 2, 3);
    assert SafeInterval(1) == 1;
    assert Point(first, Monthly, 1, 0) == first;
    assert Point(first, Monthly, 1, 1) == second;
    assert !SameDate(first, 1, 1);
  }

  // --------------------------------------------- schedules by interval alone

  /** One advance: `interval` days, weeks or months, and one of them where the interval is below one. */
  lemma NextRunAtByInterval(current: int, interval: int)
    ensures var n := if interval < 1 then 1 else interval;
            && CalculateNextRunAt(current, Daily, interval) == current + n * 86_400_000
            && CalculateNextRunAt(current, Weekly, interval) == current + n * 604_800_000
            && CalculateNextRunAt(current, Monthly, interval) == Calendar.AddUtcMonths(current, n)
  {
    hide Calendar.AddUtcMonths, Calendar.SetUtcDate, Calendar.UtcDate, Calendar.MonthDays, Calendar.MonthIndex,
      Calendar.MonthStart, Calendar.Day;
    var n := if interval < 1 then 1 else interval;
    Calendar.SetUtcDateIsShift(current, n);
    Calendar.SetUtcDateIsShift(current, 7 * n);
  }

  /** A daily schedule: point k is k times the interval in days after the first. */
  lemma {:induction false} DailyPoints(first: int, interval: int, k: nat)
    requires interval >= 1
    ensures Point(first, Daily, interval, k) == first + k * interval * 86_400_000
  {
    hide CalculateNextRunAt, Calendar.AddUtcMonths;
    if k > 0 {
      DailyPoints(first, interval, k - 1);
      NextRunAtByInterval(Point(first, Daily, interval, k - 1), interval);
      OneMoreStep(k, interval);
    }
  }

  /** A weekly schedule: point k is k times the interval in weeks after the first. */
  lemma {:induction false} WeeklyPoints(first: int, interval: int, k: nat)
    requires interval >= 1
    ensures Point(first, Weekly, interval, k) == first + 7 * (k * interval) * 86_400_000
  {
    hide CalculateNextRunAt, Calendar.AddUtcMonths;
    if k > 0 {
      WeeklyPoints(first, interval, k - 1);
      NextRunAtByInterval(Point(first, Weekly, interval, k - 1), interval);
      OneMoreStep(k, interval);
    }
  }

  /** A monthly schedule whose earlier months all have its day: point k is k times the interval in months
      after the first. */
  lemma {:induction false} MonthlyPoints(first: int, interval: int, k: nat)
    requires interval >= 1
    requires forall j: nat | j < k ::
               Calendar.UtcDate(first) <= Calendar.MonthDays(Calendar.MonthIndex(Calendar.Day(first)) + j * interval)
    ensures Point(first, Monthly, interval, k) == Calendar.AddUtcMonths(first, k * interval)
  {
    hide CalculateNextRunAt, Calendar.AddUtcMonths, Calendar.UtcDate, Calendar.MonthDays, Calendar.MonthIndex,
      Calendar.Day;
    if k > 0 {
      MonthlyPoints(first, interval, k - 1);
      NextRunAtByInterval(Point(first, Monthly, interval, k - 1), interval);
      Calendar.AddUtcMonthsCompose(first, (k - 1) * interval, interval);
      OneMoreStep(k, interval);
    } else {
      Calendar.AddNoMonths(first);
    }
  }

  /** An interval below one is taken as one. */
  lemma {:induction false} SmallIntervals(first: int, f: Frequency, interval: int, k: nat)
    requires interval < 1
    ensures Point(first, f, interval, k) == Point(first, f, 1, k)
  {
    hide CalculateNextRunAt, Calendar.AddUtcMonths;
    if k > 0 {
      SmallIntervals(first, f, interval, k - 1);
      NextRunAtByInterval(Point(first, f, 1, k - 1), interval);
      NextRunAtByInterval(Point(first, f, 1, k - 1), 1);
    }
  }

  lemma PointsIncrease(first: int, f: Frequency, interval: int, j: nat, k: nat)
    requires j < k
    ensures Point(first, f, interval, j) < Point(first, f, interval, k)
    decreases k
  {
    hide CalculateNextRunAt;
    NextRunAtIncreases(Point(first, f, interval, k - 1), f, interval);
    if j < k - 1 {
      PointsIncrease(first, f, interval, j, k - 1);
    }
  }

  /** How many points of the schedule starting at `first` lie at or before `limit`. */
  function PointsUpTo(first: int, f: Frequency, interval: int, limit: int): nat
    decreases limit - first
  {
    NextRunAtIncreases(first, f, interval);
    if first > limit then 0 else 1 + PointsUpTo(CalculateNextRunAt(first, f, interval), f, interval, limit)
  }

  lemma {:induction false} PointShift(first: int, f: Frequency, interval: int, k: nat)
    ensures Point(CalculateNextRunAt(first, f, interval), f, interval, k) == Point(first, f, interval, k + 1)
  {
    hide CalculateNextRunAt;
    if k > 0 {
      PointShift(first, f, interval, k - 1);
    }
  }

  /** `n` counts the points up to `limit` exactly when the limit falls between point n-1 and point n. */
  lemma {:induction false} PointsUpToIs(first: int, f: Frequency, interval: int, limit: int, n: nat)
    requires n > 0 ==> Point(first, f, interval, n - 1) <= limit
    requires limit < Point(first, f, interval, n)
    ensures PointsUpTo(first, f, interval, limit) == n
    decreases n
  {
    hide CalculateNextRunAt;
    if n > 0 {
      if n > 1 {
        PointsIncrease(first, f, interval, 0, n - 1);
        PointShift(first, f, interval, n - 2);
      }
      PointShift(first, f, interval, n - 1);
      PointsUpToIs(CalculateNextRunAt(first, f, interval), f, interval, limit, n - 1);
    }
  }

  // ------------------------------------------------------------- one firing

  predicate IsDue(t: Template, now: int) {
    t.isActive && t.nextRunAt <= now
  }

  function Advanced(t: Template, now: int): Template {
    var next := CalculateNextRunAt(t.nextRunAt, t.frequency, t.interval);
    t.(lastRunAt := Some(now), nextRunAt := next, isActive := t.endsAt.Some? ==> next <= t.endsAt.value)
  }

  /** One template's transaction: the new task's id, and the status query's answer. */
  datatype Firing = Firing(now: int, templateId: Id, newId: NewId, pick: Option<Id>)

  ghost function Generated(s: Sched, f: Firing): Result<Db>
    requires f.templateId in s.templates
  {
    var t := s.templates[f.templateId];
    Generate(s.db, f.newId, t.projectId, t.statusId, f.pick, t.content, f.templateId, f.now)
  }

  ghost function Process(s: Sched, f: Firing): Sched {
    if f.templateId !in s.templates || !IsDue(s.templates[f.templateId], f.now) then s
    else
      var t := s.templates[f.templateId];
      if !LiveProject(s.db, t.projectId) then
        s.(templates := s.templates[f.templateId := t.(isActive := false)])
      else match Generated(s, f)
        case Success(db) => Sched(db, s.templates[f.templateId := Advanced(t, f.now)])
        case Failure(NotFound) => s.(templates := s.templates[f.templateId := Advanced(t, f.now)])
        case Failure(_) => s
  }

  ghost function ProcessAll(s: Sched, fs: seq<Firing>): Sched {
    if fs == [] then s else Process(ProcessAll(s, fs[..|fs| - 1]), fs[|fs| - 1])
  }

  /** The transaction of a due template does not fail. */
  ghost predicate Succeeds(s: Sched, f: Firing) {
    f.templateId in s.templates && IsDue(s.templates[f.templateId], f.now)
        && LiveProject(s.db, s.templates[f.templateId].projectId) ==>
      Generated(s, f).Success? || Generated(s, f) == Failure(NotFound)
  }

  ghost predicate AllSucceed(s: Sched, fs: seq<Firing>) {
    forall k | 0 <= k < |fs| :: Succeeds(ProcessAll(s, fs[..k]), fs[k])
  }

  /** With the tables in a reachable state, a fresh id and a possible query answer, no transaction fails. */
  lemma FreshIdSucceeds(s: Sched, f: Firing)
    requires Inv(s.db) && f.newId !in s.db.tasks && f.templateId in s.templates
    requires Given(s.templates[f.templateId].statusId) || MayAnswer(s.db, s.templates[f.templateId].projectId, f.pick)
    ensures Succeeds(s, f)
  {
    hide KeysOk, LogOk, DepsOk, TasksOk, StatusesOk, WorkflowsOk, ProjectsOk;
    var t := s.templates[f.templateId];
    if LiveProject(s.db, t.projectId) && ResolveStatus(s.db, t.projectId, t.statusId, f.pick).Some? {
      InsertNeverConflicts(s.db, f.newId, t.projectId, ResolveStatus(s.db, t.projectId, t.statusId, f.pick).value,
          FieldsOf(t.content), Some(f.templateId), f.now);
    }
  }

  /** The scheduler writes the task tables only through the generate request, so it keeps their invariant. */
  lemma ProcessKeepsInv(s: Sched, f: Firing)
    requires Inv(s.db)
    ensures Inv(Process(s, f).db)
  {
    hide Inv;
    if f.templateId in s.templates {
      var t := s.templates[f.templateId];
      if Generated(s, f).Success? {
        InsertKeepsInv(s.db, f.newId, t.projectId, ResolveStatus(s.db, t.projectId, t.statusId, f.pick).value,
            FieldsOf(t.content), Some(f.templateId), f.now);
      }
    }
  }

  /** The recorded answer of the status query is one the database could have given, where it was asked. */
  ghost predicate AnswerOk(s: Sched, f: Firing) {
    f.templateId in s.templates && IsDue(s.templates[f.templateId], f.now)
      && LiveProject(s.db, s.templates[f.templateId].projectId) ==>
      Given(s.templates[f.templateId].statusId) || MayAnswer(s.db, s.templates[f.templateId].projectId, f.pick)
  }

  lemma FreshFiring(s: Sched, f: Firing)
    requires Inv(s.db) && f.newId !in s.db.tasks && AnswerOk(s, f)
    ensures Succeeds(s, f) && Inv(Process(s, f).db)
    ensures forall t | t in Process(s, f).db.tasks :: t in s.db.tasks || t == f.newId
  {
    hide Inv, MayAnswer, CalculateNextRunAt, Advanced;
    ProcessKeepsInv(s, f);
    if f.templateId in s.templates && IsDue(s.templates[f.templateId], f.now)
      && LiveProject(s.db, s.templates[f.templateId].projectId)
    {
      FreshIdSucceeds(s, f);
    }
  }

  ghost function IdsOf(fs: seq<Firing>): set<Id> {
    set k | 0 <= k < |fs| :: fs[k].newId
  }

  /** The ids of a batch of firings are new and differ from each other. */
  ghost predicate FreshIds(s: Sched, fs: seq<Firing>) {
    && (forall k | 0 <= k < |fs| :: fs[k].newId !in s.db.tasks)
    && forall j, k | 0 <= j < k < |fs| :: fs[j].newId != fs[k].newId
  }

  ghost predicate AnswersOk(s: Sched, fs: seq<Firing>) {
    forall k | 0 <= k < |fs| :: AnswerOk(ProcessAll(s, fs[..k]), fs[k])
  }

  // The hypotheses of a batch hold of the batch without its last firing, and of that firing after it.
  lemma BatchWithoutLast(s: Sched, fs: seq<Firing>)
    requires fs != [] && FreshIds(s, fs) && AnswersOk(s, fs)
    ensures var init, f := fs[..|fs| - 1], fs[|fs| - 1];
            && FreshIds(s, init) && AnswersOk(s, init)
            && f.newId !in s.db.tasks && f.newId !in IdsOf(init) && AnswerOk(ProcessAll(s, init), f)
  {
    hide AnswerOk, ProcessAll;
    var init := fs[..|fs| - 1];
    assert forall k | 0 <= k < |init| :: init[k] == fs[k] && init[..k] == fs[..k];
    assert fs[..|init|] == init;
  }

  lemma SucceedWithLast(s: Sched, fs: seq<Firing>)
    requires fs != [] && AllSucceed(s, fs[..|fs| - 1]) && Succeeds(ProcessAll(s, fs[..|fs| - 1]), fs[|fs| - 1])
    ensures AllSucceed(s, fs)
  {
    hide Succeeds, ProcessAll;
    var init := fs[..|fs| - 1];
    forall k | 0 <= k < |fs|
      ensures Succeeds(ProcessAll(s, fs[..k]), fs[k])
    {
      if k < |init| {
        assert init[k] == fs[k] && init[..k] == fs[..k];
      }
    }
  }

  lemma NoFirings(s: Sched)
    ensures ProcessAll(s, []) == s && AnswersOk(s, [])
  {
  }

  lemma OneMoreFiring(s: Sched, fs: seq<Firing>, f: Firing)
    requires AnswersOk(s, fs) && AnswerOk(ProcessAll(s, fs), f)
    ensures ProcessAll(s, fs + [f]) == Process(ProcessAll(s, fs), f) && AnswersOk(s, fs + [f])
  {
    hide AnswerOk, Process;
    var more := fs + [f];
    assert more[..|fs|] == fs;
    forall k | 0 <= k < |more|
      ensures AnswerOk(ProcessAll(s, more[..k]), more[k])
    {
      assert k < |fs| ==> more[..k] == fs[..k];
    }
  }

  /** In a state satisfying the task invariant no firing of a batch with fresh ids fails. */
  lemma {:induction false} FreshBatchSucceeds(s: Sched, fs: seq<Firing>)
    requires Inv(s.db) && FreshIds(s, fs) && AnswersOk(s, fs)
    ensures AllSucceed(s, fs) && Inv(ProcessAll(s, fs).db)
    ensures forall t | t in ProcessAll(s, fs).db.tasks :: t in s.db.tasks || t in IdsOf(fs)
  {
    hide Inv, Process, Succeeds, AnswerOk, FreshIds, AnswersOk, AllSucceed;
    if fs == [] {
      NoneFails(s);
    } else {
      var init, f := fs[..|fs| - 1], fs[|fs| - 1];
      BatchWithoutLast(s, fs);
      FreshBatchSucceeds(s, init);
      FreshFiring(ProcessAll(s, init), f);
      SucceedWithLast(s, fs);
      MoreIds(fs);
    }
  }

  lemma NoneFails(s: Sched)
    ensures AllSucceed(s, [])
  {
  }

  lemma MoreIds(fs: seq<Firing>)
    requires fs != []
    ensures IdsOf(fs) == IdsOf(fs[..|fs| - 1]) + {fs[|fs| - 1].newId}
  {
    var init := fs[..|fs| - 1];
    assert forall k | 0 <= k < |init| :: init[k].newId == fs[k].newId;
    assert fs[|init|].newId in IdsOf(fs);
  }

  // ------------------------------------------------------------- catching up

  /** What is left to do for one template at `now`: zero exactly when it is not due. */
  function Backlog(t: Template, now: int): nat {
    if IsDue(t, now) then now - t.nextRunAt + 1 else 0
  }

  function TotalBacklog(templates: map<Id, Template>, ids: seq<Id>, now: int): nat {
    if ids == [] then 0
    else
      TotalBacklog(templates, ids[..|ids| - 1], now)
      + (if ids[|ids| - 1] in templates then Backlog(templates[ids[|ids| - 1]], now) else 0)
  }

  // Successful processing shortens the template's backlog and no other.
  lemma ProcessShrinks(s: Sched, f: Firing)
    requires Succeeds(s, f)
    ensures Process(s, f).templates.Keys == s.templates.Keys
    ensures forall id | id in s.templates && id != f.templateId :: Process(s, f).templates[id] == s.templates[id]
    ensures f.templateId in s.templates ==>
              var before, after := Backlog(s.templates[f.templateId], f.now),
                  Backlog(Process(s, f).templates[f.templateId], f.now);
              after <= before && (before > 0 ==> after < before)
  {
    hide Generate, CalculateNextRunAt;
    if f.templateId in s.templates {
      var t := s.templates[f.templateId];
      NextRunAtIncreases(t.nextRunAt, t.frequency, t.interval);
    }
  }

  lemma {:induction false} TotalShrinks(a: map<Id, Template>, b: map<Id, Template>, ids: seq<Id>, now: int, id: Id)
    requires a.Keys == b.Keys
    requires forall x | x in a :: Backlog(b[x], now) <= Backlog(a[x], now)
    requires id in ids && id in a && Backlog(b[id], now) < Backlog(a[id], now)
    ensures TotalBacklog(b, ids, now) < TotalBacklog(a, ids, now)
  {
    var init, last := ids[..|ids| - 1], ids[|ids| - 1];
    assert ids == init + [last];
    TotalNotGrowing(a, b, init, now);
    if id in init {
      TotalShrinks(a, b, init, now, id);
    }
  }

  lemma {:induction false} TotalNotGrowing(a: map<Id, Template>, b: map<Id, Template>, ids: seq<Id>, now: int)
    requires a.Keys == b.Keys
    requires forall x | x in a :: Backlog(b[x], now) <= Backlog(a[x], now)
    ensures TotalBacklog(b, ids, now) <= TotalBacklog(a, ids, now)
  {
    if ids != [] {
      TotalNotGrowing(a, b, ids[..|ids| - 1], now);
    }
  }

  // A whole tick never adds backlog, and the first template it handles loses some.
  lemma {:induction false} ProcessAllShrinks(s: Sched, fs: seq<Firing>, now: int)
    requires AllSucceed(s, fs) && forall k | 0 <= k < |fs| :: fs[k].now == now
    ensures ProcessAll(s, fs).templates.Keys == s.templates.Keys
    ensures forall id | id in s.templates ::
        Backlog(ProcessAll(s, fs).templates[id], now) <= Backlog(s.templates[id], now)
    ensures |fs| > 0 && fs[0].templateId in s.templates && IsDue(s.templates[fs[0].templateId], now) ==>
              Backlog(ProcessAll(s, fs).templates[fs[0].templateId], now) < Backlog(s.templates[fs[0].templateId], now)
  {
    if fs != [] {
      var init := fs[..|fs| - 1];
      assert forall k | 0 <= k < |init| :: init[k] == fs[k] && init[..k] == fs[..k];
      assert AllSucceed(s, init);
      ProcessAllShrinks(s, init, now);
      ProcessShrinks(ProcessAll(s, init), fs[|fs| - 1]);
      if |fs| == 1 {
        assert init == [];
      }
    }
  }

  /** The templates a tick handles: up to fifty due ones, the longest overdue first. */
  ghost predicate DueBatch(templates: map<Id, Template>, now: int, ids: seq<Id>) {
    && |ids| <= BATCH_SIZE && Distinct(ids)
    && (forall id | id in ids :: id in templates && IsDue(templates[id], now))
    && (forall i, j | 0 <= i < j < |ids| :: templates[ids[i]].nextRunAt <= templates[ids[j]].nextRunAt)
    && (forall id | id in templates && IsDue(templates[id], now) && id !in ids ::
          |ids| == BATCH_SIZE && forall other | other in ids :: templates[other].nextRunAt <= templates[id].nextRunAt)
  }

  /** A tick at `now`: the firings of one batch, none of which fails. */
  ghost predicate TickOk(s: Sched, now: int, fs: seq<Firing>) {
    && DueBatch(s.templates, now, seq(|fs|, i requires 0 <= i < |fs| => fs[i].templateId))
    && (forall k | 0 <= k < |fs| :: fs[k].now == now)
    && AllSucceed(s, fs)
  }

  ghost function Ticks(s: Sched, ticks: seq<seq<Firing>>): Sched {
    if ticks == [] then s else ProcessAll(Ticks(s, ticks[..|ticks| - 1]), ticks[|ticks| - 1])
  }

  ghost predicate TicksOk(s: Sched, now: int, ticks: seq<seq<Firing>>) {
    forall k | 0 <= k < |ticks| :: TickOk(Ticks(s, ticks[..k]), now, ticks[k])
  }

  ghost predicate NoneDue(s: Sched, now: int) {
    forall id | id in s.templates :: !IsDue(s.templates[id], now)
  }

  // The firings of a batch in its order, with fresh ids, are a tick.
  lemma TickWhenFresh(s: Sched, now: int, batch: seq<Id>, fs: seq<Firing>)
    requires DueBatch(s.templates, now, batch) && |fs| == |batch|
    requires forall k | 0 <= k < |fs| :: fs[k].now == now && fs[k].templateId == batch[k]
    requires Inv(s.db) && FreshIds(s, fs) && AnswersOk(s, fs)
    ensures TickOk(s, now, fs) && Inv(ProcessAll(s, fs).db)
  {
    hide Inv, Process, AnswerOk, DueBatch, FreshIds, AnswersOk, AllSucceed;
    assert seq(|fs|, i requires 0 <= i < |fs| => fs[i].templateId) == batch;
    FreshBatchSucceeds(s, fs);
  }

  lemma TickShrinks(s: Sched, now: int, fs: seq<Firing>, ids: seq<Id>)
    requires TickOk(s, now, fs) && forall id | id in s.templates :: id in ids
    ensures ProcessAll(s, fs).templates.Keys == s.templates.Keys
    ensures NoneDue(s, now) ==> NoneDue(ProcessAll(s, fs), now)
    ensures !NoneDue(s, now) ==>
              TotalBacklog(ProcessAll(s, fs).templates, ids, now) < TotalBacklog(s.templates, ids, now)
  {
    ProcessAllShrinks(s, fs, now);
    var batch := seq(|fs|, i requires 0 <= i < |fs| => fs[i].templateId);
    if NoneDue(s, now) {
      forall id | id in s.templates
        ensures !IsDue(ProcessAll(s, fs).templates[id], now)
      {
        assert Backlog(s.templates[id], now) == 0;
      }
    } else {
      var id :| id in s.templates && IsDue(s.templates[id], now);
      assert |batch| > 0;
      assert batch[0] in batch && batch[0] == fs[0].templateId;
      TotalShrinks(s.templates, ProcessAll(s, fs).templates, ids, now, batch[0]);
    }
  }

  /** Repeated ticks at a fixed time catch up: once there have been as many ticks as
      the total backlog, no template is due, whatever the batches were. */
  lemma {:induction false} TicksCatchUp(s: Sched, now: int, ticks: seq<seq<Firing>>, ids: seq<Id>)
    requires TicksOk(s, now, ticks) && forall id | id in s.templates :: id in ids
    ensures Ticks(s, ticks).templates.Keys == s.templates.Keys
    ensures NoneDue(Ticks(s, ticks), now)
         || TotalBacklog(Ticks(s, ticks).templates, ids, now) + |ticks| <= TotalBacklog(s.templates, ids, now)
    ensures |ticks| >= TotalBacklog(s.templates, ids, now) ==> NoneDue(Ticks(s, ticks), now)
  {
    hide TickOk, TotalBacklog, ProcessAll;
    if ticks != [] {
      var init := ticks[..|ticks| - 1];
      assert forall k | 0 <= k < |init| :: init[k] == ticks[k] && init[..k] == ticks[..k];
      TicksCatchUp(s, now, init, ids);
      assert ticks[..|init|] == init;
      TickShrinks(Ticks(s, init), now, ticks[|ticks| - 1], ids);
    }
    if TotalBacklog(Ticks(s, ticks).templates, ids, now) == 0 {
      forall id | id in Ticks(s, ticks).templates
        ensures !IsDue(Ticks(s, ticks).templates[id], now)
      {
        TotalCovers(Ticks(s, ticks).templates, ids, now, id);
      }
    }
  }

  lemma {:induction false} TotalCovers(templates: map<Id, Template>, ids: seq<Id>, now: int, id: Id)
    requires id in ids && id in templates
    ensures Backlog(templates[id], now) <= TotalBacklog(templates, ids, now)
  {
    var init, last := ids[..|ids| - 1], ids[|ids| - 1];
    assert ids == init + [last];
    if id in init {
      TotalCovers(templates, init, now, id);
    }
  }

  // ------------------------------------------------- tasks and schedule points

  ghost function Made(db: Db, templateId: Id): set<Id> {
    set t | t in db.tasks && db.tasks[t].templateId == Some(templateId)
  }

  /** The template's project is live and offers a status to start in. */
  ghost predicate CanGenerate(db: Db, t: Template) {
    && LiveProject(db, t.projectId)
    && if Given(t.statusId) then StatusInProject(db, t.projectId, t.statusId.value)
       else exists s :: StatusInProject(db, t.projectId, s)
  }

  ghost predicate WithinEnd(t: Template, at: int) {
    t.endsAt.Some? ==> at <= t.endsAt.value
  }

  // What a generation writes: one task of its template.
  lemma GenerateMakes(db: Db, id: NewId, p: Id, wanted: Option<Id>, pick: Option<Id>, content: Content, templateId: Id,
      now: int)
    requires Generate(db, id, p, wanted, pick, content, templateId, now).Success?
    ensures var after := Generate(db, id, p, wanted, pick, content, templateId, now).value;
            && id !in db.tasks && id in after.tasks && after.tasks == db.tasks[id := after.tasks[id]]
            && after.tasks[id].templateId == Some(templateId)
  {
    hide MayAnswer, ResolveStatus;
  }

  // Whether a generation finds a status is whether there is one.
  lemma GenerateFindsIff(db: Db, t: Template, id: NewId, pick: Option<Id>, templateId: Id, now: int)
    ensures var r := Generate(db, id, t.projectId, t.statusId, pick, t.content, templateId, now);
            && (r.Success? ==> CanGenerate(db, t))
            && (r == Failure(NotFound) ==> !CanGenerate(db, t))
  {
  }

  // ------------------------------------------------------- ticks among requests

  /** What happens to templates and tasks: a firing of the scheduler, or a request of a user. */
  datatype Act = Fire(firing: Firing) | Serve(request: Request, at: int)

  ghost function Perform(s: Sched, a: Act): Sched {
    match a
    case Fire(f) => Process(s, f)
    case Serve(r, now) => s.(db := Step(s.db, r, now))
  }

  ghost function Performed(s: Sched, acts: seq<Act>): Sched {
    if acts == [] then s else Perform(Performed(s, acts[..|acts| - 1]), acts[|acts| - 1])
  }

  /** Only the scheduler generates tasks from templates. */
  ghost predicate ActOk(a: Act) {
    a.Serve? ==> !a.request.GenerateRequest?
  }

  /** The act is a firing of this template while it is due. */
  ghost predicate Rings(s: Sched, a: Act, id: Id) {
    a.Fire? && a.firing.templateId == id && id in s.templates && IsDue(s.templates[id], a.firing.now)
  }

  /** The firing commits with the template's project live, and so moves it past a schedule point. */
  ghost predicate Passes(s: Sched, a: Act, id: Id) {
    && Rings(s, a, id) && LiveProject(s.db, s.templates[id].projectId)
    && (Generated(s, a.firing).Success? || Generated(s, a.firing) == Failure(NotFound))
  }

  /** The firing finds the template's project deleted, and so switches the template off. */
  ghost predicate Retires(s: Sched, a: Act, id: Id) {
    Rings(s, a, id) && !LiveProject(s.db, s.templates[id].projectId)
  }

  /** A firing that passes a point moves the template on by its interval, notes the time, and leaves it active
      exactly when the new point is not beyond its end; nothing else of the template changes. */
  lemma PassingAdvances(s: Sched, f: Firing)
    requires Passes(s, Fire(f), f.templateId)
    ensures var t := s.templates[f.templateId];
            var n := if t.interval < 1 then 1 else t.interval;
            && f.templateId in Process(s, f).templates
            && var a := Process(s, f).templates[f.templateId];
               && a == t.(lastRunAt := a.lastRunAt, nextRunAt := a.nextRunAt, isActive := a.isActive)
               && a.lastRunAt == Some(f.now)
               && a.nextRunAt == (match t.frequency
                                  case Daily => t.nextRunAt + n * 86_400_000
                                  case Weekly => t.nextRunAt + n * 604_800_000
                                  case Monthly => Calendar.AddUtcMonths(t.nextRunAt, n))
               && (a.isActive <==> t.endsAt.None? || a.nextRunAt <= t.endsAt.value)
  {
    hide Generate, CalculateNextRunAt, Calendar.AddUtcMonths;
    NextRunAtByInterval(s.templates[f.templateId].nextRunAt, s.templates[f.templateId].interval);
  }

  /** A firing that passes a point while a status exists adds exactly one task: of the template's project, in
      the status generated tasks start in, with the template's content and the next key. */
  lemma PassingAdds(s: Sched, f: Firing)
    requires Passes(s, Fire(f), f.templateId) && CanGenerate(s.db, s.templates[f.templateId])
    ensures var t, after := s.templates[f.templateId], Process(s, f).db;
            && f.newId in after.tasks
            && StartsIn(s.db, t.projectId, t.statusId, after.tasks[f.newId].statusId)
            && Added(s.db, after, f.newId, t.projectId, after.tasks[f.newId].statusId, Some(f.templateId), f.now)
            && after.tasks[f.newId].fields
               == Fields(t.content.assigneeId, t.content.milestoneId, None, None, t.content.texts)
  {
    hide Generate, CalculateNextRunAt, CanGenerate, Added, StartsIn;
    var t := s.templates[f.templateId];
    GenerateFindsIff(s.db, t, f.newId, f.pick, f.templateId, f.now);
    GenerateAdds(s.db, f.newId, t.projectId, t.statusId, f.pick, t.content, f.templateId, f.now);
  }

  /** How many schedule points a run of acts moved a template past. */
  ghost function Passed(s: Sched, acts: seq<Act>, id: Id): nat {
    if acts == [] then 0
    else
      var before := Performed(s, acts[..|acts| - 1]);
      Passed(s, acts[..|acts| - 1], id) + (if Passes(before, acts[|acts| - 1], id) then 1 else 0)
  }

  /** How many of them it passed while there was no live status to start a task in. */
  ghost function Missed(s: Sched, acts: seq<Act>, id: Id): nat {
    if acts == [] then 0
    else
      var before := Performed(s, acts[..|acts| - 1]);
      Missed(s, acts[..|acts| - 1], id)
      + (if Passes(before, acts[|acts| - 1], id) && !CanGenerate(before.db, before.templates[id]) then 1 else 0)
  }

  ghost predicate Retired(s: Sched, acts: seq<Act>, id: Id) {
    acts != [] && (Retired(s, acts[..|acts| - 1], id)
        || Retires(Performed(s, acts[..|acts| - 1]), acts[|acts| - 1], id))
  }

  // Requests of users neither make nor unmake tasks of a template.
  lemma MadeKept(db: Db, r: Request, now: int, id: Id)
    requires !r.GenerateRequest?
    ensures Made(Step(db, r, now), id) == Made(db, id)
  {
    hide MayMark, StatusInProject, TransitionAllowed, CheckFields, Overlaid, Bulk, Generate, CreateProject,
      DeleteProject, CreateStatus, UpdateStatus, DeleteStatus, CreateWorkflow, CreateDependency, DeleteDependency;
    if LeavesTasks(r) {
      TasksUntouched(db, r, now);
    } else if r.BulkRequest? && Apply(db, r, now).Success? {
      BulkMadeKept(db, r.ids, r.assign, r.target, r.days, now, id);
    }
  }

  lemma BulkMadeKept(db: Db, ids: seq<Id>, assign: Assignment, statusId: Option<Id>, days: Option<int>, now: int,
      id: Id)
    requires Bulk(db, ids, assign, statusId, days, now).Success?
    ensures Made(Bulk(db, ids, assign, statusId, days, now).value, id) == Made(db, id)
  {
    hide BulkAll;
    var target := if Given(statusId) then statusId else None;
    BulkIsReady(db, ids, assign, statusId, days, now);
    BulkAllWrites(db, ids, target, EditOf(assign, days), now);
    var after := BulkAll(db, ids, target, EditOf(assign, days), now).value;
    assert forall t | t in db.tasks :: after.tasks[t].templateId == db.tasks[t].templateId;
  }

  // What one act does to one template and its tasks.
  lemma PerformOne(s: Sched, a: Act, id: Id)
    requires ActOk(a) && id in s.templates
    ensures var t, after := s.templates[id], Perform(s, a);
            && id in after.templates
            && after.templates[id] == (if Passes(s, a, id) then Advanced(t, a.firing.now)
                                       else if Retires(s, a, id) then t.(isActive := false) else t)
            && if Passes(s, a, id) && CanGenerate(s.db, t)
               then a.firing.newId !in s.db.tasks && Made(after.db, id) == Made(s.db, id) + {a.firing.newId}
               else Made(after.db, id) == Made(s.db, id)
  {
    hide Generate, Advanced, CanGenerate, Step;
    match a {
      case Serve(r, now) => MadeKept(s.db, r, now, id);
      case Fire(f) =>
        if f.templateId in s.templates {
          var t := s.templates[f.templateId];
          GenerateFindsIff(s.db, t, f.newId, f.pick, f.templateId, f.now);
          if Generated(s, f).Success? {
            GenerateMakes(s.db, f.newId, t.projectId, t.statusId, f.pick, t.content, f.templateId, f.now);
          }
        }
    }
  }

  /** The progress of one template from its row `t0`, past `n` schedule points: it stands at its n-th
      point, it is active exactly while that point is within its end and no firing retired it, and
      every point it passed was within its end. */
  ghost predicate Progress(t0: Template, t: Template, n: nat, retired: bool) {
    && t == t0.(nextRunAt := t.nextRunAt, lastRunAt := t.lastRunAt, isActive := t.isActive)
    && t.nextRunAt == Point(t0.nextRunAt, t0.frequency, t0.interval, n)
    && (t.isActive <==> !retired && WithinEnd(t0, t.nextRunAt))
    && forall k: nat | k < n :: WithinEnd(t0, Point(t0.nextRunAt, t0.frequency, t0.interval, k))
  }

  lemma ProgressAdvances(t0: Template, t: Template, n: nat, now: int)
    requires Progress(t0, t, n, false) && t.isActive
    ensures Progress(t0, Advanced(t, now), n + 1, false)
  {
    hide CalculateNextRunAt;
  }

  lemma ProgressRetires(t0: Template, t: Template, n: nat, retired: bool)
    requires Progress(t0, t, n, retired)
    ensures Progress(t0, t.(isActive := false), n, true)
    ensures t.isActive ==> !retired
    ensures t.nextRunAt == Point(t0.nextRunAt, t0.frequency, t0.interval, n)
  {
    hide CalculateNextRunAt, Point;
  }

  /** The tasks made for a template by a run of acts. */
  ghost function NewTasks(s: Sched, acts: seq<Act>, id: Id): set<Id> {
    Made(Performed(s, acts).db, id) - Made(s.db, id)
  }

  ghost predicate FiredBy(acts: seq<Act>, now: int) {
    forall k | 0 <= k < |acts| :: acts[k].Fire? ==> acts[k].firing.now <= now
  }

  ghost predicate Scheduled(s: Sched, acts: seq<Act>, id: Id) {
    && id in s.templates && s.templates[id].isActive && WithinEnd(s.templates[id], s.templates[id].nextRunAt)
    && forall k | 0 <= k < |acts| :: ActOk(acts[k])
  }

  /** Over any run of firings, at any times, of any templates, failing or not, among any requests of
      users, a template's tasks and its schedule points passed differ by exactly the points passed
      while no live status existed, and no point passed lies beyond its end. */
  lemma {:induction false} TasksFollowSchedule(s: Sched, acts: seq<Act>, id: Id, now: int)
    requires Scheduled(s, acts, id)
    ensures var t, n, r := s.templates[id], Passed(s, acts, id), Performed(s, acts);
            && id in r.templates && Progress(t, r.templates[id], n, Retired(s, acts, id))
            && Made(s.db, id) <= Made(r.db, id)
            && |NewTasks(s, acts, id)| + Missed(s, acts, id) == n
            && (FiredBy(acts, now) && n > 0 ==> Point(t.nextRunAt, t.frequency, t.interval, n - 1) <= now)
  {
    hide Perform, Passes, Retires, CanGenerate, Progress, Point, Made, Advanced, ActOk;
    if acts == [] {
      assert NewTasks(s, acts, id) == {};
      ProgressStarts(s.templates[id]);
    } else {
      var init, a := acts[..|acts| - 1], acts[|acts| - 1];
      var before, n := Performed(s, init), Passed(s, init, id);
      TasksFollowSchedule(s, init, id, now);
      PerformOne(before, a, id);
      PassingMeansDue(before, a, id);
      ProgressRetires(s.templates[id], before.templates[id], n, Retired(s, init, id));
      if Passes(before, a, id) {
        ProgressAdvances(s.templates[id], before.templates[id], n, a.firing.now);
        if CanGenerate(before.db, before.templates[id]) {
          MadeKnown(before.db, id, a.firing.newId);
          assert NewTasks(s, acts, id) == NewTasks(s, init, id) + {a.firing.newId};
        }
      }
    }
  }

  lemma PassingMeansDue(s: Sched, a: Act, id: Id)
    ensures Passes(s, a, id) ==>
        a.Fire? && id in s.templates && IsDue(s.templates[id], a.firing.now) && !Retires(s, a, id)
    ensures Retires(s, a, id) ==> a.Fire? && id in s.templates && IsDue(s.templates[id], a.firing.now)
  {
  }

  lemma ProgressStarts(t: Template)
    requires t.isActive && WithinEnd(t, t.nextRunAt)
    ensures Progress(t, t, 0, false)
  {
  }

  lemma MadeKnown(db: Db, id: Id, t: Id)
    requires t !in db.tasks
    ensures t !in Made(db, id)
  {
  }

  /** Whenever this template is fired while due, its project is live and has a status to start in. */
  ghost predicate StatusWhenRung(s: Sched, acts: seq<Act>, id: Id) {
    forall k: nat | k < |acts| ::
      var before := Performed(s, acts[..k]); Rings(before, acts[k], id) ==> CanGenerate(before.db, before.templates[id])
  }

  lemma {:induction false} NothingMissed(s: Sched, acts: seq<Act>, id: Id)
    requires StatusWhenRung(s, acts, id)
    ensures Missed(s, acts, id) == 0 && !Retired(s, acts, id)
  {
    hide Performed;
    if acts != [] {
      var init := acts[..|acts| - 1];
      assert forall k: nat | k < |init| :: init[k] == acts[k] && init[..k] == acts[..k];
      NothingMissed(s, init, id);
      assert acts[..|init|] == init;
    }
  }

  /** Act `k` passes no point of the template, or finds a status for it. */
  ghost predicate StatusFound(s: Sched, acts: seq<Act>, k: nat, id: Id)
    requires k < |acts|
  {
    var before := Performed(s, acts[..k]); Passes(before, acts[k], id) ==> CanGenerate(before.db, before.templates[id])
  }

  /** A run misses no task exactly when every firing that passed a point found a live status; so the tasks
      made equal the points passed exactly then. */
  lemma {:induction false} NothingMissedIff(s: Sched, acts: seq<Act>, id: Id)
    ensures Missed(s, acts, id) == 0 <==> forall k: nat | k < |acts| :: StatusFound(s, acts, k, id)
  {
    hide Performed, Passes, CanGenerate;
    if acts != [] {
      var init := acts[..|acts| - 1];
      NothingMissedIff(s, init, id);
      assert acts[..|init|] == init;
      forall k: nat | k < |init|
        ensures StatusFound(s, acts, k, id) == StatusFound(s, init, k, id)
      {
        assert init[..k] == acts[..k];
      }
      PassingMeansDue(Performed(s, init), acts[|init|], id);
      assert StatusFound(s, acts, |init|, id)
        == (Passes(Performed(s, init), acts[|init|], id)
            ==> CanGenerate(Performed(s, init).db, Performed(s, init).templates[id]));
      if forall k: nat | k < |init| :: StatusFound(s, init, k, id) {
        assert forall k: nat | k < |init| :: StatusFound(s, acts, k, id);
      } else {
        var k: nat :| k < |init| && !StatusFound(s, init, k, id);
        assert !StatusFound(s, acts, k, id);
      }
    }
  }

  const NO_STATUS := Sched(
    EMPTY_DB.(projects := map["p" := Project("WEB", 101, false)]),
    map["r" := Template("p", None, Daily, 1, Content(None, None, map[]), None, None, 0, true)])

  /** A daily template, due at the epoch, in a project without a status: firing it passes the point and
      makes no task. */
  lemma MissedTaskOccurs()
    ensures var acts := [Fire(Firing(0, "r", "t", None))];
            && Scheduled(NO_STATUS, acts, "r") && Passed(NO_STATUS, acts, "r") == 1
            && Missed(NO_STATUS, acts, "r") == 1 && NewTasks(NO_STATUS, acts, "r") == {}
  {
    hide CalculateNextRunAt;
    var a := Fire(Firing(0, "r", "t", None));
    assert [a][..0] == [] && Performed(NO_STATUS, []) == NO_STATUS;
    assert MayAnswer(NO_STATUS.db, "p", None);
    assert Generated(NO_STATUS, a.firing) == Failure(NotFound);
    assert Passes(NO_STATUS, a, "r") && !CanGenerate(NO_STATUS.db, NO_STATUS.templates["r"]);
    assert Perform(NO_STATUS, a).db == NO_STATUS.db;
    assert Performed(NO_STATUS, [a]) == Perform(NO_STATUS, a);
  }

  /** Once caught up at `now`, a template that had a status whenever it was fired has made one task for
      each of its schedule points up to `now` and its end, and no more. */
  lemma CaughtUpCount(s: Sched, acts: seq<Act>, id: Id, now: int)
    requires Scheduled(s, acts, id) && FiredBy(acts, now) && StatusWhenRung(s, acts, id)
    requires id in Performed(s, acts).templates && !IsDue(Performed(s, acts).templates[id], now)
    ensures var t := s.templates[id];
            var limit := if t.endsAt.Some? && t.endsAt.value < now then t.endsAt.value else now;
            |NewTasks(s, acts, id)| == PointsUpTo(t.nextRunAt, t.frequency, t.interval, limit)
  {
    hide CalculateNextRunAt, CanGenerate, Performed, NewTasks, PointsUpTo, Passed, Missed, Retired, StatusWhenRung;
    var t := s.templates[id];
    var limit := if t.endsAt.Some? && t.endsAt.value < now then t.endsAt.value else now;
    TasksFollowSchedule(s, acts, id, now);
    NothingMissed(s, acts, id);
    var n := |NewTasks(s, acts, id)|;
    if n > 0 {
      assert WithinEnd(t, Point(t.nextRunAt, t.frequency, t.interval, n - 1));
    }
    PointsUpToIs(t.nextRunAt, t.frequency, t.interval, limit, n);
  }

  // ------------------------------------------------------------ the service

  class RecurringService {
    var templates: map<Id, Template>
    const tasks: TasksService.Service

    ghost function State(): Sched
      reads this, tasks
    {
      Sched(tasks.Tables(), templates)
    }

    constructor (service: TasksService.Service)
      ensures tasks == service && templates == map[]
    {
      tasks, templates := service, map[];
    }

    /** One template in one transaction; a failed transaction leaves template and tasks as they were. */
    method ProcessTemplate(id: Id, now: int, newId: NewId) returns (f: Firing)
      modifies this, tasks
      ensures f.now == now && f.templateId == id && f.newId == newId
      ensures State() == Process(old(State()), f) && AnswerOk(old(State()), f)
    {
      f := Firing(now, id, newId, None);
      if id !in templates || !templates[id].isActive || templates[id].nextRunAt > now {
        return;
      }
      var template := templates[id];
      if !LiveProject(tasks.Tables(), template.projectId) {
        templates := templates[id := template.(isActive := false)];
        return;
      }
      var error, pick := tasks.Generate(newId, template.projectId, template.statusId, template.content, id, now);
      f := Firing(now, id, newId, pick);
      if error.Some? && error.value != NotFound {
        return;
      }
      var nextRunAt := CalculateNextRunAt(template.nextRunAt, template.frequency, template.interval);
      var stillActive := template.endsAt.None? || nextRunAt <= template.endsAt.value;
      templates := templates[id := template.(lastRunAt := Some(now), nextRunAt := nextRunAt, isActive := stillActive)];
    }

    /** One tick over the batch the query returned; with fresh ids on tables satisfying the task invariant
        no template's transaction fails. */
    method ProcessDueTemplates(now: int, batch: seq<Id>, freshIds: seq<NewId>) returns (fs: seq<Firing>)
      requires DueBatch(templates, now, batch) && |freshIds| == |batch|
      modifies this, tasks
      ensures |fs| == |batch|
      ensures forall k | 0 <= k < |fs| :: fs[k].now == now && fs[k].templateId == batch[k] && fs[k].newId == freshIds[k]
      ensures State() == ProcessAll(old(State()), fs)
      ensures Inv(old(tasks.Tables())) && FreshIds(old(State()), fs) ==>
          TickOk(old(State()), now, fs) && Inv(tasks.Tables())
    {
      hide Inv, Process, AnswerOk, DueBatch, TickOk, FreshIds, AnswersOk, ProcessAll;
      fs := [];
      NoFirings(old(State()));
      for i := 0 to |batch|
        invariant |fs| == i
        invariant forall k | 0 <= k < i ::
                    fs[k].now == now && fs[k].templateId == batch[k] && fs[k].newId == freshIds[k]
        invariant State() == ProcessAll(old(State()), fs) && AnswersOk(old(State()), fs)
      {
        var f := ProcessTemplate(batch[i], now, freshIds[i]);
        OneMoreFiring(old(State()), fs, f);
        fs := fs + [f];
      }
      if Inv(old(tasks.Tables())) && FreshIds(old(State()), fs) {
        TickWhenFresh(old(State()), now, batch, fs);
      }
    }
  }
}
