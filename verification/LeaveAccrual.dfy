/**
  Monthly accrual of leave into a ledger of one user, with proration of the joining
  month. Amounts are hundredths of a day, the scale of the stored column.
*/
module LeaveAccrual {
  import opened Rounding
  import Calendar

  type TypeId = string

  datatype Policy = Policy(leaveTypeId: TypeId, monthlyAccrual: int, joiningProration: bool, active: bool)

  /** What accrual reads besides the clock: the policies, the user's overrides that set a monthly
      amount, and the joining date. */
  datatype Setup = Setup(
    policies: seq<Policy>, overrides: map<TypeId, int>, joinYear: int, joinMonth: int, joinDate: int)

  datatype Key = Key(leaveTypeId: TypeId, year: int, month: int)

  type Ledger = map<Key, int>

  /** One policy per leave type, and a joining month numbered from 1. */
  ghost predicate SetupOk(s: Setup) {
    && (forall i, j | 0 <= i < j < |s.policies| :: s.policies[i].leaveTypeId != s.policies[j].leaveTypeId)
    && 1 <= s.joinMonth <= 12
  }

  // ---------------------------------------------------------------- amounts

  /** Days in month 1 to 12 of a year, read off as day 0 of the following month. */
  function DaysInMonthOf(year: int, month: int): int {
    Calendar.UtcDate(Calendar.MakeInstant(12 * year + month, 0, 0))
  }

  lemma DaysInMonthIsCalendar(year: int, month: int)
    ensures DaysInMonthOf(year, month) == Calendar.MonthDays(12 * year + month - 1)
    ensures DaysInMonthOf(year, month) >= 28
  {
    hide Calendar.MonthStart;
    var k := 12 * year + month - 1;
    Calendar.MonthLength(k);
    Calendar.MonthIndexUnique(Calendar.MonthStart(k + 1) - 1, k);
    assert Calendar.Day(Calendar.MakeInstant(k + 1, 0, 0)) == Calendar.MonthStart(k + 1) - 1;
  }

  /** A computed amount as it is stored: rounded to four decimals of a day, then to the column's two. */
  function Stored(hundredths: real): int {
    Round(Round(hundredths * 100.0) as real / 100.0)
  }

  function Clamp(x: real): real {
    if x < 0.0 then 0.0 else if x > 1.0 then 1.0 else x
  }

  function Ratio(daysWorked: int, daysInMonth: int): (r: real)
    requires daysInMonth > 0
    ensures 0.0 <= r <= 1.0
  {
    Clamp(daysWorked as real / daysInMonth as real)
  }

  function Prorated(monthly: int, ratio: real): int {
    Stored(monthly as real * ratio)
  }

  function Monthly(s: Setup, p: Policy): int {
    if p.leaveTypeId in s.overrides then s.overrides[p.leaveTypeId] else p.monthlyAccrual
  }

  /** What a month of the year accrues under a policy. */
  function Amount(s: Setup, p: Policy, year: int, month: int): int {
    DaysInMonthIsCalendar(year, month);
    var dim := DaysInMonthOf(year, month);
    if year == s.joinYear && month < s.joinMonth then Stored(0 as real)
    else if p.joiningProration && year == s.joinYear && month == s.joinMonth then
      Prorated(Monthly(s, p), Ratio(dim - s.joinDate + 1, dim))
    else Stored(Monthly(s, p) as real)
  }

  lemma StoredWhole(n: int)
    ensures Stored(n as real) == n
  {
    assert n as real * 100.0 == (n * 100) as real;
    RoundOfInt(n * 100);
    assert (n * 100) as real / 100.0 == n as real;
    RoundOfInt(n);
  }

  lemma StoredMonotone(x: real, y: real)
    requires x <= y
    ensures Stored(x) <= Stored(y)
  {
    RoundMonotone(x * 100.0, y * 100.0);
    RoundMonotone(Round(x * 100.0) as real / 100.0, Round(y * 100.0) as real / 100.0);
  }

  lemma ProratedBounds(m: int, r: real)
    requires m >= 0 && 0.0 <= r <= 1.0
    ensures 0 <= Prorated(m, r) <= m
  {
    hide Stored;
    StoredWhole(0);
    StoredWhole(m);
    assert 0.0 <= m as real * r <= m as real;
    StoredMonotone(0 as real, m as real * r);
    StoredMonotone(m as real * r, m as real);
  }

  /** Every month accrues between nothing and the full monthly amount. */
  lemma AmountBounds(s: Setup, p: Policy, year: int, month: int)
    requires Monthly(s, p) >= 0
    ensures 0 <= Amount(s, p, year, month) <= Monthly(s, p)
  {
    hide Stored, Monthly, Prorated, Ratio, DaysInMonthOf;
    DaysInMonthIsCalendar(year, month);
    var m, dim := Monthly(s, p), DaysInMonthOf(year, month);
    ProratedBounds(m, Ratio(dim - s.joinDate + 1, dim));
    StoredWhole(0);
    StoredWhole(m);
  }

  lemma StoredNear(x: real)
    ensures -0.505 <= Stored(x) as real - x <= 0.505
  {
    RoundNearest(x * 100.0);
    RoundNearest(Round(x * 100.0) as real / 100.0);
  }

  /** The joining month: the share of its days from the joining date on, within the two roundings;
      the whole month for a joiner on the first. */
  lemma JoiningMonthShare(s: Setup, p: Policy)
    requires p.joiningProration && Monthly(s, p) >= 0
    requires 1 <= s.joinDate <= Calendar.MonthDays(12 * s.joinYear + s.joinMonth - 1)
    ensures var dim := Calendar.MonthDays(12 * s.joinYear + s.joinMonth - 1);
            var share := Monthly(s, p) as real * ((dim - s.joinDate + 1) as real / dim as real);
            -0.505 <= Amount(s, p, s.joinYear, s.joinMonth) as real - share <= 0.505
    ensures s.joinDate == 1 ==> Amount(s, p, s.joinYear, s.joinMonth) == Monthly(s, p)
  {
    hide Stored, Prorated, Monthly, Ratio, DaysInMonthOf, Calendar.MonthDays;
    DaysInMonthIsCalendar(s.joinYear, s.joinMonth);
    var m, dim := Monthly(s, p), DaysInMonthOf(s.joinYear, s.joinMonth);
    var fraction := (dim - s.joinDate + 1) as real / dim as real;
    RatioIsFraction(dim - s.joinDate + 1, dim);
    assert Amount(s, p, s.joinYear, s.joinMonth) == Prorated(m, fraction);
    ProratedNear(m, fraction);
  }

  lemma RatioIsFraction(n: int, d: int)
    requires 0 <= n <= d && d > 0
    ensures Ratio(n, d) == n as real / d as real
    ensures n == d ==> n as real / d as real == 1.0
  {
    if n == d {
      var q := n as real / d as real;
      assert q * d as real == n as real;
    }
  }

  lemma ProratedNear(m: int, r: real)
    ensures -0.505 <= Prorated(m, r) as real - m as real * r <= 0.505
    ensures r == 1.0 ==> Prorated(m, r) == m
  {
    hide Stored;
    StoredNear(m as real * r);
    if r == 1.0 {
      assert m as real * r == m as real;
      StoredWhole(m);
    }
  }

  // ----------------------------------------------------------------- ledger

  /** The last month of `year` to accrue at a clock. */
  function MaxMonth(year: int, nowYear: int, nowMonth: int): int {
    if year < nowYear then 12 else if year > nowYear then 0 else nowMonth
  }

  predicate Accrues(s: Setup, p: Policy, year: int) {
    p.active && Monthly(s, p) > 0 && year >= s.joinYear
  }

  function AfterMonths(l: Ledger, s: Setup, p: Policy, year: int, n: nat): Ledger {
    if n == 0 then l
    else AfterMonths(l, s, p, year, n - 1)[Key(p.leaveTypeId, year, n) := Amount(s, p, year, n)]
  }

  function AfterPolicies(l: Ledger, s: Setup, year: int, max: nat, k: nat): Ledger
    requires k <= |s.policies|
  {
    if k == 0 then l
    else
      var before := AfterPolicies(l, s, year, max, k - 1);
      if Accrues(s, s.policies[k - 1], year) then AfterMonths(before, s, s.policies[k - 1], year, max) else before
  }

  function Ensured(l: Ledger, s: Setup, year: int, max: nat): Ledger {
    AfterPolicies(l, s, year, max, |s.policies|)
  }

  /** The policy, among the first `k`, that writes this row. */
  ghost predicate Writes(s: Setup, year: int, max: nat, k: nat, i: nat, key: Key) {
    && i < k <= |s.policies| && Accrues(s, s.policies[i], year)
    && key == Key(s.policies[i].leaveTypeId, year, key.month) && 1 <= key.month <= max
  }

  lemma {:induction false} AfterMonthsRows(l: Ledger, s: Setup, p: Policy, year: int, n: nat, key: Key)
    ensures var r := AfterMonths(l, s, p, year, n);
            if key.leaveTypeId == p.leaveTypeId && key.year == year && 1 <= key.month <= n
            then key in r && r[key] == Amount(s, p, year, key.month)
            else (key in r <==> key in l) && (key in l ==> r[key] == l[key])
  {
    hide Amount;
    if n > 0 {
      AfterMonthsRows(l, s, p, year, n - 1, key);
    }
  }

  // One policy's turn: it writes its own rows and leaves those of the earlier policies.
  lemma PolicyTurn(l: Ledger, s: Setup, year: int, max: nat, k: nat, key: Key)
    requires 0 < k <= |s.policies|
    ensures var before, r := AfterPolicies(l, s, year, max, k - 1), AfterPolicies(l, s, year, max, k);
            if Writes(s, year, max, k, k - 1, key)
            then key in r && r[key] == Amount(s, s.policies[k - 1], year, key.month)
            else (key in r <==> key in before) && (key in before ==> r[key] == before[key])
  {
    hide Amount, Accrues, AfterMonths;
    AfterMonthsRows(AfterPolicies(l, s, year, max, k - 1), s, s.policies[k - 1], year, max, key);
  }

  lemma NoPolicies(l: Ledger, s: Setup, year: int, max: nat)
    ensures AfterPolicies(l, s, year, max, 0) == l
  {
  }

  /** Exactly the accruing policies' months up to the clock are written, each with its amount. */
  lemma {:induction false} AfterPoliciesRows(l: Ledger, s: Setup, year: int, max: nat, k: nat, key: Key)
    requires SetupOk(s) && k <= |s.policies|
    ensures var r := AfterPolicies(l, s, year, max, k);
            && (forall i: nat | Writes(s, year, max, k, i, key) ::
                  key in r && r[key] == Amount(s, s.policies[i], year, key.month))
            && ((forall i: nat :: !Writes(s, year, max, k, i, key)) ==>
                 (key in r <==> key in l) && (key in l ==> r[key] == l[key]))
  {
    hide Amount, Accrues, AfterPolicies;
    if k == 0 {
      NoPolicies(l, s, year, max);
    } else {
      var j: nat := k - 1;
      AfterPoliciesRows(l, s, year, max, j, key);
      PolicyTurn(l, s, year, max, k, key);
      assert forall i: nat ::
          Writes(s, year, max, k, i, key) <==>
          Writes(s, year, max, j, i, key) || (i == j && Writes(s, year, max, k, i, key));
      assert forall i: nat | Writes(s, year, max, j, i, key) :: !Writes(s, year, max, k, j, key);
    }
  }

  /** A policy's monthly amount for the user: the override of its leave type, if there is one. */
  ghost predicate AmountFor(s: Setup, p: Policy, amount: int) {
    if p.leaveTypeId in s.overrides then amount == s.overrides[p.leaveTypeId] else amount == p.monthlyAccrual
  }

  /** The accrual of `year`, seen from a month of another or the same year, writes this row: the leave type is
      that of an active policy with a positive amount, the year is not before the joining year, and the month
      is any of a past year, one up to now of the current year, and none of a future year. */
  ghost predicate Due(s: Setup, year: int, nowYear: int, nowMonth: int, i: nat, key: Key) {
    && i < |s.policies| && s.policies[i].active && year >= s.joinYear
    && (exists amount :: AmountFor(s, s.policies[i], amount) && amount > 0)
    && key == Key(s.policies[i].leaveTypeId, year, key.month)
    && 1 <= key.month <= 12
    && (year < nowYear || (year == nowYear && key.month <= nowMonth))
  }

  /** Which rows an accrual writes and with what: before the joining month of the joining year nothing, in that
      month the prorated amount, if the policy prorates, and the full amount otherwise; all other rows stay. */
  lemma AccrualWrites(l: Ledger, s: Setup, year: int, nowYear: int, nowMonth: int, key: Key)
    requires SetupOk(s) && 1 <= nowMonth <= 12
    ensures var max := MaxMonth(year, nowYear, nowMonth);
            var r := Ensured(l, s, year, if max < 0 then 0 else max);
            && (forall i: nat, m | Due(s, year, nowYear, nowMonth, i, key) && AmountFor(s, s.policies[i], m) ::
                  && key in r
                  && (year == s.joinYear && key.month < s.joinMonth ==> r[key] == 0)
                  && ((year != s.joinYear || key.month > s.joinMonth
                       || (key.month == s.joinMonth && !s.policies[i].joiningProration)) ==> r[key] == m)
                  && 0 <= r[key] <= m)
            && ((forall i: nat :: !Due(s, year, nowYear, nowMonth, i, key)) ==>
                  (key in r <==> key in l) && (key in l ==> r[key] == l[key]))
  {
    hide Amount, AfterPolicies;
    var max := MaxMonth(year, nowYear, nowMonth);
    var n: nat := if max < 0 then 0 else max;
    AfterPoliciesRows(l, s, year, n, |s.policies|, key);
    forall i: nat
      ensures Due(s, year, nowYear, nowMonth, i, key) <==> Writes(s, year, n, |s.policies|, i, key)
    {
      DueIsWrites(s, year, nowYear, nowMonth, i, key);
    }
    forall i: nat, m | Due(s, year, nowYear, nowMonth, i, key) && AmountFor(s, s.policies[i], m)
      ensures 0 <= Amount(s, s.policies[i], year, key.month) <= m
    {
      AmountBounds(s, s.policies[i], year, key.month);
      FullAmount(s, s.policies[i], year, key.month);
    }
    forall i: nat | i < |s.policies|
      ensures year == s.joinYear && key.month < s.joinMonth ==> Amount(s, s.policies[i], year, key.month) == 0
      ensures (year != s.joinYear || key.month > s.joinMonth
               || (key.month == s.joinMonth && !s.policies[i].joiningProration)) ==>
                Amount(s, s.policies[i], year, key.month) == Monthly(s, s.policies[i])
    {
      FullAmount(s, s.policies[i], year, key.month);
    }
  }

  lemma DueIsWrites(s: Setup, year: int, nowYear: int, nowMonth: int, i: nat, key: Key)
    requires 1 <= nowMonth <= 12
    ensures var max := MaxMonth(year, nowYear, nowMonth);
            Due(s, year, nowYear, nowMonth, i, key)
            <==> Writes(s, year, if max < 0 then 0 else max, |s.policies|, i, key)
  {
    if i < |s.policies| {
      assert AmountFor(s, s.policies[i], Monthly(s, s.policies[i]));
    }
  }

  lemma FullAmount(s: Setup, p: Policy, year: int, month: int)
    ensures year == s.joinYear && month < s.joinMonth ==> Amount(s, p, year, month) == 0
    ensures year != s.joinYear || month > s.joinMonth || (month == s.joinMonth && !p.joiningProration) ==>
              Amount(s, p, year, month) == Monthly(s, p)
  {
    hide Stored, Monthly, Prorated, Ratio, DaysInMonthOf;
    StoredWhole(0);
    StoredWhole(Monthly(s, p));
  }

  /** Accruing again with the same setup and an earlier or equal clock changes nothing. */
  lemma EnsureIdempotent(l: Ledger, s: Setup, year: int, max: nat, earlier: nat)
    requires SetupOk(s) && earlier <= max
    ensures Ensured(Ensured(l, s, year, max), s, year, earlier) == Ensured(l, s, year, max)
  {
    hide Amount, Accrues, AfterPolicies;
    var a := Ensured(l, s, year, max);
    var b := Ensured(a, s, year, earlier);
    forall key
      ensures (key in b <==> key in a) && (key in a ==> b[key] == a[key])
    {
      AfterPoliciesRows(l, s, year, max, |s.policies|, key);
      AfterPoliciesRows(a, s, year, earlier, |s.policies|, key);
      if i: nat :| Writes(s, year, earlier, |s.policies|, i, key) {
        assert Writes(s, year, max, |s.policies|, i, key);
      }
    }
  }

  // ----------------------------------------------------------------- totals

  function RowOf(l: Ledger, t: TypeId, year: int, month: int): int {
    if Key(t, year, month) in l then l[Key(t, year, month)] else 0
  }

  /** The year's ledger total of a leave type, over its first `n` months. */
  function Total(l: Ledger, t: TypeId, year: int, n: nat): int {
    if n == 0 then 0 else Total(l, t, year, n - 1) + RowOf(l, t, year, n)
  }

  datatype Clock = Clock(year: int, month: int)

  /** A run of accruals for one year, at any sequence of clocks. */
  function Run(s: Setup, year: int, clocks: seq<Clock>): Ledger {
    if clocks == [] then map[]
    else
      var c := clocks[|clocks| - 1];
      var max := MaxMonth(year, c.year, c.month);
      Ensured(Run(s, year, clocks[..|clocks| - 1]), s, year, if max < 0 then 0 else max)
  }

  /** The furthest month any clock of the run has reached. */
  function Reached(year: int, clocks: seq<Clock>): nat {
    if clocks == [] then 0
    else
      var before := Reached(year, clocks[..|clocks| - 1]);
      var c := clocks[|clocks| - 1];
      if MaxMonth(year, c.year, c.month) > before then MaxMonth(year, c.year, c.month) else before
  }

  /** After a run, an accruing policy has exactly the rows of the months reached. */
  lemma {:induction false} RunRows(s: Setup, year: int, clocks: seq<Clock>, i: nat, month: int)
    requires SetupOk(s) && i < |s.policies| && Accrues(s, s.policies[i], year)
    ensures var key := Key(s.policies[i].leaveTypeId, year, month);
            var r := Run(s, year, clocks);
            && (key in r <==> 1 <= month <= Reached(year, clocks))
            && (key in r ==> r[key] == Amount(s, s.policies[i], year, month))
  {
    hide Amount, Accrues, AfterPolicies;
    if clocks != [] {
      var init, c := clocks[..|clocks| - 1], clocks[|clocks| - 1];
      var max := if MaxMonth(year, c.year, c.month) < 0 then 0 else MaxMonth(year, c.year, c.month);
      var key := Key(s.policies[i].leaveTypeId, year, month);
      RunRows(s, year, init, i, month);
      AfterPoliciesRows(Run(s, year, init), s, year, max, |s.policies|, key);
      if 1 <= month <= max {
        assert Writes(s, year, max, |s.policies|, i, key);
      } else {
        assert forall j: nat :: !Writes(s, year, max, |s.policies|, j, key);
      }
    }
  }

  /** Closed form of the first `n` months of a year: nothing before joining, the prorated joining
      month, and the full amount for every month after it. */
  function ExpectedTotal(s: Setup, p: Policy, year: int, n: nat): int {
    if year == s.joinYear then
      if n < s.joinMonth then 0
      else Amount(s, p, year, s.joinMonth) + (n - s.joinMonth) * Monthly(s, p)
    else n * Monthly(s, p)
  }

  lemma AmountCases(s: Setup, p: Policy, year: int, month: int)
    ensures year == s.joinYear && month < s.joinMonth ==> Amount(s, p, year, month) == 0
    ensures year != s.joinYear || month > s.joinMonth ==> Amount(s, p, year, month) == Monthly(s, p)
  {
    hide Stored, Monthly;
    StoredWhole(0);
    StoredWhole(Monthly(s, p));
  }

  lemma ExpectedStep(s: Setup, p: Policy, year: int, n: nat)
    requires n >= 1 && s.joinMonth >= 1
    ensures ExpectedTotal(s, p, year, n) == ExpectedTotal(s, p, year, n - 1) + Amount(s, p, year, n)
  {
    hide Amount, Monthly;
    AmountCases(s, p, year, n);
    OneMore(n - s.joinMonth, Monthly(s, p));
    OneMore(n, Monthly(s, p));
  }

  lemma {:induction false} TotalUpTo(s: Setup, year: int, clocks: seq<Clock>, i: nat, n: nat)
    requires SetupOk(s) && i < |s.policies| && Accrues(s, s.policies[i], year)
    ensures var m := if n < Reached(year, clocks) then n else Reached(year, clocks);
            Total(Run(s, year, clocks), s.policies[i].leaveTypeId, year, n) == ExpectedTotal(s, s.policies[i], year, m)
  {
    hide Amount, Run, Reached, Accrues, Monthly, ExpectedTotal;
    if n > 0 {
      TotalUpTo(s, year, clocks, i, n - 1);
      RunRows(s, year, clocks, i, n);
      ExpectedStep(s, s.policies[i], year, n);
    } else {
      NothingExpected(s, s.policies[i], year);
    }
  }

  lemma NothingExpected(s: Setup, p: Policy, year: int)
    requires s.joinMonth >= 1
    ensures ExpectedTotal(s, p, year, 0) == 0
  {
  }

  lemma OneMore(a: int, b: int)
    ensures a * b == (a - 1) * b + b
  {
  }

  lemma {:induction false} ReachedBound(year: int, clocks: seq<Clock>)
    requires forall i | 0 <= i < |clocks| :: clocks[i].month <= 12
    ensures Reached(year, clocks) <= 12
  {
    if clocks != [] {
      ReachedBound(year, clocks[..|clocks| - 1]);
    }
  }

  /** Over any run of accruals for a year the ledger total of a leave type is the closed form at the
      furthest month reached, and lies between nothing and twelve monthly amounts. */
  lemma YearTotal(s: Setup, year: int, clocks: seq<Clock>, i: nat)
    requires SetupOk(s) && i < |s.policies| && Accrues(s, s.policies[i], year)
    requires forall j | 0 <= j < |clocks| :: clocks[j].month <= 12
    ensures var total := Total(Run(s, year, clocks), s.policies[i].leaveTypeId, year, 12);
            && total == ExpectedTotal(s, s.policies[i], year, Reached(year, clocks))
            && 0 <= total <= 12 * Monthly(s, s.policies[i])
  {
    hide Amount, Run, Reached, Monthly, ExpectedTotal, Total;
    ReachedBound(year, clocks);
    TotalUpTo(s, year, clocks, i, 12);
    NothingExpected(s, s.policies[i], year);
    ExpectedBetween(s, s.policies[i], year, 0, Reached(year, clocks));
    ScaleUp(Reached(year, clocks), 12, Monthly(s, s.policies[i]));
  }

  lemma ScaleUp(a: int, b: int, m: int)
    requires a <= b && m >= 0
    ensures a * m <= b * m
  {
  }

  // More months never total less, and each month adds at most the monthly amount.
  lemma {:induction false} ExpectedBetween(s: Setup, p: Policy, year: int, m: nat, n: nat)
    requires Monthly(s, p) > 0 && 1 <= s.joinMonth && m <= n
    ensures ExpectedTotal(s, p, year, m) <= ExpectedTotal(s, p, year, n) <= ExpectedTotal(s, p, year, m)
        + (n - m) * Monthly(s, p)
    decreases n
  {
    hide Amount, Monthly, ExpectedTotal;
    if m < n {
      ExpectedBetween(s, p, year, m, n - 1);
      ExpectedStep(s, p, year, n);
      AmountBounds(s, p, year, n);
      OneMore(n - m, Monthly(s, p));
    }
  }

  /** The total never falls as further accruals run, in whatever order their clocks come. */
  lemma TotalNeverFalls(s: Setup, year: int, clocks: seq<Clock>, next: Clock, i: nat)
    requires SetupOk(s) && i < |s.policies| && Accrues(s, s.policies[i], year)
    requires next.month <= 12 && forall j | 0 <= j < |clocks| :: clocks[j].month <= 12
    ensures Total(Run(s, year, clocks), s.policies[i].leaveTypeId, year, 12)
         <= Total(Run(s, year, clocks + [next]), s.policies[i].leaveTypeId, year, 12)
  {
    hide Amount, Run, Monthly, ExpectedTotal, Total;
    assert (clocks + [next])[..|clocks|] == clocks;
    YearTotal(s, year, clocks, i);
    YearTotal(s, year, clocks + [next], i);
    ExpectedBetween(s, s.policies[i], year, Reached(year, clocks), Reached(year, clocks + [next]));
  }

  // ------------------------------------------------------------ the service

  class Service {
    var ledger: Ledger

    constructor ()
      ensures ledger == map[]
    {
      ledger := map[];
    }

    /** The nested loops over policies and months, upserting one row each. */
    method EnsureAccrualLedgerForYear(s: Setup, year: int, nowYear: int, nowMonth: int)
      modifies this
      ensures var max := MaxMonth(year, nowYear, nowMonth);
              ledger == Ensured(old(ledger), s, year, if max < 0 then 0 else max)
    {
      var maxMonth := MaxMonth(year, nowYear, nowMonth);
      ghost var max: nat := if maxMonth < 0 then 0 else maxMonth;
      for k := 0 to |s.policies|
        invariant ledger == AfterPolicies(old(ledger), s, year, max, k)
      {
        var policy := s.policies[k];
        if !policy.active {
          continue;
        }
        var monthlyAccrual := Monthly(s, policy);
        if monthlyAccrual <= 0 || year < s.joinYear {
          continue;
        }
        ghost var before := ledger;
        var month := 1;
        while month <= maxMonth
          invariant 1 <= month <= max + 1
          invariant ledger == AfterMonths(before, s, policy, year, month - 1)
        {
          var amount := Amount(s, policy, year, month);
          ledger := ledger[Key(policy.leaveTypeId, year, month) := amount];
          month := month + 1;
        }
      }
    }
  }
}
