/**
  Two aggregations of one project's costs: the components behind the budget, and the
  breakdown by day. All amounts are whole cents.
*/
module ProjectCosting {
  import opened Common
  import opened Rounding
  import opened TimeLedger

  /** A project cost row; `day` is the UTC day of its cost date. */
  datatype CostRow = CostRow(day: int, amount: int)

  function SumCosts(rows: seq<CostRow>): int {
    if rows == [] then 0 else SumCosts(rows[..|rows| - 1]) + rows[|rows| - 1].amount
  }

  function CostsOn(rows: seq<CostRow>, day: int): int {
    if rows == [] then 0
    else
      CostsOn(rows[..|rows| - 1], day) + (if rows[|rows| - 1].day == day then rows[|rows| - 1].amount else 0)
  }

  /** What the components view reads of the project row; `budgetAmount` is in cents. */
  datatype ProjectRow = ProjectRow(overheadPercent: Option<real>, budgetAmount: Option<int>)

  /** Percentages are hundredths of a percent, as shown with two decimals. */
  datatype Components = Components(
    labor: int, overheadPercent: int, overhead: int, projectCosts: int, totalBurn: int,
    budgetAmount: Option<int>, utilizationPct: Option<int>)

  function Burn(entries: seq<Entry>, costs: seq<CostRow>): int {
    Sum(entries).labor + Sum(entries).overhead + SumCosts(costs)
  }

  predicate HasBudget(p: ProjectRow) {
    p.budgetAmount.Some? && p.budgetAmount.value > 0
  }

  /** The burn in percent of the budget, exactly. */
  function Utilization(burn: int, p: ProjectRow): real
    requires HasBudget(p)
  {
    burn as real / p.budgetAmount.value as real * 100.0
  }

  /** The overhead in percent of the labor; without labor, the project's own percentage. */
  function EffectivePercent(labor: int, overhead: int, p: ProjectRow): real {
    if labor > 0 then overhead as real / labor as real * 100.0
    else if p.overheadPercent.Some? then p.overheadPercent.value else 0.0
  }

  lemma SumCostsAppend(rows: seq<CostRow>, row: CostRow)
    ensures SumCosts([]) == 0 && SumCosts(rows + [row]) == SumCosts(rows) + row.amount
  {
    assert (rows + [row])[..|rows|] == rows;
  }

  /** One more time entry adds its labor and overhead to the burn, one more cost its amount. */
  lemma BurnAppend(entries: seq<Entry>, e: Entry, costs: seq<CostRow>, c: CostRow)
    ensures Burn([], []) == 0
    ensures Burn(entries + [e], costs) == Burn(entries, costs) + e.cost.labor + e.cost.overhead
    ensures Burn(entries, costs + [c]) == Burn(entries, costs) + c.amount
  {
    SumAppend(entries, e);
    SumCostsAppend(costs, c);
  }

  /** The utilisation is the percentage of the budget that makes up the burn. */
  lemma UtilizationIs(burn: int, p: ProjectRow)
    requires HasBudget(p)
    ensures Utilization(burn, p) * p.budgetAmount.value as real == burn as real * 100.0
  {
    var b := p.budgetAmount.value as real;
    var q := burn as real / b;
    assert q * b == burn as real;
    assert q * 100.0 * b == q * b * 100.0;
  }

  /** Without labor the project's own overhead percentage is shown, or zero. */
  lemma PercentWithoutLabor(labor: int, overhead: int, p: ProjectRow)
    requires labor <= 0
    ensures EffectivePercent(labor, overhead, p) == match p.overheadPercent case Some(x) => x case None => 0.0
  {
  }

  /** The shown percentage applied to the labor gives back the overhead, to within half a hundredth of a
      percent of the labor. */
  lemma PercentGivesOverhead(labor: int, overhead: int, p: ProjectRow)
    requires labor > 0
    ensures var shown := Round(EffectivePercent(labor, overhead, p) * 100.0);
            -0.5 * labor as real <= shown as real * labor as real - overhead as real * 10000.0 <= 0.5 * labor as real
  {
    hide Round;
    var x, l := EffectivePercent(labor, overhead, p) * 100.0, labor as real;
    var d := Round(x) as real - x;
    RoundNearest(x);
    ShareTimes(overhead as real, l);
    Distribute(x, d, l);
    ScaledWithin(d, l);
  }

  lemma ShareTimes(part: real, whole: real)
    requires whole > 0.0
    ensures part / whole * 100.0 * 100.0 * whole == part * 10000.0
  {
    var q := part / whole;
    assert q * whole == part;
    assert q * 100.0 * 100.0 * whole == q * whole * 10000.0;
  }

  lemma Distribute(x: real, d: real, l: real)
    ensures (x + d) * l == x * l + d * l
  {
  }

  lemma ScaledWithin(d: real, l: real)
    requires -0.5 <= d <= 0.5 && l >= 0.0
    ensures -0.5 * l <= d * l <= 0.5 * l
  {
  }

  method CalculateComponents(project: Option<ProjectRow>, entries: seq<Entry>, costs: seq<CostRow>)
    returns (r: Result<Components>)
    ensures r == match project
                 case None => Failure(NotFound)
                 case Some(p) => Success(Components(
                   Sum(entries).labor, Round(EffectivePercent(Sum(entries).labor, Sum(entries).overhead, p) * 100.0),
                   Sum(entries).overhead, SumCosts(costs), Burn(entries, costs), p.budgetAmount,
                   if HasBudget(p) then Some(Round(Utilization(Burn(entries, costs), p) * 100.0)) else None))
  {
    if project.None? {
      return Failure(NotFound);
    }
    var labor, overhead, projectCosts := 0, 0, 0;
    for i := 0 to |entries|
      invariant labor == Sum(entries[..i]).labor && overhead == Sum(entries[..i]).overhead
    {
      assert entries[..i + 1][..i] == entries[..i];
      labor := labor + entries[i].cost.labor;
      overhead := overhead + entries[i].cost.overhead;
    }
    assert entries[..|entries|] == entries;
    for i := 0 to |costs|
      invariant projectCosts == SumCosts(costs[..i])
    {
      assert costs[..i + 1][..i] == costs[..i];
      projectCosts := projectCosts + costs[i].amount;
    }
    assert costs[..|costs|] == costs;
    var p := project.value;
    var percent := if labor > 0 then overhead as real / labor as real * 100.0
                   else if p.overheadPercent.Some? then p.overheadPercent.value else 0.0;
    var totalBurn := labor + overhead + projectCosts;
    var utilizationPct := None;
    if p.budgetAmount.Some? && p.budgetAmount.value > 0 {
      utilizationPct := Some(Round(totalBurn as real / p.budgetAmount.value as real * 100.0 * 100.0));
    }
    return Success(Components(labor, Round(percent * 100.0), overhead, projectCosts, totalBurn, p.budgetAmount,
        utilizationPct));
  }

  datatype DayCost = DayCost(day: int, labor: int, overhead: int, projectCosts: int, totalCost: int)

  /** What the breakdown shows for a day. */
  function DayCostOf(entries: seq<Entry>, costs: seq<CostRow>, day: int): DayCost {
    var f := Sum(OnDay(entries, day));
    DayCost(day, f.labor, f.overhead, CostsOn(costs, day), f.labor + f.overhead + CostsOn(costs, day))
  }

  function SumDayCosts(rows: seq<DayCost>): int {
    if rows == [] then 0 else SumDayCosts(rows[..|rows| - 1]) + rows[|rows| - 1].totalCost
  }

  function SumCostDays(costs: seq<CostRow>, days: seq<int>): int {
    if days == [] then 0 else SumCostDays(costs, days[..|days| - 1]) + CostsOn(costs, days[|days| - 1])
  }

  lemma {:induction false} AddCost(costs: seq<CostRow>, c: CostRow, days: seq<int>)
    requires Distinct(days)
    ensures SumCostDays(costs + [c], days) == SumCostDays(costs, days) + (if c.day in days then c.amount else 0)
  {
    if days != [] {
      var init, last := days[..|days| - 1], days[|days| - 1];
      assert days == init + [last] && last !in init;
      AddCost(costs, c, init);
      assert (costs + [c])[..|costs|] == costs;
    }
  }

  lemma {:induction false} NoCostDays(days: seq<int>)
    ensures SumCostDays([], days) == 0
  {
    if days != [] {
      NoCostDays(days[..|days| - 1]);
    }
  }

  lemma {:induction false} CostGroupingConserves(costs: seq<CostRow>, days: seq<int>)
    requires Distinct(days) && forall i | 0 <= i < |costs| :: costs[i].day in days
    ensures SumCostDays(costs, days) == SumCosts(costs)
  {
    if costs == [] {
      NoCostDays(days);
    } else {
      var init, c := costs[..|costs| - 1], costs[|costs| - 1];
      assert costs == init + [c];
      CostGroupingConserves(init, days);
      AddCost(init, c, days);
    }
  }

  lemma {:induction false} SumDayCostsIs(entries: seq<Entry>, costs: seq<CostRow>, days: seq<int>, rows: seq<DayCost>)
    requires |rows| == |days| && forall i | 0 <= i < |rows| :: rows[i] == DayCostOf(entries, costs, days[i])
    ensures SumDayCosts(rows)
        == SumDays(entries, days).labor + SumDays(entries, days).overhead + SumCostDays(costs, days)
  {
    if rows != [] {
      SumDayCostsIs(entries, costs, days[..|days| - 1], rows[..|rows| - 1]);
    }
  }

  // A list over `init` and one more day stays ascending when a later day is put last.
  lemma AscendingWithLast(rest: seq<int>, init: seq<int>, day: int, last: int)
    requires Ascending(rest) && Ascending(init + [last]) && day < last
    requires forall d | d in rest :: d == day || d in init
    ensures Ascending(rest + [last])
  {
    forall i | 0 <= i < |rest|
      ensures rest[i] < last
    {
      assert rest[i] in rest;
      if rest[i] != day {
        var k :| 0 <= k < |init| && init[k] == rest[i];
        assert (init + [last])[k] < (init + [last])[|init|];
      }
    }
  }

  /** Put a day in its place in an ascending list that does not hold it yet. */
  function InsertDay(days: seq<int>, day: int): (r: seq<int>)
    requires Ascending(days) && day !in days
    ensures Ascending(r) && forall d :: d in r <==> d == day || d in days
    decreases |days|
  {
    if days == [] || days[|days| - 1] < day then days + [day]
    else
      var init, last := days[..|days| - 1], days[|days| - 1];
      assert days == init + [last];
      var rest := InsertDay(init, day);
      AscendingWithLast(rest, init, day, last);
      rest + [last]
  }

  method SortDays(keys: seq<int>) returns (r: seq<int>)
    requires Distinct(keys)
    ensures Ascending(r) && forall d :: d in r <==> d in keys
  {
    r := [];
    for i := 0 to |keys|
      invariant Ascending(r) && forall d :: d in r <==> d in keys[..i]
    {
      r := InsertDay(r, keys[i]);
      assert keys[..i + 1] == keys[..i] + [keys[i]];
    }
    assert keys[..|keys|] == keys;
  }

  /** The day has a time entry or a cost row. */
  ghost predicate HasCosts(entries: seq<Entry>, costs: seq<CostRow>, day: int) {
    (exists i :: 0 <= i < |entries| && entries[i].day == day) || exists i :: 0 <= i < |costs| && costs[i].day == day
  }

  datatype Bucket = Bucket(labor: int, overhead: int, projectCosts: int)

  function BucketAt(byDate: map<int, Bucket>, day: int): Bucket {
    if day in byDate then byDate[day] else Bucket(0, 0, 0)
  }

  function BucketOf(entries: seq<Entry>, costs: seq<CostRow>, day: int): Bucket {
    var f := Sum(OnDay(entries, day));
    Bucket(f.labor, f.overhead, CostsOn(costs, day))
  }

  // What the day buckets, with their keys in order of insertion, hold after some rows.
  ghost predicate Holds(keys: seq<int>, byDate: map<int, Bucket>, entries: seq<Entry>, costs: seq<CostRow>) {
    && Distinct(keys)
    && (forall d :: BucketAt(byDate, d) == BucketOf(entries, costs, d))
    && (forall d :: d in keys <==> d in byDate)
    && forall d :: d in keys <==> HasCosts(entries, costs, d)
  }

  function WithKey(keys: seq<int>, day: int): seq<int> {
    if day in keys then keys else keys + [day]
  }

  lemma HasCostsEntry(entries: seq<Entry>, e: Entry, costs: seq<CostRow>, d: int)
    ensures HasCosts(entries + [e], costs, d) <==> d == e.day || HasCosts(entries, costs, d)
  {
    var more := entries + [e];
    assert more[|entries|] == e;
    assert forall i | 0 <= i < |entries| :: more[i] == entries[i];
  }

  lemma HoldsEntry(keys: seq<int>, byDate: map<int, Bucket>, entries: seq<Entry>, e: Entry)
    requires Holds(keys, byDate, entries, [])
    ensures var b := BucketAt(byDate, e.day);
            Holds(WithKey(keys, e.day),
                byDate[e.day := Bucket(b.labor + e.cost.labor, b.overhead + e.cost.overhead, b.projectCosts)],
                  entries + [e], [])
  {
    hide HasCosts, OnDay, Sum;
    var b := BucketAt(byDate, e.day);
    var after := byDate[e.day := Bucket(b.labor + e.cost.labor, b.overhead + e.cost.overhead, b.projectCosts)];
    forall d
      ensures BucketAt(after, d) == BucketOf(entries + [e], [], d)
      ensures HasCosts(entries + [e], [], d) <==> d == e.day || HasCosts(entries, [], d)
    {
      OnDayAppend(entries, e, d);
      HasCostsEntry(entries, e, [], d);
      assert BucketAt(byDate, d) == BucketOf(entries, [], d);
    }
  }

  lemma HasCostsCost(entries: seq<Entry>, costs: seq<CostRow>, c: CostRow, d: int)
    ensures HasCosts(entries, costs + [c], d) <==> d == c.day || HasCosts(entries, costs, d)
  {
    var more := costs + [c];
    assert more[|costs|] == c;
    assert forall i | 0 <= i < |costs| :: more[i] == costs[i];
  }

  lemma CostsOnAppend(costs: seq<CostRow>, c: CostRow, d: int)
    ensures CostsOn(costs + [c], d) == CostsOn(costs, d) + (if d == c.day then c.amount else 0)
  {
    assert (costs + [c])[..|costs|] == costs;
  }

  lemma HoldsCost(keys: seq<int>, byDate: map<int, Bucket>, entries: seq<Entry>, costs: seq<CostRow>, c: CostRow)
    requires Holds(keys, byDate, entries, costs)
    ensures var b := BucketAt(byDate, c.day);
            Holds(WithKey(keys, c.day), byDate[c.day := b.(projectCosts := b.projectCosts + c.amount)], entries,
                costs + [c])
  {
    hide HasCosts, CostsOn, OnDay, Sum;
    var b := BucketAt(byDate, c.day);
    var after := byDate[c.day := b.(projectCosts := b.projectCosts + c.amount)];
    forall d
      ensures BucketAt(after, d) == BucketOf(entries, costs + [c], d)
      ensures HasCosts(entries, costs + [c], d) <==> d == c.day || HasCosts(entries, costs, d)
    {
      CostsOnAppend(costs, c, d);
      HasCostsCost(entries, costs, c, d);
      assert BucketAt(byDate, d) == BucketOf(entries, costs, d);
    }
  }

  method GroupEntries(entries: seq<Entry>) returns (keys: seq<int>, byDate: map<int, Bucket>)
    ensures Holds(keys, byDate, entries, [])
  {
    hide BucketOf, HasCosts;
    keys, byDate := [], map[];
    NothingHeld();
    for i := 0 to |entries|
      invariant Holds(keys, byDate, entries[..i], [])
    {
      var e := entries[i];
      HoldsEntry(keys, byDate, entries[..i], e);
      assert entries[..i + 1] == entries[..i] + [e];
      var current := BucketAt(byDate, e.day);
      keys := WithKey(keys, e.day);
      byDate := byDate[e.day :=
          Bucket(current.labor + e.cost.labor, current.overhead + e.cost.overhead, current.projectCosts)];
    }
    assert entries[..|entries|] == entries;
  }

  lemma NothingHeld()
    ensures Holds([], map[], [], [])
  {
  }

  method GroupCosts(keys0: seq<int>, byDate0: map<int, Bucket>, entries: seq<Entry>, costs: seq<CostRow>)
    returns (keys: seq<int>, byDate: map<int, Bucket>)
    requires Holds(keys0, byDate0, entries, [])
    ensures Holds(keys, byDate, entries, costs)
  {
    hide BucketOf, HasCosts;
    keys, byDate := keys0, byDate0;
    for i := 0 to |costs|
      invariant Holds(keys, byDate, entries, costs[..i])
    {
      var c := costs[i];
      HoldsCost(keys, byDate, entries, costs[..i], c);
      assert costs[..i + 1] == costs[..i] + [c];
      var current := BucketAt(byDate, c.day);
      keys := WithKey(keys, c.day);
      byDate := byDate[c.day := current.(projectCosts := current.projectCosts + c.amount)];
    }
    assert costs[..|costs|] == costs;
  }

  function DaysOf(rows: seq<DayCost>): seq<int> {
    seq(|rows|, i requires 0 <= i < |rows| => rows[i].day)
  }

  /** The breakdown by day: one row per day that has entries or costs, in date order, and its totals add up
      to exactly the burn of the components view; a missing project is an error. */
  method GetDailyCostBreakdown(project: Option<ProjectRow>, entries: seq<Entry>, costs: seq<CostRow>)
    returns (r: Result<seq<DayCost>>)
    ensures project.None? ==> r == Failure(NotFound)
    ensures project.Some? ==>
              && r.Success? && Ascending(DaysOf(r.value))
              && (forall d :: d in DaysOf(r.value) <==> HasCosts(entries, costs, d))
              && (forall i | 0 <= i < |r.value| :: r.value[i] == DayCostOf(entries, costs, r.value[i].day))
              && SumDayCosts(r.value) == Burn(entries, costs)
  {
    hide HasCosts, DayCostOf, Burn;
    if project.None? {
      return Failure(NotFound);
    }
    var keys, byDate := GroupEntries(entries);
    keys, byDate := GroupCosts(keys, byDate, entries, costs);
    var days := SortDays(keys);
    var rows: seq<DayCost> := [];
    for i := 0 to |days|
      invariant |rows| == i
      invariant forall k | 0 <= k < i :: rows[k].day == days[k] && rows[k] == DayCostOf(entries, costs, days[k])
    {
      assert days[i] in days;
      var value := byDate[days[i]];
      BucketShown(keys, byDate, entries, costs, days[i]);
      rows := rows + [DayCost(days[i], value.labor, value.overhead, value.projectCosts,
          value.labor + value.overhead + value.projectCosts)];
    }
    assert DaysOf(rows) == days;
    BreakdownConserves(entries, costs, days, rows);
    return Success(rows);
  }

  lemma BucketShown(keys: seq<int>, byDate: map<int, Bucket>, entries: seq<Entry>, costs: seq<CostRow>, d: int)
    requires Holds(keys, byDate, entries, costs) && d in keys
    ensures d in byDate
    ensures var b := byDate[d];
            DayCostOf(entries, costs, d)
                == DayCost(d, b.labor, b.overhead, b.projectCosts, b.labor + b.overhead + b.projectCosts)
  {
    assert BucketAt(byDate, d) == BucketOf(entries, costs, d);
  }

  lemma BreakdownConserves(entries: seq<Entry>, costs: seq<CostRow>, days: seq<int>, rows: seq<DayCost>)
    requires Ascending(days) && forall d :: d in days <==> HasCosts(entries, costs, d)
    requires |rows| == |days| && forall i | 0 <= i < |rows| :: rows[i] == DayCostOf(entries, costs, days[i])
    ensures SumDayCosts(rows) == Burn(entries, costs)
  {
    hide Sum, OnDay, SumCosts, CostsOn, SumDayCosts, SumDays, SumCostDays;
    assert forall i | 0 <= i < |entries| :: HasCosts(entries, costs, entries[i].day);
    assert forall i | 0 <= i < |costs| :: HasCosts(entries, costs, costs[i].day);
    GroupingConserves(entries, days);
    CostGroupingConserves(costs, days);
    SumDayCostsIs(entries, costs, days, rows);
  }
}
