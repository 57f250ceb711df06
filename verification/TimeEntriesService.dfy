/** The time entry service: ledger writes, manager bulk entry and the daily summary. */
module TimeEntriesService {
  import opened Common
  import opened TimeLedger

  /** The outcome `r` followed by the audit record and the budget evaluation, which are awaited after the
      row is written: when they throw, the caller sees an error and the row stays. */
  ghost predicate CarriedOutThen(before: Ledger, after: Ledger, r: Result<Ledger>, afterwardsFails: bool,
      error: Option<Error>)
  {
    match r
    case Success(l) => after == l && error == (if afterwardsFails then Some(LateError) else None)
    case Failure(e) => after == before && error == Some(e)
  }

  class Service {
    var entries: seq<Entry>
    var unlocks: seq<Unlock>
    const capHours: real

    function Rows(): Ledger
      reads this
    {
      Ledger(entries, unlocks)
    }

    constructor (dailyCapHours: real)
      requires dailyCapHours > 0.0
      ensures capHours == dailyCapHours && Rows() == EMPTY_LEDGER && Inv(Rows(), capHours)
    {
      entries, unlocks, capHours := [], [], dailyCapHours;
    }

    /** The sum query behind the daily cap. */
    method HoursOn(user: UserId, day: int) returns (quarters: int)
      ensures quarters == DayTotal(entries, user, day)
    {
      quarters := 0;
      for i := 0 to |entries|
        invariant quarters == DayTotal(entries[..i], user, day)
      {
        assert entries[..i + 1][..i] == entries[..i];
        if entries[i].userId == user && entries[i].day == day {
          quarters := quarters + entries[i].quarters;
        }
      }
      assert entries[..|entries|] == entries;
    }

    /** The checks and the insertion every write ends with. */
    method AppendRow(e: Entry, c: Context) returns (error: Option<Error>)
      modifies `entries
      ensures CarriedOut(old(Rows()), Rows(), Append(old(Rows()), capHours, e, c), error)
      ensures (error.None? <==> |entries| == old(|entries|) + 1) && error != Some(LateError)
    {
      var existing := HoursOn(e.userId, e.day);
      if CapExceeded(existing, e.quarters, capHours) {
        return Some(BadRequest);
      }
      if c.overheadPercent.None? {
        return Some(NotFound);
      }
      if c.rateCents.None? {
        return Some(BadRequest);
      }
      entries := entries + [e.(cost := BuildCostSnapshot(e.quarters, c.rateCents.value, c.overheadPercent.value))];
      return None;
    }

    method CreateTimeEntry(user: UserId, project: ProjectId, day: int, quarters: int, source: Source, c: Context,
        afterwardsFails: bool)
      returns (error: Option<Error>)
      modifies `entries
      ensures CarriedOutThen(old(Rows()), Rows(),
          CreateEntry(old(Rows()), capHours, user, project, day, quarters, source, c), afterwardsFails, error)
      ensures error.Some? ==> (Rows() != old(Rows()) <==> error == Some(LateError))
    {
      if quarters <= 0 || source == ManagerBulk || Locked(day, c.today, c.lockDays) {
        return Some(BadRequest);
      }
      if !c.accessOk {
        return Some(NotFound);
      }
      if !c.taskOk {
        return Some(BadRequest);
      }
      error := AppendRow(Entry(user, project, day, quarters, Work, source, None, UNPRICED), c);
      if error.None? && afterwardsFails {
        error := Some(LateError);
      }
    }

    method AdjustTimeEntry(entryId: nat, delta: int, c: Context, afterwardsFails: bool) returns (error: Option<Error>)
      modifies `entries
      ensures CarriedOutThen(old(Rows()), Rows(), AdjustEntry(old(Rows()), capHours, entryId, delta, c),
          afterwardsFails, error)
      ensures error.Some? ==> (Rows() != old(Rows()) <==> error == Some(LateError))
    {
      if delta == 0 {
        return Some(BadRequest);
      }
      if entryId >= |entries| {
        return Some(NotFound);
      }
      if !c.accessOk {
        return Some(Forbidden);
      }
      var parent := entries[entryId];
      if Locked(parent.day, c.today, c.lockDays) {
        var unlocked := HasActiveUnlock(unlocks, entryId, c.now);
        if !unlocked {
          return Some(BadRequest);
        }
      }
      error := AppendRow(Entry(parent.userId, parent.projectId, parent.day, delta, Adjustment, Manual, Some(entryId),
          UNPRICED), c);
      if error.None? && afterwardsFails {
        error := Some(LateError);
      }
    }

    method UnlockTimeEntry(entryId: nat, c: Context) returns (error: Option<Error>)
      modifies `unlocks
      ensures CarriedOut(old(Rows()), Rows(), UnlockEntry(old(Rows()), entryId, c), error)
    {
      if entryId >= |entries| {
        return Some(NotFound);
      }
      if !c.accessOk {
        return Some(Forbidden);
      }
      unlocks := unlocks + [Unlock(entryId, None)];
      return None;
    }

    /** One line of a bulk request, up to and including the insertion. */
    method BulkLine(i: Item) returns (error: Option<Error>)
      modifies `entries
      ensures CarriedOut(old(Rows()), Rows(), BulkItem(old(Rows()), capHours, i), error)
      ensures error.None? ==> |entries| == old(|entries|) + 1
    {
      var c := i.context;
      if i.quarters <= 0 || Locked(i.day, c.today, c.lockDays) {
        return Some(BadRequest);
      }
      if !c.accessOk {
        return Some(NotFound);
      }
      if !c.userOk || !c.taskOk {
        return Some(BadRequest);
      }
      error := AppendRow(Entry(i.userId, i.projectId, i.day, i.quarters, Work, ManagerBulk, None, UNPRICED), c);
    }

    /** Every line is tried; the counts add up, the reported indices are exactly the failing lines
        in increasing order, and the rows added are the lines created plus the late failures, the
        lines whose row was written before something after it failed. */
    method ManagerBulkCreate(items: seq<Item>) returns (created: nat, failed: nat, errors: seq<nat>)
      modifies `entries
      ensures Rows() == AfterItems(old(Rows()), capHours, items)
      ensures created + failed == |items| && |errors| == failed
      ensures forall k | 0 <= k < |errors| :: errors[k] < |items| && LineFails(old(Rows()), capHours, items, errors[k])
      ensures forall i: nat | i < |items| && LineFails(old(Rows()), capHours, items, i) :: i in errors
      ensures forall j, k | 0 <= j < k < |errors| :: errors[j] < errors[k]
      ensures |entries| == old(|entries|) + created + LateFailures(old(Rows()), capHours, items)
      ensures |entries| == old(|entries|) + created
         <==> forall k: nat | k < |items| :: !LateFails(old(Rows()), capHours, items, k)
    {
      hide BulkItem, AfterItems, LineFails, LateFails, LateFailures;
      NoItems(old(Rows()), capHours);
      created, failed, errors := 0, 0, [];
      for index := 0 to |items|
        invariant Rows() == AfterItems(old(Rows()), capHours, items[..index])
        invariant created + failed == index && |errors| == failed
        invariant forall k | 0 <= k < |errors| ::
                    errors[k] < index && LineFails(old(Rows()), capHours, items, errors[k])
        invariant forall i: nat | i < index && LineFails(old(Rows()), capHours, items, i) :: i in errors
        invariant forall j, k | 0 <= j < k < |errors| :: errors[j] < errors[k]
        invariant |entries| == old(|entries|) + created + LateFailures(old(Rows()), capHours, items[..index])
      {
        LineFate(old(Rows()), capHours, items, index);
        var error := BulkLine(items[index]);
        if error.None? && !items[index].afterwardsFails {
          created := created + 1;
        } else {
          failed := failed + 1;
          errors := errors + [index];
        }
      }
      assert items[..|items|] == items;
      NoLateFailuresIff(old(Rows()), capHours, items);
    }
  }

  lemma NoItems(l: Ledger, cap: real)
    ensures AfterItems(l, cap, []) == l && LateFailures(l, cap, []) == 0
  {
  }

  // One more line, and whether it is reported as failed.
  lemma LineFate(l: Ledger, cap: real, items: seq<Item>, k: nat)
    requires k < |items|
    ensures var r := BulkItem(AfterItems(l, cap, items[..k]), cap, items[k]);
            && AfterItems(l, cap, items[..k + 1]) == (if r.Success? then r.value else AfterItems(l, cap, items[..k]))
            && (LineFails(l, cap, items, k) <==> r.Failure? || items[k].afterwardsFails)
            && LateFailures(l, cap, items[..k + 1])
               == LateFailures(l, cap, items[..k]) + (if r.Success? && items[k].afterwardsFails then 1 else 0)
  {
    hide BulkItem;
    assert items[..k + 1][..k] == items[..k];
  }

  // ------------------------------------------------------------- summary

  function FiguresAt(grouped: map<int, Figures>, day: int): Figures {
    if day in grouped then grouped[day] else ZERO
  }

  ghost predicate HasRow(entries: seq<Entry>, day: int) {
    exists i :: 0 <= i < |entries| && entries[i].day == day
  }

  /** The rows come by date, as the query of the summary asks for them. */
  ghost predicate ByDate(entries: seq<Entry>) {
    forall i, j | 0 <= i < j < |entries| :: entries[i].day <= entries[j].day
  }

  // What the day buckets, with their keys in order of insertion, hold after some rows.
  ghost predicate Grouped(keys: seq<int>, grouped: map<int, Figures>, entries: seq<Entry>) {
    && Distinct(keys)
    && (forall d :: d in keys <==> d in grouped)
    && (forall d :: d in keys <==> HasRow(entries, d))
    && (forall d :: FiguresAt(grouped, d) == Sum(OnDay(entries, d)))
    && (ByDate(entries) ==> Ascending(keys))
  }

  lemma HasRowAppend(entries: seq<Entry>, e: Entry, d: int)
    ensures HasRow(entries + [e], d) <==> HasRow(entries, d) || e.day == d
  {
    assert (entries + [e])[|entries|] == e;
    assert forall i | 0 <= i < |entries| :: (entries + [e])[i] == entries[i];
  }

  lemma KeysStayAscending(keys: seq<int>, entries: seq<Entry>, e: Entry)
    requires forall d :: d in keys <==> HasRow(entries, d)
    requires ByDate(entries) ==> Ascending(keys)
    ensures ByDate(entries + [e]) ==> Ascending(if e.day in keys then keys else keys + [e.day])
  {
    var more := entries + [e];
    if ByDate(more) {
      assert more[|entries|] == e && forall i | 0 <= i < |entries| :: more[i] == entries[i];
      forall k | 0 <= k < |keys|
        ensures keys[k] <= e.day
      {
        assert keys[k] in keys && HasRow(entries, keys[k]);
      }
    }
  }

  lemma GroupedRow(keys: seq<int>, grouped: map<int, Figures>, entries: seq<Entry>, e: Entry)
    requires Grouped(keys, grouped, entries)
    ensures Grouped(if e.day in keys then keys else keys + [e.day],
                    grouped[e.day := FiguresAt(grouped, e.day).Plus(RowFigures(e))], entries + [e])
  {
    hide HasRow, ByDate, Ascending, OnDay, Sum, RowFigures;
    var after := grouped[e.day := FiguresAt(grouped, e.day).Plus(RowFigures(e))];
    KeysStayAscending(keys, entries, e);
    forall d
      ensures FiguresAt(after, d) == Sum(OnDay(entries + [e], d))
      ensures HasRow(entries + [e], d) <==> HasRow(entries, d) || e.day == d
    {
      OnDayAppend(entries, e, d);
      HasRowAppend(entries, e, d);
      assert FiguresAt(grouped, d) == Sum(OnDay(entries, d));
    }
  }

  method GroupRows(entries: seq<Entry>) returns (keys: seq<int>, grouped: map<int, Figures>)
    ensures Grouped(keys, grouped, entries)
  {
    hide Grouped;
    keys, grouped := [], map[];
    NothingGrouped();
    for i := 0 to |entries|
      invariant Grouped(keys, grouped, entries[..i])
    {
      var e := entries[i];
      GroupedRow(keys, grouped, entries[..i], e);
      assert entries[..i + 1] == entries[..i] + [e];
      var bucket := if e.day in grouped then grouped[e.day] else Figures(0, 0, 0, 0);
      if e.day !in keys {
        keys := keys + [e.day];
      }
      var total := if e.cost.total != 0 then e.cost.total else e.cost.labor + e.cost.overhead;
      grouped := grouped[e.day := Figures(
        bucket.quarters + e.quarters, bucket.labor + e.cost.labor, bucket.overhead + e.cost.overhead,
            bucket.total + total)];
    }
    assert entries[..|entries|] == entries;
  }

  lemma NothingGrouped()
    ensures Grouped([], map[], [])
  {
  }

  lemma EachHasRow(entries: seq<Entry>)
    ensures forall i | 0 <= i < |entries| :: HasRow(entries, entries[i].day)
  {
  }

  /** Group the rows by day, in order of first appearance, which is date order, and add the days up: the days
      are exactly those with rows, the totals are
      the plain sums over all rows, and each day shows the sums of its own rows. */
  method GetSummary(entries: seq<Entry>) returns (keys: seq<int>, days: seq<Figures>, totals: Figures)
    ensures Distinct(keys) && (forall d :: d in keys <==> HasRow(entries, d)) && (ByDate(entries) ==> Ascending(keys))
    ensures |days| == |keys| && forall i | 0 <= i < |days| :: days[i] == Sum(OnDay(entries, keys[i]))
    ensures totals == Sum(entries)
  {
    hide HasRow, ByDate, Ascending, OnDay, Sum;
    var grouped;
    keys, grouped := GroupRows(entries);
    days, totals := [], ZERO;
    for i := 0 to |keys|
      invariant |days| == i
      invariant forall k | 0 <= k < i :: days[k] == Sum(OnDay(entries, keys[k]))
      invariant totals == SumDays(entries, keys[..i])
    {
      assert keys[..i + 1][..i] == keys[..i];
      assert keys[i] in keys && FiguresAt(grouped, keys[i]) == Sum(OnDay(entries, keys[i]));
      days := days + [grouped[keys[i]]];
      totals := totals.Plus(grouped[keys[i]]);
    }
    assert keys[..|keys|] == keys;
    EachHasRow(entries);
    GroupingConserves(entries, keys);
  }
}
