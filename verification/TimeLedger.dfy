/**
  The append-only ledger of time entries: costing of a row, the daily cap, manager
  bulk entry and the per-day summary.

  Hours are whole quarter hours and costs whole cents; rates and percentages are
  exact numbers, so binary floating point is abstracted away.
*/
module TimeLedger {
  import opened Common
  import opened Rounding

  type UserId = string
  type ProjectId = string

  datatype Snapshot = Snapshot(labor: int, overhead: int, total: int)

  datatype Kind = Work | Adjustment

  datatype Source = Manual | Whatsapp | GithubPrompt | ManagerBulk

  /** A ledger row; its id is its position. `day` is a UTC day number. */
  datatype Entry = Entry(
    userId: UserId, projectId: ProjectId, day: int, quarters: int,
    kind: Kind, source: Source, parent: Option<nat>, cost: Snapshot)

  datatype Unlock = Unlock(entryId: nat, expiresAt: Option<int>)

  datatype Ledger = Ledger(entries: seq<Entry>, unlocks: seq<Unlock>)

  const EMPTY_LEDGER := Ledger([], [])

  // ------------------------------------------------------------ row costing

  function Labor(quarters: int, hourlyRateCents: real): real {
    quarters as real / 4.0 * hourlyRateCents
  }

  function Overhead(labor: real, overheadPercent: real): real {
    labor * overheadPercent / 100.0
  }

  /** Cost of a row: each figure is computed exactly and rounded to the cent on its own. */
  function BuildCostSnapshot(quarters: int, hourlyRateCents: real, overheadPercent: real): Snapshot {
    var labor := Labor(quarters, hourlyRateCents);
    var overhead := Overhead(labor, overheadPercent);
    Snapshot(Round(labor), Round(overhead), Round(labor + overhead))
  }

  /** What the summary adds up for a row: the stored total, or the parts when the total reads as zero. */
  function RowTotal(s: Snapshot): int {
    if s.total != 0 then s.total else s.labor + s.overhead
  }

  /** The stored total and the stored parts disagree by at most one cent. */
  ghost predicate CentClose(s: Snapshot) {
    -1 <= RowTotal(s) - (s.labor + s.overhead) <= 1
  }

  lemma SnapshotCentClose(quarters: int, rate: real, overheadPercent: real)
    ensures CentClose(BuildCostSnapshot(quarters, rate, overheadPercent))
  {
    RoundOfSum(Labor(quarters, rate), Overhead(Labor(quarters, rate), overheadPercent));
  }

  /** Every figure of a row is within half a cent of its exact value, with no error carried from one to the next. */
  lemma SnapshotNearExact(quarters: int, rate: real, overheadPercent: real)
    ensures var s := BuildCostSnapshot(quarters, rate, overheadPercent);
            var exact := quarters as real / 4.0 * rate;
            && -0.5 <= s.labor as real - exact <= 0.5
            && -0.5 <= s.overhead as real - exact * overheadPercent / 100.0 <= 0.5
            && -0.5 <= s.total as real - (exact + exact * overheadPercent / 100.0) <= 0.5
  {
    hide Round;
    var labor := Labor(quarters, rate);
    RoundNearest(labor);
    RoundNearest(Overhead(labor, overheadPercent));
    RoundNearest(labor + Overhead(labor, overheadPercent));
  }

  /** The cent of difference does occur: half a cent of labor with half a cent of overhead. */
  lemma CentGapOccurs()
    ensures var s := BuildCostSnapshot(1, 2.0, 100.0); RowTotal(s) == 1 && s.labor + s.overhead == 2
  {
  }

  function Negated(s: Snapshot): Snapshot {
    Snapshot(-s.labor, -s.overhead, -s.total)
  }

  lemma LaborNegated(quarters: int, rate: real)
    ensures Labor(-quarters, rate) == -Labor(quarters, rate)
  {
    var x := quarters as real / 4.0;
    assert (-quarters) as real / 4.0 == -x;
    assert -x * rate == -(x * rate);
  }

  lemma OverheadNegated(labor: real, overheadPercent: real)
    ensures Overhead(-labor, overheadPercent) == -Overhead(labor, overheadPercent)
  {
    assert -labor * overheadPercent == -(labor * overheadPercent);
  }

  /** An adjustment by minus the hours, at the same rate and overhead, cancels every cost figure of a row. */
  lemma ReversalCancels(quarters: int, rate: real, overheadPercent: real)
    ensures BuildCostSnapshot(-quarters, rate, overheadPercent)
        == Negated(BuildCostSnapshot(quarters, rate, overheadPercent))
    ensures RowTotal(BuildCostSnapshot(-quarters, rate, overheadPercent))
         == -RowTotal(BuildCostSnapshot(quarters, rate, overheadPercent))
  {
    hide Labor, Overhead;
    var labor := Labor(quarters, rate);
    var overhead := Overhead(labor, overheadPercent);
    LaborNegated(quarters, rate);
    OverheadNegated(labor, overheadPercent);
    RoundNegated(labor);
    RoundNegated(overhead);
    RoundNegated(labor + overhead);
    assert -labor + -overhead == -(labor + overhead);
  }

  // -------------------------------------------------------------- daily cap

  /** Signed quarter hours of one user on one day, over all projects. */
  function DayTotal(entries: seq<Entry>, user: UserId, day: int): int {
    if entries == [] then 0
    else
      DayTotal(entries[..|entries| - 1], user, day)
      + (var e := entries[|entries| - 1]; if e.userId == user && e.day == day then e.quarters else 0)
  }

  predicate CapExceeded(existing: int, delta: int, capHours: real) {
    (existing + delta) as real / 4.0 > capHours + 0.00000001
  }

  predicate Locked(day: int, today: int, lockDays: nat) {
    day < today - lockDays
  }

  predicate HasActiveUnlock(unlocks: seq<Unlock>, entryId: nat, now: int) {
    exists u :: u in unlocks && u.entryId == entryId && (u.expiresAt.None? || u.expiresAt.value > now)
  }

  /** What a request reads from outside the ledger: the clock, the lock window, whether access,
      user and task checks pass, the project's overhead and the rate card of user and day. */
  datatype Context = Context(
    now: int, today: int, lockDays: nat,
    accessOk: bool, userOk: bool, taskOk: bool, overheadPercent: Option<real>, rateCents: Option<real>)

  /** The last checks of every write, and the row. */
  function Append(l: Ledger, cap: real, e: Entry, c: Context): Result<Ledger> {
    var _ :- Check(!CapExceeded(DayTotal(l.entries, e.userId, e.day), e.quarters, cap), BadRequest);
    var _ :- Check(c.overheadPercent.Some?, NotFound);
    var _ :- Check(c.rateCents.Some?, BadRequest);
    Success(l.(entries :=
        l.entries + [e.(cost := BuildCostSnapshot(e.quarters, c.rateCents.value, c.overheadPercent.value))]))
  }

  const UNPRICED := Snapshot(0, 0, 0)

  function CreateEntry(l: Ledger, cap: real, user: UserId, project: ProjectId, day: int, quarters: int, source: Source,
      c: Context): Result<Ledger>
  {
    var _ :- Check(quarters > 0, BadRequest);
    var _ :- Check(source != ManagerBulk, BadRequest);
    var _ :- Check(!Locked(day, c.today, c.lockDays), BadRequest);
    var _ :- Check(c.accessOk, NotFound);
    var _ :- Check(c.taskOk, BadRequest);
    Append(l, cap, Entry(user, project, day, quarters, Work, source, None, UNPRICED), c)
  }

  function AdjustEntry(l: Ledger, cap: real, entryId: nat, delta: int, c: Context): Result<Ledger> {
    var _ :- Check(delta != 0, BadRequest);
    var _ :- Check(entryId < |l.entries|, NotFound);
    var _ :- Check(c.accessOk, Forbidden);
    var parent := l.entries[entryId];
    var _ :- Check(Locked(parent.day, c.today, c.lockDays) ==> HasActiveUnlock(l.unlocks, entryId, c.now), BadRequest);
    Append(l, cap, Entry(parent.userId, parent.projectId, parent.day, delta, Adjustment, Manual, Some(entryId),
        UNPRICED), c)
  }

  function UnlockEntry(l: Ledger, entryId: nat, c: Context): Result<Ledger> {
    var _ :- Check(entryId < |l.entries|, NotFound);
    var _ :- Check(c.accessOk, Forbidden);
    Success(l.(unlocks := l.unlocks + [Unlock(entryId, None)]))
  }

  /** One line of a manager's bulk request. `afterwardsFails`: the row is written, then the
      audit or the budget evaluation throws and the line is reported as failed. */
  datatype Item = Item(userId: UserId, projectId: ProjectId, day: int, quarters: int, context: Context,
      afterwardsFails: bool)

  function BulkItem(l: Ledger, cap: real, i: Item): Result<Ledger> {
    var c := i.context;
    var _ :- Check(i.quarters > 0, BadRequest);
    var _ :- Check(!Locked(i.day, c.today, c.lockDays), BadRequest);
    var _ :- Check(c.accessOk, NotFound);
    var _ :- Check(c.userOk, BadRequest);
    var _ :- Check(c.taskOk, BadRequest);
    Append(l, cap, Entry(i.userId, i.projectId, i.day, i.quarters, Work, ManagerBulk, None, UNPRICED), c)
  }

  function AfterItem(l: Ledger, cap: real, i: Item): Ledger {
    var r := BulkItem(l, cap, i);
    if r.Success? then r.value else l
  }

  function AfterItems(l: Ledger, cap: real, items: seq<Item>): Ledger {
    if items == [] then l
    else AfterItem(AfterItems(l, cap, items[..|items| - 1]), cap, items[|items| - 1])
  }

  // ------------------------------------------------------ what a write adds

  /** The hours of a day are those of the earlier rows and, for the same user and day, of the last one. */
  lemma DayTotalAppend(entries: seq<Entry>, e: Entry, user: UserId, day: int)
    ensures DayTotal([], user, day) == 0
    ensures DayTotal(entries + [e], user, day)
         == DayTotal(entries, user, day) + (if e.userId == user && e.day == day then e.quarters else 0)
  {
    assert (entries + [e])[..|entries|] == entries;
  }

  /** The figures of a row are within half a cent of its hours at a rate and an overhead percentage. */
  ghost predicate Priced(e: Entry, rate: real, overheadPercent: real) {
    var exact := e.quarters as real / 4.0 * rate;
    && -0.5 <= e.cost.labor as real - exact <= 0.5
    && -0.5 <= e.cost.overhead as real - exact * overheadPercent / 100.0 <= 0.5
    && -0.5 <= e.cost.total as real - (exact + exact * overheadPercent / 100.0) <= 0.5
  }

  /** One row was added at the end, at the rate and overhead of the context, and nothing else changed. */
  ghost predicate RowAdded(l: Ledger, after: Ledger, e: Entry, c: Context) {
    && c.rateCents.Some? && c.overheadPercent.Some?
    && after == Ledger(l.entries + [e], l.unlocks) && Priced(e, c.rateCents.value, c.overheadPercent.value)
  }

  /** With `more` quarter hours the user's hours of the day stay within the cap, but for the tolerance. */
  ghost predicate WithinCap(l: Ledger, cap: real, user: UserId, day: int, more: int) {
    (DayTotal(l.entries, user, day) + more) as real / 4.0 <= cap + 0.00000001
  }

  /** Overhead and rate are known. */
  ghost predicate CanPrice(c: Context) {
    c.overheadPercent.Some? && c.rateCents.Some?
  }

  /** A created entry is the one asked for: the given user, project, day, hours and source, work without a
      parent. */
  lemma CreateEntryAdds(l: Ledger, cap: real, user: UserId, project: ProjectId, day: int, quarters: int, source: Source,
      c: Context)
    requires CreateEntry(l, cap, user, project, day, quarters, source, c).Success?
    ensures var after := CreateEntry(l, cap, user, project, day, quarters, source, c).value;
            exists e :: RowAdded(l, after, e, c) && e.userId == user && e.projectId == project && e.day == day
              && e.quarters == quarters && e.source == source && e.kind == Work && e.parent == None
  {
    hide BuildCostSnapshot, DayTotal, CapExceeded;
    SnapshotNearExact(quarters, c.rateCents.value, c.overheadPercent.value);
    var after := CreateEntry(l, cap, user, project, day, quarters, source, c).value;
    assert RowAdded(l, after, after.entries[|l.entries|], c);
  }

  /** An entry is accepted exactly for positive hours, a source of its own, a day inside the lock window,
      access, a fitting task, hours within the cap, and a known price. */
  lemma CreateEntryAcceptedIff(l: Ledger, cap: real, user: UserId, project: ProjectId, day: int, quarters: int,
      source: Source, c: Context)
    ensures var r := CreateEntry(l, cap, user, project, day, quarters, source, c);
            && (r.Success?
                <==> quarters > 0 && source != ManagerBulk && day >= c.today - c.lockDays && c.accessOk && c.taskOk
                     && WithinCap(l, cap, user, day, quarters) && CanPrice(c))
            && (r == Failure(NotFound)
                <==> quarters > 0 && source != ManagerBulk && day >= c.today - c.lockDays
                     && (!c.accessOk || (c.taskOk && WithinCap(l, cap, user, day, quarters)
                          && c.overheadPercent.None?)))
            && (r.Failure? ==> r.error == NotFound || r.error == BadRequest)
  {
    hide BuildCostSnapshot, DayTotal;
  }

  /** An adjustment adds its signed hours to the user, project and day of the entry it names. */
  lemma AdjustEntryAdds(l: Ledger, cap: real, entryId: nat, delta: int, c: Context)
    requires AdjustEntry(l, cap, entryId, delta, c).Success?
    ensures var after := AdjustEntry(l, cap, entryId, delta, c).value;
            && entryId < |l.entries|
            && var parent := l.entries[entryId];
               exists e :: RowAdded(l, after, e, c) && e.userId == parent.userId && e.projectId == parent.projectId
                 && e.day == parent.day && e.quarters == delta && e.source == Manual && e.kind == Adjustment
                 && e.parent == Some(entryId)
  {
    hide BuildCostSnapshot, DayTotal, CapExceeded;
    SnapshotNearExact(delta, c.rateCents.value, c.overheadPercent.value);
    var after := AdjustEntry(l, cap, entryId, delta, c).value;
    assert RowAdded(l, after, after.entries[|l.entries|], c);
  }

  /** An adjustment is accepted exactly for non-zero hours, an existing entry and access to it, a day inside
      the lock window or an unlock of the entry that has not expired, hours within the cap, and a known price. */
  lemma AdjustEntryAcceptedIff(l: Ledger, cap: real, entryId: nat, delta: int, c: Context)
    ensures AdjustEntry(l, cap, entryId, delta, c).Success?
       <==> && delta != 0 && entryId < |l.entries| && c.accessOk
            && var parent := l.entries[entryId];
               && (parent.day >= c.today - c.lockDays
                   || exists u :: u in l.unlocks && u.entryId == entryId
                        && (u.expiresAt.None? || c.now < u.expiresAt.value))
               && WithinCap(l, cap, parent.userId, parent.day, delta) && CanPrice(c)
  {
    hide BuildCostSnapshot, DayTotal;
  }

  /** An unlock is added, without expiry, exactly for an existing entry the user has access to. */
  lemma UnlockEntryAdds(l: Ledger, entryId: nat, c: Context)
    ensures UnlockEntry(l, entryId, c)
         == if entryId >= |l.entries| then Failure(NotFound)
            else if !c.accessOk then Failure(Forbidden)
            else Success(Ledger(l.entries, l.unlocks + [Unlock(entryId, None)]))
  {
  }

  /** A bulk line adds the hours it names to the user, project and day it names. */
  lemma BulkItemAdds(l: Ledger, cap: real, i: Item)
    requires BulkItem(l, cap, i).Success?
    ensures var after := BulkItem(l, cap, i).value;
            exists e :: RowAdded(l, after, e, i.context) && e.userId == i.userId && e.projectId == i.projectId
              && e.day == i.day && e.quarters == i.quarters && e.source == ManagerBulk && e.kind == Work
              && e.parent == None
  {
    hide BuildCostSnapshot, DayTotal, CapExceeded;
    SnapshotNearExact(i.quarters, i.context.rateCents.value, i.context.overheadPercent.value);
    var after := BulkItem(l, cap, i).value;
    assert RowAdded(l, after, after.entries[|l.entries|], i.context);
  }

  /** A bulk line is written exactly for positive hours, a day inside the lock window, access, a fitting user
      and task, hours within the cap, and a known price. */
  lemma BulkItemAcceptedIff(l: Ledger, cap: real, i: Item)
    ensures BulkItem(l, cap, i).Success?
       <==> i.quarters > 0 && i.day >= i.context.today - i.context.lockDays
            && i.context.accessOk && i.context.userOk && i.context.taskOk
            && WithinCap(l, cap, i.userId, i.day, i.quarters) && CanPrice(i.context)
  {
    hide BuildCostSnapshot, DayTotal;
  }

  /** Line `k` is reported as failed. */
  predicate LineFails(l: Ledger, cap: real, items: seq<Item>, k: nat)
    requires k < |items|
  {
    BulkItem(AfterItems(l, cap, items[..k]), cap, items[k]).Failure? || items[k].afterwardsFails
  }

  /** Line `k` is reported as failed although its row was written. */
  predicate LateFails(l: Ledger, cap: real, items: seq<Item>, k: nat)
    requires k < |items|
  {
    BulkItem(AfterItems(l, cap, items[..k]), cap, items[k]).Success? && items[k].afterwardsFails
  }

  function LateFailures(l: Ledger, cap: real, items: seq<Item>): nat {
    if items == [] then 0
    else LateFailures(l, cap, items[..|items| - 1]) + (if LateFails(l, cap, items, |items| - 1) then 1 else 0)
  }

  /** There are no late failures exactly when every line whose row is written also passes what follows. */
  lemma {:induction false} NoLateFailuresIff(l: Ledger, cap: real, items: seq<Item>)
    ensures LateFailures(l, cap, items) == 0 <==> forall k: nat | k < |items| :: !LateFails(l, cap, items, k)
  {
    hide BulkItem, AfterItems;
    if items != [] {
      var init := items[..|items| - 1];
      NoLateFailuresIff(l, cap, init);
      forall k: nat | k < |init|
        ensures LateFails(l, cap, items, k) == LateFails(l, cap, init, k)
      {
        assert items[..k] == init[..k];
      }
    }
  }

  // ---------------------------------------------------------------- runs

  datatype Request =
    | CreateRequest(user: UserId, project: ProjectId, day: int, quarters: int, source: Source, context: Context)
    | AdjustRequest(entryId: nat, delta: int, context: Context)
    | UnlockRequest(entryId: nat, context: Context)
    | BulkRequest(items: seq<Item>, context: Context)

  /** One line of an hour that is written and whose audit record then fails. */
  const LATE_LINE := Item("u", "p", 0, 4, Context(0, 0, 7, true, true, true, Some(0.0), Some(1000.0)), true)

  /** A request of that one line is reported as created 0, failed 1, and still adds a row. */
  lemma LateFailureOccurs()
    ensures LineFails(EMPTY_LEDGER, 24.0, [LATE_LINE], 0) && LateFailures(EMPTY_LEDGER, 24.0, [LATE_LINE]) == 1
    ensures |AfterItems(EMPTY_LEDGER, 24.0, [LATE_LINE]).entries| == 1
  {
    assert [LATE_LINE][..0] == [];
    assert AfterItems(EMPTY_LEDGER, 24.0, []) == EMPTY_LEDGER && LateFailures(EMPTY_LEDGER, 24.0, []) == 0;
    assert BulkItem(EMPTY_LEDGER, 24.0, LATE_LINE).Success?;
  }

  function OrUnchanged(l: Ledger, r: Result<Ledger>): Ledger {
    if r.Success? then r.value else l
  }

  function Step(l: Ledger, cap: real, r: Request): Ledger {
    match r
    case CreateRequest(u, p, d, q, s, c) => OrUnchanged(l, CreateEntry(l, cap, u, p, d, q, s, c))
    case AdjustRequest(id, delta, c) => OrUnchanged(l, AdjustEntry(l, cap, id, delta, c))
    case UnlockRequest(id, c) => OrUnchanged(l, UnlockEntry(l, id, c))
    case BulkRequest(items, c) => if c.accessOk then AfterItems(l, cap, items) else l
  }

  /** A bulk request of somebody who may not make one writes nothing; otherwise one more line is tried on what
      the lines before it left, and a refused line leaves it as it is. */
  lemma BulkRequestWrites(l: Ledger, cap: real, items: seq<Item>, i: Item, c: Context)
    ensures !c.accessOk ==> Step(l, cap, BulkRequest(items, c)) == l
    ensures c.accessOk ==> Step(l, cap, BulkRequest([], c)) == l
    ensures c.accessOk ==>
              var before := Step(l, cap, BulkRequest(items, c));
              Step(l, cap, BulkRequest(items + [i], c))
              == match BulkItem(before, cap, i) case Success(after) => after case Failure(_) => before
  {
    hide BulkItem;
    assert (items + [i])[..|items|] == items;
  }

  function Run(l: Ledger, cap: real, rs: seq<Request>): Ledger {
    if rs == [] then l else Step(Run(l, cap, rs[..|rs| - 1]), cap, rs[|rs| - 1])
  }

  /** Work has positive hours and no parent; an adjustment has non-zero hours and belongs to the user,
      project and day of an earlier row. */
  ghost predicate EntryOk(before: seq<Entry>, e: Entry) {
    match e.kind
    case Work => e.quarters > 0 && e.parent.None?
    case Adjustment =>
      && e.quarters != 0 && e.parent.Some? && e.parent.value < |before|
      && var p := before[e.parent.value];
         e.userId == p.userId && e.projectId == p.projectId && e.day == p.day
  }

  /** Nobody is over the cap on any day, every row is priced to within a cent, and adjustments follow
      the rows they adjust. */
  ghost predicate Inv(l: Ledger, cap: real) {
    && (forall u, d :: !CapExceeded(DayTotal(l.entries, u, d), 0, cap))
    && (forall i | 0 <= i < |l.entries| :: CentClose(l.entries[i].cost))
    && forall i | 0 <= i < |l.entries| :: EntryOk(l.entries[..i], l.entries[i])
  }

  lemma AppendKeepsInv(l: Ledger, cap: real, e: Entry, c: Context)
    requires Inv(l, cap) && EntryOk(l.entries, e) && Append(l, cap, e, c).Success?
    ensures Inv(Append(l, cap, e, c).value, cap) && l.entries <= Append(l, cap, e, c).value.entries
  {
    var after := Append(l, cap, e, c).value;
    var row := after.entries[|l.entries|];
    assert after.entries[..|l.entries|] == l.entries;
    SnapshotCentClose(e.quarters, c.rateCents.value, c.overheadPercent.value);
    forall u, d
      ensures !CapExceeded(DayTotal(after.entries, u, d), 0, cap)
    {
      assert !CapExceeded(DayTotal(l.entries, u, d), 0, cap);
    }
    forall i | 0 <= i < |after.entries|
      ensures EntryOk(after.entries[..i], after.entries[i])
    {
      assert i < |l.entries| ==> after.entries[..i] == l.entries[..i] && after.entries[i] == l.entries[i];
    }
  }

  lemma {:induction false} AfterItemsKeepsInv(l: Ledger, cap: real, items: seq<Item>)
    requires Inv(l, cap)
    ensures Inv(AfterItems(l, cap, items), cap) && l.entries <= AfterItems(l, cap, items).entries
  {
    hide Inv, Append;
    if items != [] {
      var init, i := items[..|items| - 1], items[|items| - 1];
      AfterItemsKeepsInv(l, cap, init);
      var before := AfterItems(l, cap, init);
      if BulkItem(before, cap, i).Success? {
        AppendKeepsInv(before, cap,
            Entry(i.userId, i.projectId, i.day, i.quarters, Work, ManagerBulk, None, UNPRICED), i.context);
      }
    }
  }

  lemma StepKeepsInv(l: Ledger, cap: real, r: Request)
    requires Inv(l, cap)
    ensures Inv(Step(l, cap, r), cap) && l.entries <= Step(l, cap, r).entries
  {
    hide CapExceeded, CentClose, Append;
    match r {
      case CreateRequest(u, p, d, q, s, c) =>
        if CreateEntry(l, cap, u, p, d, q, s, c).Success? {
          AppendKeepsInv(l, cap, Entry(u, p, d, q, Work, s, None, UNPRICED), c);
        }
      case AdjustRequest(id, delta, c) =>
        if AdjustEntry(l, cap, id, delta, c).Success? {
          var parent := l.entries[id];
          AppendKeepsInv(l, cap,
              Entry(parent.userId, parent.projectId, parent.day, delta, Adjustment, Manual, Some(id), UNPRICED), c);
        }
      case UnlockRequest(_, _) =>
      case BulkRequest(items, c) => AfterItemsKeepsInv(l, cap, items);
    }
  }

  lemma {:induction false} RunKeepsInv(l: Ledger, cap: real, rs: seq<Request>)
    requires Inv(l, cap)
    ensures Inv(Run(l, cap, rs), cap) && l.entries <= Run(l, cap, rs).entries
  {
    hide Inv;
    if rs != [] {
      RunKeepsInv(l, cap, rs[..|rs| - 1]);
      StepKeepsInv(Run(l, cap, rs[..|rs| - 1]), cap, rs[|rs| - 1]);
    }
  }

  /** From an empty ledger no run of create, adjust, unlock and bulk requests puts anyone over
      the cap on any day; for a cap of whole quarter hours the bound is exact. */
  lemma NobodyExceedsCap(cap: real, rs: seq<Request>, user: UserId, day: int)
    requires cap > 0.0
    ensures var total := DayTotal(Run(EMPTY_LEDGER, cap, rs).entries, user, day);
            && total as real / 4.0 <= cap + 0.00000001
            && (cap * 4.0 == (cap * 4.0).Floor as real ==> total <= (cap * 4.0).Floor)
  {
    RunKeepsInv(EMPTY_LEDGER, cap, rs);
    assert !CapExceeded(DayTotal(Run(EMPTY_LEDGER, cap, rs).entries, user, day), 0, cap);
  }

  /** In every reachable ledger an adjustment belongs to the user, project and day of an earlier row. */
  lemma ReachableEntryOk(cap: real, rs: seq<Request>, i: nat)
    requires cap > 0.0 && i < |Run(EMPTY_LEDGER, cap, rs).entries|
    ensures EntryOk(Run(EMPTY_LEDGER, cap, rs).entries[..i], Run(EMPTY_LEDGER, cap, rs).entries[i])
  {
    RunKeepsInv(EMPTY_LEDGER, cap, rs);
  }

  /** Rows are only ever appended: a later ledger starts with every earlier one. */
  lemma LedgerAppendOnly(cap: real, rs: seq<Request>, more: seq<Request>)
    requires cap > 0.0
    ensures Run(EMPTY_LEDGER, cap, rs).entries <= Run(Run(EMPTY_LEDGER, cap, rs), cap, more).entries
  {
    RunKeepsInv(EMPTY_LEDGER, cap, rs);
    RunKeepsInv(Run(EMPTY_LEDGER, cap, rs), cap, more);
  }

  // ------------------------------------------------------------- aggregation

  /** What the reports add up: quarter hours, labor, overhead and the row totals. */
  datatype Figures = Figures(quarters: int, labor: int, overhead: int, total: int) {
    function Plus(o: Figures): Figures {
      Figures(quarters + o.quarters, labor + o.labor, overhead + o.overhead, total + o.total)
    }
  }

  const ZERO := Figures(0, 0, 0, 0)

  function RowFigures(e: Entry): Figures {
    Figures(e.quarters, e.cost.labor, e.cost.overhead, RowTotal(e.cost))
  }

  function Sum(entries: seq<Entry>): Figures {
    if entries == [] then ZERO else Sum(entries[..|entries| - 1]).Plus(RowFigures(entries[|entries| - 1]))
  }

  /** The rows of one day. */
  function OnDay(entries: seq<Entry>, day: int): seq<Entry> {
    if entries == [] then []
    else
      var rest := OnDay(entries[..|entries| - 1], day);
      if entries[|entries| - 1].day == day then rest + [entries[|entries| - 1]] else rest
  }

  /** Each figure of a report is the sum of its own column; the total column falls back on labor plus
      overhead for a stored total of zero. */
  lemma SumAppend(entries: seq<Entry>, e: Entry)
    ensures Sum([]) == Figures(0, 0, 0, 0)
    ensures var before, after := Sum(entries), Sum(entries + [e]);
            && after.quarters == before.quarters + e.quarters
            && after.labor == before.labor + e.cost.labor
            && after.overhead == before.overhead + e.cost.overhead
            && after.total == before.total
                 + (if e.cost.total != 0 then e.cost.total else e.cost.labor + e.cost.overhead)
  {
    assert (entries + [e])[..|entries|] == entries;
  }

  lemma {:induction false} GapAtMostOnePerRow(entries: seq<Entry>)
    requires forall i | 0 <= i < |entries| :: CentClose(entries[i].cost)
    ensures -|entries| <= Sum(entries).total - (Sum(entries).labor + Sum(entries).overhead) <= |entries|
  {
    if entries != [] {
      GapAtMostOnePerRow(entries[..|entries| - 1]);
      assert CentClose(entries[|entries| - 1].cost);
    }
  }

  /** The summary's total and the project view's labor plus overhead, taken over any selection of rows
      of any reachable ledger, differ by at most one cent per row. */
  lemma ViewsAgreeWithinCents(cap: real, rs: seq<Request>, selection: seq<Entry>)
    requires cap > 0.0 && forall e | e in selection :: e in Run(EMPTY_LEDGER, cap, rs).entries
    ensures -|selection| <= Sum(selection).total - (Sum(selection).labor + Sum(selection).overhead) <= |selection|
  {
    RunKeepsInv(EMPTY_LEDGER, cap, rs);
    forall i | 0 <= i < |selection|
      ensures CentClose(selection[i].cost)
    {
      assert selection[i] in Run(EMPTY_LEDGER, cap, rs).entries;
    }
    GapAtMostOnePerRow(selection);
  }

  /** The daily figures, added over a list of days. */
  function SumDays(entries: seq<Entry>, days: seq<int>): Figures {
    if days == [] then ZERO else SumDays(entries, days[..|days| - 1]).Plus(Sum(OnDay(entries, days[|days| - 1])))
  }

  ghost predicate Ascending(days: seq<int>) {
    forall i, j | 0 <= i < j < |days| :: days[i] < days[j]
  }

  // One more row changes the figures of exactly its own day.
  lemma {:induction false} AddRow(entries: seq<Entry>, e: Entry, days: seq<int>)
    requires Distinct(days)
    ensures SumDays(entries + [e], days)
         == if e.day in days then SumDays(entries, days).Plus(RowFigures(e)) else SumDays(entries, days)
  {
    hide OnDay, Sum, RowFigures;
    if days != [] {
      var init, last := days[..|days| - 1], days[|days| - 1];
      assert days == init + [last] && last !in init;
      AddRow(entries, e, init);
      OnDayAppend(entries, e, last);
    }
  }

  lemma OnDayAppend(entries: seq<Entry>, e: Entry, day: int)
    ensures Sum(OnDay(entries + [e], day))
         == if e.day == day then Sum(OnDay(entries, day)).Plus(RowFigures(e)) else Sum(OnDay(entries, day))
  {
    assert (entries + [e])[..|entries|] == entries;
    var rows := OnDay(entries, day);
    assert (rows + [e])[..|rows|] == rows;
  }

  lemma {:induction false} NoRowsNoFigures(days: seq<int>)
    ensures SumDays([], days) == ZERO
  {
    if days != [] {
      NoRowsNoFigures(days[..|days| - 1]);
    }
  }

  /** Grouping by day conserves every sum, for any list of distinct days that names each row's day. */
  lemma {:induction false} GroupingConserves(entries: seq<Entry>, days: seq<int>)
    requires Distinct(days) && forall i | 0 <= i < |entries| :: entries[i].day in days
    ensures SumDays(entries, days) == Sum(entries)
  {
    if entries == [] {
      NoRowsNoFigures(days);
    } else {
      var init, e := entries[..|entries| - 1], entries[|entries| - 1];
      assert entries == init + [e];
      GroupingConserves(init, days);
      AddRow(init, e, days);
    }
  }

  lemma {:induction false} SumConcat(a: seq<Entry>, b: seq<Entry>)
    ensures Sum(a + b) == Sum(a).Plus(Sum(b))
  {
    if b == [] {
      assert a + b == a;
    } else {
      assert (a + b)[..|a + b| - 1] == a + b[..|b| - 1];
      SumConcat(a, b[..|b| - 1]);
    }
  }

  lemma SumOne(e: Entry)
    ensures Sum([e]) == RowFigures(e)
  {
    assert [e][..0] == [];
  }

  /** Reversing a row at the same rate leaves every sum as if the row had never been entered, whatever
      rows come before, between and after the two. */
  lemma ReversalRestoresSums(before: seq<Entry>, e: Entry, between: seq<Entry>, reversal: Entry, after: seq<Entry>,
                             rate: real, overheadPercent: real)
    requires e.cost == BuildCostSnapshot(e.quarters, rate, overheadPercent)
    requires reversal.quarters == -e.quarters
    requires reversal.cost == BuildCostSnapshot(reversal.quarters, rate, overheadPercent)
    ensures Sum(before + [e] + between + [reversal] + after) == Sum(before + between + after)
  {
    hide BuildCostSnapshot, Sum;
    ReversalCancels(e.quarters, rate, overheadPercent);
    SumOne(e);
    SumOne(reversal);
    SumConcat(before, [e]);
    SumConcat(before + [e], between);
    SumConcat(before + [e] + between, [reversal]);
    SumConcat(before + [e] + between + [reversal], after);
    SumConcat(before, between);
    SumConcat(before + between, after);
  }
}
