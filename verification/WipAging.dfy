/**
  Ageing of work in progress, read from the transition log. The log rows arrive
  newest first; for each active task the first row that entered its current
  status gives the start of its age.
*/
module WipAging {
  import opened Common
  import Calendar
  import opened Rounding
  import opened TaskModel
  import opened DependencyGraph
  import opened TaskHistory

  datatype ActiveTask = ActiveTask(id: Id, statusId: Id, createdAt: int)

  /** Whole days from `from` to `to`, never negative. */
  function DaysDiffFloor(from: int, to: int): nat {
    if to - from <= 0 then 0 else (to - from) / Calendar.DAY_MS
  }

  /** An age is the number of whole days that fit between the two times. */
  lemma DaysFit(from: int, to: int)
    ensures from <= to ==>
        DaysDiffFloor(from, to) * 86_400_000 <= to - from < (DaysDiffFloor(from, to) + 1) * 86_400_000
    ensures to < from ==> DaysDiffFloor(from, to) == 0
  {
  }

  function FirstInto(rows: seq<Transition>, statusId: Id): Option<Transition> {
    if rows == [] then None
    else if rows[0].toStatusId == statusId then Some(rows[0])
    else FirstInto(rows[1..], statusId)
  }

  /** The moment a task's age counts from. */
  function Baseline(rows: seq<Transition>, task: ActiveTask): int {
    match FirstInto(History(rows, task.id), task.statusId)
    case Some(row) => row.enteredAt
    case None => task.createdAt
  }

  /** A line of the report. */
  datatype WipTask = WipTask(taskId: Id, days: nat)

  function AgeOf(rows: seq<Transition>, task: ActiveTask, now: int): WipTask {
    WipTask(task.id, DaysDiffFloor(Baseline(rows, task), now))
  }

  function Ages(rows: seq<Transition>, tasks: seq<ActiveTask>, now: int): seq<WipTask> {
    seq(|tasks|, i requires 0 <= i < |tasks| => AgeOf(rows, tasks[i], now))
  }

  function TotalDays(report: seq<WipTask>): nat {
    if report == [] then 0 else TotalDays(report[..|report| - 1]) + report[|report| - 1].days
  }

  // --------------------------------------------------------------- sorting

  ghost predicate OldestFirst(report: seq<WipTask>) {
    forall i, j | 0 <= i < j < |report| :: report[i].days >= report[j].days
  }

  /** The lines of one age, in order. */
  function AtAge(report: seq<WipTask>, days: nat): seq<WipTask> {
    if report == [] then []
    else
      var rest := AtAge(report[..|report| - 1], days);
      if report[|report| - 1].days == days then rest + [report[|report| - 1]] else rest
  }

  /** `sorted` holds the lines of `report` by falling age, those of one age in their old order. */
  ghost predicate StablySorted(report: seq<WipTask>, sorted: seq<WipTask>) {
    OldestFirst(sorted) && |sorted| == |report| && forall d: nat :: AtAge(sorted, d) == AtAge(report, d)
  }

  function InsertByAge(sorted: seq<WipTask>, x: WipTask): (r: seq<WipTask>)
    ensures |r| == |sorted| + 1 && forall y | y in r :: y == x || y in sorted
  {
    if sorted == [] || sorted[|sorted| - 1].days >= x.days then sorted + [x]
    else InsertByAge(sorted[..|sorted| - 1], x) + [sorted[|sorted| - 1]]
  }

  lemma AtAgeAppend(report: seq<WipTask>, x: WipTask, d: nat)
    ensures AtAge(report + [x], d) == if x.days == d then AtAge(report, d) + [x] else AtAge(report, d)
  {
    assert (report + [x])[..|report|] == report;
  }

  lemma {:induction false} InsertByAgeSorts(sorted: seq<WipTask>, x: WipTask)
    requires OldestFirst(sorted)
    ensures OldestFirst(InsertByAge(sorted, x))
  {
    if sorted != [] && sorted[|sorted| - 1].days < x.days {
      var init, last := sorted[..|sorted| - 1], sorted[|sorted| - 1];
      var r := InsertByAge(init, x);
      InsertByAgeSorts(init, x);
      forall i | 0 <= i < |r|
        ensures r[i].days >= last.days
      {
        assert r[i] in r;
      }
    }
  }

  lemma {:induction false} InsertByAgeIsStable(sorted: seq<WipTask>, x: WipTask, d: nat)
    ensures AtAge(InsertByAge(sorted, x), d) == if x.days == d then AtAge(sorted, d) + [x] else AtAge(sorted, d)
  {
    hide AtAge;
    if sorted != [] && sorted[|sorted| - 1].days < x.days {
      var init, last := sorted[..|sorted| - 1], sorted[|sorted| - 1];
      InsertByAgeIsStable(init, x, d);
      assert sorted == init + [last];
      AtAgeAppend(InsertByAge(init, x), last, d);
      AtAgeAppend(init, last, d);
    } else {
      AtAgeAppend(sorted, x, d);
    }
  }

  method SortByAge(report: seq<WipTask>) returns (sorted: seq<WipTask>)
    ensures StablySorted(report, sorted)
  {
    sorted := [];
    for i := 0 to |report|
      invariant OldestFirst(sorted) && |sorted| == i
      invariant forall d: nat :: AtAge(sorted, d) == AtAge(report[..i], d)
    {
      InsertByAgeSorts(sorted, report[i]);
      assert report[..i + 1] == report[..i] + [report[i]];
      forall d: nat
        ensures AtAge(InsertByAge(sorted, report[i]), d) == AtAge(report[..i + 1], d)
      {
        InsertByAgeIsStable(sorted, report[i], d);
        AtAgeAppend(report[..i], report[i], d);
      }
      sorted := InsertByAge(sorted, report[i]);
    }
    assert report[..|report|] == report;
  }

  // ---------------------------------------------------------------- report

  method GroupByTask(rows: seq<Transition>) returns (byTask: map<Id, seq<Transition>>)
    ensures forall t :: (if t in byTask then byTask[t] else []) == History(rows, t)
  {
    byTask := map[];
    for i := 0 to |rows|
      invariant forall t :: (if t in byTask then byTask[t] else []) == History(rows[..i], t)
    {
      var row := rows[i];
      var list := if row.taskId in byTask then byTask[row.taskId] else [];
      byTask := byTask[row.taskId := list + [row]];
      assert rows[..i + 1][..i] == rows[..i];
    }
    assert rows[..|rows|] == rows;
  }

  /** Group the rows by task, look each active task up in its group, and report the average age in
      hundredths of a day and the five oldest tasks. */
  method GetWipAging(activeTasks: seq<ActiveTask>, rows: seq<Transition>, now: int)
    returns (averageDays: Option<int>, oldest: seq<WipTask>)
    ensures activeTasks == [] ==> averageDays == None && oldest == []
    ensures activeTasks != [] ==>
              averageDays == Some(Round(
                TotalDays(Ages(rows, activeTasks, now)) as real / |activeTasks| as real * 100.0))
    ensures exists sorted :: StablySorted(Ages(rows, activeTasks, now), sorted)
                && oldest == sorted[..if |sorted| < 5 then |sorted| else 5]
  {
    hide History, FirstInto, DaysDiffFloor, Round, StablySorted;
    if |activeTasks| == 0 {
      NothingToSort();
      return None, [];
    }
    var byTask := GroupByTask(rows);
    ghost var all := Ages(rows, activeTasks, now);
    var wipAging, total := [], 0;
    for i := 0 to |activeTasks|
      invariant wipAging == all[..i] && total == TotalDays(all[..i])
    {
      var task := activeTasks[i];
      var list := if task.id in byTask then byTask[task.id] else [];
      var matched := FirstInto(list, task.statusId);
      var baseline := if matched.Some? then matched.value.enteredAt else task.createdAt;
      assert all[..i + 1][..i] == all[..i];
      wipAging := wipAging + [WipTask(task.id, DaysDiffFloor(baseline, now))];
      total := total + DaysDiffFloor(baseline, now);
    }
    assert all[..|activeTasks|] == all;
    averageDays := Some(Round(total as real / |activeTasks| as real * 100.0));
    var sorted := SortByAge(wipAging);
    oldest := sorted[..if |sorted| < 5 then |sorted| else 5];
  }

  lemma NothingToSort()
    ensures StablySorted([], [])
  {
  }

  /** Nobody left out of the five oldest is older than anyone on the list. */
  lemma OldestAreOldest(report: seq<WipTask>, sorted: seq<WipTask>, n: nat)
    requires StablySorted(report, sorted) && n <= |sorted|
    ensures forall x, y | x in sorted[..n] && y in sorted[n..] :: x.days >= y.days
    ensures forall x :: x in report <==> x in sorted[..n] || x in sorted[n..]
  {
    forall x
      ensures x in report <==> x in sorted
    {
      AtAgeHolds(report, x);
      AtAgeHolds(sorted, x);
    }
    assert sorted == sorted[..n] + sorted[n..];
  }

  lemma {:induction false} AtAgeHolds(report: seq<WipTask>, x: WipTask)
    ensures x in AtAge(report, x.days) <==> x in report
  {
    if report != [] {
      AtAgeHolds(report[..|report| - 1], x);
      assert report == report[..|report| - 1] + [report[|report| - 1]];
    }
  }

  ghost predicate Descending(rows: seq<Transition>) {
    forall i, j | 0 <= i < j < |rows| :: rows[i].enteredAt >= rows[j].enteredAt
  }

  /** `rows` are log rows, newest first, all those of task `t` among them; ties may come in any order. */
  ghost predicate NewestFirst(rows: seq<Transition>, log: seq<Transition>, t: Id) {
    && Descending(rows) && (forall e | e in rows :: e in log)
    && forall e | e in log && e.taskId == t :: e in rows
  }

  lemma {:induction false} HistoryIn(rows: seq<Transition>, t: Id)
    ensures forall e :: e in History(rows, t) <==> e in rows && e.taskId == t
    ensures Descending(rows) ==> Descending(History(rows, t))
  {
    if rows != [] {
      var init := rows[..|rows| - 1];
      HistoryIn(init, t);
      assert rows == init + [rows[|rows| - 1]];
      var r := History(rows, t);
      if Descending(rows) {
        forall i, j | 0 <= i < j < |r|
          ensures r[i].enteredAt >= r[j].enteredAt
        {
          assert r[i] in init by { assert r[i] in History(init, t); }
          var k :| 0 <= k < |init| && init[k] == r[i];
          if j == |r| - 1 && rows[|rows| - 1].taskId == t {
            assert rows[k].enteredAt >= rows[|rows| - 1].enteredAt;
          }
        }
      }
    }
  }

  lemma {:induction false} FirstIntoIsFirst(rows: seq<Transition>, statusId: Id)
    ensures match FirstInto(rows, statusId)
            case None => forall e | e in rows :: e.toStatusId != statusId
            case Some(r) => exists k :: 0 <= k < |rows| && rows[k] == r && r.toStatusId == statusId
                              && forall i | 0 <= i < k :: rows[i].toStatusId != statusId
  {
    if rows != [] && rows[0].toStatusId != statusId {
      FirstIntoIsFirst(rows[1..], statusId);
      if FirstInto(rows[1..], statusId).Some? {
        var r := FirstInto(rows[1..], statusId).value;
        var k :| 0 <= k < |rows[1..]| && rows[1..][k] == r && forall i | 0 <= i < k ::
            rows[1..][i].toStatusId != statusId;
        forall i | 0 <= i < k + 1
          ensures rows[i].toStatusId != statusId
        {
          if i > 0 { assert rows[1..][i - 1] == rows[i]; }
        }
        assert rows[k + 1] == r;
      }
    }
  }

  // Among the rows of an increasing history, newest first, the last entry comes before older visits.
  lemma FirstIntoIsLast(mine: seq<Transition>, h: seq<Transition>)
    requires |h| > 0 && Increasing(h) && Descending(mine) && forall e :: e in mine <==> e in h
    ensures FirstInto(mine, h[|h| - 1].toStatusId) == Some(h[|h| - 1])
  {
    hide FirstInto;
    var last := h[|h| - 1];
    FirstIntoIsFirst(mine, last.toStatusId);
    assert last in mine;
    var r := FirstInto(mine, last.toStatusId).value;
    var k :| 0 <= k < |mine| && mine[k] == r && forall i | 0 <= i < k :: mine[i].toStatusId != last.toStatusId;
    var j :| 0 <= j < |mine| && mine[j] == last;
    assert r in h;
    assert k <= j;
  }

  // The rows of one task, as the query returns them, against its history.
  lemma RowsOfHistory(rs: seq<Timed>, t: Id, rows: seq<Transition>)
    requires Clocked(rs) && NewestFirst(rows, Run(EMPTY_DB, rs).log, t)
    ensures var mine, h := History(rows, t), History(Run(EMPTY_DB, rs).log, t);
            Increasing(h) && Descending(mine) && forall e :: e in mine <==> e in h
  {
    hide Run, History, History, Clocked, Increasing;
    var log := Run(EMPTY_DB, rs).log;
    ReachableHistoryIncreases(rs, t);
    HistoryIn(rows, t);
    HistoryIn(log, t);
  }

  /** In every reachable state the row found for a task is the last entry of its history exactly when
      that entry led to the current status; after a message moved the task it is an older visit of
      the same status or none at all. */
  lemma AgeUsesLastEntryIff(rs: seq<Timed>, t: Id, rows: seq<Transition>)
    requires Clocked(rs) && t in Run(EMPTY_DB, rs).tasks && NewestFirst(rows, Run(EMPTY_DB, rs).log, t)
    ensures var db := Run(EMPTY_DB, rs);
            var h := History(db.log, t);
            && |h| > 0
            && (FirstInto(History(rows, t), db.tasks[t].statusId) == Some(h[|h| - 1])
                <==> h[|h| - 1].toStatusId == db.tasks[t].statusId)
  {
    hide Run, History, History, Clocked, Increasing, FirstInto, NewestFirst;
    ReachableHistoryStarts(rs, t);
    RowsOfHistory(rs, t, rows);
    FirstIntoIsFirst(History(rows, t), Run(EMPTY_DB, rs).tasks[t].statusId);
    FirstIntoIsLast(History(rows, t), History(Run(EMPTY_DB, rs).log, t));
  }

  /** For a task no message has moved, the age counts from the last entry of its history: the report
      never falls back to an older visit of the same status nor to the creation time. */
  lemma AgeCountsFromLastEntry(rs: seq<Timed>, t: Id, rows: seq<Transition>, createdAt: int)
    requires Clocked(rs) && NoSilentMove(rs, t) && t in Run(EMPTY_DB, rs).tasks
    requires NewestFirst(rows, Run(EMPTY_DB, rs).log, t)
    ensures var db := Run(EMPTY_DB, rs);
            var h := History(db.log, t);
            |h| > 0 && Baseline(rows, ActiveTask(t, db.tasks[t].statusId, createdAt)) == h[|h| - 1].enteredAt
  {
    hide Run, History, History, Clocked, FirstInto, NewestFirst, NoSilentMove;
    ReachableHistoryIsChain(rs, t);
    AgeUsesLastEntryIff(rs, t, rows);
  }

  /** A task a message started at 6 still ages from its creation at 5. */
  lemma AgeMissesMessage()
    ensures var db := Run(EMPTY_DB, MESSAGE_RUN);
            && "t" in db.tasks && db.tasks["t"].statusId == "started" && MESSAGE_RUN[5].now == 6
            && Baseline(db.log, ActiveTask("t", db.tasks["t"].statusId, db.tasks["t"].createdAt)) == 5
  {
    hide Run, History;
    MessageLeavesGap();
    var log := [Transition("t", None, "shipped", 5)];
    assert FirstInto(log[1..], "started") == None;
  }
}
