/**
  What is recorded of one project, its time entries and costs, and which of the steps that
  record something also evaluate the budget.
*/
module BudgetBook {
  import opened Common
  import opened TimeLedger
  import opened ProjectCosting
  import opened BudgetAlerts

  /** The ledger of all projects, the row and the costs of one project, and the evaluations of its budget. */
  datatype Book = Book(
    ledger: Ledger, row: Option<ProjectRow>, costs: seq<CostRow>, evaluations: seq<Evaluation>)

  const EMPTY_BOOK := Book(EMPTY_LEDGER, None, [], [])

  /** What follows a write: its audit record fails, or the budget is evaluated, possibly up to a failing
      audit record of an alert. */
  datatype Outcome = AuditFails | Evaluates(auditFailsAt: Option<nat>)

  /** A step: a time entry request, where a bulk request counts as one step per line; costs added by hand;
      the cost of an approved expense; or a change of the project row, its deletion included. */
  datatype Act =
    | Enter(request: Request, outcome: Outcome)
    | AddCosts(rows: seq<CostRow>, outcome: Outcome)
    | ApproveExpense(cost: CostRow)
    | SetProject(row: Option<ProjectRow>)

  /** The rows of one project. */
  function OfProject(entries: seq<Entry>, p: ProjectId): seq<Entry> {
    if entries == [] then []
    else
      var rest := OfProject(entries[..|entries| - 1], p);
      if entries[|entries| - 1].projectId == p then rest + [entries[|entries| - 1]] else rest
  }

  predicate OneLine(r: Request) {
    r.BulkRequest? ==> |r.items| == 1
  }

  /** The step writes, with its audit record, a row of the project, or costs of a project that exists. Refused
      requests, unlocks, rows of other projects, writes whose audit fails, approvals and changes of the
      project row evaluate nothing. */
  predicate Emits(b: Book, cap: real, p: ProjectId, a: Act): (r: bool)
    ensures r ==> (a.Enter? || a.AddCosts?) && a.outcome.Evaluates?
  {
    match a
    case Enter(r, outcome) =>
      var entries := Step(b.ledger, cap, r).entries;
      outcome.Evaluates? && |entries| > |b.ledger.entries| && entries[|entries| - 1].projectId == p
    case AddCosts(_, outcome) => outcome.Evaluates? && b.row.Some?
    case ApproveExpense(_) => false
    case SetProject(_) => false
  }

  function Recorded(b: Book, cap: real, a: Act): (r: Book)
    ensures r.evaluations == b.evaluations
  {
    match a
    case Enter(r, _) => b.(ledger := Step(b.ledger, cap, r))
    case AddCosts(rows, _) => if b.row.Some? then b.(costs := b.costs + rows) else b
    case ApproveExpense(cost) => b.(costs := b.costs + [cost])
    case SetProject(row) => b.(row := row)
  }

  function EvaluationOf(b: Book, p: ProjectId, auditFailsAt: Option<nat>): Evaluation {
    Evaluation(b.row, OfProject(b.ledger.entries, p), b.costs, auditFailsAt)
  }

  function Perform(b: Book, cap: real, p: ProjectId, a: Act): Book {
    var after := Recorded(b, cap, a);
    if Emits(b, cap, p, a) then
      after.(evaluations := after.evaluations + [EvaluationOf(after, p, a.outcome.auditFailsAt)])
    else after
  }

  function Performed(cap: real, p: ProjectId, acts: seq<Act>): Book {
    if acts == [] then EMPTY_BOOK
    else Perform(Performed(cap, p, acts[..|acts| - 1]), cap, p, acts[|acts| - 1])
  }

  ghost function Alerts(cap: real, p: ProjectId, acts: seq<Act>): seq<int> {
    AlertsOf(Performed(cap, p, acts).evaluations)
  }

  /** By what is recorded, the project is at or above threshold `k` of its budget. */
  predicate Reached(b: Book, p: ProjectId, k: nat)
    requires k < |THRESHOLDS|
  {
    && b.row.Some? && HasBudget(b.row.value)
    && Utilization(Burn(OfProject(b.ledger.entries, p), b.costs), b.row.value) >= THRESHOLDS[k] as real
  }

  // ---------------------------------------------------------------- ledger

  function OneLineOf(items: seq<Item>, c: Context): seq<Request> {
    seq(|items|, i requires 0 <= i < |items| => BulkRequest([items[i]], c))
  }

  /** The lines of a bulk request are steps of their own. */
  lemma {:induction false} BulkIsItsLines(l: Ledger, cap: real, items: seq<Item>, c: Context)
    requires c.accessOk
    ensures Run(l, cap, OneLineOf(items, c)) == Step(l, cap, BulkRequest(items, c))
  {
    hide BulkItem;
    if items != [] {
      var init, last := items[..|items| - 1], items[|items| - 1];
      BulkIsItsLines(l, cap, init, c);
      var rs := OneLineOf(items, c);
      assert rs[..|rs| - 1] == OneLineOf(init, c);
      assert [last][..0] == [] && AfterItems(AfterItems(l, cap, init), cap, []) == AfterItems(l, cap, init);
    }
  }

  function Requests(acts: seq<Act>): seq<Request> {
    if acts == [] then []
    else
      var rest := Requests(acts[..|acts| - 1]);
      if acts[|acts| - 1].Enter? then rest + [acts[|acts| - 1].request] else rest
  }

  /** The book's ledger is the ledger of its time entry requests. */
  lemma {:induction false} LedgerIsRun(cap: real, p: ProjectId, acts: seq<Act>)
    ensures Performed(cap, p, acts).ledger == Run(EMPTY_LEDGER, cap, Requests(acts))
  {
    hide Step, Emits;
    if acts != [] {
      var init, last := acts[..|acts| - 1], acts[|acts| - 1];
      LedgerIsRun(cap, p, init);
      if last.Enter? {
        assert (Requests(init) + [last.request])[..|Requests(init)|] == Requests(init);
      }
    }
  }

  /** Costs the acts recorded of the project: added by hand while it existed, and of approved expenses. */
  function CostsOf(cap: real, p: ProjectId, acts: seq<Act>): seq<CostRow> {
    if acts == [] then []
    else
      var rest := CostsOf(cap, p, acts[..|acts| - 1]);
      match acts[|acts| - 1]
      case AddCosts(rows, _) => if Performed(cap, p, acts[..|acts| - 1]).row.Some? then rest + rows else rest
      case ApproveExpense(cost) => rest + [cost]
      case Enter(_, _) => rest
      case SetProject(_) => rest
  }

  /** The book's costs are those, in order. */
  lemma {:induction false} BookCosts(cap: real, p: ProjectId, acts: seq<Act>)
    ensures Performed(cap, p, acts).costs == CostsOf(cap, p, acts)
  {
    hide Emits;
    if acts != [] {
      BookCosts(cap, p, acts[..|acts| - 1]);
    }
  }

  // ---------------------------------------------------------------- alerts

  /** Step `n` brings alert `k` to the budget's attention: it evaluates, the recorded costs have reached the
      threshold, and no failing audit record ends the evaluation first. */
  ghost predicate Noticed(cap: real, p: ProjectId, acts: seq<Act>, n: nat, k: nat)
    requires n < |acts| && k < |THRESHOLDS|
  {
    var before, after := Performed(cap, p, acts[..n]), Performed(cap, p, acts[..n + 1]);
    && Emits(before, cap, p, acts[n]) && Reached(after, p, k)
    && !StopsBefore(AlertsOf(before.evaluations), EvaluationOf(after, p, acts[n].outcome.auditFailsAt), k)
  }

  // One step raises exactly what it notices.
  lemma StepNotices(cap: real, p: ProjectId, acts: seq<Act>, k: nat)
    requires acts != [] && k < |THRESHOLDS|
    ensures THRESHOLDS[k] in Alerts(cap, p, acts)
       <==> THRESHOLDS[k] in Alerts(cap, p, acts[..|acts| - 1]) || Noticed(cap, p, acts, |acts| - 1, k)
  {
    hide Emits, Recorded, Utilization, StopsBefore, Evaluated;
    var init, last := acts[..|acts| - 1], acts[|acts| - 1];
    var before, after := Performed(cap, p, init), Performed(cap, p, acts);
    assert acts[..|init| + 1] == acts;
    if Emits(before, cap, p, last) {
      var e := EvaluationOf(after, p, last.outcome.auditFailsAt);
      assert after.evaluations[..|after.evaluations| - 1] == before.evaluations;
      BudgetAlerts.RunKeepsInv(before.evaluations);
      EvaluatedExact(AlertsOf(before.evaluations), e, k);
    }
  }

  /** Over every run of steps an alert is raised exactly when some step noticed it. */
  lemma {:induction false} AlertRaisedIff(cap: real, p: ProjectId, acts: seq<Act>, k: nat)
    requires k < |THRESHOLDS|
    ensures THRESHOLDS[k] in Alerts(cap, p, acts) <==> exists n :: 0 <= n < |acts| && Noticed(cap, p, acts, n, k)
  {
    hide Performed, Noticed, Alerts;
    if acts == [] {
      NoAlertsYet(cap, p);
    } else {
      var init := acts[..|acts| - 1];
      AlertRaisedIff(cap, p, init, k);
      StepNotices(cap, p, acts, k);
      forall n: nat | n < |init|
        ensures Noticed(cap, p, acts, n, k) == Noticed(cap, p, init, n, k)
      {
        SamePrefix(cap, p, acts, n, k);
      }
    }
  }

  lemma SamePrefix(cap: real, p: ProjectId, acts: seq<Act>, n: nat, k: nat)
    requires n + 1 < |acts| && k < |THRESHOLDS|
    ensures Noticed(cap, p, acts, n, k) == Noticed(cap, p, acts[..|acts| - 1], n, k)
  {
    hide Performed, Emits, Reached, StopsBefore;
    var init := acts[..|acts| - 1];
    assert init[..n] == acts[..n] && init[..n + 1] == acts[..n + 1];
  }

  lemma NoAlertsYet(cap: real, p: ProjectId)
    ensures Alerts(cap, p, []) == []
  {
  }

  predicate ReachedAfter(cap: real, p: ProjectId, acts: seq<Act>, n: nat, k: nat)
    requires n < |acts| && k < |THRESHOLDS|
  {
    Reached(Performed(cap, p, acts[..n + 1]), p, k)
  }

  /** After some step the recorded costs had reached the threshold. */
  ghost predicate EverReached(cap: real, p: ProjectId, acts: seq<Act>, k: nat)
    requires k < |THRESHOLDS|
  {
    exists n :: 0 <= n < |acts| && ReachedAfter(cap, p, acts, n, k)
  }

  /** The alerts agree with what is recorded exactly when a threshold that was ever reached was noticed: the
      one way to disagree is that every step after which the recorded costs stood at the threshold
      evaluated nothing, or an evaluation that a failing audit record ended first. */
  lemma AlertsMatchRecordIff(cap: real, p: ProjectId, acts: seq<Act>, k: nat)
    requires k < |THRESHOLDS|
    ensures THRESHOLDS[k] in Alerts(cap, p, acts) ==> EverReached(cap, p, acts, k)
    ensures !(THRESHOLDS[k] in Alerts(cap, p, acts) <==> EverReached(cap, p, acts, k))
       <==> && EverReached(cap, p, acts, k)
            && forall n: nat | n < |acts| :: !Noticed(cap, p, acts, n, k)
  {
    hide Performed, Alerts, Emits, StopsBefore, Utilization;
    AlertRaisedIff(cap, p, acts, k);
    if n :| 0 <= n < |acts| && Noticed(cap, p, acts, n, k) {
      assert ReachedAfter(cap, p, acts, n, k);
    }
  }

  /** Only steps that evaluate: no approvals, no project changes, no failing audit record and no refusal. */
  ghost predicate AlwaysEvaluates(cap: real, p: ProjectId, acts: seq<Act>) {
    forall n: nat | n < |acts| ::
      var b := Performed(cap, p, acts[..n]);
      if Emits(b, cap, p, acts[n]) then acts[n].outcome.auditFailsAt.None? else Unchanged(b, cap, p, acts[n])
  }

  /** The step leaves what is recorded of the project as it was. */
  predicate Unchanged(b: Book, cap: real, p: ProjectId, a: Act) {
    var after := Recorded(b, cap, a);
    after.row == b.row && after.costs == b.costs && OfProject(after.ledger.entries, p) == OfProject(b.ledger.entries, p)
  }

  /** When every step that changes what is recorded of the project also evaluates it to the end, the alerts
      are exactly the thresholds the recorded costs ever reached. */
  lemma {:induction false} AlertsMatchRecord(cap: real, p: ProjectId, acts: seq<Act>, k: nat)
    requires k < |THRESHOLDS| && AlwaysEvaluates(cap, p, acts)
    ensures THRESHOLDS[k] in Alerts(cap, p, acts) <==> EverReached(cap, p, acts, k)
    ensures Reached(Performed(cap, p, acts), p, k) ==> THRESHOLDS[k] in Alerts(cap, p, acts)
  {
    hide Emits, Recorded, Utilization, Alerts, AlertsOf;
    AlertsMatchRecordIff(cap, p, acts, k);
    if acts != [] {
      var init, last := acts[..|acts| - 1], acts[|acts| - 1];
      assert forall n: nat | n < |init| :: acts[n] == init[n] && acts[..n] == init[..n];
      AlertsMatchRecord(cap, p, init, k);
      StepNotices(cap, p, acts, k);
      assert acts[..|init|] == init && acts[..|init| + 1] == acts;
      var b := Performed(cap, p, init);
      if Unchanged(b, cap, p, last) && !Emits(b, cap, p, last) {
        assert Reached(Performed(cap, p, acts), p, k) == Reached(b, p, k);
      }
      forall n: nat | n < |init| && ReachedAfter(cap, p, acts, n, k)
        ensures ReachedAfter(cap, p, init, n, k)
      {
        assert acts[..n + 1] == init[..n + 1];
      }
    }
  }

  // ------------------------------------------------------ an unnoticed approval

  const BUDGET_100 := ProjectRow(None, Some(100))

  /** A project with a budget of 100, an approved expense of 85, and later a cost of 1 added by hand. */
  const APPROVAL_RUN: seq<Act> :=
    [SetProject(Some(BUDGET_100)), ApproveExpense(CostRow(0, 85)), AddCosts([CostRow(0, 1)], Evaluates(None))]

  const AFTER_APPROVAL := Book(EMPTY_LEDGER, Some(BUDGET_100), [CostRow(0, 85)], [])

  lemma CostsOfRun()
    ensures Burn([], [CostRow(0, 85)]) == 85 && Burn([], [CostRow(0, 85), CostRow(0, 1)]) == 86
  {
    assert [CostRow(0, 85)][..0] == [] && [CostRow(0, 85), CostRow(0, 1)][..1] == [CostRow(0, 85)];
  }

  lemma ApprovalPerformed()
    ensures Performed(24.0, "p", APPROVAL_RUN[..2]) == AFTER_APPROVAL
  {
    var acts := APPROVAL_RUN;
    assert acts[..2][..1] == acts[..1] && acts[..1][..0] == [];
    assert Performed(24.0, "p", acts[..1]) == EMPTY_BOOK.(row := Some(BUDGET_100));
    assert [] + [CostRow(0, 85)] == [CostRow(0, 85)];
  }

  /** The approval takes the project past 80 percent and raises nothing; the alert comes with the next step
      that evaluates, a cost of one percent. */
  lemma ApprovalGoesUnnoticed()
    ensures Reached(Performed(24.0, "p", APPROVAL_RUN[..2]), "p", 0) && Alerts(24.0, "p", APPROVAL_RUN[..2]) == []
    ensures 80 in Alerts(24.0, "p", APPROVAL_RUN)
  {
    var acts := APPROVAL_RUN;
    ApprovalPerformed();
    CostsOfRun();
    assert acts[..3] == acts && acts[..|acts| - 1] == acts[..2];
    assert [CostRow(0, 85)] + [CostRow(0, 1)] == [CostRow(0, 85), CostRow(0, 1)];
    assert Recorded(AFTER_APPROVAL, 24.0, acts[2]).costs == [CostRow(0, 85), CostRow(0, 1)];
    StepNotices(24.0, "p", acts, 0);
    assert Noticed(24.0, "p", acts, 2, 0);
  }
}
