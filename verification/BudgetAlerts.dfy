/** Budget alerts of one project: raised once each as its utilisation passes the thresholds. */
module BudgetAlerts {
  import opened Common
  import opened Rounding
  import opened TimeLedger
  import opened ProjectCosting

  const THRESHOLDS := [80, 100, 120]

  /** One evaluation: the project row, if the project still exists, its recorded time entries and
      costs, and at which threshold, if any, the audit call after a newly raised alert fails and ends
      the evaluation. */
  datatype Evaluation = Evaluation(
    project: Option<ProjectRow>, entries: seq<Entry>, costs: seq<CostRow>, auditFailsAt: Option<nat>)

  predicate Budgeted(e: Evaluation) {
    e.project.Some? && HasBudget(e.project.value)
  }

  function UtilizationOf(e: Evaluation): real
    requires Budgeted(e)
  {
    Utilization(Burn(e.entries, e.costs), e.project.value)
  }

  predicate Due(e: Evaluation, i: nat)
    requires Budgeted(e) && i < |THRESHOLDS|
  {
    UtilizationOf(e) >= THRESHOLDS[i] as real
  }

  /** The alerts after the thresholds before `i`, and whether the evaluation is still going. */
  ghost function After(alerts: seq<int>, e: Evaluation, i: nat): (seq<int>, bool)
    requires Budgeted(e) && i <= |THRESHOLDS|
  {
    if i == 0 then (alerts, true)
    else
      var (before, going) := After(alerts, e, i - 1);
      if !going || !Due(e, i - 1) || THRESHOLDS[i - 1] in before then (before, going)
      else (before + [THRESHOLDS[i - 1]], e.auditFailsAt != Some(i - 1))
  }

  ghost function Evaluated(alerts: seq<int>, e: Evaluation): seq<int> {
    if Budgeted(e) then After(alerts, e, |THRESHOLDS|).0 else alerts
  }

  ghost function AlertsOf(evaluations: seq<Evaluation>): seq<int> {
    if evaluations == [] then []
    else Evaluated(AlertsOf(evaluations[..|evaluations| - 1]), evaluations[|evaluations| - 1])
  }

  /** Alerts are thresholds, each raised at most once, and never one without all lower ones. */
  ghost predicate AlertsOk(alerts: seq<int>) {
    && (forall i, j | 0 <= i < j < |alerts| :: alerts[i] != alerts[j])
    && (forall a | a in alerts :: a in THRESHOLDS)
    && forall i, j | 0 <= i < j < |THRESHOLDS| :: THRESHOLDS[j] in alerts ==> THRESHOLDS[i] in alerts
  }

  // Part way through an evaluation, while it is still going.
  lemma {:induction false} AfterFacts(alerts: seq<int>, e: Evaluation, i: nat)
    requires AlertsOk(alerts) && Budgeted(e) && i <= |THRESHOLDS|
    ensures var (now, going) := After(alerts, e, i);
            && AlertsOk(now)
            && (forall a | a in alerts :: a in now)
            && (forall k | 0 <= k < |THRESHOLDS| && THRESHOLDS[k] in now ::
                  THRESHOLDS[k] in alerts || (k < i && Due(e, k)))
            && (going ==> forall k | 0 <= k < i :: Due(e, k) ==> THRESHOLDS[k] in now)
            && (e.auditFailsAt.None? ==> going)
  {
    if i > 0 {
      AfterFacts(alerts, e, i - 1);
      var before := After(alerts, e, i - 1).0;
      var now := After(alerts, e, i).0;
      if now != before {
        assert forall k | 0 <= k < i :: Due(e, k);
        assert forall a :: a in now <==> a in before || a == THRESHOLDS[i - 1];
      }
    }
  }

  /** Every run of evaluations, interrupted or not, keeps the alerts distinct and downward closed,
      and never takes one back. */
  lemma {:induction false} RunKeepsInv(evaluations: seq<Evaluation>)
    ensures AlertsOk(AlertsOf(evaluations))
    ensures evaluations != [] ==>
              forall a | a in AlertsOf(evaluations[..|evaluations| - 1]) :: a in AlertsOf(evaluations)
  {
    hide After;
    if evaluations != [] {
      var init, e := evaluations[..|evaluations| - 1], evaluations[|evaluations| - 1];
      RunKeepsInv(init);
      if Budgeted(e) {
        AfterFacts(AlertsOf(init), e, |THRESHOLDS|);
      }
    }
  }

  /** The largest utilisation a run has evaluated. */
  ghost function Peak(evaluations: seq<Evaluation>): real
    requires |evaluations| > 0 && forall i | 0 <= i < |evaluations| :: Budgeted(evaluations[i])
  {
    var last := UtilizationOf(evaluations[|evaluations| - 1]);
    if |evaluations| == 1 then last
    else
      var before := Peak(evaluations[..|evaluations| - 1]);
      if last > before then last else before
  }

  /** Over any run of complete evaluations with positive budgets, the alerts are exactly the
      thresholds at or below the largest utilisation evaluated so far. */
  lemma {:induction false} AlertsMatchPeak(evaluations: seq<Evaluation>, k: nat)
    requires |evaluations| > 0 && k < |THRESHOLDS|
    requires forall i | 0 <= i < |evaluations| :: Budgeted(evaluations[i]) && evaluations[i].auditFailsAt.None?
    ensures THRESHOLDS[k] in AlertsOf(evaluations) <==> THRESHOLDS[k] as real <= Peak(evaluations)
  {
    hide After, UtilizationOf;
    var init, e := evaluations[..|evaluations| - 1], evaluations[|evaluations| - 1];
    RunKeepsInv(init);
    AfterFacts(AlertsOf(init), e, |THRESHOLDS|);
    if init != [] {
      AlertsMatchPeak(init, k);
    }
  }

  /** The audit call of a lower alert, newly raised, ends the evaluation before alert `k`. */
  ghost predicate StopsBefore(alerts: seq<int>, e: Evaluation, k: nat)
    requires k < |THRESHOLDS|
  {
    e.auditFailsAt.Some? && e.auditFailsAt.value < k && THRESHOLDS[e.auditFailsAt.value] !in alerts
  }

  /** An evaluation raises alert `k`, or finds it raised. */
  ghost predicate Raises(alerts: seq<int>, e: Evaluation, k: nat)
    requires k < |THRESHOLDS|
  {
    Budgeted(e) && Due(e, k) && !StopsBefore(alerts, e, k)
  }

  // Part way through, alert `k` is there exactly when it was before or its turn has come.
  lemma {:induction false} AfterExact(alerts: seq<int>, e: Evaluation, i: nat, k: nat)
    requires AlertsOk(alerts) && Budgeted(e) && i <= |THRESHOLDS| && k < |THRESHOLDS|
    ensures var (now, going) := After(alerts, e, i);
            && (THRESHOLDS[k] in now <==> THRESHOLDS[k] in alerts || (k < i && Raises(alerts, e, k)))
            && (going <==> e.auditFailsAt.None? || e.auditFailsAt.value >= i || !Due(e, e.auditFailsAt.value)
                           || THRESHOLDS[e.auditFailsAt.value] in alerts)
  {
    hide UtilizationOf;
    if i > 0 {
      AfterExact(alerts, e, i - 1, k);
      AfterExact(alerts, e, i - 1, i - 1);
      AfterFacts(alerts, e, i - 1);
      if e.auditFailsAt.Some? && e.auditFailsAt.value < i {
        AfterExact(alerts, e, i - 1, e.auditFailsAt.value);
      }
    }
  }

  /** Evaluation `i` of a run raises alert `k`, or finds it raised. */
  ghost predicate RaisesAt(evaluations: seq<Evaluation>, i: nat, k: nat)
    requires i < |evaluations| && k < |THRESHOLDS|
  {
    Raises(AlertsOf(evaluations[..i]), evaluations[i], k)
  }

  /** Over any run of evaluations, interrupted or not and of whatever budgets, an alert is raised exactly
      when some evaluation was due for it and no failing audit ended that evaluation before it. */
  lemma {:induction false} RaisedIff(evaluations: seq<Evaluation>, k: nat)
    requires k < |THRESHOLDS|
    ensures THRESHOLDS[k] in AlertsOf(evaluations)
       <==> exists i :: 0 <= i < |evaluations| && RaisesAt(evaluations, i, k)
  {
    hide After, Raises, RaisesAt, Evaluated;
    if evaluations != [] {
      var init, e := evaluations[..|evaluations| - 1], evaluations[|evaluations| - 1];
      RaisedIff(init, k);
      RunKeepsInv(init);
      EvaluatedExact(AlertsOf(init), e, k);
      RaisesLast(evaluations, k);
      forall i: nat | i < |init|
        ensures RaisesAt(evaluations, i, k) == RaisesAt(init, i, k)
      {
        RaisesSame(evaluations, i, k);
      }
    }
  }

  lemma RaisesLast(evaluations: seq<Evaluation>, k: nat)
    requires evaluations != [] && k < |THRESHOLDS|
    ensures RaisesAt(evaluations, |evaluations| - 1, k)
         == Raises(AlertsOf(evaluations[..|evaluations| - 1]), evaluations[|evaluations| - 1], k)
  {
    hide Raises, AlertsOf;
  }

  lemma RaisesSame(evaluations: seq<Evaluation>, i: nat, k: nat)
    requires i + 1 < |evaluations| && k < |THRESHOLDS|
    ensures RaisesAt(evaluations, i, k) == RaisesAt(evaluations[..|evaluations| - 1], i, k)
  {
    hide Raises, AlertsOf;
    assert evaluations[..|evaluations| - 1][..i] == evaluations[..i];
  }

  lemma EvaluatedExact(alerts: seq<int>, e: Evaluation, k: nat)
    requires AlertsOk(alerts) && k < |THRESHOLDS|
    ensures THRESHOLDS[k] in Evaluated(alerts, e) <==> THRESHOLDS[k] in alerts || Raises(alerts, e, k)
  {
    hide After, UtilizationOf;
    if Budgeted(e) {
      AfterExact(alerts, e, |THRESHOLDS|, k);
    }
  }

  /** Which part of a threshold the shown utilisation hides: shown and raised agree exactly outside the last
      half hundredth of a percent below the threshold, where 80.00 is shown and nothing raised. */
  lemma ShownUtilizationIff(e: Evaluation, k: nat)
    requires Budgeted(e) && k < |THRESHOLDS|
    ensures (Due(e, k) <==> Round(UtilizationOf(e) * 100.0) >= THRESHOLDS[k] * 100)
       <==> !(THRESHOLDS[k] as real - 0.005 <= UtilizationOf(e) < THRESHOLDS[k] as real)
  {
    hide UtilizationOf;
  }

  /** A utilisation of 79.996 percent is shown as 80.00 and raises nothing. */
  lemma ShownUtilizationMisleads()
    ensures var e := Evaluation(Some(ProjectRow(None, Some(1_000_000))), [], [CostRow(0, 799_960)], None);
            Budgeted(e) && Round(UtilizationOf(e) * 100.0) == 8000 && AlertsOf([e]) == []
  {
    var e := Evaluation(Some(ProjectRow(None, Some(1_000_000))), [], [CostRow(0, 799_960)], None);
    assert SumCosts([CostRow(0, 799_960)]) == 799_960 by {
      assert [CostRow(0, 799_960)][..0] == [];
    }
    assert UtilizationOf(e) == 79.996;
    assert [e][..0] == [] && AlertsOf([]) == [];
    assert !Due(e, 0) && !Due(e, 1) && !Due(e, 2);
    assert After([], e, 1) == ([], true);
    assert After([], e, 2) == ([], true);
  }

  class Service {
    var alerts: seq<int>

    constructor ()
      ensures alerts == []
    {
      alerts := [];
    }

    /** `triggered` lists what this evaluation raised; `failed` tells that it threw: the project is gone, or
        the audit call of the last alert failed. */
    method EvaluateProjectBudget(e: Evaluation) returns (triggered: seq<int>, failed: bool)
      modifies this
      ensures alerts == Evaluated(old(alerts), e)
      ensures !failed ==> alerts == old(alerts) + triggered
      ensures failed <==> e.project.None? || (Budgeted(e) && !After(old(alerts), e, |THRESHOLDS|).1)
    {
      triggered, failed := [], false;
      var costs := CalculateComponents(e.project, e.entries, e.costs);
      if costs.Failure? {
        return [], true;
      }
      if costs.value.budgetAmount.None? || costs.value.budgetAmount.value <= 0 {
        return;
      }
      var utilizationPct := costs.value.totalBurn as real / costs.value.budgetAmount.value as real * 100.0;
      assert utilizationPct == UtilizationOf(e);
      var existing := alerts;
      for i := 0 to |THRESHOLDS|
        invariant After(old(alerts), e, i) == (alerts, true)
        invariant alerts == old(alerts) + triggered && existing == old(alerts)
        invariant forall a | a in triggered :: exists k :: 0 <= k < i && THRESHOLDS[k] == a
      {
        if utilizationPct < THRESHOLDS[i] as real || THRESHOLDS[i] in existing {
          continue;
        }
        alerts := alerts + [THRESHOLDS[i]];
        if e.auditFailsAt == Some(i) {
          failed := true;
          StoppedStays(old(alerts), e, i + 1, |THRESHOLDS|);
          return;
        }
        triggered := triggered + [THRESHOLDS[i]];
      }
    }
  }

  // A stopped evaluation raises nothing more.
  lemma {:induction false} StoppedStays(alerts: seq<int>, e: Evaluation, i: nat, j: nat)
    requires Budgeted(e) && i <= j <= |THRESHOLDS| && !After(alerts, e, i).1
    ensures After(alerts, e, j) == After(alerts, e, i)
    decreases j
  {
    if i < j {
      StoppedStays(alerts, e, i, j - 1);
    }
  }
}
