/**
  What a whole run of requests says about each task: how its history grows, what
  the reopen counter counts, which workflow edges it followed and when.
*/
module TaskHistory {
  import opened Common
  import opened DependencyGraph
  import opened TaskModel
  import opened TaskInvariants
  import Keys

  // ------------------------------------------------------- reachable states

  /** From an empty database every run of requests satisfies the invariant. */
  lemma ReachableInv(rs: seq<Timed>)
    ensures Inv(Run(EMPTY_DB, rs))
  {
    EmptyDbInv();
    RunKeepsInv(EMPTY_DB, rs);
  }

  /** In every reachable state the tasks can be scheduled, dependencies first,
      and every dependency joins two tasks of one project. */
  lemma ReachableDepsSchedulable(rs: seq<Timed>)
    ensures var db := Run(EMPTY_DB, rs);
            && Schedulable(Edges(db.deps))
            && forall d | d in db.deps ::
                 && d.edge.taskId in db.tasks && d.edge.dependsOnTaskId in db.tasks
                 && db.tasks[d.edge.taskId].projectId == db.tasks[d.edge.dependsOnTaskId].projectId
  {
    hide KeysOk, LogOk, WorkflowsOk, StatusesOk;
    var db := Run(EMPTY_DB, rs);
    ReachableInv(rs);
    AcyclicIffSchedulable(Edges(db.deps));
    assert forall d | d in db.deps :: DependencyOk(db.tasks, d);
  }

  /** In every reachable state a live task has a live status of its own project. */
  lemma ReachableTaskStatus(rs: seq<Timed>, t: Id)
    requires LiveTask(Run(EMPTY_DB, rs), t)
    ensures var db := Run(EMPTY_DB, rs); StatusInProject(db, db.tasks[t].projectId, db.tasks[t].statusId)
  {
    hide KeysOk, LogOk, DepsOk, WorkflowsOk, StatusesOk;
    var db := Run(EMPTY_DB, rs);
    ReachableInv(rs);
    assert TaskOk(db.statuses, t, db.tasks[t]);
  }

  /** In every reachable state two tasks never share a key, and a project's next key is unused. */
  lemma ReachableKeysUnique(rs: seq<Timed>, t: Id, u: Id)
    requires t in Run(EMPTY_DB, rs).tasks && u in Run(EMPTY_DB, rs).tasks && t != u
    ensures Run(EMPTY_DB, rs).tasks[t].key != Run(EMPTY_DB, rs).tasks[u].key
  {
    ReachableInv(rs);
  }

  /** In every reachable state the parent of a task is another task of the same project. */
  lemma ReachableParents(rs: seq<Timed>, t: Id)
    requires t in Run(EMPTY_DB, rs).tasks && Run(EMPTY_DB, rs).tasks[t].fields.parentTaskId.Some?
    ensures var tasks := Run(EMPTY_DB, rs).tasks;
            var parent := tasks[t].fields.parentTaskId.value;
            parent != t && parent in tasks && tasks[parent].projectId == tasks[t].projectId
  {
    hide KeysOk, LogOk, DepsOk, TasksOk, WorkflowsOk, StatusesOk;
    ReachableInv(rs);
    assert ParentOk(Run(EMPTY_DB, rs).tasks, t, Run(EMPTY_DB, rs).tasks[t].projectId,
        Run(EMPTY_DB, rs).tasks[t].fields.parentTaskId);
  }

  /** In every reachable state at most one status and at most one workflow of a project is the default. */
  lemma ReachableSingleDefaults(rs: seq<Timed>)
    ensures var db := Run(EMPTY_DB, rs);
            && (forall s, u | s in db.statuses && u in db.statuses
                  && db.statuses[s].isDefault && db.statuses[u].isDefault
                  && db.statuses[s].projectId == db.statuses[u].projectId :: s == u)
            && forall i, j | 0 <= i < |db.workflows| && 0 <= j < |db.workflows|
                  && db.workflows[i].isDefault && db.workflows[j].isDefault
                  && db.workflows[i].projectId == db.workflows[j].projectId :: i == j
  {
    hide KeysOk, LogOk, DepsOk, TasksOk;
    ReachableInv(rs);
  }

  /** On a state satisfying the invariant, a new dependency is accepted exactly when both
      tasks are live, in one project, the edge is new and no cycle would arise. */
  lemma DependencyAcceptedIff(db: Db, id: NewId, t: Id, d: Id)
    requires Inv(db) && forall x | x in db.deps :: x.id != id
    ensures CreateDependency(db, id, t, d).Success?
       <==> && LiveTask(db, t) && LiveTask(db, d)
            && db.tasks[t].projectId == db.tasks[d].projectId
            && Edge(t, d) !in Edges(db.deps)
            && Acyclic(Edges(db.deps) + {Edge(t, d)})
  {
    hide KeysOk, LogOk, TasksOk, WorkflowsOk, StatusesOk;
    if LiveTask(db, t) && LiveTask(db, d) {
      SearchIsExact(db, t, d);
      AddEdgeAcyclicIff(Edges(db.deps), t, d);
    }
  }

  // ------------------------------------------------------ effect of a step

  lemma HistoryAppend(log: seq<Transition>, e: Transition, t: Id)
    ensures History(log + [e], t) == if e.taskId == t then History(log, t) + [e] else History(log, t)
  {
    assert (log + [e])[..|log|] == log;
  }

  lemma {:induction false} NoHistory(log: seq<Transition>, t: Id)
    requires forall i | 0 <= i < |log| :: log[i].taskId != t
    ensures History(log, t) == []
  {
    if log != [] {
      NoHistory(log[..|log| - 1], t);
    }
  }

  /** A status change that counts as reopening, judged by the done flags of these statuses. */
  ghost predicate IsReopening(statuses: map<Id, Status>, e: Transition) {
    && e.fromStatusId.Some? && e.fromStatusId.value in statuses && e.toStatusId in statuses
    && statuses[e.fromStatusId.value].isDone && !statuses[e.toStatusId].isDone
  }

  ghost function ReopenedCount(db: Db, t: Id): nat {
    if t in db.tasks then db.tasks[t].reopenedCount else 0
  }

  ghost predicate Unmoved(db: Db, after: Db, t: Id) {
    && History(after.log, t) == History(db.log, t)
    && ReopenedCount(after, t) == ReopenedCount(db, t)
    && (t in db.tasks <==> t in after.tasks)
    && (t in db.tasks ==>
         after.tasks[t].projectId == db.tasks[t].projectId && after.tasks[t].statusId == db.tasks[t].statusId)
  }

  ghost predicate Created(db: Db, after: Db, t: Id, now: int) {
    && t !in db.tasks && t in after.tasks && History(db.log, t) == [] && after.tasks[t].reopenedCount == 0
    && History(after.log, t) == [Transition(t, None, after.tasks[t].statusId, now)]
  }

  ghost predicate Moved(db: Db, after: Db, t: Id, now: int) {
    && t in db.tasks && t in after.tasks
    && after.tasks[t].projectId == db.tasks[t].projectId
    && var from, to := db.tasks[t].statusId, after.tasks[t].statusId;
       var e := Transition(t, Some(from), to, now);
       && from != to
       && TransitionAllowed(db, db.tasks[t].projectId, from, to)
       && History(after.log, t) == History(db.log, t) + [e]
       && after.tasks[t].reopenedCount == db.tasks[t].reopenedCount + (if IsReopening(db.statuses, e) then 1 else 0)
  }

  /** What one step may do to one task: nothing, create it, or move it once along an allowed transition. */
  ghost predicate TaskEffect(db: Db, after: Db, t: Id, now: int) {
    Unmoved(db, after, t) || Created(db, after, t, now) || Moved(db, after, t, now)
  }

  lemma InsertEffect(db: Db, id: NewId, p: Id, s: Id, fields: Fields, templateId: Option<Id>, now: int, t: Id)
    requires LogOk(db.tasks, db.log) && p in db.projects && InsertTask(db, id, p, s, fields, templateId, now).Success?
    ensures TaskEffect(db, InsertTask(db, id, p, s, fields, templateId, now).value, t, now)
  {
    HistoryAppend(db.log, Transition(id, None, s, now), t);
    if t == id {
      NoHistory(db.log, t);
    }
  }

  lemma MoveEffect(db: Db, id: Id, to: Id, now: int, t: Id)
    requires id in db.tasks && db.tasks[id].statusId in db.statuses && to in db.statuses
    requires TransitionAllowed(db, db.tasks[id].projectId, db.tasks[id].statusId, to)
    ensures TaskEffect(db, Move(db, id, to, now), t, now)
  {
    HistoryAppend(db.log, Transition(id, Some(db.tasks[id].statusId), to, now), t);
  }

  // Writing fields changes neither status nor history.
  lemma FieldsEffect(db: Db, moved: Db, id: Id, fields: Fields, now: int, t: Id)
    requires id in moved.tasks && TaskEffect(db, moved, t, now)
    ensures TaskEffect(db, SetFields(moved, id, fields), t, now)
    ensures Unmoved(db, moved, t) ==> Unmoved(db, SetFields(moved, id, fields), t)
  {
    hide History, TransitionAllowed;
  }

  lemma UpdateTaskEffect(db: Db, id: Id, statusId: Option<Id>, patch: FieldsPatch, lookups: Lookups, now: int, t: Id)
    requires UpdateTask(db, id, statusId, patch, lookups, now).Success?
    ensures TaskEffect(db, UpdateTask(db, id, statusId, patch, lookups, now).value, t, now)
  {
    hide Overlaid, CheckFields, TransitionAllowed, Moved, Created, Move;
    var fields := Overlaid(db.tasks[id].fields, patch);
    if Given(statusId) {
      MoveEffect(db, id, statusId.value, now, t);
      MoveKeepsTask(db, id, statusId.value, now);
      FieldsEffect(db, Move(db, id, statusId.value, now), id, fields, now, t);
    } else {
      FieldsEffect(db, db, id, fields, now, t);
    }
  }

  lemma MoveKeepsTask(db: Db, t: Id, to: Id, now: int)
    requires t in db.tasks && db.tasks[t].statusId in db.statuses && to in db.statuses
    ensures t in Move(db, t, to, now).tasks
  {
  }

  lemma BulkOneEffect(db: Db, id: Id, target: Option<Id>, edit: BulkEdit, now: int, t: Id)
    requires BulkOne(db, id, target, edit, now).Success?
    ensures var after := BulkOne(db, id, target, edit, now).value;
            && TaskEffect(db, after, t, now) && (t != id ==> Unmoved(db, after, t))
            && after.statuses == db.statuses && after.workflows == db.workflows
  {
    hide Edited;
    var fields := Edited(db.tasks[id].fields, edit, now);
    if target.Some? {
      MoveEffect(db, id, target.value, now, t);
      HistoryAppend(db.log, Transition(id, Some(db.tasks[id].statusId), target.value, now), t);
      FieldsEffect(db, Move(db, id, target.value, now), id, fields, now, t);
    } else {
      FieldsEffect(db, db, id, fields, now, t);
    }
  }

  lemma {:induction false} BulkAllEffect(db: Db, ids: seq<Id>, target: Option<Id>, edit: BulkEdit, now: int, t: Id)
    requires Distinct(ids) && BulkAll(db, ids, target, edit, now).Success?
    ensures var after := BulkAll(db, ids, target, edit, now).value;
            && TaskEffect(db, after, t, now) && (t !in ids ==> Unmoved(db, after, t))
            && after.statuses == db.statuses && after.workflows == db.workflows
  {
    hide BulkOne, History;
    if ids != [] {
      var init, last := ids[..|ids| - 1], ids[|ids| - 1];
      assert ids == init + [last] && last !in init;
      BulkAllEffect(db, init, target, edit, now, t);
      var before := BulkAll(db, init, target, edit, now).value;
      BulkOneEffect(before, last, target, edit, now, t);
      var after := BulkAll(db, ids, target, edit, now).value;
      assert after == BulkOne(before, last, target, edit, now).value;
      if t == last {
        assert Unmoved(db, before, t);
        SelectedSame(db, before);
      }
    }
  }

  lemma BulkEffect(db: Db, ids: seq<Id>, assign: Assignment, statusId: Option<Id>, days: Option<int>, now: int, t: Id)
    requires Bulk(db, ids, assign, statusId, days, now).Success?
    ensures TaskEffect(db, Bulk(db, ids, assign, statusId, days, now).value, t, now)
  {
    BulkIsReady(db, ids, assign, statusId, days, now);
    BulkAllEffect(db, ids, if Given(statusId) then statusId else None, EditOf(assign, days), now, t);
  }

  // Requests that write neither tasks' statuses nor the log.
  lemma InertEffect(db: Db, r: Request, now: int, t: Id)
    requires !r.BulkRequest? && !r.CreateTaskRequest? && !r.GenerateRequest?
    requires !r.UpdateTaskRequest? && !r.ChangeStatusRequest? && !r.MarkRequest?
    ensures Unmoved(db, Step(db, r, now), t)
  {
    hide History, Bulk, CreateTask, UpdateTask, ChangeStatus, Generate, StatusCodeTaken, ClosesCycle,
      ClearStatusDefaults, ClearWorkflowDefaults, StatusInProject, Edges;
  }

  /** A message of the task's assignee marks it with another status than its current one. */
  ghost predicate SilentMove(db: Db, r: Request, t: Id) {
    && r.MarkRequest? && r.taskToMark == t && r.answer.Some?
    && MarkByMessage(db, t, r.sender, r.done, r.answer).Success? && r.answer.value != db.tasks[t].statusId
  }

  /** The task got another status behind the back of its history and its counter. */
  ghost predicate Marked(db: Db, after: Db, t: Id) {
    && t in db.tasks && t in after.tasks
    && after.tasks[t].projectId == db.tasks[t].projectId && after.tasks[t].statusId != db.tasks[t].statusId
    && History(after.log, t) == History(db.log, t)
    && ReopenedCount(after, t) == ReopenedCount(db, t)
  }

  lemma MarkEffect(db: Db, r: Request, now: int, t: Id)
    requires r.MarkRequest?
    ensures if SilentMove(db, r, t) then Marked(db, Step(db, r, now), t) else Unmoved(db, Step(db, r, now), t)
  {
    hide History, Bulk, CreateTask, UpdateTask, ChangeStatus, Generate, MayMark;
  }

  /** One request moves a task at most once, along a transition its workflow allows at that moment;
      only a message moves a task in silence. */
  lemma StepEffect(db: Db, r: Request, now: int, t: Id)
    requires Inv(db)
    ensures if SilentMove(db, r, t) then Marked(db, Step(db, r, now), t) else TaskEffect(db, Step(db, r, now), t, now)
  {
    hide KeysOk, DepsOk, StatusesOk, WorkflowsOk, ProjectsOk, TasksOk, LogOk, ParentsOk, Moved, Created, Marked,
      Overlaid, CheckFields, BulkAll;
    if Apply(db, r, now).Success? {
      match r {
        case BulkRequest(ids, assign, target, days) =>
          BulkEffect(db, ids, assign, target, days, now, t);
        case CreateTaskRequest(id, p, s, fields, lookups) =>
          InsertEffect(db, id, p, s, Overlaid(NO_FIELDS, fields), None, now, t);
        case GenerateRequest(id, p, wanted, pick, content, template) =>
          InsertEffect(db, id, p, ResolveStatus(db, p, wanted, pick).value, FieldsOf(content), Some(template), now, t);
        case UpdateTaskRequest(id, s, fields, lookups) =>
          UpdateTaskEffect(db, id, s, fields, lookups, now, t);
        case ChangeStatusRequest(id, s, loc, selfie) =>
          MoveEffect(db, id, s, now, t);
        case MarkRequest(_, _, _, _) =>
          MarkEffect(db, r, now, t);
        case _ => InertEffect(db, r, now, t);
      }
    }
  }

  // ---------------------------------------------------------- whole runs

  /** How often a run reopened a task, each change judged by the done flags at that moment. */
  ghost function Reopenings(db: Db, rs: seq<Timed>, t: Id): nat {
    if rs == [] then 0
    else
      var before := Run(db, rs[..|rs| - 1]);
      var h, g := History(before.log, t), History(Run(db, rs).log, t);
      Reopenings(db, rs[..|rs| - 1], t)
      + (if |g| > |h| && IsReopening(before.statuses, g[|g| - 1]) then 1 else 0)
  }

  /** The reopen counter counts exactly the done-to-not-done entries a run added to the task's history. */
  lemma {:induction false} RunReopenings(db: Db, rs: seq<Timed>, t: Id)
    requires Inv(db)
    ensures ReopenedCount(Run(db, rs), t) == ReopenedCount(db, t) + Reopenings(db, rs, t)
  {
    hide Inv;
    if rs != [] {
      var init := rs[..|rs| - 1];
      RunReopenings(db, init, t);
      RunKeepsInv(db, init);
      StepEffect(Run(db, init), rs[|rs| - 1].request, rs[|rs| - 1].now, t);
    }
  }

  lemma ReachableReopenCounter(rs: seq<Timed>, t: Id)
    requires t in Run(EMPTY_DB, rs).tasks
    ensures Run(EMPTY_DB, rs).tasks[t].reopenedCount == Reopenings(EMPTY_DB, rs, t)
  {
    EmptyDbInv();
    RunReopenings(EMPTY_DB, rs, t);
  }

  /** Every non-initial entry of a history is a real change along an edge of this workflow. */
  ghost predicate PathIn(w: Workflow, h: seq<Transition>) {
    forall e | e in h && e.fromStatusId.Some? ::
      e.fromStatusId.value != e.toStatusId && (e.fromStatusId.value, e.toStatusId) in w.transitions
  }

  /** While the task exists, `w` is the workflow its changes are checked against. */
  ghost predicate SelectedThroughout(db: Db, rs: seq<Timed>, t: Id, w: Workflow) {
    forall k: nat | k < |rs| :: SelectedFor(Run(db, rs[..k]), t, w)
  }

  ghost predicate SelectedFor(db: Db, t: Id, w: Workflow) {
    t in db.tasks ==> SelectedWorkflow(db, db.tasks[t].projectId) == Some(w)
  }

  lemma AllowedIsEdge(db: Db, t: Id, w: Workflow, from: Id, to: Id)
    requires t in db.tasks && SelectedFor(db, t, w) && from != to
    requires TransitionAllowed(db, db.tasks[t].projectId, from, to)
    ensures (from, to) in w.transitions
  {
  }

  /** While the selected workflow of a task's project stays, whatever other workflows are created, every
      entry of its history is a real change along an edge of that workflow. */
  lemma {:induction false} FixedWorkflowPath(db: Db, rs: seq<Timed>, t: Id, w: Workflow)
    requires Inv(db) && SelectedThroughout(db, rs, t, w)
    requires PathIn(w, History(db.log, t))
    ensures PathIn(w, History(Run(db, rs).log, t))
  {
    hide Inv, Step, Run, History, TransitionAllowed, SelectedFor, SilentMove;
    if rs == [] {
      RunNothing(db, rs);
    } else {
      var init, last := rs[..|rs| - 1], rs[|rs| - 1];
      assert forall k: nat | k < |init| :: rs[..k] == init[..k];
      assert SelectedFor(Run(db, init), t, w);
      var before := Run(db, init);
      FixedWorkflowPath(db, init, t, w);
      RunKeepsInv(db, init);
      RunLast(db, rs);
      StepEffect(before, last.request, last.now, t);
      var after := Run(db, rs);
      if !SilentMove(before, last.request, t) && Moved(before, after, t, last.now) {
        AllowedIsEdge(before, t, w, before.tasks[t].statusId, after.tasks[t].statusId);
      }
    }
  }

  lemma RunNothing(db: Db, rs: seq<Timed>)
    requires rs == []
    ensures Run(db, rs) == db
  {
  }

  /** The statuses a history visits form a walk of the workflow's graph that ends in `current`. */
  ghost predicate WorkflowWalk(w: Workflow, h: seq<Transition>, current: Id) {
    && |h| > 0 && h[0].fromStatusId == None && h[|h| - 1].toStatusId == current
    && forall i: nat | 0 < i < |h| :: WorkflowStep(w, h, i)
  }

  ghost predicate WorkflowStep(w: Workflow, h: seq<Transition>, i: nat)
    requires 0 < i < |h|
  {
    h[i - 1].toStatusId != h[i].toStatusId && (h[i - 1].toStatusId, h[i].toStatusId) in w.transitions
  }

  /** After any run in which one workflow stayed selected while the task existed and no message moved it,
      the life of the task is a walk in that workflow's graph from its first status to its current one. */
  lemma LifeIsWorkflowWalk(rs: seq<Timed>, t: Id, w: Workflow)
    requires SelectedThroughout(EMPTY_DB, rs, t, w) && NoSilentMove(rs, t) && t in Run(EMPTY_DB, rs).tasks
    ensures var db := Run(EMPTY_DB, rs); WorkflowWalk(w, History(db.log, t), db.tasks[t].statusId)
  {
    hide Inv, Run, SelectedThroughout, NoSilentMove;
    EmptyDbInv();
    FixedWorkflowPath(EMPTY_DB, rs, t, w);
    ReachableHistoryIsChain(rs, t);
    var h := History(Run(EMPTY_DB, rs).log, t);
    forall i: nat | 0 < i < |h|
      ensures WorkflowStep(w, h, i)
    {
      assert Linked(h, i) && h[i] in h;
    }
  }

  /** Any request issued in a reachable state has one of these effects on any task. */
  lemma ReachableStepEffect(rs: seq<Timed>, r: Request, now: int, t: Id)
    ensures var db := Run(EMPTY_DB, rs);
            if SilentMove(db, r, t) then Marked(db, Step(db, r, now), t) else TaskEffect(db, Step(db, r, now), t, now)
  {
    ReachableInv(rs);
    StepEffect(Run(EMPTY_DB, rs), r, now, t);
  }

  // --------------------------------------------------------------- chains

  ghost predicate Linked(h: seq<Transition>, i: nat)
    requires 0 < i < |h|
  {
    h[i].fromStatusId == Some(h[i - 1].toStatusId)
  }

  /** A history starts from nothing, has no gaps, and ends in the current status. */
  ghost predicate Chain(h: seq<Transition>, current: Id) {
    && |h| > 0 && h[0].fromStatusId == None && h[|h| - 1].toStatusId == current
    && forall i: nat | 0 < i < |h| :: Linked(h, i)
  }

  lemma ChainAppend(h: seq<Transition>, current: Id, e: Transition)
    requires Chain(h, current) && e.fromStatusId == Some(current)
    ensures Chain(h + [e], e.toStatusId)
  {
    var g := h + [e];
    forall i: nat | 0 < i < |g|
      ensures Linked(g, i)
    {
      if i < |h| {
        assert Linked(h, i);
      }
    }
  }

  ghost predicate HistoryIsChain(db: Db, t: Id) {
    t in db.tasks ==> Chain(History(db.log, t), db.tasks[t].statusId)
  }

  /** From a gapless history a request leaves a gapless history exactly when it is not a message
      that moves the task. */
  lemma ChainStep(db: Db, r: Request, now: int, t: Id)
    requires Inv(db) && HistoryIsChain(db, t)
    ensures HistoryIsChain(Step(db, r, now), t) <==> !SilentMove(db, r, t)
  {
    hide Inv, Step, SilentMove, TransitionAllowed;
    var after := Step(db, r, now);
    StepEffect(db, r, now, t);
    if !SilentMove(db, r, t) && t in db.tasks && Moved(db, after, t, now) {
      ChainAppend(History(db.log, t), db.tasks[t].statusId,
        Transition(t, Some(db.tasks[t].statusId), after.tasks[t].statusId, now));
    }
  }

  /** No message of the run moves the task. */
  ghost predicate NoSilentMove(rs: seq<Timed>, t: Id) {
    forall k: nat | k < |rs| :: !SilentMove(Run(EMPTY_DB, rs[..k]), rs[k].request, t)
  }

  ghost predicate ChainThroughout(rs: seq<Timed>, t: Id) {
    forall k: nat | k <= |rs| :: HistoryIsChain(Run(EMPTY_DB, rs[..k]), t)
  }

  /** A task's history starts from nothing, has no gap and ends in the current status throughout a run
      exactly when no message of the run moves the task. */
  lemma {:induction false} HistoryChainIff(rs: seq<Timed>, t: Id)
    ensures ChainThroughout(rs, t) <==> NoSilentMove(rs, t)
  {
    hide HistoryIsChain, SilentMove, Inv, Run;
    assert rs[..|rs|] == rs;
    if rs == [] {
      NothingYet(t);
    } else {
      var init, last := rs[..|rs| - 1], rs[|rs| - 1];
      assert forall k: nat | k <= |init| :: rs[..k] == init[..k];
      HistoryChainIff(init, t);
      ReachableInv(init);
      RunLast(EMPTY_DB, rs);
      assert init == rs[..|init|];
      if HistoryIsChain(Run(EMPTY_DB, init), t) {
        ChainStep(Run(EMPTY_DB, init), last.request, last.now, t);
      }
    }
  }

  lemma NothingYet(t: Id)
    ensures HistoryIsChain(Run(EMPTY_DB, []), t)
  {
  }

  lemma RunLast(db: Db, rs: seq<Timed>)
    requires rs != []
    ensures Run(db, rs) == Step(Run(db, rs[..|rs| - 1]), rs[|rs| - 1].request, rs[|rs| - 1].now)
  {
    hide Step;
  }

  lemma ReachableHistoryIsChain(rs: seq<Timed>, t: Id)
    requires NoSilentMove(rs, t) && t in Run(EMPTY_DB, rs).tasks
    ensures var db := Run(EMPTY_DB, rs); Chain(History(db.log, t), db.tasks[t].statusId)
  {
    hide NoSilentMove, Chain, Run;
    HistoryChainIff(rs, t);
    assert rs[..|rs|] == rs;
    assert HistoryIsChain(Run(EMPTY_DB, rs[..|rs|]), t);
  }

  /** In every reachable state every task has a history. */
  lemma {:induction false} ReachableHistoryStarts(rs: seq<Timed>, t: Id)
    requires t in Run(EMPTY_DB, rs).tasks
    ensures |History(Run(EMPTY_DB, rs).log, t)| > 0
  {
    hide Inv, Step, SilentMove;
    if rs != [] {
      var init, last := rs[..|rs| - 1], rs[|rs| - 1];
      ReachableStepEffect(init, last.request, last.now, t);
      if t in Run(EMPTY_DB, init).tasks {
        ReachableHistoryStarts(init, t);
      }
    }
  }

  // ----------------------------------------- what messages do behind the rules

  // Where a message that moves a task puts it.
  lemma MessageLands(db: Db, r: Request, now: int, t: Id)
    requires SilentMove(db, r, t)
    ensures t in db.tasks && t in Step(db, r, now).tasks && Step(db, r, now).tasks[t].statusId == r.answer.value
    ensures Suitable(db, db.tasks[t].projectId, r.answer.value, r.done)
  {
    hide Bulk, CreateTask, UpdateTask, ChangeStatus, Generate, TransitionAllowed;
  }

  ghost predicate Changes(db: Db, after: Db, t: Id) {
    t in db.tasks && t in after.tasks && db.tasks[t].statusId != after.tasks[t].statusId
  }

  /** The task goes from a done to a not-done status, by the done flags of the moment. */
  ghost predicate Reopens(db: Db, after: Db, t: Id) {
    && Changes(db, after, t)
    && db.tasks[t].statusId in db.statuses && after.tasks[t].statusId in db.statuses
    && db.statuses[db.tasks[t].statusId].isDone && !db.statuses[after.tasks[t].statusId].isDone
  }

  /** A message of its assignee that starts a task which is in a done status. */
  ghost predicate SilentReopening(db: Db, r: Request, t: Id) {
    && SilentMove(db, r, t) && !r.done
    && db.tasks[t].statusId in db.statuses && db.statuses[db.tasks[t].statusId].isDone
  }

  lemma StepReopens(db: Db, r: Request, now: int, t: Id)
    requires Inv(db)
    ensures var after := Step(db, r, now);
            && ReopenedCount(after, t) + (if SilentReopening(db, r, t) then 1 else 0)
               == ReopenedCount(db, t) + (if Reopens(db, after, t) then 1 else 0)
  {
    hide Step, History, TransitionAllowed, SilentMove, KeysOk, DepsOk, LogOk, WorkflowsOk, StatusesOk, ProjectsOk;
    var after := Step(db, r, now);
    StepEffect(db, r, now, t);
    if t in db.tasks {
      assert TaskOk(db.statuses, t, db.tasks[t]);
    }
    if SilentMove(db, r, t) {
      MessageLands(db, r, now, t);
    } else if Moved(db, after, t, now) {
      TargetIsStored(db, r, now, t);
    }
  }

  // No request that moves a task removes a status row.
  lemma TargetIsStored(db: Db, r: Request, now: int, t: Id)
    requires Inv(db) && t in db.tasks && t in Step(db, r, now).tasks
    requires Step(db, r, now).tasks[t].statusId != db.tasks[t].statusId
    ensures Step(db, r, now).tasks[t].statusId in db.statuses
  {
    hide Step, TransitionAllowed, KeysOk, DepsOk, LogOk, WorkflowsOk, StatusesOk, ProjectsOk;
    StepKeepsInv(db, r, now);
    assert TaskOk(Step(db, r, now).statuses, t, Step(db, r, now).tasks[t]);
    MovingKeepsStatuses(db, r, now, t);
  }

  lemma MovingKeepsStatuses(db: Db, r: Request, now: int, t: Id)
    requires t in db.tasks && t in Step(db, r, now).tasks
    requires Step(db, r, now).tasks[t].statusId != db.tasks[t].statusId
    ensures Step(db, r, now).statuses == db.statuses
  {
    hide StatusInProject, TransitionAllowed, MayMark, MayAnswer, CheckFields, Overlaid, Bulk, CreateProject,
      DeleteProject, CreateStatus, UpdateStatus, DeleteStatus, CreateWorkflow, CreateDependency, DeleteDependency;
    if LeavesTasks(r) {
      TasksUntouched(db, r, now);
    } else if r.BulkRequest? && Apply(db, r, now).Success? {
      BulkKeepsStatuses(db, r.ids, r.assign, r.target, r.days, now);
    }
  }

  lemma BulkKeepsStatuses(db: Db, ids: seq<Id>, assign: Assignment, statusId: Option<Id>, days: Option<int>, now: int)
    requires Bulk(db, ids, assign, statusId, days, now).Success?
    ensures Bulk(db, ids, assign, statusId, days, now).value.statuses == db.statuses
  {
    hide BulkAll;
    BulkIsReady(db, ids, assign, statusId, days, now);
    BulkAllWrites(db, ids, if Given(statusId) then statusId else None, EditOf(assign, days), now);
  }

  /** How often a run really took a task from a done to a not-done status. */
  ghost function TrueReopenings(db: Db, rs: seq<Timed>, t: Id): nat {
    if rs == [] then 0
    else TrueReopenings(db, rs[..|rs| - 1], t) + (if Reopens(Run(db, rs[..|rs| - 1]), Run(db, rs), t) then 1 else 0)
  }

  ghost predicate NoSilentReopening(db: Db, rs: seq<Timed>, t: Id) {
    forall k: nat | k < |rs| :: !SilentReopening(Run(db, rs[..k]), rs[k].request, t)
  }

  /** The reopen counter is the number of real reopenings exactly when no message starts the task while
      it is in a done status; otherwise it is too low. */
  lemma {:induction false} CounterIsTrueIff(rs: seq<Timed>, t: Id)
    ensures ReopenedCount(Run(EMPTY_DB, rs), t) <= TrueReopenings(EMPTY_DB, rs, t)
    ensures ReopenedCount(Run(EMPTY_DB, rs), t) == TrueReopenings(EMPTY_DB, rs, t)
        <==> NoSilentReopening(EMPTY_DB, rs, t)
  {
    hide Inv, Step, Run, SilentReopening, Reopens, ReopenedCount;
    if rs == [] {
      RunNothing(EMPTY_DB, rs);
      NeverReopened(t);
    } else {
      var init, last := rs[..|rs| - 1], rs[|rs| - 1];
      assert forall k: nat | k < |init| :: rs[..k] == init[..k];
      CounterIsTrueIff(init, t);
      ReachableInv(init);
      RunLast(EMPTY_DB, rs);
      StepReopens(Run(EMPTY_DB, init), last.request, last.now, t);
      assert init == rs[..|init|];
    }
  }

  lemma NeverReopened(t: Id)
    ensures ReopenedCount(EMPTY_DB, t) == 0
  {
  }

  /** A message of its assignee moves the task where its workflow has no edge. */
  ghost predicate UnlawfulMessage(db: Db, r: Request, t: Id) {
    SilentMove(db, r, t) && !TransitionAllowed(db, db.tasks[t].projectId, db.tasks[t].statusId, r.answer.value)
  }

  ghost predicate Lawful(db: Db, after: Db, t: Id) {
    Changes(db, after, t) ==>
        TransitionAllowed(db, db.tasks[t].projectId, db.tasks[t].statusId, after.tasks[t].statusId)
  }

  lemma StepLawful(db: Db, r: Request, now: int, t: Id)
    requires Inv(db)
    ensures Lawful(db, Step(db, r, now), t) <==> !UnlawfulMessage(db, r, t)
  {
    hide Inv, Step, History, TransitionAllowed, SilentMove;
    StepEffect(db, r, now, t);
    if SilentMove(db, r, t) {
      MessageLands(db, r, now, t);
    }
  }

  /** After any run, the next status change of any task obeys the task's workflow exactly when it is not a
      message along a missing edge. */
  lemma ReachableChangeLawfulIff(rs: seq<Timed>, r: Request, now: int, t: Id)
    ensures var db := Run(EMPTY_DB, rs); Lawful(db, Step(db, r, now), t) <==> !UnlawfulMessage(db, r, t)
  {
    hide Inv, Run, Step, Lawful, UnlawfulMessage;
    ReachableInv(rs);
    StepLawful(Run(EMPTY_DB, rs), r, now, t);
  }

  // ---------------------------------------------------- a message at its worst

  const SHIPPED := Status("p", "DONE", 0, true, false, false, true, false)
  const STARTED := Status("p", "IN_PROGRESS", 1, false, false, false, false, false)
  const ONE_WAY := Workflow("p", "flow", true, [("started", "shipped")])

  const TO_MOIRA := FieldsPatch(Set("moira"), Keep, Keep, Keep, map[])

  /** A project whose workflow leads from started to shipped only, and a shipped task of Moira's, which
      a message of hers starts. */
  const MESSAGE_RUN: seq<Timed> := [
    Timed(1, CreateProjectRequest("p", "WEB")),
    Timed(2, CreateStatusRequest("shipped", SHIPPED)),
    Timed(3, CreateStatusRequest("started", STARTED)),
    Timed(4, CreateWorkflowRequest(ONE_WAY)),
    Timed(5, CreateTaskRequest("t", "p", "shipped", TO_MOIRA, Lookups(None, true))),
    Timed(6, MarkRequest("t", "moira", false, Some("started")))]

  const MESSAGE_TASK := Task("p", "shipped", Keys.TaskKey("WEB", 101), 0, Overlaid(NO_FIELDS, TO_MOIRA), None, 5, false)

  const WITH_STATUSES := Db(
    map["p" := Project("WEB", 101, false)], map["shipped" := SHIPPED, "started" := STARTED], [], map[], [], [])

  const BEFORE_MESSAGE := Db(
    map["p" := Project("WEB", 102, false)], map["shipped" := SHIPPED, "started" := STARTED], [ONE_WAY],
    map["t" := MESSAGE_TASK], [Transition("t", None, "shipped", 5)], [])

  const WITH_PROJECT := WITH_STATUSES.(statuses := map[])
  const WITH_SHIPPED := WITH_STATUSES.(statuses := map["shipped" := SHIPPED])

  lemma FirstSteps()
    ensures Step(EMPTY_DB, MESSAGE_RUN[0].request, 1) == WITH_PROJECT
    ensures Step(WITH_PROJECT, MESSAGE_RUN[1].request, 2) == WITH_SHIPPED
  {
  }

  lemma ThirdStep()
    ensures Step(WITH_SHIPPED, MESSAGE_RUN[2].request, 3) == WITH_STATUSES
  {
  }

  lemma StatusesCreated()
    ensures Run(EMPTY_DB, MESSAGE_RUN[..3]) == WITH_STATUSES
  {
    hide Step, Run;
    var rs := MESSAGE_RUN;
    FirstSteps();
    ThirdStep();
    assert rs[..3][..2] == rs[..2] && rs[..2][..1] == rs[..1] && rs[..1][..0] == [];
    RunNothing(EMPTY_DB, []);
    RunLast(EMPTY_DB, rs[..1]);
    RunLast(EMPTY_DB, rs[..2]);
    RunLast(EMPTY_DB, rs[..3]);
  }

  lemma WorkflowCreated()
    ensures Step(WITH_STATUSES, MESSAGE_RUN[3].request, 4) == WITH_STATUSES.(workflows := [ONE_WAY])
  {
    assert (set e | e in ONE_WAY.transitions) == {("started", "shipped")};
    assert WITH_STATUSES.workflows == [] && ClearWorkflowDefaults([], "p") == [];
    assert [] + [ONE_WAY] == [ONE_WAY];
  }

  lemma TaskCreated()
    ensures Step(WITH_STATUSES.(workflows := [ONE_WAY]), MESSAGE_RUN[4].request, 5) == BEFORE_MESSAGE
  {
  }

  lemma BeforeMessage()
    ensures Run(EMPTY_DB, MESSAGE_RUN[..5]) == BEFORE_MESSAGE
  {
    hide Run, Step;
    var rs := MESSAGE_RUN;
    StatusesCreated();
    WorkflowCreated();
    assert rs[..4][..3] == rs[..3] && rs[..5][..4] == rs[..4];
    RunLast(EMPTY_DB, rs[..4]);
    TaskCreated();
    RunLast(EMPTY_DB, rs[..5]);
  }

  lemma AfterMessage()
    ensures var r, after := MESSAGE_RUN[5].request,
        BEFORE_MESSAGE.(tasks := map["t" := MESSAGE_TASK.(statusId := "started")]);
            && Step(BEFORE_MESSAGE, r, 6) == after && Run(EMPTY_DB, MESSAGE_RUN) == after
            && SilentMove(BEFORE_MESSAGE, r, "t")
  {
    hide Run;
    BeforeMessage();
    var r := MESSAGE_RUN[5].request;
    assert Suitable(BEFORE_MESSAGE, "p", "started", false);
    assert MarkByMessage(BEFORE_MESSAGE, "t", "moira", false, Some("started")).Success?;
    assert Step(BEFORE_MESSAGE, r, 6) == BEFORE_MESSAGE.(tasks := map["t" := MESSAGE_TASK.(statusId := "started")]);
    RunLast(EMPTY_DB, MESSAGE_RUN);
    assert MESSAGE_RUN[..|MESSAGE_RUN| - 1] == MESSAGE_RUN[..5];
  }

  /** After the message the task has a status its history never mentions. */
  lemma MessageLeavesGap()
    ensures var db := Run(EMPTY_DB, MESSAGE_RUN);
            && db.tasks == map["t" := MESSAGE_TASK.(statusId := "started")]
            && db.log == [Transition("t", None, "shipped", 5)]
            && History(db.log, "t") == db.log
            && !Chain(History(db.log, "t"), db.tasks["t"].statusId)
  {
    hide Run, Step;
    AfterMessage();
    var log := [Transition("t", None, "shipped", 5)];
    assert log[..0] == [];
    assert History(log[..0], "t") == [];
    assert History(log, "t") == log;
  }

  /** The message has reopened the shipped task along an edge its workflow does not have, and the
      reopen counter still reads zero. */
  lemma MessageReopensUnseen()
    ensures var before, after := Run(EMPTY_DB, MESSAGE_RUN[..5]), Run(EMPTY_DB, MESSAGE_RUN);
            && Reopens(before, after, "t") && ReopenedCount(after, "t") == 0
            && SilentReopening(before, MESSAGE_RUN[5].request, "t")
            && UnlawfulMessage(before, MESSAGE_RUN[5].request, "t") && !Lawful(before, after, "t")
  {
    hide Run, Step, SilentMove;
    BeforeMessage();
    AfterMessage();
    var db := BEFORE_MESSAGE;
    assert FirstWorkflow(db.workflows, "p", true) == Some(ONE_WAY);
    assert !TransitionAllowed(db, "p", "shipped", "started");
  }

  // ------------------------------------------------------------- timing

  ghost predicate Increasing(h: seq<Transition>) {
    forall i, j | 0 <= i < j < |h| :: h[i].enteredAt < h[j].enteredAt
  }

  ghost predicate EnteredBy(h: seq<Transition>, now: int) {
    forall i | 0 <= i < |h| :: h[i].enteredAt <= now
  }

  /** When requests carry increasing times, so do the entries of every history. */
  lemma {:induction false} ReachableHistoryIncreases(rs: seq<Timed>, t: Id)
    requires Clocked(rs)
    ensures Increasing(History(Run(EMPTY_DB, rs).log, t))
    ensures if rs == [] then History(Run(EMPTY_DB, rs).log, t) == []
            else EnteredBy(History(Run(EMPTY_DB, rs).log, t), rs[|rs| - 1].now)
  {
    if rs != [] {
      var init, last := rs[..|rs| - 1], rs[|rs| - 1];
      ReachableHistoryIncreases(init, t);
      ReachableStepEffect(init, last.request, last.now, t);
      if init != [] {
        assert init[|init| - 1].now < last.now;
      }
    }
  }
}
