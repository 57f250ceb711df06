/**
  What every request of the task tables is accepted for and what it writes, stated over the
  rows before and after and over the given inputs.
*/
module TaskOutcomes {
  import opened Common
  import opened DependencyGraph
  import opened TaskModel
  import opened TaskInvariants
  import Keys

  // ---------------------------------------------------------------- workflows

  /** Workflow `i` governs the project: its first default workflow or, without a default, its first one. */
  ghost predicate Governs(ws: seq<Workflow>, p: Id, i: nat) {
    && i < |ws| && ws[i].projectId == p
    && forall j | 0 <= j < |ws| && j != i && ws[j].projectId == p ::
         if ws[i].isDefault then j < i ==> !ws[j].isDefault else i < j && !ws[j].isDefault
  }

  /** A task of the project may go from one status to the other: they are the same, the project has no
      workflow, or the governing one has that edge. */
  ghost predicate Follows(ws: seq<Workflow>, p: Id, from: Id, to: Id) {
    || from == to
    || (forall i | 0 <= i < |ws| :: ws[i].projectId != p)
    || exists i: nat :: Governs(ws, p, i) && (from, to) in ws[i].transitions
  }

  lemma {:induction false} FirstWorkflowAt(ws: seq<Workflow>, k: nat, p: Id, onlyDefault: bool)
    requires k <= |ws|
    ensures match FirstWorkflow(ws[k..], p, onlyDefault)
            case None => forall i | k <= i < |ws| && ws[i].projectId == p :: onlyDefault && !ws[i].isDefault
            case Some(w) => exists i :: k <= i < |ws| && ws[i] == w && w.projectId == p && (onlyDefault ==> w.isDefault)
                              && forall j | k <= j < i && ws[j].projectId == p :: onlyDefault && !ws[j].isDefault
    decreases |ws| - k
  {
    if k < |ws| {
      assert ws[k..][1..] == ws[k + 1..];
      FirstWorkflowAt(ws, k + 1, p, onlyDefault);
    }
  }

  lemma SelectedGoverns(db: Db, p: Id)
    ensures match SelectedWorkflow(db, p)
            case None => forall i | 0 <= i < |db.workflows| :: db.workflows[i].projectId != p
            case Some(w) => exists i: nat :: Governs(db.workflows, p, i) && db.workflows[i] == w
  {
    hide FirstWorkflow;
    var ws := db.workflows;
    assert ws[0..] == ws;
    FirstWorkflowAt(ws, 0, p, true);
    FirstWorkflowAt(ws, 0, p, false);
    if SelectedWorkflow(db, p).Some? {
      var w := SelectedWorkflow(db, p).value;
      var byDefault := FirstWorkflow(ws, p, true).Some?;
      var i :| 0 <= i < |ws| && ws[i] == w && w.projectId == p && (byDefault ==> w.isDefault)
        && forall j | 0 <= j < i && ws[j].projectId == p :: byDefault && !ws[j].isDefault;
      assert Governs(ws, p, i);
    }
  }

  lemma GovernsUnique(ws: seq<Workflow>, p: Id, i: nat, j: nat)
    requires Governs(ws, p, i) && Governs(ws, p, j)
    ensures i == j
  {
  }

  /** The code's choice of a workflow is the governing one. */
  lemma TransitionAllowedIff(db: Db, p: Id, from: Id, to: Id)
    ensures TransitionAllowed(db, p, from, to) <==> Follows(db.workflows, p, from, to)
  {
    hide SelectedWorkflow;
    SelectedGoverns(db, p);
    if SelectedWorkflow(db, p).Some? {
      var i: nat :| Governs(db.workflows, p, i) && db.workflows[i] == SelectedWorkflow(db, p).value;
      forall j: nat | Governs(db.workflows, p, j)
        ensures j == i
      {
        GovernsUnique(db.workflows, p, i, j);
      }
    }
  }

  // ------------------------------------------------------------ status changes

  /** Task `t` went to `to`, with a log row and a count exactly when due, and no other row changed. */
  ghost predicate Entered(db: Db, after: Db, t: Id, to: Id, now: int) {
    && t in db.tasks && t in after.tasks && db.tasks[t].statusId in db.statuses && to in db.statuses
    && after == db.(tasks := after.tasks, log := after.log)
    && after.tasks.Keys == db.tasks.Keys && (forall u | u in db.tasks && u != t :: after.tasks[u] == db.tasks[u])
    && var from := db.tasks[t].statusId;
       && after.tasks[t].statusId == to
       && after.tasks[t].reopenedCount
          == db.tasks[t].reopenedCount + (if db.statuses[from].isDone && !db.statuses[to].isDone then 1 else 0)
       && after.log == (if from == to then db.log else db.log + [Transition(t, Some(from), to, now)])
  }

  /** The row kept everything but status and counter. */
  ghost predicate SameOtherwise(before: Task, after: Task) {
    after == before.(statusId := after.statusId, reopenedCount := after.reopenedCount)
  }

  lemma StoredStatus(db: Db, t: Id)
    requires Inv(db) && t in db.tasks
    ensures db.tasks[t].statusId in db.statuses
  {
    assert TaskOk(db.statuses, t, db.tasks[t]);
  }

  /** The request names a task that is not deleted and a status of its project that is not deleted and that
      its workflow lets it enter. */
  ghost predicate MayEnter(db: Db, t: Id, to: Id) {
    && t in db.tasks && !db.tasks[t].deleted
    && to in db.statuses && !db.statuses[to].deleted && db.statuses[to].projectId == db.tasks[t].projectId
    && Follows(db.workflows, db.tasks[t].projectId, db.tasks[t].statusId, to)
  }

  /** A status change is accepted exactly for a live task, a live status of its project the workflow lets it
      enter, the location and the selfie that status asks for, and no foreign attachment. */
  lemma ChangeStatusAcceptedIff(db: Db, t: Id, to: Id, hasLocation: bool, selfie: Option<bool>, now: int)
    requires Inv(db)
    ensures ChangeStatus(db, t, to, hasLocation, selfie, now).Success?
       <==> && MayEnter(db, t, to)
            && (db.statuses[to].requiresLocation ==> hasLocation)
            && (db.statuses[to].requiresSelfie ==> selfie.Some?) && selfie != Some(false)
    ensures var r := ChangeStatus(db, t, to, hasLocation, selfie, now);
            r.Failure? ==> r.error == if t in db.tasks && !db.tasks[t].deleted then BadRequest else NotFound
  {
    hide Inv, TransitionAllowed, Follows, Move;
    if t in db.tasks {
      StoredStatus(db, t);
      TransitionAllowedIff(db, db.tasks[t].projectId, db.tasks[t].statusId, to);
    }
  }

  /** An accepted status change puts the task into the given status. */
  lemma ChangeStatusEnters(db: Db, t: Id, to: Id, hasLocation: bool, selfie: Option<bool>, now: int)
    requires ChangeStatus(db, t, to, hasLocation, selfie, now).Success?
    ensures var after := ChangeStatus(db, t, to, hasLocation, selfie, now).value;
            Entered(db, after, t, to, now) && SameOtherwise(db.tasks[t], after.tasks[t])
  {
    hide TransitionAllowed;
  }

  // -------------------------------------------------------------------- fields

  /** What a patch makes of a reference: null clears it, a non-empty id replaces it. */
  ghost predicate ReferencePatched(before: Option<Id>, patch: Patch<Id>, after: Option<Id>) {
    match patch
    case Keep => after == before
    case Clear => after == None
    case Set(id) => after == if id == "" then before else Some(id)
  }

  ghost predicate FieldsPatched(before: Fields, patch: FieldsPatch, after: Fields) {
    && ReferencePatched(before.assigneeId, patch.assignee, after.assigneeId)
    && ReferencePatched(before.milestoneId, patch.milestone, after.milestoneId)
    && ReferencePatched(before.parentTaskId, patch.parent, after.parentTaskId)
    && (match patch.dueDate
        case Keep => after.dueDate == before.dueDate
        case Clear => after.dueDate == None
        case Set(d) => after.dueDate == Some(d))
    && (forall name | name in patch.texts :: name in after.texts && after.texts[name] == patch.texts[name])
    && (forall name | name !in patch.texts ::
          (name in after.texts <==> name in before.texts)
          && (name in before.texts ==> after.texts[name] == before.texts[name]))
  }

  lemma OverlaidIsPatched(f: Fields, patch: FieldsPatch)
    ensures FieldsPatched(f, patch, Overlaid(f, patch))
  {
  }

  /** The references a patch names are ones the task may have: an assignee and a milestone the lookups
      accept, and a parent that is another live task of the project. */
  ghost predicate ReferencesOk(db: Db, t: Option<Id>, p: Id, patch: FieldsPatch, lookups: Lookups) {
    && (patch.assignee.Set? && patch.assignee.value != "" ==> lookups.assigneeRefusal.None?)
    && (patch.milestone.Set? && patch.milestone.value != "" ==> lookups.milestoneOk)
    && (patch.parent.Set? && patch.parent.value != "" ==>
          var parent := patch.parent.value;
          && t != Some(parent) && parent in db.tasks && !db.tasks[parent].deleted && db.tasks[parent].projectId == p)
  }

  lemma CheckFieldsIff(db: Db, t: Option<Id>, p: Id, patch: FieldsPatch, lookups: Lookups)
    ensures CheckFields(db, t, p, patch, lookups).Success? <==> ReferencesOk(db, t, p, patch, lookups)
  {
  }

  /** An update is accepted exactly for a live task, acceptable references and, if it names a status, one the
      task may enter that asks for neither location nor selfie. */
  lemma UpdateTaskAcceptedIff(
      db: Db, t: Id, statusId: Option<Id>, patch: FieldsPatch, lookups: Lookups, now: int)
    requires Inv(db)
    ensures UpdateTask(db, t, statusId, patch, lookups, now).Success?
       <==> && t in db.tasks && !db.tasks[t].deleted
            && ReferencesOk(db, Some(t), db.tasks[t].projectId, patch, lookups)
            && (statusId.Some? ==>
                  && statusId.value != "" && MayEnter(db, t, statusId.value)
                  && !db.statuses[statusId.value].requiresLocation && !db.statuses[statusId.value].requiresSelfie)
  {
    hide Inv, TransitionAllowed, Follows, Move, CheckFields, ReferencesOk, Overlaid;
    if t in db.tasks {
      StoredStatus(db, t);
      CheckFieldsIff(db, Some(t), db.tasks[t].projectId, patch, lookups);
      if statusId.Some? {
        TransitionAllowedIff(db, db.tasks[t].projectId, db.tasks[t].statusId, statusId.value);
      }
    }
  }

  /** An accepted update puts the task into the named status, if any, and patches its fields. */
  lemma UpdateTaskWrites(db: Db, t: Id, statusId: Option<Id>, patch: FieldsPatch, lookups: Lookups, now: int)
    requires Inv(db) && UpdateTask(db, t, statusId, patch, lookups, now).Success?
    ensures var after := UpdateTask(db, t, statusId, patch, lookups, now).value;
            && t in db.tasks && Entered(db, after, t, if statusId.Some? then statusId.value
                 else db.tasks[t].statusId, now)
            && FieldsPatched(db.tasks[t].fields, patch, after.tasks[t].fields)
            && SameOtherwise(db.tasks[t].(fields := after.tasks[t].fields), after.tasks[t])
  {
    hide Inv, TransitionAllowed, CheckFields, Overlaid, FieldsPatched;
    StoredStatus(db, t);
    OverlaidIsPatched(db.tasks[t].fields, patch);
  }

  // ------------------------------------------------------------------ insertion

  /** A task was added with the next key of its project and its first log row, and no other row changed but
      the project's sequence. */
  ghost predicate Added(db: Db, after: Db, id: Id, p: Id, s: Id, templateId: Option<Id>, now: int) {
    && p in db.projects && id !in db.tasks && id in after.tasks
    && var n := db.projects[p].nextTaskSequence;
       && after == db.(projects := db.projects[p := db.projects[p].(nextTaskSequence := n + 1)],
                       tasks := db.tasks[id := after.tasks[id]],
                       log := db.log + [Transition(id, None, s, now)])
       && after.tasks[id] == Task(p, s, db.projects[p].code + "-" + Keys.Decimal(n), 0, after.tasks[id].fields,
                                  templateId, now, false)
  }

  lemma InsertTaskAdds(db: Db, id: NewId, p: Id, s: Id, fields: Fields, templateId: Option<Id>, now: int)
    requires p in db.projects && InsertTask(db, id, p, s, fields, templateId, now).Success?
    ensures var after := InsertTask(db, id, p, s, fields, templateId, now).value;
            Added(db, after, id, p, s, templateId, now) && after.tasks[id].fields == fields
  {
  }

  /** Creating a task under an unused id is accepted exactly for a live project, a live status of it and
      acceptable references. */
  lemma CreateTaskAcceptedIff(
      db: Db, id: NewId, p: Id, s: Id, patch: FieldsPatch, lookups: Lookups, now: int)
    requires Inv(db) && id !in db.tasks
    ensures CreateTask(db, id, p, s, patch, lookups, now).Success?
       <==> && p in db.projects && !db.projects[p].deleted
            && s in db.statuses && db.statuses[s].projectId == p && !db.statuses[s].deleted
            && ReferencesOk(db, None, p, patch, lookups)
    ensures var r := CreateTask(db, id, p, s, patch, lookups, now);
            r.Failure? && !(p in db.projects && !db.projects[p].deleted) ==> r.error == NotFound
  {
    hide Inv, InsertTask, CheckFields, ReferencesOk, Overlaid;
    CheckFieldsIff(db, None, p, patch, lookups);
    if p in db.projects {
      InsertNeverConflicts(db, id, p, s, Overlaid(NO_FIELDS, patch), None, now);
    }
  }

  /** An accepted creation adds the task in the given status with the given fields. */
  lemma CreateTaskAdds(db: Db, id: NewId, p: Id, s: Id, patch: FieldsPatch, lookups: Lookups, now: int)
    requires CreateTask(db, id, p, s, patch, lookups, now).Success?
    ensures var after := CreateTask(db, id, p, s, patch, lookups, now).value;
            && Added(db, after, id, p, s, None, now)
            && FieldsPatched(Fields(None, None, None, None, map[]), patch, after.tasks[id].fields)
  {
    hide InsertTask, CheckFields, Overlaid, FieldsPatched, Added;
    InsertTaskAdds(db, id, p, s, Overlaid(NO_FIELDS, patch), None, now);
    OverlaidIsPatched(NO_FIELDS, patch);
  }

  /** The status a generated task starts in: the template's, or a live one of the project such that no other
      is preferred: a default before the rest, then by position. */
  ghost predicate StartsIn(db: Db, p: Id, wanted: Option<Id>, s: Id) {
    && s in db.statuses && db.statuses[s].projectId == p && !db.statuses[s].deleted
    && if wanted.Some? && wanted.value != "" then s == wanted.value
       else forall u | u in db.statuses && db.statuses[u].projectId == p && !db.statuses[u].deleted ::
              || (db.statuses[s].isDefault && !db.statuses[u].isDefault)
              || (db.statuses[s].isDefault == db.statuses[u].isDefault
                  && db.statuses[s].position <= db.statuses[u].position)
  }

  /** An accepted generation adds one task of the template, in the status it starts in and with the
      template's content. */
  lemma GenerateAdds(db: Db, id: NewId, p: Id, wanted: Option<Id>, pick: Option<Id>, c: Content, template: Id, now: int)
    requires Generate(db, id, p, wanted, pick, c, template, now).Success?
    ensures var after := Generate(db, id, p, wanted, pick, c, template, now).value;
            && id in after.tasks && !db.projects[p].deleted
            && StartsIn(db, p, wanted, after.tasks[id].statusId)
            && Added(db, after, id, p, after.tasks[id].statusId, Some(template), now)
            && after.tasks[id].fields == Fields(c.assigneeId, c.milestoneId, None, None, c.texts)
  {
    hide InsertTask, Added;
    InsertTaskAdds(db, id, p, ResolveStatus(db, p, wanted, pick).value, FieldsOf(c), Some(template), now);
    AddedStatus(db, Generate(db, id, p, wanted, pick, c, template, now).value, id, p,
      ResolveStatus(db, p, wanted, pick).value, Some(template), now);
  }

  lemma AddedStatus(db: Db, after: Db, id: Id, p: Id, s: Id, templateId: Option<Id>, now: int)
    requires Added(db, after, id, p, s, templateId, now)
    ensures p in db.projects && id in after.tasks && after.tasks[id].statusId == s
  {
  }

  // -------------------------------------------------------------------- messages

  /** An accepted message that finds a status puts the sender's task into the first one by position that is
      done, or that is not done and is called in progress; it changes nothing else. */
  lemma MessageWrites(db: Db, t: Id, sender: Id, done: bool, pick: Option<Id>)
    requires MarkByMessage(db, t, sender, done, pick).Success?
    ensures t in db.tasks && !db.tasks[t].deleted && db.tasks[t].fields.assigneeId == Some(sender)
    ensures pick.None? ==> MarkByMessage(db, t, sender, done, pick).value == db
    ensures pick.Some? ==>
              && pick.value in db.statuses && !db.statuses[pick.value].deleted
              && db.statuses[pick.value].projectId == db.tasks[t].projectId && db.statuses[pick.value].isDone == done
              && (!done ==> db.statuses[pick.value].code == "IN_PROGRESS")
              && (forall u | u in db.statuses && !db.statuses[u].deleted && db.statuses[u].isDone == done
                    && db.statuses[u].projectId == db.tasks[t].projectId
                         && (done || db.statuses[u].code == "IN_PROGRESS") ::
                    db.statuses[pick.value].position <= db.statuses[u].position)
              && MarkByMessage(db, t, sender, done, pick).value
                 == db.(tasks := db.tasks[t := db.tasks[t].(statusId := pick.value)])
  {
    if pick.Some? {
      assert Suitable(db, db.tasks[t].projectId, pick.value, done);
      assert forall u :: Suitable(db, db.tasks[t].projectId, u, done) <==>
          u in db.statuses && !db.statuses[u].deleted && db.statuses[u].isDone == done
          && db.statuses[u].projectId == db.tasks[t].projectId && (done || db.statuses[u].code == "IN_PROGRESS");
    }
  }

  /** A message is refused exactly when the task is not a live one assigned to its sender, given a possible
      answer of its status query. */
  lemma MessageAcceptedIff(db: Db, t: Id, sender: Id, done: bool, pick: Option<Id>)
    requires t in db.tasks ==> MayMark(db, db.tasks[t].projectId, done, pick)
    ensures MarkByMessage(db, t, sender, done, pick).Success?
       <==> t in db.tasks && !db.tasks[t].deleted && db.tasks[t].fields.assigneeId == Some(sender)
  {
    hide MayMark;
  }

  // ---------------------------------------------------------------- dependencies

  /** A dependency is refused first for a missing task, then for two projects, then for a cycle, and last for
      an edge that is already there. */
  lemma DependencyRefusals(db: Db, id: NewId, t: Id, d: Id)
    requires Inv(db) && forall x | x in db.deps :: x.id != id
    ensures var r := CreateDependency(db, id, t, d);
            var live := t in db.tasks && !db.tasks[t].deleted && d in db.tasks && !db.tasks[d].deleted;
            if !live then r == Failure(NotFound)
            else if db.tasks[t].projectId != db.tasks[d].projectId || Reach(Edges(db.deps), d, t)
                then r == Failure(BadRequest)
            else if exists x :: x in db.deps && x.edge == Edge(t, d) then r == Failure(Conflict)
            else r.Success?
  {
    hide Inv;
    if t in db.tasks && d in db.tasks {
      SearchIsExact(db, t, d);
    }
  }

  /** An accepted dependency is stored as one more row, and no other table changes. */
  lemma DependencyStored(db: Db, id: NewId, t: Id, d: Id)
    requires CreateDependency(db, id, t, d).Success?
    ensures t in db.tasks
    ensures CreateDependency(db, id, t, d).value
         == db.(deps := db.deps + [Dependency(id, db.tasks[t].projectId, Edge(t, d))])
    ensures Edges(CreateDependency(db, id, t, d).value.deps) == Edges(db.deps) + {Edge(t, d)}
  {
    hide ClosesCycle;
  }

  /** Once stored, a dependency shuts out its reverse. */
  lemma ReverseRefused(db: Db, id: NewId, t: Id, d: Id, id2: NewId)
    requires Inv(db) && CreateDependency(db, id, t, d).Success?
    requires id2 != id && forall x | x in db.deps :: x.id != id2
    ensures CreateDependency(CreateDependency(db, id, t, d).value, id2, d, t) == Failure(BadRequest)
  {
    var after := CreateDependency(db, id, t, d).value;
    CreateDependencyKeepsInv(db, id, t, d);
    DependencyStored(db, id, t, d);
    ReachHop(Edges(after.deps), t, d);
    DependencyRefusals(after, id2, d, t);
  }

  /** A deletion is accepted exactly for a live task and a row of that id and task. */
  lemma DependencyDeletedIff(db: Db, t: Id, id: Id)
    ensures var r := DeleteDependency(db, t, id);
            if t in db.tasks && !db.tasks[t].deleted && exists x :: x in db.deps && x.id == id && x.edge.taskId == t
            then r.Success? else r == Failure(NotFound)
  {
  }

  /** An accepted deletion removes the rows of that id and no other, and touches no other table. */
  lemma DependencyDeleted(db: Db, t: Id, id: Id)
    requires DeleteDependency(db, t, id).Success?
    ensures var after := DeleteDependency(db, t, id).value;
            && after == db.(deps := after.deps)
            && (forall x | x in after.deps :: x.id != id)
            && (forall x: Dependency | x.id != id :: multiset(after.deps)[x] == multiset(db.deps)[x])
  {
    forall x: Dependency | x.id != id
      ensures multiset(Without(db.deps, id))[x] == multiset(db.deps)[x]
    {
      WithoutCount(db.deps, id, x);
    }
  }

  lemma {:induction false} WithoutCount(deps: seq<Dependency>, id: Id, x: Dependency)
    requires x.id != id
    ensures multiset(Without(deps, id))[x] == multiset(deps)[x]
  {
    hide Without;
    if deps == [] {
      NothingWithout(id);
    } else {
      var first, rest := deps[0], deps[1..];
      WithoutCount(rest, id, x);
      CountCons(first, rest, x);
      CountCons(first, Without(rest, id), x);
      WithoutCons(deps, id);
    }
  }

  lemma NothingWithout(id: Id)
    ensures Without([], id) == []
  {
  }

  lemma WithoutCons(deps: seq<Dependency>, id: Id)
    requires deps != []
    ensures deps == [deps[0]] + deps[1..]
    ensures Without(deps, id) == if deps[0].id == id then Without(deps[1..], id) else [deps[0]] + Without(deps[1..], id)
  {
  }

  lemma CountCons<T>(first: T, rest: seq<T>, x: T)
    ensures multiset([first] + rest)[x] == multiset(rest)[x] + (if first == x then 1 else 0)
  {
  }

  // ------------------------------------------------- tasks, projects and statuses

  lemma DeleteTaskWrites(db: Db, t: Id)
    ensures DeleteTask(db, t)
         == if t in db.tasks && !db.tasks[t].deleted
            then Success(db.(tasks := db.tasks[t := db.tasks[t].(deleted := true)])) else Failure(NotFound)
  {
  }

  /** A project is created with an unused id and code, and its first task will be number 101. */
  lemma CreateProjectWrites(db: Db, id: NewId, code: string)
    ensures CreateProject(db, id, code)
         == if code != "" && id !in db.projects && (forall p | p in db.projects :: db.projects[p].code != code)
            then Success(db.(projects := db.projects[id := Project(code, 101, false)])) else Failure(BadRequest)
  {
  }

  lemma DeleteProjectWrites(db: Db, p: Id)
    ensures DeleteProject(db, p)
         == if p in db.projects && !db.projects[p].deleted
            then Success(db.(projects := db.projects[p := db.projects[p].(deleted := true)])) else Failure(NotFound)
  {
  }

  /** The status rows but `id` are as before, except that a new default has cleared the others of its project. */
  ghost predicate OthersKept(before: map<Id, Status>, after: map<Id, Status>, id: Id, p: Id, isDefault: bool) {
    forall s | s != id ::
      && (s in after <==> s in before)
      && (s in before ==>
            after[s] == if isDefault && before[s].projectId == p then before[s].(isDefault := false) else before[s])
  }

  /** A status of the project other than `id`, deleted or not, has the code. */
  ghost predicate HasCode(db: Db, p: Id, code: string, id: Id) {
    exists s :: s in db.statuses && s != id && db.statuses[s].projectId == p && db.statuses[s].code == code
  }

  /** A status is created in a live project under an unused id and a code no status of the project has had. */
  lemma CreateStatusAcceptedIff(db: Db, id: NewId, status: Status)
    ensures var r := CreateStatus(db, id, status);
            if !(status.projectId in db.projects && !db.projects[status.projectId].deleted) then r == Failure(NotFound)
            else if id in db.statuses || HasCode(db, status.projectId, status.code, id) then r == Failure(Conflict)
            else r.Success?
  {
    hide ClearStatusDefaults;
  }

  lemma CreateStatusWrites(db: Db, id: NewId, status: Status)
    requires CreateStatus(db, id, status).Success?
    ensures var after := CreateStatus(db, id, status).value;
            && after == db.(statuses := after.statuses)
            && id in after.statuses && after.statuses[id] == status.(deleted := false)
            && OthersKept(db.statuses, after.statuses, id, status.projectId, status.isDefault)
  {
  }

  /** A status is updated when it and its project are live and a new code is not another status's. */
  lemma UpdateStatusAcceptedIff(db: Db, id: Id, patch: StatusPatch)
    ensures var r := UpdateStatus(db, id, patch);
            if id !in db.statuses || db.statuses[id].deleted then r == Failure(NotFound)
            else
              var p := db.statuses[id].projectId;
              if !(p in db.projects && !db.projects[p].deleted) then r == Failure(NotFound)
              else if patch.code.Some? && HasCode(db, p, patch.code.value, id) then r == Failure(Conflict)
              else r.Success?
  {
    hide ClearStatusDefaults, Patched;
  }

  ghost predicate SetOrKept<T>(before: T, given: Option<T>, after: T) {
    after == if given.Some? then given.value else before
  }

  lemma UpdateStatusWrites(db: Db, id: Id, patch: StatusPatch)
    requires UpdateStatus(db, id, patch).Success?
    ensures var after := UpdateStatus(db, id, patch).value;
            && after == db.(statuses := after.statuses) && id in db.statuses && id in after.statuses
            && OthersKept(db.statuses, after.statuses, id, db.statuses[id].projectId, patch.isDefault == Some(true))
            && var b, a := db.statuses[id], after.statuses[id];
               && a.projectId == b.projectId && !a.deleted
               && SetOrKept(b.code, patch.code, a.code) && SetOrKept(b.position, patch.position, a.position)
               && SetOrKept(b.isDone, patch.isDone, a.isDone) && SetOrKept(b.isDefault, patch.isDefault, a.isDefault)
               && SetOrKept(b.requiresLocation, patch.requiresLocation, a.requiresLocation)
               && SetOrKept(b.requiresSelfie, patch.requiresSelfie, a.requiresSelfie)
  {
  }

  /** A status is deleted exactly when it and its project are live and no live task is in it. */
  lemma DeleteStatusWrites(db: Db, id: Id)
    ensures var r := DeleteStatus(db, id);
            if id !in db.statuses || db.statuses[id].deleted then r == Failure(NotFound)
            else if db.statuses[id].projectId !in db.projects || db.projects[db.statuses[id].projectId].deleted
            then r == Failure(NotFound)
            else if exists t :: t in db.tasks && !db.tasks[t].deleted && db.tasks[t].statusId == id
            then r == Failure(BadRequest)
            else r == Success(db.(statuses := db.statuses[id := db.statuses[id].(deleted := true)]))
  {
  }

  /** A workflow is created in a live project, between live statuses of it, under a new name and without a
      repeated edge. */
  lemma CreateWorkflowAcceptedIff(db: Db, w: Workflow)
    ensures var r := CreateWorkflow(db, w);
            var open := set s | s in db.statuses && db.statuses[s].projectId == w.projectId && !db.statuses[s].deleted;
            if !(w.projectId in db.projects && !db.projects[w.projectId].deleted) then r == Failure(NotFound)
            else if exists e :: e in w.transitions && !(e.0 in open && e.1 in open) then r == Failure(BadRequest)
            else if exists v :: v in db.workflows && v.projectId == w.projectId && v.name == w.name
                then r == Failure(Conflict)
            else if !Distinct(w.transitions) then r == Failure(Conflict)
            else r.Success?
  {
    hide ClearWorkflowDefaults;
    var edges := set e | e in w.transitions;
    if Distinct(w.transitions) {
      DistinctCount(w.transitions, edges);
      SetWithin(edges, w.transitions);
    } else {
      var i, j :| 0 <= i < j < |w.transitions| && w.transitions[i] == w.transitions[j];
      forall x | x in edges
        ensures exists k :: 0 <= k < |w.transitions| && k != j && w.transitions[k] == x
      {
        var k :| 0 <= k < |w.transitions| && w.transitions[k] == x;
        assert w.transitions[if k == j then i else k] == x;
      }
      SkipOne(edges, w.transitions, j);
    }
  }

  /** The workflow comes last, and a new default has cleared the others of its project. */
  lemma CreateWorkflowWrites(db: Db, w: Workflow)
    requires CreateWorkflow(db, w).Success?
    ensures var after := CreateWorkflow(db, w).value;
            && after == db.(workflows := after.workflows)
            && |after.workflows| == |db.workflows| + 1 && after.workflows[|db.workflows|] == w
            && forall i | 0 <= i < |db.workflows| ::
                 after.workflows[i] == if w.isDefault && db.workflows[i].projectId == w.projectId
                                       then db.workflows[i].(isDefault := false) else db.workflows[i]
  {
  }

  // ----------------------------------------------------------------------- bulk

  /** An accepted bulk request puts every named task into the given status, if any, counts and logs each
      change, sets due date and assignee, and leaves every other task alone. */
  lemma BulkWrites(
      db: Db, ids: seq<Id>, assign: Assignment, statusId: Option<Id>, days: Option<int>, now: int)
    requires Inv(db) && Bulk(db, ids, assign, statusId, days, now).Success?
    ensures var after := Bulk(db, ids, assign, statusId, days, now).value;
            && after == db.(tasks := after.tasks, log := after.log) && after.tasks.Keys == db.tasks.Keys
            && forall t | t in db.tasks ::
                 if t !in ids then after.tasks[t] == db.tasks[t]
                 else BulkRow(db, db.tasks[t], after.tasks[t], assign, statusId, days, now)
  {
    hide Inv, BulkAll, BulkRow;
    var target := if Given(statusId) then statusId else None;
    BulkIsReady(db, ids, assign, statusId, days, now);
    BulkAllWrites(db, ids, target, EditOf(assign, days), now);
    BulkAllCounts(db, ids, target, EditOf(assign, days), now);
    var after := BulkAll(db, ids, target, EditOf(assign, days), now).value;
    forall t | t in db.tasks && t in ids
      ensures BulkRow(db, db.tasks[t], after.tasks[t], assign, statusId, days, now)
    {
      BulkRowIs(db, db.tasks[t], after.tasks[t], assign, statusId, days, now);
    }
  }

  ghost predicate BulkRow(
      db: Db, before: Task, after: Task, assign: Assignment, statusId: Option<Id>, days: Option<int>, now: int) {
    && after == before.(statusId := after.statusId, reopenedCount := after.reopenedCount, fields := after.fields)
    && after.statusId == (if statusId.Some? && statusId.value != "" then statusId.value else before.statusId)
    && after.reopenedCount == before.reopenedCount + Reopened(db, before.statusId, after.statusId)
    && after.fields == before.fields.(assigneeId := after.fields.assigneeId, dueDate := after.fields.dueDate)
    && after.fields.assigneeId
         == (if assign.to.Some? && assign.to.value != "" then assign.to else before.fields.assigneeId)
    && after.fields.dueDate
       == (if days.None? then before.fields.dueDate
           else Some((if before.fields.dueDate.Some? then before.fields.dueDate.value else now)
               + days.value * 86_400_000))
  }

  ghost function Reopened(db: Db, from: Id, to: Id): nat {
    if from in db.statuses && to in db.statuses && db.statuses[from].isDone && !db.statuses[to].isDone then 1 else 0
  }

  lemma BulkRowIs(
      db: Db, before: Task, after: Task, assign: Assignment, statusId: Option<Id>, days: Option<int>, now: int)
    requires BulkWritten(before, after, if Given(statusId) then statusId else None, EditOf(assign, days), now)
    requires after.reopenedCount == before.reopenedCount + Reopened(db, before.statusId, after.statusId)
    ensures BulkRow(db, before, after, assign, statusId, days, now)
  {
    hide Reopened;
  }

  lemma BulkOneCounts(db: Db, t: Id, target: Option<Id>, edit: BulkEdit, now: int)
    requires BulkOne(db, t, target, edit, now).Success?
    ensures var after := BulkOne(db, t, target, edit, now).value;
            && t in db.tasks && after == db.(tasks := db.tasks[t := after.tasks[t]], log := after.log)
                 && t in after.tasks
            && after.tasks[t].reopenedCount
               == db.tasks[t].reopenedCount + Reopened(db, db.tasks[t].statusId, after.tasks[t].statusId)
  {
    hide TransitionAllowed, Edited;
  }

  lemma {:induction false} BulkAllCounts(db: Db, ids: seq<Id>, target: Option<Id>, edit: BulkEdit, now: int)
    requires Distinct(ids) && BulkAll(db, ids, target, edit, now).Success?
    ensures var after := BulkAll(db, ids, target, edit, now).value;
            && OnlyWritten(db, after, ids)
            && forall t | t in ids :: t in db.tasks && after.tasks[t].reopenedCount
                 == db.tasks[t].reopenedCount + Reopened(db, db.tasks[t].statusId, after.tasks[t].statusId)
  {
    hide BulkOne;
    if ids != [] {
      var init, last := ids[..|ids| - 1], ids[|ids| - 1];
      assert ids == init + [last] && last !in init;
      BulkAllCounts(db, init, target, edit, now);
      BulkOneCounts(BulkAll(db, init, target, edit, now).value, last, target, edit, now);
    }
  }

  /** The log rows of a bulk request: one for each named task that was in another status, in request order. */
  ghost function BulkLog(db: Db, ids: seq<Id>, to: Id, now: int): seq<Transition> {
    if ids == [] then []
    else
      var rest, t := BulkLog(db, ids[..|ids| - 1], to, now), ids[|ids| - 1];
      if t in db.tasks && db.tasks[t].statusId != to then rest + [Transition(t, Some(db.tasks[t].statusId), to, now)]
          else rest
  }

  lemma BulkLogAppend(db: Db, ids: seq<Id>, t: Id, to: Id, now: int)
    ensures BulkLog(db, [], to, now) == []
    ensures BulkLog(db, ids + [t], to, now)
         == if t in db.tasks && db.tasks[t].statusId != to
            then BulkLog(db, ids, to, now) + [Transition(t, Some(db.tasks[t].statusId), to, now)]
            else BulkLog(db, ids, to, now)
  {
    assert (ids + [t])[..|ids|] == ids;
  }

  lemma {:induction false} BulkLogs(db: Db, ids: seq<Id>, target: Option<Id>, edit: BulkEdit, now: int)
    requires Distinct(ids) && BulkAll(db, ids, target, edit, now).Success?
    ensures BulkAll(db, ids, target, edit, now).value.log
         == if target.None? then db.log else db.log + BulkLog(db, ids, target.value, now)
  {
    hide BulkOne, BulkLog;
    if ids == [] {
      BulkLogAppend(db, [], "", Or(target, ""), now);
    } else {
      var init, last := ids[..|ids| - 1], ids[|ids| - 1];
      assert ids == init + [last] && last !in init;
      var before := BulkAll(db, init, target, edit, now).value;
      BulkLogs(db, init, target, edit, now);
      BulkAllCounts(db, init, target, edit, now);
      BulkOneLogs(before, last, target, edit, now);
      BulkLogAppend(db, init, last, Or(target, ""), now);
      assert before.tasks[last] == db.tasks[last];
    }
  }

  lemma BulkOneLogs(db: Db, t: Id, target: Option<Id>, edit: BulkEdit, now: int)
    requires BulkOne(db, t, target, edit, now).Success?
    ensures t in db.tasks
    ensures BulkOne(db, t, target, edit, now).value.log
         == if target.None? || db.tasks[t].statusId == target.value then db.log
            else db.log + [Transition(t, Some(db.tasks[t].statusId), target.value, now)]
  {
    hide TransitionAllowed, Edited;
  }
}
