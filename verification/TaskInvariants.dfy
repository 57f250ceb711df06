/**
  The invariant of the task engine and the proof that every request keeps it.

  Each part of the invariant names only the tables it speaks about, so a request
  that does not write those tables keeps the part for free.
*/
module TaskInvariants {
  import opened Common
  import opened DependencyGraph
  import opened TaskModel
  import Keys

  // ------------------------------------------------------------ invariant

  ghost predicate ProjectsOk(projects: map<Id, Project>) {
    forall p, q | p in projects && q in projects && p != q :: projects[p].code != projects[q].code
  }

  /** At most one status of a project is the default. */
  ghost predicate StatusesOk(projects: map<Id, Project>, statuses: map<Id, Status>) {
    && (forall s | s in statuses :: statuses[s].projectId in projects)
    && forall s, u | s in statuses && u in statuses && s != u
         && statuses[s].isDefault && statuses[u].isDefault ::
         statuses[s].projectId != statuses[u].projectId
  }

  ghost predicate StatusOf(statuses: map<Id, Status>, p: Id, s: Id) {
    s in statuses && statuses[s].projectId == p
  }

  ghost predicate WorkflowOk(statuses: map<Id, Status>, w: Workflow) {
    forall e | e in w.transitions :: StatusOf(statuses, w.projectId, e.0) && StatusOf(statuses, w.projectId, e.1)
  }

  ghost predicate SingleDefault(ws: seq<Workflow>) {
    forall i, j | 0 <= i < j < |ws| && ws[i].isDefault && ws[j].isDefault ::
      ws[i].projectId != ws[j].projectId
  }

  /** At most one workflow of a project is the default, and workflows connect statuses of their project. */
  ghost predicate WorkflowsOk(statuses: map<Id, Status>, ws: seq<Workflow>) {
    (forall i | 0 <= i < |ws| :: WorkflowOk(statuses, ws[i])) && SingleDefault(ws)
  }

  /** A task has a status of its own project, and a live one while it is live itself. */
  ghost predicate TaskOk(statuses: map<Id, Status>, id: Id, task: Task) {
    && id != ""
    && StatusOf(statuses, task.projectId, task.statusId)
    && (!task.deleted ==> !statuses[task.statusId].deleted)
  }

  ghost predicate TasksOk(statuses: map<Id, Status>, tasks: map<Id, Task>) {
    forall t | t in tasks :: TaskOk(statuses, t, tasks[t])
  }

  /** The key of a task is one its project has already issued. */
  ghost predicate KeyIssued(projects: map<Id, Project>, task: Task) {
    && task.projectId in projects
    && exists n: nat :: n < projects[task.projectId].nextTaskSequence
         && task.key == Keys.TaskKey(projects[task.projectId].code, n)
  }

  ghost predicate KeysOk(projects: map<Id, Project>, tasks: map<Id, Task>) {
    && (forall t | t in tasks :: KeyIssued(projects, tasks[t]))
    && forall t, u | t in tasks && u in tasks && t != u :: tasks[t].key != tasks[u].key
  }

  ghost predicate LogOk(tasks: map<Id, Task>, log: seq<Transition>) {
    forall i | 0 <= i < |log| :: log[i].taskId in tasks
  }

  ghost predicate DependencyOk(tasks: map<Id, Task>, d: Dependency) {
    && d.edge.taskId in tasks && d.edge.dependsOnTaskId in tasks
    && tasks[d.edge.taskId].projectId == d.projectId
    && tasks[d.edge.dependsOnTaskId].projectId == d.projectId
  }

  /** Every dependency stays inside one project and the graph has no cycle. */
  ghost predicate DepsOk(tasks: map<Id, Task>, deps: seq<Dependency>) {
    && (forall d | d in deps :: DependencyOk(tasks, d))
    && Acyclic(Edges(deps))
  }

  /** A parent is another task of the same project. */
  ghost predicate ParentOk(tasks: map<Id, Task>, t: Id, p: Id, parent: Option<Id>) {
    parent.Some? ==> parent.value in tasks && parent.value != t && tasks[parent.value].projectId == p
  }

  ghost predicate ParentsOk(tasks: map<Id, Task>) {
    forall t | t in tasks :: ParentOk(tasks, t, tasks[t].projectId, tasks[t].fields.parentTaskId)
  }

  ghost predicate Inv(db: Db) {
    && ProjectsOk(db.projects)
    && StatusesOk(db.projects, db.statuses)
    && WorkflowsOk(db.statuses, db.workflows)
    && TasksOk(db.statuses, db.tasks)
    && KeysOk(db.projects, db.tasks)
    && LogOk(db.tasks, db.log)
    && DepsOk(db.tasks, db.deps)
    && ParentsOk(db.tasks)
  }

  lemma EmptyDbInv()
    ensures Inv(EMPTY_DB)
  {
    assert Edges([]) == {};
    forall p | Walk({}, p)
      ensures |p| < 2
    {
      if |p| >= 2 {
        WalkTail({}, p);
      }
    }
  }

  // --------------------------------------------------------------- frames

  lemma StatusMoves(statuses: map<Id, Status>, after: map<Id, Status>, ws: seq<Workflow>)
    requires WorkflowsOk(statuses, ws)
    requires forall s | s in statuses :: s in after && after[s].projectId == statuses[s].projectId
    ensures WorkflowsOk(after, ws)
  {
  }

  lemma KeysWhenUnchanged(projects: map<Id, Project>, tasks: map<Id, Task>, after: map<Id, Task>)
    requires KeysOk(projects, tasks) && after.Keys == tasks.Keys
    requires forall t | t in tasks :: after[t].projectId == tasks[t].projectId && after[t].key == tasks[t].key
    ensures KeysOk(projects, after)
  {
  }

  lemma KeysWhenProjectsGrow(projects: map<Id, Project>, after: map<Id, Project>, tasks: map<Id, Task>)
    requires KeysOk(projects, tasks)
    requires forall p | p in projects :: p in after && after[p].code == projects[p].code
                                          && after[p].nextTaskSequence >= projects[p].nextTaskSequence
    ensures KeysOk(after, tasks)
  {
  }

  lemma DepsWhenTasksGrow(tasks: map<Id, Task>, after: map<Id, Task>, deps: seq<Dependency>)
    requires DepsOk(tasks, deps)
    requires forall t | t in tasks :: t in after && after[t].projectId == tasks[t].projectId
    ensures DepsOk(after, deps)
  {
  }

  // ------------------------------------------------------- insert and move

  lemma KeyIsNew(projects: map<Id, Project>, p: Id, task: Task)
    requires ProjectsOk(projects) && p in projects && KeyIssued(projects, task)
    ensures task.key != Keys.TaskKey(projects[p].code, projects[p].nextTaskSequence)
  {
    var q := task.projectId;
    var n: nat :| n < projects[q].nextTaskSequence && task.key == Keys.TaskKey(projects[q].code, n);
    if task.key == Keys.TaskKey(projects[p].code, projects[p].nextTaskSequence) {
      Keys.TaskKeyInjective(projects[q].code, n, projects[p].code, projects[p].nextTaskSequence);
    }
  }

  /** The allocators never issue a key twice: inserting under a fresh id succeeds. */
  lemma InsertNeverConflicts(db: Db, id: NewId, p: Id, s: Id, fields: Fields, templateId: Option<Id>, now: int)
    requires Inv(db) && p in db.projects && id !in db.tasks
    ensures InsertTask(db, id, p, s, fields, templateId, now).Success?
  {
    forall t | t in db.tasks
      ensures db.tasks[t].key != Keys.TaskKey(db.projects[p].code, db.projects[p].nextTaskSequence)
    {
      KeyIsNew(db.projects, p, db.tasks[t]);
    }
  }

  lemma KeysInsert(projects: map<Id, Project>, tasks: map<Id, Task>, p: Id, id: Id, task: Task)
    requires ProjectsOk(projects) && KeysOk(projects, tasks) && p in projects && id !in tasks
    requires task.projectId == p && task.key == Keys.TaskKey(projects[p].code, projects[p].nextTaskSequence)
    ensures var next := projects[p].(nextTaskSequence := projects[p].nextTaskSequence + 1);
            KeysOk(projects[p := next], tasks[id := task])
  {
    var next := projects[p].(nextTaskSequence := projects[p].nextTaskSequence + 1);
    var projects', tasks' := projects[p := next], tasks[id := task];
    KeysWhenProjectsGrow(projects, projects', tasks);
    forall t | t in tasks'
      ensures KeyIssued(projects', tasks'[t])
    {
      if t != id {
        assert KeyIssued(projects', tasks[t]);
      }
    }
    forall t | t in tasks
      ensures tasks[t].key != task.key
    {
      KeyIsNew(projects, p, tasks[t]);
    }
  }

  // Writing one project row that keeps codes distinct and takes back no sequence number.
  lemma ProjectWriteKeepsInv(db: Db, p: Id, project: Project)
    requires Inv(db) && ProjectsOk(db.projects[p := project])
    requires p in db.projects ==>
               project.code == db.projects[p].code && project.nextTaskSequence >= db.projects[p].nextTaskSequence
    ensures Inv(db.(projects := db.projects[p := project]))
  {
    hide LogOk, KeysOk, DepsOk, TasksOk, WorkflowsOk;
    KeysWhenProjectsGrow(db.projects, db.projects[p := project], db.tasks);
  }

  lemma SequenceKeepsProjects(projects: map<Id, Project>, p: Id)
    requires ProjectsOk(projects) && p in projects
    ensures ProjectsOk(projects[p := projects[p].(nextTaskSequence := projects[p].nextTaskSequence + 1)])
  {
  }

  lemma InsertKeepsInv(db: Db, id: NewId, p: Id, s: Id, fields: Fields, templateId: Option<Id>, now: int)
    requires Inv(db) && p in db.projects && StatusInProject(db, p, s) && ParentOk(db.tasks, id, p, fields.parentTaskId)
    requires InsertTask(db, id, p, s, fields, templateId, now).Success?
    ensures Inv(InsertTask(db, id, p, s, fields, templateId, now).value)
  {
    hide KeysOk, DepsOk, WorkflowsOk, ParentsOk, ParentOk, ProjectsOk, StatusesOk;
    var after := InsertTask(db, id, p, s, fields, templateId, now).value;
    var task := after.tasks[id];
    SequenceKeepsProjects(db.projects, p);
    ProjectWriteKeepsInv(db, p, after.projects[p]);
    KeysInsert(db.projects, db.tasks, p, id, task);
    DepsWhenTasksGrow(db.tasks, after.tasks, db.deps);
    ParentsWhenOneWritten(db.tasks, id, task);
  }

  // `after` differs from `db` in the row of one task, which keeps its project and key.
  ghost predicate OneTaskWritten(db: Db, after: Db, t: Id) {
    && t in db.tasks && t in after.tasks
    && after == db.(tasks := db.tasks[t := after.tasks[t]], log := after.log)
    && after.tasks[t].projectId == db.tasks[t].projectId
    && after.tasks[t].key == db.tasks[t].key
  }

  lemma ParentsWhenOneWritten(tasks: map<Id, Task>, t: Id, task: Task)
    requires ParentsOk(tasks) && ParentOk(tasks, t, task.projectId, task.fields.parentTaskId)
    requires t in tasks ==> task.projectId == tasks[t].projectId
    ensures ParentsOk(tasks[t := task])
  {
    var after := tasks[t := task];
    forall u | u in after
      ensures ParentOk(after, u, after[u].projectId, after[u].fields.parentTaskId)
    {
      if u != t {
        assert ParentOk(tasks, u, tasks[u].projectId, tasks[u].fields.parentTaskId);
      }
    }
  }

  lemma TaskWriteKeepsInv(db: Db, after: Db, t: Id)
    requires Inv(db) && OneTaskWritten(db, after, t)
    requires LogOk(after.tasks, after.log) && TaskOk(after.statuses, t, after.tasks[t])
    requires ParentOk(db.tasks, t, after.tasks[t].projectId, after.tasks[t].fields.parentTaskId)
    ensures Inv(after)
  {
    hide ParentsOk, LogOk, KeysOk, DepsOk, WorkflowsOk, StatusesOk;
    KeysWhenUnchanged(db.projects, db.tasks, after.tasks);
    DepsWhenTasksGrow(db.tasks, after.tasks, db.deps);
    ParentsWhenOneWritten(db.tasks, t, after.tasks[t]);
  }

  lemma MoveKeepsInv(db: Db, t: Id, to: Id, now: int)
    requires Inv(db) && LiveTask(db, t) && StatusInProject(db, db.tasks[t].projectId, to)
    ensures db.tasks[t].statusId in db.statuses
    ensures Inv(Move(db, t, to, now)) && OneTaskWritten(db, Move(db, t, to, now), t)
  {
    hide KeysOk, DepsOk, WorkflowsOk, StatusesOk;
    assert TaskOk(db.statuses, t, db.tasks[t]);
    var after := Move(db, t, to, now);
    if db.tasks[t].statusId == to {
      assert after == db == db.(tasks := db.tasks[t := db.tasks[t]]);
    } else {
      TaskWriteKeepsInv(db, after, t);
    }
  }

  lemma MarkKeepsInv(db: Db, t: Id, sender: Id, done: bool, pick: Option<Id>)
    requires Inv(db) && MarkByMessage(db, t, sender, done, pick).Success?
    ensures Inv(MarkByMessage(db, t, sender, done, pick).value)
  {
    hide KeysOk, DepsOk, WorkflowsOk, StatusesOk;
    assert TaskOk(db.statuses, t, db.tasks[t]);
    if pick.Some? {
      TaskWriteKeepsInv(db, MarkByMessage(db, t, sender, done, pick).value, t);
    }
  }

  lemma SetFieldsKeepsInv(db: Db, t: Id, fields: Fields)
    requires Inv(db) && t in db.tasks && ParentOk(db.tasks, t, db.tasks[t].projectId, fields.parentTaskId)
    ensures Inv(SetFields(db, t, fields)) && OneTaskWritten(db, SetFields(db, t, fields), t)
  {
    hide KeysOk, DepsOk, WorkflowsOk, ParentsOk;
    assert TaskOk(db.statuses, t, db.tasks[t]);
    TaskWriteKeepsInv(db, SetFields(db, t, fields), t);
  }

  // Checked fields name a parent the invariant allows, and unchecked ones keep it.
  lemma CheckedParent(db: Db, t: Option<Id>, id: Id, p: Id, f: Fields, patch: FieldsPatch, lookups: Lookups)
    requires CheckFields(db, t, p, patch, lookups).Success?
    requires id !in db.tasks || t == Some(id)
    requires ParentOk(db.tasks, id, p, f.parentTaskId)
    ensures ParentOk(db.tasks, id, p, Overlaid(f, patch).parentTaskId)
  {
  }

  lemma UpdateTaskKeepsInv(db: Db, t: Id, statusId: Option<Id>, patch: FieldsPatch, lookups: Lookups, now: int)
    requires Inv(db) && UpdateTask(db, t, statusId, patch, lookups, now).Success?
    ensures Inv(UpdateTask(db, t, statusId, patch, lookups, now).value)
  {
    hide KeysOk, DepsOk, WorkflowsOk, StatusesOk, TasksOk, LogOk, ProjectsOk, TransitionAllowed, Overlaid,
      CheckFields, ParentOk;
    var task := db.tasks[t];
    assert ParentOk(db.tasks, t, task.projectId, task.fields.parentTaskId);
    CheckedParent(db, Some(t), t, task.projectId, task.fields, patch, lookups);
    if Given(statusId) {
      MoveKeepsInv(db, t, statusId.value, now);
      MoveKeepsParents(db, t, statusId.value, now, Overlaid(task.fields, patch).parentTaskId);
      SetFieldsKeepsInv(Move(db, t, statusId.value, now), t, Overlaid(task.fields, patch));
    } else {
      SetFieldsKeepsInv(db, t, Overlaid(task.fields, patch));
    }
  }

  lemma MoveKeepsParents(db: Db, t: Id, to: Id, now: int, parent: Option<Id>)
    requires t in db.tasks && db.tasks[t].statusId in db.statuses && to in db.statuses
    requires ParentOk(db.tasks, t, db.tasks[t].projectId, parent)
    ensures ParentOk(Move(db, t, to, now).tasks, t, db.tasks[t].projectId, parent)
    ensures t in Move(db, t, to, now).tasks && Move(db, t, to, now).tasks[t].fields == db.tasks[t].fields
  {
  }

  // ------------------------------------------------------------- requests

  lemma CreateProjectKeepsInv(db: Db, id: NewId, code: string)
    requires Inv(db) && CreateProject(db, id, code).Success?
    ensures Inv(CreateProject(db, id, code).value)
  {
    hide LogOk, KeysOk, DepsOk, TasksOk, WorkflowsOk, StatusesOk;
    ProjectWriteKeepsInv(db, id, Project(code, FIRST_TASK_SEQUENCE, false));
  }

  lemma DeleteProjectKeepsInv(db: Db, p: Id)
    requires Inv(db) && DeleteProject(db, p).Success?
    ensures Inv(DeleteProject(db, p).value)
  {
    hide LogOk, KeysOk, DepsOk, TasksOk, WorkflowsOk, StatusesOk;
    ProjectWriteKeepsInv(db, p, db.projects[p].(deleted := true));
  }

  // Rewriting the status table: no status changes project, none in use is deleted.
  lemma StatusWriteKeepsInv(db: Db, statuses: map<Id, Status>)
    requires Inv(db) && StatusesOk(db.projects, statuses)
    requires forall s | s in db.statuses :: s in statuses && statuses[s].projectId == db.statuses[s].projectId
    requires forall t | LiveTask(db, t) && db.tasks[t].statusId in db.statuses
        && !db.statuses[db.tasks[t].statusId].deleted ::
               !statuses[db.tasks[t].statusId].deleted
    ensures Inv(db.(statuses := statuses))
  {
    hide LogOk, KeysOk, DepsOk, WorkflowsOk;
    StatusMoves(db.statuses, statuses, db.workflows);
    forall t | t in db.tasks
      ensures TaskOk(statuses, t, db.tasks[t])
    {
      assert TaskOk(db.statuses, t, db.tasks[t]);
    }
  }

  // Setting one status when no other status of its project competes for the default.
  lemma DefaultStaysSingle(projects: map<Id, Project>, statuses: map<Id, Status>, id: Id, s: Status)
    requires StatusesOk(projects, statuses) && s.projectId in projects
    requires s.isDefault ==>
               || (id in statuses && statuses[id].isDefault && statuses[id].projectId == s.projectId)
               || forall u | u in statuses && u != id && statuses[u].projectId == s.projectId :: !statuses[u].isDefault
    ensures StatusesOk(projects, statuses[id := s])
  {
  }

  lemma ClearKeepsStatuses(projects: map<Id, Project>, statuses: map<Id, Status>, p: Id)
    requires StatusesOk(projects, statuses)
    ensures StatusesOk(projects, ClearStatusDefaults(statuses, p))
    ensures var cleared := ClearStatusDefaults(statuses, p);
            cleared.Keys == statuses.Keys && forall s | s in statuses ::
              && cleared[s].projectId == statuses[s].projectId && cleared[s].deleted == statuses[s].deleted
              && cleared[s].isDefault == (statuses[s].isDefault && statuses[s].projectId != p)
  {
  }

  lemma CreateStatusKeepsInv(db: Db, id: NewId, status: Status)
    requires Inv(db) && CreateStatus(db, id, status).Success?
    ensures Inv(CreateStatus(db, id, status).value)
  {
    hide LogOk, KeysOk, DepsOk, WorkflowsOk, StatusesOk, TasksOk, StatusCodeTaken, ClearStatusDefaults;
    var base := if status.isDefault then ClearStatusDefaults(db.statuses, status.projectId) else db.statuses;
    ClearKeepsStatuses(db.projects, db.statuses, status.projectId);
    DefaultStaysSingle(db.projects, base, id, status.(deleted := false));
    StatusWriteKeepsInv(db, base[id := status.(deleted := false)]);
  }

  lemma PatchedKeeps(s: Status, patch: StatusPatch)
    ensures Patched(s, patch).projectId == s.projectId && Patched(s, patch).deleted == s.deleted
    ensures Patched(s, patch).isDefault == Or(patch.isDefault, s.isDefault)
  {
  }

  lemma UpdateStatusKeepsInv(db: Db, id: Id, patch: StatusPatch)
    requires Inv(db) && UpdateStatus(db, id, patch).Success?
    ensures Inv(UpdateStatus(db, id, patch).value)
  {
    hide LogOk, KeysOk, DepsOk, WorkflowsOk, StatusesOk, TasksOk, StatusCodeTaken, Patched, ClearStatusDefaults;
    var p := db.statuses[id].projectId;
    assert id in db.statuses && LiveProject(db, p);
    var base := if patch.isDefault == Some(true) then ClearStatusDefaults(db.statuses, p) else db.statuses;
    ClearKeepsStatuses(db.projects, db.statuses, p);
    PatchedKeeps(base[id], patch);
    DefaultStaysSingle(db.projects, base, id, Patched(base[id], patch));
    StatusWriteKeepsInv(db, base[id := Patched(base[id], patch)]);
  }

  lemma DeleteStatusKeepsInv(db: Db, id: Id)
    requires Inv(db) && DeleteStatus(db, id).Success?
    ensures Inv(DeleteStatus(db, id).value)
  {
    hide LogOk, KeysOk, DepsOk, WorkflowsOk;
    StatusWriteKeepsInv(db, DeleteStatus(db, id).value.statuses);
  }

  lemma WorkflowRequestKeepsInv(db: Db, w: Workflow)
    requires Inv(db) && CreateWorkflow(db, w).Success?
    ensures Inv(CreateWorkflow(db, w).value)
  {
    hide LogOk, KeysOk, DepsOk, TasksOk, StatusesOk;
  }

  lemma DeleteTaskKeepsInv(db: Db, t: Id)
    requires Inv(db) && DeleteTask(db, t).Success?
    ensures Inv(DeleteTask(db, t).value)
  {
    assert TaskOk(db.statuses, t, db.tasks[t]);
    TaskWriteKeepsInv(db, DeleteTask(db, t).value, t);
  }

  // The tables a bulk request may change, and for which tasks.
  ghost predicate OnlyWritten(db: Db, after: Db, ids: seq<Id>) {
    && after.tasks.Keys == db.tasks.Keys
    && after == db.(tasks := after.tasks, log := after.log)
    && forall t | t in db.tasks && t !in ids :: after.tasks[t] == db.tasks[t]
  }

  lemma StoredParent(db: Db, t: Id)
    requires Inv(db) && t in db.tasks
    ensures ParentOk(db.tasks, t, db.tasks[t].projectId, db.tasks[t].fields.parentTaskId)
  {
  }

  lemma BulkOneKeepsInv(db: Db, t: Id, target: Option<Id>, edit: BulkEdit, now: int)
    requires Inv(db) && LiveTask(db, t)
    requires target.Some? ==> StatusInProject(db, db.tasks[t].projectId, target.value)
    requires BulkOne(db, t, target, edit, now).Success?
    ensures Inv(BulkOne(db, t, target, edit, now).value)
    ensures OnlyWritten(db, BulkOne(db, t, target, edit, now).value, [t])
  {
    hide Inv;
    if target.Some? {
      MoveKeepsInv(db, t, target.value, now);
      StoredParent(db, t);
      MoveKeepsParents(db, t, target.value, now, db.tasks[t].fields.parentTaskId);
      SetFieldsKeepsInv(Move(db, t, target.value, now), t, Edited(db.tasks[t].fields, edit, now));
    } else {
      StoredParent(db, t);
      SetFieldsKeepsInv(db, t, Edited(db.tasks[t].fields, edit, now));
    }
  }

  ghost predicate BulkReady(db: Db, ids: seq<Id>, target: Option<Id>) {
    && Distinct(ids)
    && forall t | t in ids ::
         && LiveTask(db, t)
         && (target.Some? ==> StatusInProject(db, db.tasks[t].projectId, target.value))
  }

  /** The loop of a bulk request keeps the invariant and writes only the named tasks. */
  lemma {:induction false} BulkAllKeepsInv(db: Db, ids: seq<Id>, target: Option<Id>, edit: BulkEdit, now: int)
    requires Inv(db) && BulkReady(db, ids, target) && BulkAll(db, ids, target, edit, now).Success?
    ensures Inv(BulkAll(db, ids, target, edit, now).value)
    ensures OnlyWritten(db, BulkAll(db, ids, target, edit, now).value, ids)
  {
    hide Inv;
    if ids != [] {
      var init, last := ids[..|ids| - 1], ids[|ids| - 1];
      assert ids == init + [last];
      BulkAllKeepsInv(db, init, target, edit, now);
      var before := BulkAll(db, init, target, edit, now).value;
      assert last in ids && last !in init;
      assert before.tasks[last] == db.tasks[last];
      BulkOneKeepsInv(before, last, target, edit, now);
    }
  }

  // The row of a named task after a bulk request.
  ghost predicate BulkWritten(before: Task, after: Task, target: Option<Id>, edit: BulkEdit, now: int) {
    && after == before.(statusId := after.statusId, reopenedCount := after.reopenedCount, fields := after.fields)
    && after.statusId == Or(target, before.statusId)
    && after.fields == Edited(before.fields, edit, now)
  }

  lemma BulkOneWrites(db: Db, t: Id, target: Option<Id>, edit: BulkEdit, now: int)
    requires BulkOne(db, t, target, edit, now).Success?
    ensures var after := BulkOne(db, t, target, edit, now).value;
            && t in db.tasks && t in after.tasks
                 && after == db.(tasks := db.tasks[t := after.tasks[t]], log := after.log)
            && BulkWritten(db.tasks[t], after.tasks[t], target, edit, now)
  {
    hide TransitionAllowed;
  }

  /** A successful bulk loop gives every named task the target status, the shifted due date and the
      assignee, and leaves every other task alone. */
  lemma {:induction false} BulkAllWrites(db: Db, ids: seq<Id>, target: Option<Id>, edit: BulkEdit, now: int)
    requires Distinct(ids) && BulkAll(db, ids, target, edit, now).Success?
    ensures var after := BulkAll(db, ids, target, edit, now).value;
            && OnlyWritten(db, after, ids)
            && forall t | t in ids :: t in db.tasks && BulkWritten(db.tasks[t], after.tasks[t], target, edit, now)
  {
    hide BulkOne, BulkWritten;
    if ids != [] {
      var init, last := ids[..|ids| - 1], ids[|ids| - 1];
      assert ids == init + [last] && last !in init;
      BulkAllWrites(db, init, target, edit, now);
      BulkOneWrites(BulkAll(db, init, target, edit, now).value, last, target, edit, now);
    }
  }

  ghost predicate AllMayMove(db: Db, ids: seq<Id>, target: Option<Id>) {
    target.Some? ==> forall t | t in ids && t in db.tasks ::
      TransitionAllowed(db, db.tasks[t].projectId, db.tasks[t].statusId, target.value)
  }

  lemma SelectedSame(db: Db, other: Db)
    requires other.workflows == db.workflows
    ensures forall p, a, b :: TransitionAllowed(other, p, a, b) == TransitionAllowed(db, p, a, b)
  {
  }

  lemma BulkOneSucceedsIff(db: Db, t: Id, target: Option<Id>, edit: BulkEdit, now: int)
    requires Inv(db) && LiveTask(db, t)
    requires target.Some? ==> StatusInProject(db, db.tasks[t].projectId, target.value)
    ensures BulkOne(db, t, target, edit, now).Success?
       <==> (target.Some? ==> TransitionAllowed(db, db.tasks[t].projectId, db.tasks[t].statusId, target.value))
  {
    hide TransitionAllowed, KeysOk, LogOk, DepsOk, WorkflowsOk, StatusesOk;
    assert TaskOk(db.statuses, t, db.tasks[t]);
  }

  /** The loop succeeds exactly when every task may move to the target from the status it had before
      the request: the iterations do not get in each other's way. */
  lemma {:induction false} BulkAllSucceedsIff(db: Db, ids: seq<Id>, target: Option<Id>, edit: BulkEdit, now: int)
    requires Inv(db) && BulkReady(db, ids, target)
    ensures BulkAll(db, ids, target, edit, now).Success? <==> AllMayMove(db, ids, target)
  {
    hide Inv, TransitionAllowed, BulkOne;
    if ids != [] {
      var init, last := ids[..|ids| - 1], ids[|ids| - 1];
      assert ids == init + [last] && last !in init && last in ids;
      BulkAllSucceedsIff(db, init, target, edit, now);
      if BulkAll(db, init, target, edit, now).Success? {
        BulkAllKeepsInv(db, init, target, edit, now);
        var before := BulkAll(db, init, target, edit, now).value;
        SelectedSame(db, before);
        BulkOneSucceedsIff(before, last, target, edit, now);
      }
    }
  }

  lemma {:induction false} SetWithin<T>(xs: set<T>, s: seq<T>)
    requires forall x | x in xs :: x in s
    ensures |xs| <= |s|
  {
    if s != [] {
      forall x | x in xs - {s[0]}
        ensures x in s[1..]
      {
        var i :| 0 <= i < |s| && s[i] == x;
        assert s[1..][i - 1] == x;
      }
      SetWithin(xs - {s[0]}, s[1..]);
    } else {
      assert xs == {};
    }
  }

  lemma SkipOne<T>(xs: set<T>, s: seq<T>, k: nat)
    requires k < |s| && forall x | x in xs :: exists i :: 0 <= i < |s| && i != k && s[i] == x
    ensures |xs| < |s|
  {
    var rest := s[..k] + s[k + 1..];
    forall x | x in xs
      ensures x in rest
    {
      var i :| 0 <= i < |s| && i != k && s[i] == x;
      assert rest[if i < k then i else i - 1] == x;
    }
    SetWithin(xs, rest);
  }

  /** As many live tasks found as ids given: the ids are distinct and all live. */
  lemma CountMeansAllLive(db: Db, ids: seq<Id>)
    requires |set t | t in ids && LiveTask(db, t)| == |ids|
    ensures Distinct(ids) && forall t | t in ids :: LiveTask(db, t)
  {
    var live := set t | t in ids && LiveTask(db, t);
    forall i, j | 0 <= i < j < |ids|
      ensures ids[i] != ids[j]
    {
      if ids[i] == ids[j] {
        forall x | x in live
          ensures exists k :: 0 <= k < |ids| && k != j && ids[k] == x
        {
          var k :| 0 <= k < |ids| && ids[k] == x;
          assert ids[if k == j then i else k] == x;
        }
        SkipOne(live, ids, j);
      }
    }
    forall k | 0 <= k < |ids|
      ensures LiveTask(db, ids[k])
    {
      if !LiveTask(db, ids[k]) {
        SkipOne(live, ids, k);
      }
    }
  }

  // In an accepted bulk request the target is a live status of every task's project.
  lemma BulkIsReady(db: Db, ids: seq<Id>, assign: Assignment, statusId: Option<Id>, days: Option<int>, now: int)
    requires Bulk(db, ids, assign, statusId, days, now).Success?
    ensures BulkReady(db, ids, if Given(statusId) then statusId else None)
  {
    CountMeansAllLive(db, ids);
    if Given(statusId) {
      var projectIds := set t | t in ids && LiveTask(db, t) :: db.tasks[t].projectId;
      forall t | t in ids
        ensures StatusInProject(db, db.tasks[t].projectId, statusId.value)
      {
        assert db.tasks[t].projectId in projectIds;
      }
    }
  }

  /** What a bulk request may be asked: distinct live tasks of live projects and, for a status, one project
      that has it live and a workflow that lets every task move. */
  ghost predicate BulkAcceptable(db: Db, ids: seq<Id>, statusId: Option<Id>) {
    && |ids| > 0 && Distinct(ids)
    && (forall t | t in ids :: LiveTask(db, t) && LiveProject(db, db.tasks[t].projectId))
    && (Given(statusId) ==> forall t | t in ids ::
          && StatusInProject(db, db.tasks[t].projectId, statusId.value)
          && TransitionAllowed(db, db.tasks[t].projectId, db.tasks[t].statusId, statusId.value))
  }

  /** Distinct live ids are all found. */
  lemma AllLiveMeansCount(db: Db, ids: seq<Id>)
    requires Distinct(ids) && forall t | t in ids :: LiveTask(db, t)
    ensures |set t | t in ids && LiveTask(db, t)| == |ids|
  {
    var live := set t | t in ids && LiveTask(db, t);
    DistinctCount(ids, live);
    SetWithin(live, ids);
  }

  lemma OneProject(db: Db, ids: seq<Id>, statusId: Id)
    requires |ids| > 0 && forall t | t in ids :: LiveTask(db, t) && StatusInProject(db, db.tasks[t].projectId, statusId)
    ensures |set t | t in ids && LiveTask(db, t) :: db.tasks[t].projectId| == 1
  {
    var p := db.statuses[statusId].projectId;
    assert ids[0] in ids;
    assert (set t | t in ids && LiveTask(db, t) :: db.tasks[t].projectId) == {p};
  }

  /** A bulk request is accepted exactly when it asks for something, its assignee is not refused and its
      tasks are acceptable. */
  lemma BulkAcceptedIff(db: Db, ids: seq<Id>, assign: Assignment, statusId: Option<Id>, days: Option<int>, now: int)
    requires Inv(db)
    ensures Bulk(db, ids, assign, statusId, days, now).Success?
       <==> && (Given(assign.to) || Given(statusId) || days.Some?)
            && (Given(assign.to) ==> assign.refusal.None?) && BulkAcceptable(db, ids, statusId)
  {
    hide Inv, TransitionAllowed, BulkAll, Distinct, StatusInProject, LiveProject;
    var target := if Given(statusId) then statusId else None;
    var projectIds := set t | t in ids && LiveTask(db, t) :: db.tasks[t].projectId;
    assert forall t | t in ids && LiveTask(db, t) :: db.tasks[t].projectId in projectIds;
    if |set t | t in ids && LiveTask(db, t)| == |ids| {
      CountMeansAllLive(db, ids);
    }
    if Distinct(ids) && forall t | t in ids :: LiveTask(db, t) {
      AllLiveMeansCount(db, ids);
    }
    if BulkReady(db, ids, target) {
      BulkAllSucceedsIff(db, ids, target, EditOf(assign, days), now);
      if Given(statusId) && |ids| > 0 {
        OneProject(db, ids, statusId.value);
      }
    }
    if Bulk(db, ids, assign, statusId, days, now).Success? {
      BulkIsReady(db, ids, assign, statusId, days, now);
    }
  }

  lemma BulkKeepsInv(db: Db, ids: seq<Id>, assign: Assignment, statusId: Option<Id>, days: Option<int>, now: int)
    requires Inv(db) && Bulk(db, ids, assign, statusId, days, now).Success?
    ensures Inv(Bulk(db, ids, assign, statusId, days, now).value)
  {
    hide Inv;
    BulkIsReady(db, ids, assign, statusId, days, now);
    BulkAllKeepsInv(db, ids, if Given(statusId) then statusId else None, EditOf(assign, days), now);
  }

  /** On stored graphs the search answers exactly reachability: ids are never empty. */
  lemma SearchIsExact(db: Db, t: Id, d: Id)
    requires Inv(db) && t in db.tasks && d in db.tasks
    ensures ClosesCycle(Edges(db.deps), t, d) <==> Reach(Edges(db.deps), d, t)
  {
    var edges := Edges(db.deps);
    assert TaskOk(db.statuses, d, db.tasks[d]);
    forall p | Walk(edges, p) && p[0] == d
      ensures p[|p| - 1] in db.tasks
    {
      if |p| >= 2 {
        assert Hop(edges, p, |p| - 2);
        var row :| row in db.deps && row.edge == Edge(p[|p| - 2], p[|p| - 1]);
        assert DependencyOk(db.tasks, row);
      }
    }
    assert forall t | t in db.tasks :: TaskOk(db.statuses, t, db.tasks[t]);
    SearchExactIff(edges, d);
  }

  lemma CreateDependencyKeepsInv(db: Db, id: NewId, t: Id, d: Id)
    requires Inv(db) && CreateDependency(db, id, t, d).Success?
    ensures Inv(CreateDependency(db, id, t, d).value)
  {
    hide LogOk, KeysOk, TasksOk, WorkflowsOk;
    var after := CreateDependency(db, id, t, d).value;
    SearchIsExact(db, t, d);
    AddEdgeAcyclicIff(Edges(db.deps), t, d);
    assert Edges(after.deps) == Edges(db.deps) + {Edge(t, d)};
  }

  lemma DeleteDependencyKeepsInv(db: Db, t: Id, id: Id)
    requires Inv(db) && DeleteDependency(db, t, id).Success?
    ensures Inv(DeleteDependency(db, t, id).value)
  {
    hide LogOk, KeysOk, TasksOk, WorkflowsOk, StatusesOk;
    AcyclicSubset(Edges(Without(db.deps, id)), Edges(db.deps));
  }

  lemma CreateTaskKeepsInv(db: Db, id: NewId, p: Id, s: Id, patch: FieldsPatch, lookups: Lookups, now: int)
    requires Inv(db) && CreateTask(db, id, p, s, patch, lookups, now).Success?
    ensures Inv(CreateTask(db, id, p, s, patch, lookups, now).value)
  {
    hide Inv, CheckFields, Overlaid;
    CheckedParent(db, None, id, p, NO_FIELDS, patch, lookups);
    InsertKeepsInv(db, id, p, s, Overlaid(NO_FIELDS, patch), None, now);
  }

  // Requests that write no task row at all.
  ghost predicate LeavesTasks(r: Request) {
    || r.CreateProjectRequest? || r.DeleteProjectRequest? || r.CreateStatusRequest? || r.UpdateStatusRequest?
    || r.DeleteStatusRequest? || r.CreateWorkflowRequest? || r.CreateDependencyRequest? || r.DeleteDependencyRequest?
  }

  lemma TasksUntouched(db: Db, r: Request, now: int)
    requires LeavesTasks(r)
    ensures Step(db, r, now).tasks == db.tasks
  {
    hide CheckFields, Overlaid, ClosesCycle, StatusCodeTaken, StatusInProject, ClearStatusDefaults,
      ClearWorkflowDefaults, Edges, Without, Patched, Bulk, Generate, CreateTask, UpdateTask, ChangeStatus,
      DeleteTask, MarkByMessage;
  }

  /** Every request, successful or refused, keeps the whole invariant. */
  lemma StepKeepsInv(db: Db, r: Request, now: int)
    requires Inv(db)
    ensures Inv(Step(db, r, now))
  {
    hide Inv;
    if Apply(db, r, now).Success? {
      match r {
        case CreateProjectRequest(id, code) => CreateProjectKeepsInv(db, id, code);
        case DeleteProjectRequest(p) => DeleteProjectKeepsInv(db, p);
        case CreateStatusRequest(id, status) => CreateStatusKeepsInv(db, id, status);
        case UpdateStatusRequest(id, patch) => UpdateStatusKeepsInv(db, id, patch);
        case DeleteStatusRequest(id) => DeleteStatusKeepsInv(db, id);
        case CreateWorkflowRequest(w) => WorkflowRequestKeepsInv(db, w);
        case DeleteTaskRequest(t) => DeleteTaskKeepsInv(db, t);
        case CreateDependencyRequest(id, t, d) => CreateDependencyKeepsInv(db, id, t, d);
        case DeleteDependencyRequest(t, id) => DeleteDependencyKeepsInv(db, t, id);
        case BulkRequest(ids, assign, target, days) => BulkKeepsInv(db, ids, assign, target, days, now);
        case CreateTaskRequest(id, p, s, fields, lookups) => CreateTaskKeepsInv(db, id, p, s, fields, lookups, now);
        case GenerateRequest(id, p, wanted, pick, content, template) =>
          InsertKeepsInv(db, id, p, ResolveStatus(db, p, wanted, pick).value, FieldsOf(content), Some(template), now);
        case UpdateTaskRequest(t, s, fields, lookups) => UpdateTaskKeepsInv(db, t, s, fields, lookups, now);
        case ChangeStatusRequest(t, s, loc, selfie) => MoveKeepsInv(db, t, s, now);
        case MarkRequest(t, sender, done, pick) => MarkKeepsInv(db, t, sender, done, pick);
      }
    }
  }

  /** The invariant holds in every state any run of requests can reach. */
  lemma {:induction false} RunKeepsInv(db: Db, rs: seq<Timed>)
    requires Inv(db)
    ensures Inv(Run(db, rs))
  {
    hide Inv;
    if rs != [] {
      RunKeepsInv(db, rs[..|rs| - 1]);
      StepKeepsInv(Run(db, rs[..|rs| - 1]), rs[|rs| - 1].request, rs[|rs| - 1].now);
    }
  }
}
