/**
  Tables and request semantics of the task engine: projects, statuses,
  workflows, tasks, the status transition log and the dependency table.

  Each request is one atomic step. A function named after a request gives the
  tables after it, or the error that leaves them untouched.
*/
module TaskModel {
  import opened Common
  import opened DependencyGraph
  import Calendar
  import Keys

  const FIRST_TASK_SEQUENCE := 101

  /** Ids come from the id generator, which never returns the empty string. */
  type NewId = s: string | s != "" witness "c"

  datatype Project = Project(code: string, nextTaskSequence: nat, deleted: bool)

  datatype Status = Status(
    projectId: Id, code: string, position: int, isDone: bool,
    requiresLocation: bool, requiresSelfie: bool, isDefault: bool, deleted: bool)

  datatype Workflow = Workflow(projectId: Id, name: string, isDefault: bool, transitions: seq<(Id, Id)>)

  /** The fields of a task that carry no rule of their own but the parent's; `texts` holds title,
      description, estimate, priority, tags and references by name. */
  datatype Fields = Fields(
    assigneeId: Option<Id>, milestoneId: Option<Id>, parentTaskId: Option<Id>,
    dueDate: Option<int>, texts: map<string, string>)

  const NO_FIELDS := Fields(None, None, None, None, map[])

  datatype Task = Task(
    projectId: Id, statusId: Id, key: string, reopenedCount: nat,
    fields: Fields, templateId: Option<Id>, createdAt: int, deleted: bool)

  datatype Transition = Transition(taskId: Id, fromStatusId: Option<Id>, toStatusId: Id, enteredAt: int)

  datatype Dependency = Dependency(id: Id, projectId: Id, edge: Edge)

  /** `workflows` is in creation order. */
  datatype Db = Db(
    projects: map<Id, Project>,
    statuses: map<Id, Status>,
    workflows: seq<Workflow>,
    tasks: map<Id, Task>,
    log: seq<Transition>,
    deps: seq<Dependency>)

  const EMPTY_DB := Db(map[], map[], [], map[], [], [])

  // -------------------------------------------------------------- queries

  predicate LiveProject(db: Db, p: Id) {
    p in db.projects && !db.projects[p].deleted
  }

  predicate LiveTask(db: Db, t: Id) {
    t in db.tasks && !db.tasks[t].deleted
  }

  predicate TaskInProject(db: Db, p: Id, t: Id) {
    LiveTask(db, t) && db.tasks[t].projectId == p
  }

  predicate StatusInProject(db: Db, p: Id, s: Id) {
    s in db.statuses && db.statuses[s].projectId == p && !db.statuses[s].deleted
  }

  function FirstWorkflow(ws: seq<Workflow>, p: Id, onlyDefault: bool): Option<Workflow> {
    if ws == [] then None
    else if ws[0].projectId == p && (onlyDefault ==> ws[0].isDefault) then Some(ws[0])
    else FirstWorkflow(ws[1..], p, onlyDefault)
  }

  /** The workflow a transition is checked against: a default one first, then the oldest. */
  function SelectedWorkflow(db: Db, p: Id): Option<Workflow> {
    var d := FirstWorkflow(db.workflows, p, true);
    if d.Some? then d else FirstWorkflow(db.workflows, p, false)
  }

  predicate TransitionAllowed(db: Db, p: Id, from: Id, to: Id) {
    from == to || match SelectedWorkflow(db, p)
                  case None => true
                  case Some(w) => (from, to) in w.transitions
  }

  /** An id a request treats as given: present and not the empty string. */
  predicate Given(id: Option<Id>) {
    id.Some? && id.value != ""
  }

  function Edges(deps: seq<Dependency>): set<Edge> {
    set d | d in deps :: d.edge
  }

  function Rows(deps: seq<Dependency>): (r: seq<Edge>)
    ensures |r| == |deps| && forall i | 0 <= i < |r| :: r[i] == deps[i].edge
    ensures EdgeSet(r) == Edges(deps)
  {
    var r := seq(|deps|, i requires 0 <= i < |deps| => deps[i].edge);
    assert EdgeSet(r) == Edges(deps) by {
      forall e | e in EdgeSet(r)
        ensures e in Edges(deps)
      {
        var i :| 0 <= i < |r| && r[i] == e;
        assert deps[i] in deps;
      }
      forall d | d in deps
        ensures d.edge in EdgeSet(r)
      {
        var i :| 0 <= i < |deps| && deps[i] == d;
        assert r[i] == d.edge;
      }
    }
    r
  }

  /** The rows of one task in the transition log, oldest first. */
  function History(log: seq<Transition>, t: Id): seq<Transition> {
    if log == [] then []
    else
      var rest := History(log[..|log| - 1], t);
      if log[|log| - 1].taskId == t then rest + [log[|log| - 1]] else rest
  }

  // ------------------------------------------------------ primitive writes

  /** Allocate the next key of the project, insert the task and log its first status. */
  ghost function InsertTask(db: Db, id: NewId, p: Id, s: Id, fields: Fields, templateId: Option<Id>,
      now: int): Result<Db>
    requires p in db.projects
  {
    var project := db.projects[p];
    var key := Keys.TaskKey(project.code, project.nextTaskSequence);
    if id in db.tasks || exists t :: t in db.tasks && db.tasks[t].key == key then Failure(Conflict)
    else Success(db.(
      projects := db.projects[p := project.(nextTaskSequence := project.nextTaskSequence + 1)],
      tasks := db.tasks[id := Task(p, s, key, 0, fields, templateId, now, false)],
      log := db.log + [Transition(id, None, s, now)]))
  }

  /** Put a task into a status; only an actual change is counted and logged. */
  ghost function Move(db: Db, t: Id, to: Id, now: int): Db
    requires t in db.tasks && db.tasks[t].statusId in db.statuses && to in db.statuses
  {
    var task := db.tasks[t];
    if task.statusId == to then db
    else
      var reopened := if db.statuses[task.statusId].isDone && !db.statuses[to].isDone then 1 else 0;
      db.(tasks := db.tasks[t := task.(statusId := to, reopenedCount := task.reopenedCount + reopened)],
          log := db.log + [Transition(t, Some(task.statusId), to, now)])
  }

  ghost function SetFields(db: Db, t: Id, fields: Fields): Db
    requires t in db.tasks
  {
    db.(tasks := db.tasks[t := db.tasks[t].(fields := fields)])
  }

  /** What a bulk request writes to the fields of its tasks. */
  datatype BulkEdit = BulkEdit(days: Option<int>, assignee: Option<Id>)

  function Or<T>(o: Option<T>, d: T): T {
    if o.Some? then o.value else d
  }

  function Edited(f: Fields, edit: BulkEdit, now: int): Fields {
    f.(dueDate := if edit.days.None? then f.dueDate else Some(Or(f.dueDate, now) + edit.days.value * Calendar.DAY_MS),
       assigneeId := if edit.assignee.Some? then edit.assignee else f.assigneeId)
  }

  // ----------------------------------------------------------- field patches

  /** What a request says of one field: nothing, null, or a value. */
  datatype Patch<T> = Keep | Clear | Set(value: T)

  /** A reference is looked up, and written, only when it is not the empty string. */
  predicate Names(p: Patch<Id>) {
    p.Set? && p.value != ""
  }

  function Refer(before: Option<Id>, p: Patch<Id>): Option<Id> {
    if p.Clear? then None else if Names(p) then Some(p.value) else before
  }

  datatype FieldsPatch = FieldsPatch(
    assignee: Patch<Id>, milestone: Patch<Id>, parent: Patch<Id>, dueDate: Patch<int>, texts: map<string, string>)

  function Overlaid(f: Fields, patch: FieldsPatch): Fields {
    Fields(
      Refer(f.assigneeId, patch.assignee), Refer(f.milestoneId, patch.milestone), Refer(f.parentTaskId, patch.parent),
      match patch.dueDate case Keep => f.dueDate case Clear => None case Set(d) => Some(d),
      f.texts + patch.texts)
  }

  /** The answers of the lookups outside these tables: why the assignee is refused, if so, and whether
      the milestone is one of the project. */
  datatype Lookups = Lookups(assigneeRefusal: Option<Error>, milestoneOk: bool)

  /** The checks of assignee, milestone and parent; `t` is the task itself when it already exists. */
  ghost function CheckFields(db: Db, t: Option<Id>, p: Id, patch: FieldsPatch, lookups: Lookups): Result<()> {
    if Names(patch.assignee) && lookups.assigneeRefusal.Some? then Failure(lookups.assigneeRefusal.value)
    else
      var _ :- Check(Names(patch.milestone) ==> lookups.milestoneOk, BadRequest);
      Check(Names(patch.parent) ==>
          Some(patch.parent.value) != t && TaskInProject(db, p, patch.parent.value), BadRequest)
  }

  ghost function ClearStatusDefaults(statuses: map<Id, Status>, p: Id): map<Id, Status> {
    map s | s in statuses ::
      if statuses[s].projectId == p then statuses[s].(isDefault := false) else statuses[s]
  }

  ghost function ClearWorkflowDefaults(ws: seq<Workflow>, p: Id): seq<Workflow> {
    seq(|ws|, i requires 0 <= i < |ws| =>
      if ws[i].projectId == p then ws[i].(isDefault := false) else ws[i])
  }

  // ------------------------------------------------------------- requests

  ghost function CreateProject(db: Db, id: NewId, code: string): Result<Db> {
    var _ :- Check(code != "", BadRequest);
    var _ :- Check(id !in db.projects && !exists p :: p in db.projects && db.projects[p].code == code, BadRequest);
    Success(db.(projects := db.projects[id := Project(code, FIRST_TASK_SEQUENCE, false)]))
  }

  ghost function DeleteProject(db: Db, p: Id): Result<Db> {
    var _ :- Check(LiveProject(db, p), NotFound);
    Success(db.(projects := db.projects[p := db.projects[p].(deleted := true)]))
  }

  predicate StatusCodeTaken(db: Db, p: Id, code: string, except: Id) {
    exists s :: s in db.statuses && s != except && db.statuses[s].projectId == p && db.statuses[s].code == code
  }

  ghost function CreateStatus(db: Db, id: NewId, status: Status): Result<Db> {
    var _ :- Check(LiveProject(db, status.projectId), NotFound);
    var _ :- Check(id !in db.statuses && !StatusCodeTaken(db, status.projectId, status.code, id), Conflict);
    var statuses := if status.isDefault then ClearStatusDefaults(db.statuses, status.projectId) else db.statuses;
    Success(db.(statuses := statuses[id := status.(deleted := false)]))
  }

  /** The fields of a status that an update may set; an absent field keeps its value. */
  datatype StatusPatch = StatusPatch(
    code: Option<string>, position: Option<int>, isDone: Option<bool>,
    requiresLocation: Option<bool>, requiresSelfie: Option<bool>, isDefault: Option<bool>)

  function Patched(s: Status, patch: StatusPatch): Status {
    s.(code := Or(patch.code, s.code), position := Or(patch.position, s.position),
       isDone := Or(patch.isDone, s.isDone),
       requiresLocation := Or(patch.requiresLocation, s.requiresLocation),
       requiresSelfie := Or(patch.requiresSelfie, s.requiresSelfie),
       isDefault := Or(patch.isDefault, s.isDefault))
  }

  ghost function UpdateStatus(db: Db, id: Id, patch: StatusPatch): Result<Db> {
    var _ :- Check(id in db.statuses && !db.statuses[id].deleted, NotFound);
    var p := db.statuses[id].projectId;
    var _ :- Check(LiveProject(db, p), NotFound);
    var _ :- Check(patch.code.Some? ==> !StatusCodeTaken(db, p, patch.code.value, id), Conflict);
    var statuses := if patch.isDefault == Some(true) then ClearStatusDefaults(db.statuses, p) else db.statuses;
    Success(db.(statuses := statuses[id := Patched(statuses[id], patch)]))
  }

  ghost function DeleteStatus(db: Db, id: Id): Result<Db> {
    var _ :- Check(id in db.statuses && !db.statuses[id].deleted, NotFound);
    var _ :- Check(LiveProject(db, db.statuses[id].projectId), NotFound);
    var _ :- Check(!exists t :: t in db.tasks && !db.tasks[t].deleted && db.tasks[t].statusId == id, BadRequest);
    Success(db.(statuses := db.statuses[id := db.statuses[id].(deleted := true)]))
  }

  ghost function CreateWorkflow(db: Db, w: Workflow): Result<Db> {
    var _ :- Check(LiveProject(db, w.projectId), NotFound);
    var _ :- Check(forall e | e in w.transitions ::
                     StatusInProject(db, w.projectId, e.0) && StatusInProject(db, w.projectId, e.1), BadRequest);
    var _ :- Check(!exists v :: v in db.workflows && v.projectId == w.projectId && v.name == w.name, Conflict);
    var _ :- Check(|set e | e in w.transitions| == |w.transitions|, Conflict);
    var ws := if w.isDefault then ClearWorkflowDefaults(db.workflows, w.projectId) else db.workflows;
    Success(db.(workflows := ws + [w]))
  }

  ghost function CreateTask(db: Db, id: NewId, p: Id, s: Id, patch: FieldsPatch, lookups: Lookups, now: int): Result<Db>
  {
    var _ :- Check(LiveProject(db, p), NotFound);
    var _ :- Check(StatusInProject(db, p, s), BadRequest);
    var _ :- CheckFields(db, None, p, patch, lookups);
    InsertTask(db, id, p, s, Overlaid(NO_FIELDS, patch), None, now)
  }

  ghost function UpdateTask(db: Db, t: Id, statusId: Option<Id>, patch: FieldsPatch, lookups: Lookups,
      now: int): Result<Db>
  {
    var _ :- Check(LiveTask(db, t), NotFound);
    var task := db.tasks[t];
    var _ :- Check(Given(statusId) ==> StatusInProject(db, task.projectId, statusId.value), BadRequest);
    var _ :- CheckFields(db, Some(t), task.projectId, patch, lookups);
    if !Given(statusId) then
      // An empty status id skips validation and is then refused by the foreign key.
      if statusId.None? then Success(SetFields(db, t, Overlaid(task.fields, patch))) else Failure(DatabaseError)
    else
      var _ :- Check(TransitionAllowed(db, task.projectId, task.statusId, statusId.value), BadRequest);
      var target := db.statuses[statusId.value];
      var _ :- Check(!target.requiresLocation && !target.requiresSelfie, BadRequest);
      var _ :- Check(task.statusId in db.statuses, DatabaseError);
      Success(SetFields(Move(db, t, statusId.value, now), t, Overlaid(task.fields, patch)))
  }

  /** `selfie`: no attachment named, or an attachment and whether it is one of the task. */
  ghost function ChangeStatus(db: Db, t: Id, to: Id, hasLocation: bool, selfie: Option<bool>, now: int): Result<Db> {
    var _ :- Check(LiveTask(db, t), NotFound);
    var task := db.tasks[t];
    var _ :- Check(StatusInProject(db, task.projectId, to), BadRequest);
    var _ :- Check(TransitionAllowed(db, task.projectId, task.statusId, to), BadRequest);
    var target := db.statuses[to];
    var _ :- Check(target.requiresLocation ==> hasLocation, BadRequest);
    var _ :- Check(target.requiresSelfie ==> selfie.Some?, BadRequest);
    var _ :- Check(selfie != Some(false), BadRequest);
    var _ :- Check(task.statusId in db.statuses, DatabaseError);
    Success(Move(db, t, to, now))
  }

  ghost function DeleteTask(db: Db, t: Id): Result<Db> {
    var _ :- Check(LiveTask(db, t), NotFound);
    Success(db.(tasks := db.tasks[t := db.tasks[t].(deleted := true)]))
  }

  /** One task of a bulk request, inside its transaction. */
  ghost function BulkOne(db: Db, t: Id, target: Option<Id>, edit: BulkEdit, now: int): Result<Db> {
    var _ :- Check(t in db.tasks, DatabaseError);
    var task := db.tasks[t];
    if target.None? then Success(SetFields(db, t, Edited(task.fields, edit, now)))
    else
      var _ :- Check(TransitionAllowed(db, task.projectId, task.statusId, target.value), BadRequest);
      var _ :- Check(task.statusId in db.statuses && target.value in db.statuses, DatabaseError);
      Success(SetFields(Move(db, t, target.value, now), t, Edited(task.fields, edit, now)))
  }

  ghost function BulkAll(db: Db, ids: seq<Id>, target: Option<Id>, edit: BulkEdit, now: int): Result<Db> {
    if ids == [] then Success(db)
    else
      var before :- BulkAll(db, ids[..|ids| - 1], target, edit, now);
      BulkOne(before, ids[|ids| - 1], target, edit, now)
  }

  /** The assignee a bulk request names, if any, and why the lookup refuses it, if so. */
  datatype Assignment = Assignment(to: Option<Id>, refusal: Option<Error>)

  function EditOf(assign: Assignment, days: Option<int>): BulkEdit {
    BulkEdit(days, if Given(assign.to) then assign.to else None)
  }

  ghost function Bulk(db: Db, ids: seq<Id>, assign: Assignment, statusId: Option<Id>, days: Option<int>,
      now: int): Result<Db>
  {
    var _ :- Check(Given(assign.to) || Given(statusId) || days.Some?, BadRequest);
    var _ :- Check(|set t | t in ids && LiveTask(db, t)| == |ids|, NotFound);
    var projectIds := set t | t in ids && LiveTask(db, t) :: db.tasks[t].projectId;
    var _ :- Check(|ids| > 0, NotFound);
    var _ :- Check(forall p | p in projectIds :: LiveProject(db, p), NotFound);
    var _ :- Check(Given(statusId) ==> |projectIds| <= 1, BadRequest);
    if Given(assign.to) && assign.refusal.Some? then Failure(assign.refusal.value)
    else if !Given(statusId) then BulkAll(db, ids, None, EditOf(assign, days), now)
    else
      var _ :- Check(forall p | p in projectIds :: StatusInProject(db, p, statusId.value), BadRequest);
      BulkAll(db, ids, statusId, EditOf(assign, days), now)
  }

  ghost function CreateDependency(db: Db, id: NewId, t: Id, dependsOn: Id): Result<Db> {
    var _ :- Check(LiveTask(db, t) && LiveTask(db, dependsOn), NotFound);
    var p := db.tasks[t].projectId;
    var _ :- Check(p == db.tasks[dependsOn].projectId, BadRequest);
    CreateDependencyIfAcyclic(db, id, p, t, dependsOn)
  }

  // The part of the request after the access checks.
  ghost function CreateDependencyIfAcyclic(db: Db, id: NewId, p: Id, t: Id, dependsOn: Id): Result<Db> {
    var _ :- Check(!ClosesCycle(Edges(db.deps), t, dependsOn), BadRequest);
    var _ :- Check(Edge(t, dependsOn) !in Edges(db.deps), Conflict);
    var _ :- Check(forall d | d in db.deps :: d.id != id, Conflict);
    Success(db.(deps := db.deps + [Dependency(id, p, Edge(t, dependsOn))]))
  }

  ghost function DeleteDependency(db: Db, t: Id, id: Id): Result<Db> {
    var _ :- Check(LiveTask(db, t), NotFound);
    var _ :- Check(exists d :: d in db.deps && d.id == id && d.edge.taskId == t, NotFound);
    Success(db.(deps := Without(db.deps, id)))
  }

  /** The dependency table without the row of that id. */
  function Without(deps: seq<Dependency>, id: Id): (r: seq<Dependency>)
    ensures forall d :: d in r <==> d in deps && d.id != id
  {
    if deps == [] then []
    else (if deps[0].id == id then [] else [deps[0]]) + Without(deps[1..], id)
  }

  // The order of the recurring generator's status query: default first, then by position.
  predicate QueryOrder(a: Status, b: Status) {
    (a.isDefault && !b.isDefault) || (a.isDefault == b.isDefault && a.position <= b.position)
  }

  /** `pick` is a possible first row of that query; ties are the database's choice. */
  ghost predicate MayAnswer(db: Db, p: Id, pick: Option<Id>) {
    match pick
    case None => forall s :: !StatusInProject(db, p, s)
    case Some(s) =>
      && StatusInProject(db, p, s)
      && forall u | StatusInProject(db, p, u) :: QueryOrder(db.statuses[s], db.statuses[u])
  }

  /** The status a generated task starts in: the template's, if live, else the query's answer. */
  ghost function ResolveStatus(db: Db, p: Id, wanted: Option<Id>, pick: Option<Id>): Option<Id> {
    if !Given(wanted) then pick
    else if StatusInProject(db, p, wanted.value) then wanted
    else None
  }

  /** What a recurring template gives its tasks. */
  datatype Content = Content(assigneeId: Option<Id>, milestoneId: Option<Id>, texts: map<string, string>)

  function FieldsOf(c: Content): Fields {
    Fields(c.assigneeId, c.milestoneId, None, None, c.texts)
  }

  ghost function Generate(db: Db, id: NewId, p: Id, wanted: Option<Id>, pick: Option<Id>, content: Content,
      templateId: Id, now: int): Result<Db>
  {
    var _ :- Check(LiveProject(db, p), NotFound);
    var _ :- Check(Given(wanted) || MayAnswer(db, p, pick), NotAStep);
    match ResolveStatus(db, p, wanted, pick)
    case None => Failure(NotFound)
    case Some(s) => InsertTask(db, id, p, s, FieldsOf(content), Some(templateId), now)
  }

  predicate Suitable(db: Db, p: Id, s: Id, done: bool) {
    StatusInProject(db, p, s) && db.statuses[s].isDone == done && (!done ==> db.statuses[s].code == "IN_PROGRESS")
  }

  /** `pick` is a possible first row of the query for a status to mark a task started or done with. */
  ghost predicate MayMark(db: Db, p: Id, done: bool, pick: Option<Id>) {
    match pick
    case None => forall s :: !Suitable(db, p, s, done)
    case Some(s) => Suitable(db, p, s, done) && forall u | Suitable(db, p, u, done) ::
        db.statuses[s].position <= db.statuses[u].position
  }

  /** A chat message in which a user marks a task assigned to them started or done: it asks no workflow, counts no
      reopening and writes no log entry. */
  ghost function MarkByMessage(db: Db, t: Id, sender: Id, done: bool, pick: Option<Id>): Result<Db> {
    var _ :- Check(LiveTask(db, t) && db.tasks[t].fields.assigneeId == Some(sender), NotFound);
    var task := db.tasks[t];
    var _ :- Check(MayMark(db, task.projectId, done, pick), NotAStep);
    if pick.None? then Success(db)
    else Success(db.(tasks := db.tasks[t := task.(statusId := pick.value)]))
  }

  // ----------------------------------------------------------------- runs

  datatype Request =
    | CreateProjectRequest(projectId: NewId, code: string)
    | DeleteProjectRequest(project: Id)
    | CreateStatusRequest(statusId: NewId, status: Status)
    | UpdateStatusRequest(statusToUpdate: Id, patch: StatusPatch)
    | DeleteStatusRequest(statusToDelete: Id)
    | CreateWorkflowRequest(workflow: Workflow)
    | CreateTaskRequest(taskId: NewId, inProject: Id, initialStatus: Id, newFields: FieldsPatch, lookups: Lookups)
    | UpdateTaskRequest(taskToUpdate: Id, newStatus: Option<Id>, newFields: FieldsPatch, lookups: Lookups)
    | ChangeStatusRequest(taskToMove: Id, to: Id, hasLocation: bool, selfie: Option<bool>)
    | DeleteTaskRequest(taskToDelete: Id)
    | BulkRequest(ids: seq<Id>, assign: Assignment, target: Option<Id>, days: Option<int>)
    | CreateDependencyRequest(depId: NewId, dependent: Id, dependsOn: Id)
    | DeleteDependencyRequest(ofTask: Id, depToDelete: Id)
    | MarkRequest(taskToMark: Id, sender: Id, done: bool, answer: Option<Id>)
    | GenerateRequest(generatedId: NewId, forProject: Id, wanted: Option<Id>, pick: Option<Id>, content: Content,
        templateId: Id)

  ghost function Apply(db: Db, r: Request, now: int): Result<Db> {
    match r
    case CreateProjectRequest(id, code) => CreateProject(db, id, code)
    case DeleteProjectRequest(p) => DeleteProject(db, p)
    case CreateStatusRequest(id, status) => CreateStatus(db, id, status)
    case UpdateStatusRequest(id, patch) => UpdateStatus(db, id, patch)
    case DeleteStatusRequest(id) => DeleteStatus(db, id)
    case CreateWorkflowRequest(w) => CreateWorkflow(db, w)
    case CreateTaskRequest(id, p, s, fields, lookups) => CreateTask(db, id, p, s, fields, lookups, now)
    case UpdateTaskRequest(t, s, fields, lookups) => UpdateTask(db, t, s, fields, lookups, now)
    case ChangeStatusRequest(t, s, loc, selfie) => ChangeStatus(db, t, s, loc, selfie, now)
    case DeleteTaskRequest(t) => DeleteTask(db, t)
    case BulkRequest(ids, assign, target, days) => Bulk(db, ids, assign, target, days, now)
    case CreateDependencyRequest(id, t, d) => CreateDependency(db, id, t, d)
    case DeleteDependencyRequest(t, id) => DeleteDependency(db, t, id)
    case MarkRequest(t, sender, done, pick) => MarkByMessage(db, t, sender, done, pick)
    case GenerateRequest(id, p, wanted, pick, content, template) =>
      Generate(db, id, p, wanted, pick, content, template, now)
  }

  /** A failed request leaves every table as it was. */
  ghost function Step(db: Db, r: Request, now: int): Db {
    match Apply(db, r, now)
    case Success(after) => after
    case Failure(_) => db
  }

  datatype Timed = Timed(now: int, request: Request)

  ghost function Run(db: Db, rs: seq<Timed>): Db {
    if rs == [] then db
    else
      var before := Run(db, rs[..|rs| - 1]);
      Step(before, rs[|rs| - 1].request, rs[|rs| - 1].now)
  }

  /** Requests carry strictly increasing times. */
  ghost predicate Clocked(rs: seq<Timed>) {
    forall i, j | 0 <= i < j < |rs| :: rs[i].now < rs[j].now
  }
}
