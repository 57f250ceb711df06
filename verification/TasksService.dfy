/**
  The services that own the task tables. Every method either commits exactly the
  step of the request model or leaves all tables as they were.
*/
module TasksService {
  import opened Common
  import Calendar
  import opened DependencyGraph
  import opened TaskModel
  import opened TaskInvariants
  import opened TaskHistory
  import Keys

  /** Carrying out a request is one step of the run model, so it keeps the invariant. */
  lemma CarriedOutIsStep(before: Db, after: Db, r: Request, now: int, error: Option<Error>)
    requires Inv(before) && CarriedOut(before, after, Apply(before, r, now), error)
    ensures after == Step(before, r, now) && Inv(after)
  {
    hide Inv, Apply;
    StepKeepsInv(before, r, now);
  }

  // A failing iteration decides the outcome of the whole loop.
  lemma {:induction false} BulkAllStops(db: Db, ids: seq<Id>, i: nat, target: Option<Id>, edit: BulkEdit, now: int)
    requires i < |ids| && BulkAll(db, ids[..i], target, edit, now).Success?
    requires BulkOne(BulkAll(db, ids[..i], target, edit, now).value, ids[i], target, edit, now).Failure?
    ensures BulkAll(db, ids, target, edit, now)
         == BulkOne(BulkAll(db, ids[..i], target, edit, now).value, ids[i], target, edit, now)
  {
    if i < |ids| - 1 {
      assert ids[..|ids| - 1][..i] == ids[..i];
      BulkAllStops(db, ids[..|ids| - 1], i, target, edit, now);
    }
  }

  // ------------------------------------------------------------- kanban

  /** One column of the board: the given tasks that are in that status, in their order. */
  function Column(tasks: map<Id, Task>, order: seq<Id>, s: Id): seq<Id> {
    if order == [] then []
    else
      var rest := Column(tasks, order[..|order| - 1], s);
      var t := order[|order| - 1];
      if t in tasks && tasks[t].statusId == s then rest + [t] else rest
  }

  function Board(tasks: map<Id, Task>, order: seq<Id>, columns: seq<Id>): seq<seq<Id>> {
    seq(|columns|, i requires 0 <= i < |columns| => Column(tasks, order, columns[i]))
  }

  function Cards(board: seq<seq<Id>>): seq<Id> {
    if board == [] then [] else Cards(board[..|board| - 1]) + board[|board| - 1]
  }

  lemma {:induction false} ColumnCount(tasks: map<Id, Task>, order: seq<Id>, s: Id, t: Id)
    ensures multiset(Column(tasks, order, s))[t]
         == if t in tasks && tasks[t].statusId == s then multiset(order)[t] else 0
  {
    if order != [] {
      ColumnCount(tasks, order[..|order| - 1], s, t);
      assert order == order[..|order| - 1] + [order[|order| - 1]];
    }
  }

  /** A column keeps the order of the tasks: the cards of a longer list continue those of a shorter one, and a
      task has a card exactly in the column of its status. */
  lemma ColumnAppend(tasks: map<Id, Task>, order: seq<Id>, t: Id, s: Id)
    ensures Column(tasks, [], s) == []
    ensures Column(tasks, order + [t], s)
         == Column(tasks, order, s) + (if t in tasks && tasks[t].statusId == s then [t] else [])
  {
    assert (order + [t])[..|order|] == order;
  }

  lemma CardsAppend(tasks: map<Id, Task>, order: seq<Id>, columns: seq<Id>, c: Id)
    ensures Cards(Board(tasks, order, [])) == []
    ensures Cards(Board(tasks, order, columns + [c])) == Cards(Board(tasks, order, columns)) + Column(tasks, order, c)
  {
    hide Column;
    var board := Board(tasks, order, columns + [c]);
    assert board[..|columns|] == Board(tasks, order, columns);
  }

  lemma {:induction false} CardCount(tasks: map<Id, Task>, order: seq<Id>, columns: seq<Id>, t: Id)
    requires Distinct(columns)
    ensures multiset(Cards(Board(tasks, order, columns)))[t]
         == if t in tasks && tasks[t].statusId in columns then multiset(order)[t] else 0
  {
    hide Column, Board, Cards;
    if columns == [] {
      CardsAppend(tasks, order, [], "");
    } else {
      var init, last := columns[..|columns| - 1], columns[|columns| - 1];
      assert columns == init + [last] && last !in init;
      CardCount(tasks, order, init, t);
      ColumnCount(tasks, order, last, t);
      CardsAppend(tasks, order, init, last);
    }
  }

  /** `columns` and `order` are possible answers of the board's two queries. */
  ghost predicate BoardQueries(db: Db, p: Id, columns: seq<Id>, order: seq<Id>) {
    && Distinct(columns) && (forall s :: s in columns <==> StatusInProject(db, p, s))
    && forall t | t in order :: LiveTask(db, t) && db.tasks[t].projectId == p
  }

  /** In every reachable state the columns of the board partition the visible
      tasks: each task shown is shown exactly once, and none is lost. */
  lemma BoardPartitionsTasks(rs: seq<Timed>, p: Id, columns: seq<Id>, order: seq<Id>)
    requires BoardQueries(Run(EMPTY_DB, rs), p, columns, order)
    ensures multiset(Cards(Board(Run(EMPTY_DB, rs).tasks, order, columns))) == multiset(order)
  {
    var db := Run(EMPTY_DB, rs);
    var cards := Cards(Board(db.tasks, order, columns));
    forall t
      ensures multiset(cards)[t] == multiset(order)[t]
    {
      CardCount(db.tasks, order, columns, t);
      if t in order {
        ReachableTaskStatus(rs, t);
      }
    }
  }

  class Service {
    var projects: map<Id, Project>
    var statuses: map<Id, Status>
    var workflows: seq<Workflow>
    var tasks: map<Id, Task>
    var log: seq<Transition>
    var deps: seq<Dependency>

    function Tables(): Db
      reads this
    {
      Db(projects, statuses, workflows, tasks, log, deps)
    }

    constructor ()
      ensures Tables() == EMPTY_DB && Inv(Tables())
    {
      projects, statuses, workflows, tasks, log, deps := map[], map[], [], map[], [], [];
      new;
      EmptyDbInv();
    }

    method CreateProject(id: NewId, code: string) returns (error: Option<Error>)
      modifies this
      ensures CarriedOut(old(Tables()), Tables(), TaskModel.CreateProject(old(Tables()), id, code), error)
    {
      if code == "" || id in projects || exists p :: p in projects && projects[p].code == code {
        return Some(BadRequest);
      }
      projects := projects[id := Project(code, FIRST_TASK_SEQUENCE, false)];
      return None;
    }

    method DeleteProject(p: Id) returns (error: Option<Error>)
      modifies this
      ensures CarriedOut(old(Tables()), Tables(), TaskModel.DeleteProject(old(Tables()), p), error)
    {
      if !LiveProject(Tables(), p) {
        return Some(NotFound);
      }
      projects := projects[p := projects[p].(deleted := true)];
      return None;
    }

    method ClearDefaultStatus(p: Id)
      modifies `statuses
      ensures statuses == ClearStatusDefaults(old(statuses), p)
    {
      var rest := statuses.Keys;
      while rest != {}
        invariant rest <= statuses.Keys == old(statuses).Keys
        invariant forall s | s in rest :: statuses[s] == old(statuses)[s]
        invariant forall s | s in statuses && s !in rest :: statuses[s] == ClearStatusDefaults(old(statuses), p)[s]
        decreases rest
      {
        var s :| s in rest;
        rest := rest - {s};
        if statuses[s].projectId == p {
          statuses := statuses[s := statuses[s].(isDefault := false)];
        }
      }
    }

    method CreateStatus(id: NewId, status: Status) returns (error: Option<Error>)
      modifies this
      ensures CarriedOut(old(Tables()), Tables(), TaskModel.CreateStatus(old(Tables()), id, status), error)
    {
      if !LiveProject(Tables(), status.projectId) {
        return Some(NotFound);
      }
      if id in statuses || StatusCodeTaken(Tables(), status.projectId, status.code, id) {
        return Some(Conflict);
      }
      if status.isDefault {
        ClearDefaultStatus(status.projectId);
      }
      statuses := statuses[id := status.(deleted := false)];
      return None;
    }

    method UpdateStatus(id: Id, patch: StatusPatch) returns (error: Option<Error>)
      modifies this
      ensures CarriedOut(old(Tables()), Tables(), TaskModel.UpdateStatus(old(Tables()), id, patch), error)
    {
      if id !in statuses || statuses[id].deleted || !LiveProject(Tables(), statuses[id].projectId) {
        return Some(NotFound);
      }
      var p := statuses[id].projectId;
      if patch.code.Some? && StatusCodeTaken(Tables(), p, patch.code.value, id) {
        return Some(Conflict);
      }
      if patch.isDefault == Some(true) {
        ClearDefaultStatus(p);
        assert id in statuses;
      }
      statuses := statuses[id := Patched(statuses[id], patch)];
      return None;
    }

    method DeleteStatus(id: Id) returns (error: Option<Error>)
      modifies this
      ensures CarriedOut(old(Tables()), Tables(), TaskModel.DeleteStatus(old(Tables()), id), error)
    {
      if id !in statuses || statuses[id].deleted || !LiveProject(Tables(), statuses[id].projectId) {
        return Some(NotFound);
      }
      var inUse := set t | t in tasks && tasks[t].statusId == id && !tasks[t].deleted;
      if inUse != {} {
        assert exists t :: t in inUse;
        return Some(BadRequest);
      }
      assert forall t | t in tasks && !tasks[t].deleted && tasks[t].statusId == id :: t in inUse;
      statuses := statuses[id := statuses[id].(deleted := true)];
      return None;
    }

    method ClearDefaultWorkflow(p: Id)
      modifies `workflows
      ensures workflows == ClearWorkflowDefaults(old(workflows), p)
    {
      for i := 0 to |workflows|
        invariant |workflows| == |old(workflows)|
        invariant workflows == ClearWorkflowDefaults(old(workflows), p)[..i] + old(workflows)[i..]
      {
        if workflows[i].projectId == p {
          workflows := workflows[i := workflows[i].(isDefault := false)];
        }
      }
    }

    method CreateWorkflow(w: Workflow) returns (error: Option<Error>)
      modifies this
      ensures CarriedOut(old(Tables()), Tables(), TaskModel.CreateWorkflow(old(Tables()), w), error)
    {
      if !LiveProject(Tables(), w.projectId) {
        return Some(NotFound);
      }
      if exists e :: e in w.transitions
          && !(StatusInProject(Tables(), w.projectId, e.0) && StatusInProject(Tables(), w.projectId, e.1)) {
        return Some(BadRequest);
      }
      var pairs := set e | e in w.transitions;
      if (exists v :: v in workflows && v.projectId == w.projectId && v.name == w.name) || |pairs| != |w.transitions| {
        return Some(Conflict);
      }
      if w.isDefault {
        ClearDefaultWorkflow(w.projectId);
      }
      workflows := workflows + [w];
      return None;
    }

    method InsertTask(id: NewId, p: Id, s: Id, fields: Fields, templateId: Option<Id>, now: int)
      returns (error: Option<Error>)
      requires p in projects
      modifies this
      ensures CarriedOut(old(Tables()), Tables(),
          TaskModel.InsertTask(old(Tables()), id, p, s, fields, templateId, now), error)
    {
      var project := projects[p];
      var key := Keys.TaskKey(project.code, project.nextTaskSequence);
      if id in tasks || exists t :: t in tasks && tasks[t].key == key {
        return Some(Conflict);
      }
      projects := projects[p := project.(nextTaskSequence := project.nextTaskSequence + 1)];
      tasks := tasks[id := Task(p, s, key, 0, fields, templateId, now, false)];
      log := log + [Transition(id, None, s, now)];
      return None;
    }

    /** The lookups of assignee, milestone and parent. */
    method ResolveFields(t: Option<Id>, p: Id, patch: FieldsPatch, lookups: Lookups) returns (error: Option<Error>)
      ensures match CheckFields(Tables(), t, p, patch, lookups)
              case Success(_) => error == None
              case Failure(e) => error == Some(e)
    {
      if patch.assignee.Set? && patch.assignee.value != "" && lookups.assigneeRefusal.Some? {
        return lookups.assigneeRefusal;
      }
      if patch.milestone.Set? && patch.milestone.value != "" && !lookups.milestoneOk {
        return Some(BadRequest);
      }
      if patch.parent.Set? && patch.parent.value != "" {
        if t == Some(patch.parent.value) || !TaskInProject(Tables(), p, patch.parent.value) {
          return Some(BadRequest);
        }
      }
      return None;
    }

    method CreateTask(id: NewId, p: Id, s: Id, patch: FieldsPatch, lookups: Lookups, now: int)
      returns (error: Option<Error>)
      modifies this
      ensures CarriedOut(old(Tables()), Tables(), TaskModel.CreateTask(old(Tables()), id, p, s, patch, lookups, now),
          error)
    {
      if !LiveProject(Tables(), p) {
        return Some(NotFound);
      }
      if !StatusInProject(Tables(), p, s) {
        return Some(BadRequest);
      }
      error := ResolveFields(None, p, patch, lookups);
      if error.None? {
        error := InsertTask(id, p, s, Overlaid(NO_FIELDS, patch), None, now);
      }
    }

    /** Update one task row and, for an actual change, count a reopening and log the transition. */
    method WriteStatus(t: Id, to: Id, now: int)
      requires t in tasks && tasks[t].statusId in statuses && to in statuses
      modifies `tasks, `log
      ensures Tables() == Move(old(Tables()), t, to, now)
    {
      var existing := tasks[t];
      var isStatusChange := to != existing.statusId;
      var reopenedIncrement :=
        if isStatusChange && statuses[existing.statusId].isDone && !statuses[to].isDone then 1 else 0;
      tasks := tasks[t := existing.(statusId := to, reopenedCount := existing.reopenedCount + reopenedIncrement)];
      if isStatusChange {
        log := log + [Transition(t, Some(existing.statusId), to, now)];
      }
    }

    method WriteFields(t: Id, fields: Fields)
      requires t in tasks
      modifies `tasks
      ensures Tables() == SetFields(old(Tables()), t, fields)
    {
      tasks := tasks[t := tasks[t].(fields := fields)];
    }

    method UpdateTask(t: Id, statusId: Option<Id>, patch: FieldsPatch, lookups: Lookups, now: int)
      returns (error: Option<Error>)
      modifies this
      ensures CarriedOut(old(Tables()), Tables(),
          TaskModel.UpdateTask(old(Tables()), t, statusId, patch, lookups, now), error)
    {
      hide TransitionAllowed, CheckFields, Overlaid;
      if !LiveTask(Tables(), t) {
        return Some(NotFound);
      }
      var p := tasks[t].projectId;
      if Given(statusId) && !StatusInProject(Tables(), p, statusId.value) {
        return Some(BadRequest);
      }
      error := ResolveFields(Some(t), p, patch, lookups);
      if error.Some? {
        return;
      }
      var fields := Overlaid(tasks[t].fields, patch);
      if statusId.Some? && statusId.value == "" {
        return Some(DatabaseError);
      }
      if statusId.Some? {
        var to := statusId.value;
        if !TransitionAllowed(Tables(), p, tasks[t].statusId, to) || statuses[to].requiresLocation
            || statuses[to].requiresSelfie {
          return Some(BadRequest);
        }
        if tasks[t].statusId !in statuses {
          return Some(DatabaseError);
        }
        WriteStatus(t, to, now);
      }
      WriteFields(t, fields);
      return None;
    }

    method ChangeStatus(t: Id, to: Id, hasLocation: bool, selfie: Option<bool>, now: int) returns (error: Option<Error>)
      modifies this
      ensures CarriedOut(old(Tables()), Tables(),
          TaskModel.ChangeStatus(old(Tables()), t, to, hasLocation, selfie, now), error)
    {
      if !LiveTask(Tables(), t) {
        return Some(NotFound);
      }
      var p := tasks[t].projectId;
      if !StatusInProject(Tables(), p, to) || !TransitionAllowed(Tables(), p, tasks[t].statusId, to) {
        return Some(BadRequest);
      }
      if (statuses[to].requiresLocation && !hasLocation) || (statuses[to].requiresSelfie && selfie.None?)
          || selfie == Some(false) {
        return Some(BadRequest);
      }
      if tasks[t].statusId !in statuses {
        return Some(DatabaseError);
      }
      WriteStatus(t, to, now);
      return None;
    }

    method DeleteTask(t: Id) returns (error: Option<Error>)
      modifies this
      ensures CarriedOut(old(Tables()), Tables(), TaskModel.DeleteTask(old(Tables()), t), error)
    {
      if !LiveTask(Tables(), t) {
        return Some(NotFound);
      }
      tasks := tasks[t := tasks[t].(deleted := true)];
      return None;
    }

    /** One iteration of the bulk transaction. */
    method BulkWrite(t: Id, target: Option<Id>, edit: BulkEdit, now: int) returns (error: Option<Error>)
      modifies `tasks, `log
      ensures match BulkOne(old(Tables()), t, target, edit, now)
              case Success(db) => Tables() == db && error == None
              case Failure(e) => error == Some(e)
    {
      if t !in tasks {
        return Some(DatabaseError);
      }
      if target.Some? {
        if !TransitionAllowed(Tables(), tasks[t].projectId, tasks[t].statusId, target.value) {
          return Some(BadRequest);
        }
        if tasks[t].statusId !in statuses || target.value !in statuses {
          return Some(DatabaseError);
        }
        WriteStatus(t, target.value, now);
      }
      var fields := tasks[t].fields;
      if edit.days.Some? {
        var base := if fields.dueDate.Some? then fields.dueDate.value else now;
        fields := fields.(dueDate := Some(base + edit.days.value * Calendar.DAY_MS));
      }
      if edit.assignee.Some? {
        fields := fields.(assigneeId := edit.assignee);
      }
      WriteFields(t, fields);
      return None;
    }

    /** The bulk transaction: the writes of the loop are rolled back when an iteration fails. */
    method BulkLoop(ids: seq<Id>, target: Option<Id>, edit: BulkEdit, now: int) returns (error: Option<Error>)
      modifies `tasks, `log
      ensures CarriedOut(old(Tables()), Tables(), BulkAll(old(Tables()), ids, target, edit, now), error)
    {
      var savedTasks, savedLog := tasks, log;
      for i := 0 to |ids|
        invariant BulkAll(old(Tables()), ids[..i], target, edit, now) == Success(Tables())
      {
        assert ids[..i + 1][..i] == ids[..i];
        error := BulkWrite(ids[i], target, edit, now);
        if error.Some? {
          tasks, log := savedTasks, savedLog;
          BulkAllStops(old(Tables()), ids, i, target, edit, now);
          return;
        }
      }
      assert ids[..|ids|] == ids;
      return None;
    }

    method Bulk(ids: seq<Id>, assign: Assignment, statusId: Option<Id>, days: Option<int>, now: int)
      returns (error: Option<Error>)
      modifies this
      ensures CarriedOut(old(Tables()), Tables(), TaskModel.Bulk(old(Tables()), ids, assign, statusId, days, now),
          error)
    {
      hide BulkAll, TransitionAllowed;
      if !Given(assign.to) && !Given(statusId) && days.None? {
        return Some(BadRequest);
      }
      var db := Tables();
      var found := set t | t in ids && LiveTask(db, t);
      if |found| != |ids| || |ids| == 0 {
        return Some(NotFound);
      }
      var projectIds := set t | t in ids && LiveTask(db, t) :: tasks[t].projectId;
      if exists p :: p in projectIds && !LiveProject(db, p) {
        return Some(NotFound);
      }
      if Given(statusId) && |projectIds| > 1 {
        return Some(BadRequest);
      }
      if Given(assign.to) && assign.refusal.Some? {
        return assign.refusal;
      }
      if Given(statusId) && exists p :: p in projectIds && !StatusInProject(db, p, statusId.value) {
        return Some(BadRequest);
      }
      error := BulkLoop(ids, if Given(statusId) then statusId else None, EditOf(assign, days), now);
    }

    method CreateDependency(id: NewId, t: Id, dependsOn: Id) returns (error: Option<Error>)
      modifies this
      ensures CarriedOut(old(Tables()), Tables(), TaskModel.CreateDependency(old(Tables()), id, t, dependsOn), error)
    {
      if !LiveTask(Tables(), t) || !LiveTask(Tables(), dependsOn) {
        return Some(NotFound);
      }
      var p := tasks[t].projectId;
      if p != tasks[dependsOn].projectId {
        return Some(BadRequest);
      }
      var wouldCycle := WouldCreateCycle(Rows(deps), t, dependsOn);
      if wouldCycle {
        return Some(BadRequest);
      }
      if Edge(t, dependsOn) in Rows(deps) || exists d :: d in deps && d.id == id {
        return Some(Conflict);
      }
      deps := deps + [Dependency(id, p, Edge(t, dependsOn))];
      return None;
    }

    method DeleteDependency(t: Id, id: Id) returns (error: Option<Error>)
      modifies this
      ensures CarriedOut(old(Tables()), Tables(), TaskModel.DeleteDependency(old(Tables()), t, id), error)
    {
      if !LiveTask(Tables(), t) || !exists d :: d in deps && d.id == id && d.edge.taskId == t {
        return Some(NotFound);
      }
      deps := Without(deps, id);
      return None;
    }

    /** The status query of a message that marks a task started or done. */
    method MarkStatus(p: Id, done: bool) returns (pick: Option<Id>)
      ensures MayMark(Tables(), p, done, pick)
    {
      pick := None;
      var rest := statuses.Keys;
      while rest != {}
        invariant rest <= statuses.Keys
        invariant pick.Some? ==> Suitable(Tables(), p, pick.value, done)
        invariant forall s | Suitable(Tables(), p, s, done) && s !in rest ::
                    pick.Some? && statuses[pick.value].position <= statuses[s].position
        decreases rest
      {
        var s :| s in rest;
        rest := rest - {s};
        if Suitable(Tables(), p, s, done) && (pick.None? || statuses[s].position < statuses[pick.value].position) {
          pick := Some(s);
        }
      }
    }

    /** The chat integration's own write to the task table. */
    method MarkByMessage(t: Id, sender: Id, done: bool) returns (error: Option<Error>, pick: Option<Id>)
      modifies this
      ensures CarriedOut(old(Tables()), Tables(), TaskModel.MarkByMessage(old(Tables()), t, sender, done, pick), error)
    {
      if !LiveTask(Tables(), t) || tasks[t].fields.assigneeId != Some(sender) {
        return Some(NotFound), None;
      }
      pick := MarkStatus(tasks[t].projectId, done);
      if pick.Some? {
        tasks := tasks[t := tasks[t].(statusId := pick.value)];
      }
      error := None;
    }

    /** The status query of the recurring generator. */
    method FirstStatus(p: Id) returns (pick: Option<Id>)
      ensures MayAnswer(Tables(), p, pick)
    {
      pick := None;
      var rest := statuses.Keys;
      while rest != {}
        invariant rest <= statuses.Keys
        invariant pick.Some? ==> StatusInProject(Tables(), p, pick.value)
        invariant forall s | StatusInProject(Tables(), p, s) && s !in rest ::
                    pick.Some? && QueryOrder(statuses[pick.value], statuses[s])
        decreases rest
      {
        var s :| s in rest;
        rest := rest - {s};
        if StatusInProject(Tables(), p, s) && (pick.None? || !QueryOrder(statuses[pick.value], statuses[s])) {
          pick := Some(s);
        }
      }
    }

    /** The generator's transaction for one task of a recurring template. */
    method Generate(id: NewId, p: Id, wanted: Option<Id>, content: Content, templateId: Id, now: int)
      returns (error: Option<Error>, pick: Option<Id>)
      modifies this
      ensures Given(wanted) || MayAnswer(old(Tables()), p, pick)
      ensures CarriedOut(old(Tables()), Tables(),
          TaskModel.Generate(old(Tables()), id, p, wanted, pick, content, templateId, now), error)
    {
      if Given(wanted) {
        pick := if StatusInProject(Tables(), p, wanted.value) then wanted else None;
      } else {
        pick := FirstStatus(p);
      }
      if !LiveProject(Tables(), p) || pick.None? {
        return Some(NotFound), pick;
      }
      error := InsertTask(id, p, pick.value, FieldsOf(content), Some(templateId), now);
    }

    /** The board of a project, from the answers of its two queries. */
    method GetKanban(columns: seq<Id>, order: seq<Id>) returns (board: seq<seq<Id>>)
      ensures board == Board(tasks, order, columns)
    {
      board := [];
      for i := 0 to |columns|
        invariant board == Board(tasks, order, columns)[..i]
      {
        var cards := [];
        for k := 0 to |order|
          invariant cards == Column(tasks, order[..k], columns[i])
        {
          assert order[..k + 1][..k] == order[..k];
          if order[k] in tasks && tasks[order[k]].statusId == columns[i] {
            cards := cards + [order[k]];
          }
        }
        assert order[..|order|] == order;
        board := board + [cards];
      }
    }
  }
}
