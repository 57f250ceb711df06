# Verification of the API's state machines

A Dafny model of the parts of `apps/api` in which several requests must keep one
invariant between them: the task engine, the time and cost ledger, approvals, the
recurring scheduler, document chunking, notification delivery, office network rules,
budget alerts and leave accrual.

Every table is a finite map or sequence and every request is one atomic step. Each
component has two layers:

- **Request semantics**: ghost functions that give the tables after a request, or the
  error that leaves them untouched, and `Step`/`Run` functions over any sequence of
  requests. The main results are lemmas about these: they hold for every run from empty
  tables, or for every input.
- **Services**: classes with mutable tables whose methods work step by step, with the
  loops, early exits and rollbacks of the API services, and are proved to carry out exactly
  the request semantics. `TasksService.CarriedOutIsStep` ties the task service to the
  run theorems.

| Files | Content |
|---|---|
| `Common.dfy`, `Arithmetic.dfy`, `Text16.dfy`, `Rounding.dfy` | shared types, division, strings of UTF-16 units, rounding to cents |
| `DependencyGraph.dfy` | walks, cycles, topological orders, the depth-first search |
| `Keys.dfy`, `TaskModel.dfy`, `TaskInvariants.dfy`, `TaskOutcomes.dfy`, `TaskHistory.dfy`, `TasksService.dfy`, `WipAging.dfy` | the task engine, its invariant, what each request is accepted for and writes, histories, the kanban board and ageing |
| `Calendar.dfy`, `RecurringScheduler.dfy`, `BusinessDays.dfy`, `LeaveAccrual.dfy` | calendar arithmetic, recurring tasks, working days, leave accrual |
| `TimeLedger.dfy`, `TimeEntriesService.dfy`, `ProjectCosting.dfy`, `BudgetAlerts.dfy`, `BudgetBook.dfy` | the time and cost ledger, its two aggregations, alerts, and which steps evaluate them |
| `Approvals.dfy`, `Attendance.dfy` | approvals, the cost ledger and the attendance days they write |
| `Notifications.dfy`, `OfficeNetwork.dfy`, `DocumentChunking.dfy` | the remaining state machines and algorithms |

## Where the code does less than its neighbours rely on

Each case has a concrete input on which it shows and the exact condition under which it
does not.

- **A message moves a task behind the rules.** Four requests and the recurring generator
  write a task's status together with a transition log row. The chat integration
  (`whatsapp.service.ts:479-530`) writes the status alone, when the sender is the task's
  assignee. Hence, over every run, "message" meaning one of the assignee:
  - a task's history is a gapless chain that ends in its current status throughout
    exactly when no message gives the task another status (`HistoryChainIff`);
  - the reopen counter is the number of real reopenings exactly when no message starts
    the task while it is in a done status (`CounterIsTrueIff`);
  - a status change obeys the task's workflow exactly when it is not a message along an
    edge the workflow does not have (`ReachableChangeLawfulIff`).

  `MESSAGE_RUN` is one run of six requests that shows all three (`MessageLeavesGap`,
  `MessageReopensUnseen`), and `AgeMissesMessage` shows the ageing report counting from
  the creation of that task instead of from its move. The rest of the invariant,
  including the kanban partition, survives messages.
- **A monthly schedule drifts once a month is too short**, and never comes back:
  a schedule that starts on 31 January goes on to 3 March and stays on the third
  (`MonthlyDriftOccurs`). The k-th point keeps the day of the month exactly when every
  month up to it has that day (`SameDateIff`, `MonthlyKeepsDayIff`), and after the first
  short month the schedule runs on one of the first three days of the month for ever
  (`DriftIsForever`).
- **A generated task is missing for every schedule point passed while the project had no
  live status**, and for no other reason (`TasksFollowSchedule`): the tasks made equal the
  points passed exactly when every firing that passed one found a status
  (`NothingMissedIff`). `MissedTaskOccurs` is a template fired once in a project without
  a status.
- **A bulk line can be reported as failed and still have added its row**, when the audit
  or the budget evaluation after the insertion throws. `ManagerBulkCreate` adds exactly
  the created rows if and only if no line fails in that way; `LateFailureOccurs` is a
  request of one such line. Single entries and adjustments leave their row behind an
  error in the same case.
- **Chunk settings can lose text.** `CoverageIff` says exactly which sizes and overlaps
  cover every unit. The caller's guard, an overlap below the size
  (`documents.service.ts:35`), still accepts settings that lose text: those with a size
  below 1, and those with a negative overlap when one window is not enough
  (`GuardedSettingsLoseText`: size 5, overlap -1, ten units). Windows count UTF-16 units,
  so a window may end inside a surrogate pair.
- **Approving an expense raises no budget alert**, however far it takes the burn; neither
  does a write whose audit record fails, nor a change of the budget. An alert is raised
  exactly when some step that does evaluate finds the recorded costs at its threshold
  (`AlertRaisedIff`); it is missing although the costs reached the threshold exactly when
  no step after which they stood there evaluated so far (`AlertsMatchRecordIff`).
  `ApprovalGoesUnnoticed` is a run of three steps.
- **A utilisation shown at a threshold need not have raised its alert**, because the
  figure shown is rounded and the comparison is not. Shown and raised disagree exactly in
  the last half hundredth of a percent below the threshold (`ShownUtilizationIff`;
  `ShownUtilizationMisleads` is 79.996 percent).

A remark on the dependency search alone: it skips the empty id and would miss a cycle
through it (`EmptyIdHidesCycle`, with the exact condition in `SearchExactIff`). No request
can store an empty id, so on every stored graph the search is exact (`SearchIsExact`).

## Model

| member | source | states |
|---|---|---|
| DependencyGraph.WouldCreateCycle | apps/api/src/common/services/task-dependency.service.ts:8-55 | The search terminates on every finite graph and answers true exactly when the task equals, or is reachable along depends-on rows from, the candidate dependency |
| DependencyGraph.SearchExactIff | apps/api/src/common/services/task-dependency.service.ts:20-51 | The search agrees with plain reachability for every task if and only if the empty id is not among the dependencies |
| DependencyGraph.EmptyIdHidesCycle | apps/api/src/common/services/task-dependency.service.ts:21-25 | A two-row graph through the empty id on which the search answers false although the new row closes a cycle |
| DependencyGraph.AddEdgeAcyclicIff | apps/api/src/modules/tasks/tasks.service.ts:818-881 | Adding a row keeps the graph acyclic exactly when it was acyclic and the dependency does not already reach the task |
| DependencyGraph.AcyclicSubset | apps/api/src/modules/tasks/tasks.service.ts:883-922 | Deleting rows cannot create a cycle |
| DependencyGraph.AcyclicIffSchedulable | apps/api/src/modules/tasks/tasks.service.ts:818-922 | A finite graph is acyclic exactly when its tasks have a topological order |
| TaskInvariants.SearchIsExact | apps/api/src/common/services/task-dependency.service.ts:8-55 | On every stored graph the answer of the search is reachability |
| TaskHistory.DependencyAcceptedIff | apps/api/src/modules/tasks/tasks.service.ts:818-881 | In a state satisfying the invariant a dependency is accepted exactly when both tasks are live and of one project, the row is new and the graph stays acyclic |
| TaskOutcomes.DependencyRefusals | apps/api/src/modules/tasks/tasks.service.ts:818-881 | A dependency is refused with "not found" for a missing task, as a bad request for two projects or a way back, as a conflict for a repeated edge, in this order, and accepted otherwise |
| TaskOutcomes.DependencyStored | apps/api/src/modules/tasks/tasks.service.ts:845-853 | An accepted dependency is stored as one more row with the given id, the project and the edge, and no other table changes |
| TaskOutcomes.ReverseRefused | apps/api/src/modules/tasks/tasks.service.ts:834-843 | Once a dependency is stored, its reverse is refused |
| TaskOutcomes.DependencyDeletedIff | apps/api/src/modules/tasks/tasks.service.ts:883-905 | A deletion is accepted exactly for a live task and a row of that id and task |
| TaskOutcomes.DependencyDeleted | apps/api/src/modules/tasks/tasks.service.ts:906-910 | An accepted deletion removes the rows of that id, keeps all others, and touches no other table |
| TaskHistory.ReachableDepsSchedulable | apps/api/src/modules/tasks/tasks.service.ts:818-922 | After any run of requests the tasks can be ordered dependencies first, and every dependency joins two tasks of one project |
| TaskInvariants.StepKeepsInv | apps/api/src/modules/tasks/tasks.service.ts:44-922 | Every request of the task tables, refused or not, keeps the whole invariant (defaults, live statuses, keys, log, acyclic dependencies) |
| TaskInvariants.RunKeepsInv | apps/api/src/modules/tasks/tasks.service.ts:44-922 | So does every run of requests |
| TaskHistory.ReachableInv | apps/api/src/modules/tasks/tasks.service.ts:44-922 | Every state reachable from empty tables satisfies the invariant |
| TaskHistory.ReachableTaskStatus | apps/api/src/modules/tasks/tasks.service.ts:1153-1179 | After any run, a live task has a live status of its own project |
| TaskHistory.ReachableKeysUnique | apps/api/src/modules/tasks/tasks.service.ts:85-96 | After any run of both key allocators no two tasks share a key |
| TaskHistory.ReachableParents | apps/api/src/modules/tasks/tasks.service.ts:1280-1314 | After any run a task's parent is another task of the same project |
| TaskInvariants.InsertNeverConflicts | apps/api/src/modules/recurring-task-templates/recurring-task-templates.service.ts:107-127 | The next key of a project is unused, so inserting a task under a fresh id never hits the unique key |
| Keys.TaskKeyInjective | apps/api/src/modules/tasks/tasks.service.ts:85-86 | Code and sequence number can be read back from a key, even when codes contain hyphens and digits |
| Keys.DecimalReads | apps/api/src/modules/tasks/tasks.service.ts:85-86 | A sequence number is written in decimal digits and reads back as itself |
| TaskHistory.ReachableSingleDefaults | apps/api/src/modules/task-statuses/task-statuses.service.ts:32-62 | After any run at most one status and at most one workflow of a project is the default |
| TaskInvariants.CountMeansAllLive | apps/api/src/modules/tasks/tasks.service.ts:690-706 | The bulk request's length comparison accepts exactly lists of distinct live tasks, never a list with repetitions |
| TaskInvariants.BulkAllKeepsInv | apps/api/src/modules/tasks/tasks.service.ts:748-800 | The bulk loop keeps the invariant and writes no row but those of the named tasks and the log |
| TaskInvariants.BulkAcceptedIff | apps/api/src/modules/tasks/tasks.service.ts:672-800 | A bulk request is accepted exactly when it asks for something, its assignee is not refused, and it names distinct live tasks of live projects and, for a status, one project that has it live and a workflow that lets every task move |
| TaskInvariants.BulkAllSucceedsIff | apps/api/src/modules/tasks/tasks.service.ts:748-762 | The loop succeeds exactly when every task may move from the status it had before the request |
| TaskInvariants.BulkAllWrites | apps/api/src/modules/tasks/tasks.service.ts:764-798 | A successful loop gives every named task the target status, the shifted due date and the assignee, and leaves every other row alone |
| TaskOutcomes.BulkWrites | apps/api/src/modules/tasks/tasks.service.ts:672-800 | An accepted bulk request puts every named task into the given status, counts each reopening, sets due date and assignee, and leaves every other task alone |
| TaskOutcomes.BulkLogs | apps/api/src/modules/tasks/tasks.service.ts:786-798 | It logs one row for each named task that was in another status, in request order |
| TaskOutcomes.TransitionAllowedIff | apps/api/src/modules/tasks/tasks.service.ts:1316-1352 | A transition is allowed exactly between equal statuses, in a project without a workflow, or along an edge of the governing workflow: the first default one, else the first |
| TaskOutcomes.ChangeStatusAcceptedIff | apps/api/src/modules/tasks/tasks.service.ts:506-557 | A status change is accepted exactly for a live task, a live status of its project the workflow lets it enter, and the location and selfie that status asks for; the error tells a missing task from a bad request |
| TaskOutcomes.ChangeStatusEnters | apps/api/src/modules/tasks/tasks.service.ts:559-596 | An accepted status change leaves the task in the given status, with a log row exactly when it differs and a count exactly from done to not done, and every other row as it was |
| TaskOutcomes.UpdateTaskAcceptedIff | apps/api/src/modules/tasks/tasks.service.ts:327-383 | An update is accepted exactly for a live task, acceptable assignee, milestone and parent and, if it names a status, one the task may enter that asks for neither location nor selfie |
| TaskOutcomes.UpdateTaskWrites | apps/api/src/modules/tasks/tasks.service.ts:385-458 | An accepted update puts the task into the named status and patches each field as given: null clears, an empty reference keeps, a value replaces |
| TaskOutcomes.CreateTaskAcceptedIff | apps/api/src/modules/tasks/tasks.service.ts:44-60 | A creation under an unused id is accepted exactly for a live project, a live status of it and acceptable references |
| TaskOutcomes.CreateTaskAdds | apps/api/src/modules/tasks/tasks.service.ts:67-147 | An accepted creation adds the task in the given status with the given fields, the next key of its project and its first log row, and moves the sequence on by one |
| TaskOutcomes.GenerateAdds | apps/api/src/modules/recurring-task-templates/recurring-task-templates.service.ts:69-149 | An accepted generation adds one task of the template, in its status or the preferred live one, with its content |
| TaskOutcomes.DeleteTaskWrites | apps/api/src/modules/tasks/tasks.service.ts:472-504 | Deleting marks exactly the live task named, or is refused as not found |
| TaskOutcomes.MessageAcceptedIff | apps/api/src/modules/integrations/whatsapp/whatsapp.service.ts:479-495 | A message is accepted exactly for a live task assigned to its sender |
| TaskOutcomes.MessageWrites | apps/api/src/modules/integrations/whatsapp/whatsapp.service.ts:497-530 | It puts the task into the first fitting live status by position and changes nothing else |
| TaskOutcomes.CreateProjectWrites | apps/api/src/modules/projects/projects.service.ts:30-124 | A project is created under an unused code, with its task numbers starting at 101 |
| TaskOutcomes.DeleteProjectWrites | apps/api/src/modules/projects/projects.service.ts:337-362 | Deleting marks exactly the live project named, or is refused as not found |
| TaskOutcomes.CreateStatusAcceptedIff | apps/api/src/modules/task-statuses/task-statuses.service.ts:24-83 | A status is created in a live project under a code that no status of the project has |
| TaskOutcomes.CreateStatusWrites | apps/api/src/modules/task-statuses/task-statuses.service.ts:32-62 | The new row is as given, and a new default has cleared the others of its project and no more |
| TaskOutcomes.UpdateStatusAcceptedIff | apps/api/src/modules/task-statuses/task-statuses.service.ts:98-130 | A status is updated when it and its project are live and a new code is not another status's |
| TaskOutcomes.UpdateStatusWrites | apps/api/src/modules/task-statuses/task-statuses.service.ts:131-159 | Each given field replaces the old one, each other field stays, and a new default has cleared the others of its project |
| TaskOutcomes.DeleteStatusWrites | apps/api/src/modules/task-statuses/task-statuses.service.ts:183-244 | A status is marked deleted exactly when it and its project are live and no live task is in it |
| TaskOutcomes.CreateWorkflowAcceptedIff | apps/api/src/modules/task-workflows/task-workflows.service.ts:22-121 | A workflow is created in a live project, between live statuses of it, under a new name and without a repeated edge |
| TaskOutcomes.CreateWorkflowWrites | apps/api/src/modules/task-workflows/task-workflows.service.ts:61-96 | It comes last, and a new default has cleared the others of its project |
| TaskHistory.StepEffect | apps/api/src/modules/tasks/tasks.service.ts:1316-1352 | One request leaves a task alone, creates it with one log row, or moves it once along a transition allowed at that moment with one log row and the right reopening count; only a message moves it without |
| TaskHistory.ReachableStepEffect | apps/api/src/modules/tasks/tasks.service.ts:385-458 | The same for any request issued after any run |
| TaskHistory.ChainStep | apps/api/src/modules/integrations/whatsapp/whatsapp.service.ts:479-530 | From a gapless history, a request leaves one exactly when it is not a message of the assignee that gives the task another status |
| TaskHistory.HistoryChainIff | apps/api/src/modules/integrations/whatsapp/whatsapp.service.ts:479-530 | A task's history starts from null, has no gap and ends in the current status throughout a run if and only if no message of its assignee moves the task |
| TaskHistory.ReachableHistoryIsChain | apps/api/src/modules/tasks/tasks.service.ts:559-596 | The chain property after any run whose messages do not move the task |
| TaskHistory.ReachableHistoryStarts | apps/api/src/modules/tasks/tasks.service.ts:134-144 | After any run every task has a history |
| TaskHistory.MessageLeavesGap | apps/api/src/modules/integrations/whatsapp/whatsapp.service.ts:512-518 | A concrete run after which a task has a status its log never mentions |
| TaskHistory.CounterIsTrueIff | apps/api/src/modules/integrations/whatsapp/whatsapp.service.ts:479-530 | Over any run the reopen counter is never above the number of real done-to-not-done changes, and equals it if and only if no message of its assignee starts the task while it is done |
| TaskHistory.ReachableChangeLawfulIff | apps/api/src/modules/integrations/whatsapp/whatsapp.service.ts:479-530 | After any run the next status change of any task is allowed by its workflow if and only if it is not a message of its assignee along a missing edge |
| TaskHistory.MessageReopensUnseen | apps/api/src/modules/integrations/whatsapp/whatsapp.service.ts:512-518 | In the concrete run the message reopens a done task against the workflow, and the counter reads zero |
| TaskHistory.RunReopenings | apps/api/src/modules/tasks/tasks.service.ts:385-406 | The reopen counter grows by exactly the done-to-not-done entries a run adds, judged by the done flags at each moment |
| TaskHistory.ReachableReopenCounter | apps/api/src/modules/tasks/tasks.service.ts:559-576 | From empty tables the counter is the number of those entries |
| TaskHistory.FixedWorkflowPath | apps/api/src/modules/tasks/tasks.service.ts:1316-1352 | While the workflow selected for a task's project stays the same, whatever other workflows are created, every non-initial entry of its history is a real change along an edge of that workflow |
| TaskHistory.LifeIsWorkflowWalk | apps/api/src/modules/tasks/tasks.service.ts:1316-1352 | In such a run, for a task no message moved, the statuses visited are a walk in the workflow's graph from the first status to the current one |
| TaskHistory.ReachableHistoryIncreases | apps/api/src/modules/tasks/tasks.service.ts:443-455 | Under increasing request times the entries of every history have increasing times |
| TasksService.CarriedOutIsStep | apps/api/src/modules/tasks/tasks.service.ts:44-922 | What a service method commits or refuses is one step of the run model and keeps the invariant |
| TasksService.Service.CreateTask | apps/api/src/modules/tasks/tasks.service.ts:44-147 | Checks status, assignee, milestone and parent, and commits key, sequence, task and first log row together, or leaves every table as it was |
| TasksService.Service.UpdateTask | apps/api/src/modules/tasks/tasks.service.ts:327-458 | Checks status, assignee, milestone, parent and transition, and commits status, fields, counter and log row together, or leaves every table as it was |
| TasksService.Service.ChangeStatus | apps/api/src/modules/tasks/tasks.service.ts:506-600 | Commits the status change with its location and selfie checks, or leaves every table as it was |
| TasksService.Service.Bulk | apps/api/src/modules/tasks/tasks.service.ts:672-800 | Commits all named tasks or none |
| TasksService.Service.BulkLoop | apps/api/src/modules/tasks/tasks.service.ts:748-800 | The loop with rollback equals the all-or-nothing request semantics: a failing task undoes the tasks before it |
| TasksService.BulkAllStops | apps/api/src/modules/tasks/tasks.service.ts:748-800 | The first failing task decides the outcome of the whole bulk request |
| TasksService.Service.CreateDependency | apps/api/src/modules/tasks/tasks.service.ts:818-881 | Runs the search and commits the row or refuses as the request semantics say |
| TasksService.Service.DeleteDependency | apps/api/src/modules/tasks/tasks.service.ts:883-922 | Removes exactly the row of that id, provided it belongs to the task |
| TasksService.Service.MarkByMessage | apps/api/src/modules/integrations/whatsapp/whatsapp.service.ts:479-530 | Refuses any sender but the assignee; moves the task to the first suitable live status by position, and nothing else |
| TasksService.Service.Generate | apps/api/src/modules/recurring-task-templates/recurring-task-templates.service.ts:64-149 | Commits the generated task under the template's status or the first status of the query, or refuses |
| TasksService.Service.DeleteStatus | apps/api/src/modules/task-statuses/task-statuses.service.ts:183-244 | Refuses while a live task uses the status, otherwise marks it deleted |
| TasksService.Service.CreateStatus | apps/api/src/modules/task-statuses/task-statuses.service.ts:24-83 | Clears the other defaults of the project before a new default is inserted |
| TasksService.Service.UpdateStatus | apps/api/src/modules/task-statuses/task-statuses.service.ts:98-181 | The same for an update that sets the default |
| TasksService.Service.CreateWorkflow | apps/api/src/modules/task-workflows/task-workflows.service.ts:22-121 | Requires live statuses of the project, refuses repeated names and transitions, and clears the other defaults first |
| TasksService.Service.GetKanban | apps/api/src/modules/tasks/tasks.service.ts:616-670 | Each column lists the given tasks of its status in their order |
| TasksService.BoardPartitionsTasks | apps/api/src/modules/tasks/tasks.service.ts:616-670 | After any run, messages included, the columns hold every visible task exactly once |
| TasksService.ColumnAppend | apps/api/src/modules/tasks/tasks.service.ts:616-670 | A column keeps the order of the tasks, each in the column of its status |
| WipAging.GetWipAging | apps/api/src/modules/kpi-dashboard/user-performance.service.ts:208-274 | The report gives the rounded average of the ages since the newest row into each current status, or since creation, and the five oldest tasks of a stable sort |
| WipAging.DaysFit | apps/api/src/modules/kpi-dashboard/kpi-math.util.ts:57-64 | An age is the number of whole days that fit between the two times, and zero for a later start |
| WipAging.SortByAge | apps/api/src/modules/kpi-dashboard/user-performance.service.ts:270-273 | The sort is by falling age and keeps the tasks of one age in their order |
| WipAging.OldestAreOldest | apps/api/src/modules/kpi-dashboard/user-performance.service.ts:270-273 | No task left out is older than one on the list, and no task is lost |
| WipAging.AgeUsesLastEntryIff | apps/api/src/modules/kpi-dashboard/user-performance.service.ts:245-254 | After any run the row found is the last entry of the history exactly when that entry led to the current status |
| WipAging.AgeCountsFromLastEntry | apps/api/src/modules/kpi-dashboard/user-performance.service.ts:245-254 | For a task no message has moved, the age counts from the last entry of its history |
| WipAging.AgeMissesMessage | apps/api/src/modules/kpi-dashboard/user-performance.service.ts:245-254 | A task started by a message still ages from its creation |
| Calendar.KnownDates | apps/api/src/modules/leave/leave.service.ts:572-575 | The day numbering agrees with the civil calendar on the epoch and two later new year days |
| Calendar.KnownFebruaries | apps/api/src/modules/leave/leave.service.ts:572-575 | February has 28 days in 2026 and 2100 and 29 in 2024 and 2000 |
| Calendar.MonthsOf2026 | apps/api/src/modules/leave/leave.service.ts:572-575 | The lengths of the twelve months of a common year |
| Calendar.MonthLength | apps/api/src/modules/leave/leave.service.ts:572-575 | Consecutive months abut in the day numbering: the table of days and the leap-year rule fit together |
| Calendar.SetUtcDateIsShift | apps/api/src/modules/recurring-task-templates/recurring-task-templates.service.ts:177-199 | Moving the day of the month by n, across any months, is a shift by n days |
| Calendar.AddUtcMonthsDate | apps/api/src/modules/recurring-task-templates/recurring-task-templates.service.ts:177-199 | Moving by months keeps the day of the month exactly when the target month has it, and otherwise spills into the next month by the difference |
| Calendar.AddUtcMonthsCompose | apps/api/src/modules/recurring-task-templates/recurring-task-templates.service.ts:177-199 | Two moves by months compose when the intermediate month has the day |
| RecurringScheduler.NextRunAtIncreases | apps/api/src/modules/recurring-task-templates/recurring-task-templates.service.ts:177-199 | The next run time is strictly later, for every frequency and every integer interval |
| RecurringScheduler.NextRunAtByInterval | apps/api/src/modules/recurring-task-templates/recurring-task-templates.service.ts:177-199 | One advance is the interval in days, weeks or months, an interval below one counting as one |
| RecurringScheduler.DailyPoints | apps/api/src/modules/recurring-task-templates/recurring-task-templates.service.ts:177-199 | Daily, point k is k times the interval in days after the first |
| RecurringScheduler.WeeklyPoints | apps/api/src/modules/recurring-task-templates/recurring-task-templates.service.ts:177-199 | Weekly, point k is k times the interval in weeks after the first |
| RecurringScheduler.MonthlyPoints | apps/api/src/modules/recurring-task-templates/recurring-task-templates.service.ts:177-199 | Monthly, point k is k times the interval in months after the first, while the months before it have the day |
| RecurringScheduler.SmallIntervals | apps/api/src/modules/recurring-task-templates/recurring-task-templates.service.ts:177-199 | A schedule with an interval below one is the schedule with interval one |
| RecurringScheduler.DayPointsExact | apps/api/src/modules/recurring-task-templates/recurring-task-templates.service.ts:177-199 | Daily and weekly schedules never drift: point k is exactly k periods after the first |
| RecurringScheduler.MonthPointsExact | apps/api/src/modules/recurring-task-templates/recurring-task-templates.service.ts:177-199 | While every month visited has the day, point k is the plain shift by k intervals of months |
| RecurringScheduler.MonthlyKeepsDayIff | apps/api/src/modules/recurring-task-templates/recurring-task-templates.service.ts:177-199 | A monthly schedule keeps its day of the month throughout if and only if every month it aims at has that day |
| RecurringScheduler.SameDateIff | apps/api/src/modules/recurring-task-templates/recurring-task-templates.service.ts:177-199 | The k-th point is on the day of the month of the first if and only if every month up to it has that day |
| RecurringScheduler.DriftIsForever | apps/api/src/modules/recurring-task-templates/recurring-task-templates.service.ts:177-199 | From the first month that is too short on, the schedule stays on one day, among the first three of the month |
| RecurringScheduler.MonthlyDriftOccurs | apps/api/src/modules/recurring-task-templates/recurring-task-templates.service.ts:177-199 | A schedule that starts on 31 January 2026 goes on to 3 March and then 3 April |
| RecurringScheduler.TicksCatchUp | apps/api/src/modules/recurring-task-templates/recurring-task-templates.service.ts:15-35 | Repeated ticks at a fixed time, none failing, end with no template due, whatever batches of fifty the query returns |
| RecurringScheduler.TasksFollowSchedule | apps/api/src/modules/recurring-task-templates/recurring-task-templates.service.ts:37-175 | Over any run of firings of any templates, at any times, failing or not, among any user requests, a template stands at its n-th schedule point after passing n points, none beyond its end, and its tasks number n less the points passed while its project had no live status |
| RecurringScheduler.PassingAdvances | apps/api/src/modules/recurring-task-templates/recurring-task-templates.service.ts:89-105 | A firing that passes a point moves the template on by its interval, notes the time, and leaves it active exactly when the new point is within its end |
| RecurringScheduler.PassingAdds | apps/api/src/modules/recurring-task-templates/recurring-task-templates.service.ts:107-149 | While a status exists such a firing adds exactly one task with the template's content, next key and starting status |
| RecurringScheduler.NothingMissedIff | apps/api/src/modules/recurring-task-templates/recurring-task-templates.service.ts:69-105 | No task is missing if and only if every firing that passed a schedule point found a live status |
| RecurringScheduler.MissedTaskOccurs | apps/api/src/modules/recurring-task-templates/recurring-task-templates.service.ts:95-105 | A due template in a project without a status passes its point and makes no task |
| RecurringScheduler.CaughtUpCount | apps/api/src/modules/recurring-task-templates/recurring-task-templates.service.ts:37-175 | A template that had a live status whenever it was fired and is not due at a time has made exactly one task per schedule point up to that time and its end |
| RecurringScheduler.PointsUpToIs | apps/api/src/modules/recurring-task-templates/recurring-task-templates.service.ts:177-199 | The count of points up to a limit is n exactly between point n-1 and point n |
| RecurringScheduler.FreshIdSucceeds | apps/api/src/modules/recurring-task-templates/recurring-task-templates.service.ts:104-133 | In a state satisfying the invariant a template's transaction never fails under a fresh id |
| RecurringScheduler.FreshBatchSucceeds | apps/api/src/modules/recurring-task-templates/recurring-task-templates.service.ts:15-35 | In a state satisfying the invariant no firing of a batch with fresh distinct ids fails |
| RecurringScheduler.ProcessKeepsInv | apps/api/src/modules/recurring-task-templates/recurring-task-templates.service.ts:37-175 | A firing keeps the task engine's invariant |
| RecurringScheduler.RecurringService.ProcessTemplate | apps/api/src/modules/recurring-task-templates/recurring-task-templates.service.ts:37-175 | One template's transaction equals one firing of the schedule model, for every error path |
| RecurringScheduler.RecurringService.ProcessDueTemplates | apps/api/src/modules/recurring-task-templates/recurring-task-templates.service.ts:15-35 | A tick equals the firings of its batch in order; with fresh ids on tables satisfying the invariant it is a tick in which nothing fails, as catching up requires |
| BusinessDays.BusinessDaysBetweenInclusive | apps/api/src/modules/kpi-dashboard/kpi-math.util.ts:19-43 | The day-by-day loop terminates and returns five per full week plus the remainder count by weekday, for every pair of instants |
| BusinessDays.ClosedFormAdditive | apps/api/src/modules/kpi-dashboard/kpi-math.util.ts:23-43 | Adjoining ranges add up, wherever they are cut |
| BusinessDays.CountIsClosedForm | apps/api/src/modules/kpi-dashboard/kpi-math.util.ts:31-40 | Counting day by day equals the closed form |
| BusinessDays.KnownWeekDays | apps/api/src/modules/kpi-dashboard/kpi-math.util.ts:31-36 | The epoch and 1 January 2026 are Thursdays, and weekdays follow each other |
| BusinessDays.KnownWeek | apps/api/src/modules/kpi-dashboard/kpi-math.util.ts:23-43 | Monday to Friday of a known week count one each, its weekend nothing |
| LeaveAccrual.Service.EnsureAccrualLedgerForYear | apps/api/src/modules/leave/leave.service.ts:538-606 | The nested loops upsert exactly the rows of the accrual specification |
| LeaveAccrual.AfterPoliciesRows | apps/api/src/modules/leave/leave.service.ts:546-606 | Exactly the months up to the clock of the accruing policies are written, each with its amount; every other row stays |
| LeaveAccrual.AccrualWrites | apps/api/src/modules/leave/leave.service.ts:531-606 | A past year is written in full, the current one up to the month, a future one not at all; an override replaces the policy's amount; months before the joining month hold zero, later ones the full amount; all other rows stay |
| LeaveAccrual.EnsureIdempotent | apps/api/src/modules/leave/leave.service.ts:538-606 | Accruing again with the same setup at the same or an earlier clock changes nothing |
| LeaveAccrual.JoiningMonthShare | apps/api/src/modules/leave/leave.service.ts:567-576 | The joining month accrues the share of its days from the joining date on, within the two roundings, and all of it for a joiner on the first |
| LeaveAccrual.AmountBounds | apps/api/src/modules/leave/leave.service.ts:564-580 | Every month accrues between nothing and the monthly amount |
| LeaveAccrual.YearTotal | apps/api/src/modules/leave/leave.service.ts:492-607 | After any run of accruals, in any order of clocks, the year's total is the prorated joining month plus full months up to the furthest month reached, between nothing and twelve monthly amounts |
| LeaveAccrual.TotalNeverFalls | apps/api/src/modules/leave/leave.service.ts:492-607 | A further accrual, at any clock, never lowers the year's total |
| Rounding.RoundNegated | apps/api/src/modules/time-entries/time-entries.service.ts:729-746 | Rounding to cents is symmetric around zero |
| Rounding.RoundTies | apps/api/src/modules/time-entries/time-entries.service.ts:729-746 | Ties are rounded away from zero |
| TimeLedger.SnapshotNearExact | apps/api/src/modules/time-entries/time-entries.service.ts:729-746 | Labor, overhead and total of a row are each within half a cent of their exact values |
| TimeLedger.ReachableEntryOk | apps/api/src/modules/time-entries/time-entries.service.ts:192-292 | In every reachable ledger an adjustment is non-zero and belongs to the user, project and day of an earlier row; work is positive |
| TimeLedger.CreateEntryAdds | apps/api/src/modules/time-entries/time-entries.service.ts:76-102 | A created entry is one row at the end with the given user, project, day, hours and source, work without a parent, priced at its rate |
| TimeLedger.CreateEntryAcceptedIff | apps/api/src/modules/time-entries/time-entries.service.ts:39-75 | An entry is accepted exactly for positive hours, a source of its own, an open day, access, a fitting task, hours within the cap and a known price; only missing access or a missing project is "not found" |
| TimeLedger.AdjustEntryAdds | apps/api/src/modules/time-entries/time-entries.service.ts:243-269 | An adjustment adds its signed hours to the user, project and day of the entry it names |
| TimeLedger.AdjustEntryAcceptedIff | apps/api/src/modules/time-entries/time-entries.service.ts:192-242 | An adjustment is accepted exactly for non-zero hours, an existing entry with access, an open day or an unexpired unlock, hours within the cap and a known price |
| TimeLedger.BulkItemAdds | apps/api/src/modules/time-entries/time-entries.service.ts:518-546 | A bulk line adds the hours it names to the user, project and day it names |
| TimeLedger.BulkItemAcceptedIff | apps/api/src/modules/time-entries/time-entries.service.ts:460-516 | A bulk line is written exactly for positive hours, an open day, access, a fitting user and task, hours within the cap and a known price |
| TimeLedger.BulkRequestWrites | apps/api/src/modules/time-entries/time-entries.service.ts:441-593 | A bulk request writes nothing without permission; otherwise each line is tried on what the lines before it left, and a refused line leaves it as it is |
| TimeLedger.UnlockEntryAdds | apps/api/src/modules/time-entries/time-entries.service.ts:294-343 | An unlock without expiry is added exactly for an existing entry with access |
| TimeLedger.DayTotalAppend | apps/api/src/modules/time-entries/time-entries.service.ts:671-697 | The hours of a day are the sum over the rows of that user and day |
| TimeLedger.ReversalCancels | apps/api/src/modules/time-entries/time-entries.service.ts:729-746 | An adjustment by minus the hours at the same rate and overhead negates every cost figure of the row |
| TimeLedger.ReversalRestoresSums | apps/api/src/modules/time-entries/time-entries.service.ts:192-292 | A row and its reversal at the same rate leave every sum as if neither were there, whatever rows come before, between and after |
| TimeLedger.NobodyExceedsCap | apps/api/src/modules/time-entries/time-entries.service.ts:671-697 | Over any run of create, adjust, unlock and bulk requests nobody's signed hours on a day exceed the cap, across all projects |
| TimeLedger.LedgerAppendOnly | apps/api/src/modules/time-entries/time-entries.service.ts:39-343 | No request ever changes or removes a row |
| TimeLedger.ViewsAgreeWithinCents | apps/api/src/modules/time-entries/time-entries.service.ts:381-428 | Over any selection of rows of any reachable ledger, the summary's total and labor plus overhead differ by at most one cent per row |
| TimeLedger.CentGapOccurs | apps/api/src/modules/time-entries/time-entries.service.ts:729-746 | The cent of difference does occur for a row |
| TimeLedger.GroupingConserves | apps/api/src/modules/time-entries/time-entries.service.ts:381-428 | Grouping rows by day conserves hours, labor, overhead and totals exactly |
| TimeLedger.SumAppend | apps/api/src/modules/time-entries/time-entries.service.ts:389-409 | Each figure of a report is the sum of its own column, a stored total of zero being read as labor plus overhead |
| TimeEntriesService.GetSummary | apps/api/src/modules/time-entries/time-entries.service.ts:345-443 | The days are exactly those with rows, in date order, each shows the sums of its own rows, and the totals are the plain sums over all rows |
| TimeEntriesService.Service.ManagerBulkCreate | apps/api/src/modules/time-entries/time-entries.service.ts:441-593 | Created plus failed is the number of lines, the error indices are exactly the failing lines in increasing order, the rows added are the created lines plus the late failures, and they are exactly the created lines if and only if no line fails after its insertion |
| TimeLedger.NoLateFailuresIff | apps/api/src/modules/time-entries/time-entries.service.ts:518-580 | The number of late failures is zero exactly when every line whose row is written also passes what follows |
| TimeLedger.LateFailureOccurs | apps/api/src/modules/time-entries/time-entries.service.ts:518-580 | A request of one line that is reported as failed and adds a row |
| TimeEntriesService.Service.CreateTimeEntry | apps/api/src/modules/time-entries/time-entries.service.ts:39-121 | Appends one priced row under the lock, access and cap checks, or changes nothing; an error leaves a row behind exactly when the audit or budget evaluation after the insertion throws |
| TimeEntriesService.Service.AdjustTimeEntry | apps/api/src/modules/time-entries/time-entries.service.ts:192-292 | Appends one signed row to the parent's user, project and day, or changes nothing, with the same late error |
| TimeEntriesService.Service.UnlockTimeEntry | apps/api/src/modules/time-entries/time-entries.service.ts:294-343 | Adds an unlock and no ledger row |
| ProjectCosting.CalculateComponents | apps/api/src/common/services/project-costing.service.ts:33-141 | Labor, overhead, project costs and burn are the exact sums over the rows, and the overhead percentage and the utilisation their rounded ratios; a missing project is an error |
| ProjectCosting.PercentGivesOverhead | apps/api/src/common/services/project-costing.service.ts:118-119 | The percentage shown, applied to the labor, gives back the overhead to within half a hundredth of a percent of the labor |
| ProjectCosting.PercentWithoutLabor | apps/api/src/common/services/project-costing.service.ts:118-119 | Without labor the project's own percentage is shown, or zero |
| ProjectCosting.BurnAppend | apps/api/src/common/services/project-costing.service.ts:96-120 | A time entry adds its labor and overhead to the burn, a cost its amount |
| ProjectCosting.UtilizationIs | apps/api/src/common/services/project-costing.service.ts:125-128 | The utilisation is the percentage of the budget that makes up the burn |
| ProjectCosting.GetDailyCostBreakdown | apps/api/src/common/services/project-costing.service.ts:143-260 | One row per day that has entries or costs, in date order, adding up to exactly the burn of the components view; a missing project is an error |
| ProjectCosting.CostGroupingConserves | apps/api/src/common/services/project-costing.service.ts:236-246 | Grouping cost rows by day conserves their sum |
| BudgetAlerts.Service.EvaluateProjectBudget | apps/api/src/common/services/budget-alerts.service.ts:26-85 | From the components of the recorded rows, the threshold loop raises what the specification says, and throws exactly when the project is gone or an audit call stops it midway |
| BudgetAlerts.RunKeepsInv | apps/api/src/common/services/budget-alerts.service.ts:26-85 | Over any run, interrupted or not, alerts are distinct thresholds, downward closed, and never taken back |
| BudgetAlerts.AlertsMatchPeak | apps/api/src/common/services/budget-alerts.service.ts:12-16 | Over complete evaluations the alerts are exactly the thresholds at or below the largest utilisation so far |
| BudgetAlerts.RaisedIff | apps/api/src/common/services/budget-alerts.service.ts:26-85 | Over any run of evaluations, interrupted or not and of whatever budgets, an alert is raised exactly when some evaluation was due for it and no failing audit record ended it first |
| BudgetBook.AlertRaisedIff | apps/api/src/common/services/budget-alerts.service.ts:26-85 | Over any run of time entries, added costs, approvals and project changes, an alert is raised exactly when a step that evaluates found the recorded costs at the threshold |
| BudgetBook.AlertsMatchRecordIff | apps/api/src/modules/time-entries/time-entries.service.ts:103-118 | No alert is raised that the recorded costs never reached, and one they reached is missing exactly when no step after which they stood at the threshold evaluated that far |
| BudgetBook.AlertsMatchRecord | apps/api/src/modules/projects/projects.service.ts:431-455 | When every step that changes what is recorded of the project also evaluates to the end, the alerts are exactly the thresholds ever reached |
| BudgetBook.ApprovalGoesUnnoticed | apps/api/src/modules/approvals/approvals.service.ts:515-543 | A run in which an approved expense passes a threshold unnoticed until the next added cost |
| BudgetBook.BulkIsItsLines | apps/api/src/modules/time-entries/time-entries.service.ts:441-593 | A bulk request writes what its lines write one by one |
| BudgetBook.LedgerIsRun | apps/api/src/modules/time-entries/time-entries.service.ts:39-121 | The recorded ledger is the ledger of the run of its time entry requests |
| BudgetBook.BookCosts | apps/api/src/modules/projects/projects.service.ts:431-455 | The recorded costs are those added by hand and those of approved expenses, in order |
| BudgetAlerts.ShownUtilizationIff | apps/api/src/common/services/budget-alerts.service.ts:39-57 | The rounded utilisation is at a threshold exactly when its alert is due, except in the last half hundredth of a percent below the threshold |
| BudgetAlerts.ShownUtilizationMisleads | apps/api/src/common/services/budget-alerts.service.ts:39-57 | 79.996 percent is shown as 80.00 and raises nothing |
| Approvals.ApproverEligible | apps/api/src/modules/approvals/approvals.service.ts:555-632 | The approver is never the requester: a lead from a team of theirs if there is one, else a super admin; resolution fails exactly when there is neither |
| Approvals.ApproverIsOldest | apps/api/src/modules/approvals/approvals.service.ts:555-632 | The approver is the user of the oldest eligible lead row, else of the oldest eligible super admin row |
| Approvals.Service.ResolveApproverId | apps/api/src/modules/approvals/approvals.service.ts:555-632 | The two loops return the oldest eligible role row |
| Approvals.ReachableStatusesAgree | apps/api/src/modules/approvals/approvals.service.ts:269-375 | In every serial run request, step and target carry the same status and the actor is never the requester |
| Approvals.ReachableCostsOwned | apps/api/src/modules/approvals/approvals.service.ts:490-544 | In every serial run exactly the approved expenses own a project cost, of their project and amount, shared with no other |
| Approvals.ResolvedStays | apps/api/src/modules/approvals/approvals.service.ts:276-300 | A resolved request and its target never change again |
| Approvals.CostsAreHandPlusApproved | apps/api/src/modules/approvals/approvals.service.ts:517-543 | Over any serial run a project's costs are what was added by hand plus exactly the approved expenses |
| Approvals.CostsAreHandPlusSubmitted | apps/api/src/modules/approvals/approvals.service.ts:517-543 | The same with the amounts and projects as they were submitted |
| Approvals.TargetsAreSubmissions | apps/api/src/modules/expenses/expenses.service.ts:227-240 | In every serial run the targets are the submissions, each with the kind, owner, project, amount and correction it was submitted with |
| Approvals.SubmissionStores | apps/api/src/modules/expenses/expenses.service.ts:227-257 | A submission stores its claim as given, pending, with a pending request at the resolved approver, and nothing else |
| Approvals.SubmissionRefused | apps/api/src/modules/attendance/attendance.service.ts:309-338 | A correction of a missing or foreign day, or that does not end after it starts, stores nothing |
| Approvals.ActDecides | apps/api/src/modules/approvals/approvals.service.ts:322-375 | A decision writes one pending request and step, its target, and for an approved expense one cost of its project and amount, and nothing else |
| Approvals.DecisionAcceptedIff | apps/api/src/modules/approvals/approvals.service.ts:269-375 | In every state satisfying the invariant a decision is accepted exactly when the request is pending and the actor, not the requester, is a super admin or the assigned approver leading a team of the requester: writing the target never fails |
| Approvals.Service.ActOnApproval | apps/api/src/modules/approvals/approvals.service.ts:269-375 | Step, request, target and what the decision brings along (cost, attendance day, correction event) are written together or not at all |
| Approvals.ApprovalCorrectsDay | apps/api/src/modules/approvals/approvals.service.ts:405-457 | Approving a regularization leaves a day of its requester with the corrected times and the late and early minutes they mean under the tenant's office hours, and touches no other day |
| Approvals.EventsMatchCorrections | apps/api/src/modules/approvals/approvals.service.ts:389-457 | Over every serial run each attendance day has exactly one correction event per approved regularization of it |
| Approvals.Service.AddProjectCosts | apps/api/src/modules/projects/projects.service.ts:414-461 | Refuses items in another currency and writes nothing, otherwise appends one cost row per item to the project, in order |
| Attendance.LateByTheClock | apps/api/src/modules/approvals/approvals.service.ts:689-700 | Lateness is the minutes of the clock past opening, never negative |
| Attendance.EarlyByTheClock | apps/api/src/modules/approvals/approvals.service.ts:702-716 | Leaving early is the full minutes left before closing, never negative |
| Attendance.ParseTimeReads | apps/api/src/modules/approvals/approvals.service.ts:718-733 | Two readable parts around a colon are hours and minutes when in range; everything else is half past nine |
| Attendance.MalformedEndHidesEarlyLeaving | apps/api/src/modules/approvals/approvals.service.ts:664-733 | A closing time that is no time text is read as half past nine, so that nobody who stays later has left early |
| Approvals.Service.CreateApproval | apps/api/src/modules/approvals/approvals.service.ts:37-121 | One pending request per target, an existing one being returned unchanged |
| Approvals.Service.SubmitTarget | apps/api/src/modules/expenses/expenses.service.ts:227-257 | The target is stored pending before its approval and stays when no approver is found, which is the error returned |
| Approvals.ReachableCorrections | apps/api/src/modules/attendance/attendance.service.ts:309-362 | After any run every stored correction is of an existing day of its requester and ends after it starts |
| Notifications.ReachableEventStatus | apps/api/src/modules/notifications/notifications.service.ts:428-458 | After every request of every serial run an event with deliveries shows their aggregate, and its attempts are the sum of theirs |
| Notifications.SentAtMostOnce | apps/api/src/modules/notifications/notifications.service.ts:212-297 | However jobs repeat, an open delivery is handed to a wanted channel that takes it at most once, and exactly when it ends SENT; SENT and SKIPPED rows never change again |
| Notifications.JobOutcome | apps/api/src/modules/notifications/notifications.service.ts:212-297 | A job of an open delivery ends it SKIPPED, SENT or FAILED exactly by the user's preference for the channel and the provider's answer, counts one attempt, and leaves all other rows alone |
| Notifications.JobIdle | apps/api/src/modules/notifications/notifications.service.ts:228-232 | A job of a missing, sent or skipped delivery changes nothing |
| Notifications.ReachableEventReads | apps/api/src/modules/notifications/notifications.service.ts:428-458 | After any run an event reads PENDING while a delivery waits, FAILED when none waits and one has failed, and SENT otherwise |
| Notifications.EmitKnown | apps/api/src/modules/notifications/notifications.service.ts:299-330 | Emitting a key seen before changes nothing |
| Notifications.EmitFailsIff | apps/api/src/modules/notifications/notifications.service.ts:299-383 | A new event gets one waiting delivery per channel and fails exactly when a channel is listed twice; keys of different events never clash |
| Notifications.Service.CreateOrGet | apps/api/src/modules/notifications/notifications.service.ts:299-383 | The loop with rollback carries out the request semantics: all deliveries or nothing |
| Notifications.Service.ProcessJob | apps/api/src/modules/notifications/notifications.service.ts:212-297 | One job updates its delivery and its event as the request semantics say, and rethrows exactly when this attempt failed |
| Notifications.Service.RefreshEventStatus | apps/api/src/modules/notifications/notifications.service.ts:428-458 | The three flags of the scan give the aggregate status and processing time |
| DocumentChunking.Chunk | apps/api/src/modules/documents/document-chunking.service.ts:5-27 | For all integer sizes the loop terminates and returns the trimmed, non-empty windows in order |
| DocumentChunking.WindowsRebuild | apps/api/src/modules/documents/document-chunking.service.ts:13-25 | Neighbouring windows share exactly the overlap, and dropping that prefix from every later window gives back the text |
| DocumentChunking.DocumentKept | apps/api/src/modules/documents/document-chunking.service.ts:5-27 | The windows rebuild the normalised text, which has every visible character of the document |
| DocumentChunking.ReplaceCrLfPair | apps/api/src/modules/documents/document-chunking.service.ts:6-6 | A carriage return and line feed become one line feed, wherever they stand |
| DocumentChunking.ReplaceCrLfKeeps | apps/api/src/modules/documents/document-chunking.service.ts:6-6 | A text without such a pair is left as it is |
| DocumentChunking.NormalizeIs | apps/api/src/modules/documents/document-chunking.service.ts:6-6 | Normalising then removes a leading and a trailing run of white space and nothing else |
| DocumentChunking.ChunksLoseOnlySpace | apps/api/src/modules/documents/document-chunking.service.ts:17-26 | Trimming and filtering lose no visible character |
| DocumentChunking.WindowCount | apps/api/src/modules/documents/document-chunking.service.ts:13-25 | The number of windows is one plus the rest of the text divided by the step, rounded up |
| DocumentChunking.WindowsAreRanges | apps/api/src/modules/documents/document-chunking.service.ts:13-25 | Each window is the text at a range of positions, for all settings |
| DocumentChunking.CoverageIff | apps/api/src/modules/documents/documents.service.ts:31-40 | Exactly which sizes and overlaps cover every unit |
| DocumentChunking.GuardedSettingsLoseText | apps/api/src/modules/documents/documents.service.ts:33-37 | A setting with the overlap below the size that leaves a unit in no window |
| OfficeNetwork.FoldIsValue | apps/api/src/modules/office-policy/office-policy.service.ts:230-235 | The fold of signed 32-bit shifts equals the base-256 value for every address |
| OfficeNetwork.FoldGoesNegative | apps/api/src/modules/office-policy/office-policy.service.ts:230-235 | The fold does pass through a negative number |
| OfficeNetwork.MatchIsSameBlock | apps/api/src/modules/office-policy/office-policy.service.ts:211-228 | For every prefix length 0 to 32, shift-and-mask matching is equality after division by the block size |
| OfficeNetwork.ShiftBy32Keeps | apps/api/src/modules/office-policy/office-policy.service.ts:224-226 | A shift by 32 would leave the full mask, so the zero prefix needs its own case |
| OfficeNetwork.LongerPrefixNests | apps/api/src/modules/office-policy/office-policy.service.ts:211-228 | A longer prefix's block lies inside the shorter one's |
| Text16.SplitJoin | apps/api/src/modules/office-policy/office-policy.service.ts:198-209 | Splitting a text is undone by joining, and no part holds the separator |
| OfficeNetwork.RuleMatchesIff | apps/api/src/modules/office-policy/office-policy.service.ts:211-228 | A rule text matches exactly when it is the same text as the address, or a readable block that holds the address |
| OfficeNetwork.AddressOfParts | apps/api/src/modules/office-policy/office-policy.service.ts:198-235 | Four dotted parts are an address exactly when each reads as a number up to 255, and its number is their value in base 256, the first counting most |
| OfficeNetwork.BareRuleIsBlock32 | apps/api/src/modules/office-policy/office-policy.service.ts:211-228 | A bare address matches no more than the same address as a block of length 32 |
| OfficeNetwork.NormalizeIpIff | apps/api/src/modules/office-policy/office-policy.service.ts:184-196 | A normalised address is exactly an IPv4 address without a colon that is the trimmed input or what follows its last colon |
| Text16.SplitLast | apps/api/src/modules/office-policy/office-policy.service.ts:184-196 | The last part of a split text is what follows the last separator |
| OfficeNetwork.CheckPolicy | apps/api/src/modules/office-policy/office-policy.service.ts:145-182 | From address and rule texts: the first matching active rule in creation order is returned, access is refused exactly when none matches, and without a readable address there is an error |

## Left out

- Overlapping requests and database faults: checks are often read outside the write transaction, so every result is about serial requests.
- Roles, team scopes and visibility filters: opaque outcomes, except the rules of approvals and the ban on approving one's own request.
- Floating point: hours are whole quarter hours, money whole cents, rates and percentages exact reals; the tolerance of the quarter-hour check, `NaN` and malformed cost snapshots are not modelled.
- Id generation: new ids are inputs, not empty; a repeated id is refused like any unique key.
- TasksService.Service.UpdateTask: the lookups of assignee and milestone are answers from outside these tables, the texts of a task are kept by name, and no acyclic subtask tree is claimed, because the code only rules out a task as its own parent.
- TasksService.Service.Bulk: tasks are taken in request order, the order of the database's answer being unspecified.
- TasksService.Service.MarkByMessage: the task is given by id (keys are unique) and the sender by user id; parsing, the mapping of phone numbers to users, dry runs and reply texts are not modelled.
- TasksService.Service.Generate: the order of equal rows in the status query is the database's choice, so the query's answer is an input constrained to a possible first row.
- Project updates other than deletion, project code normalisation (codes are any non-empty string), and team membership.
- TimeEntriesService.Service.ManagerBulkCreate: the audit record of the whole request, after the last line, is not modelled; when it fails there is no report.
- TimeEntriesService.Service.UnlockTimeEntry: unlocks have no expiry when created, as in the code; the expiry that the check honours is modelled.
- BudgetAlerts.AlertsMatchPeak: stated for evaluations that see a positive budget and complete; RaisedIff covers all others.
- Approvals.Service.ActOnApproval: reasons and times of decisions; attendance days written by checking in and out are arbitrary rows.
- Expense categories, currencies, policy caps and receipts; leave and work-from-home request validation.
- LeaveAccrual.Service.EnsureAccrualLedgerForYear: one policy per leave type is assumed (the unique key of the table); a missing user and an empty policy list write nothing.
- Leave balances, working-day leave lengths and the availability check, which ignores pending requests.
- Calendar arithmetic: the range limits of Date and the mapping of years 0 to 99 by Date.UTC.
- Notifications.Service.ProcessJob: provider calls are their outcome, and error texts and provider message ids are not kept; events created for comment mentions have no deliveries and their own processor.
- OfficeNetwork.CheckPolicy: the integer that `Number` reads from a text is a parameter, so the results hold for every way of reading numbers.
- Key and code comparison by the database collation: strings are compared exactly.
- Slack, email, WhatsApp and model provider calls, storage, queues, authentication, pagination, audit rows (their failure after a write is modelled for time entries and alerts), role seeding and the web client.
