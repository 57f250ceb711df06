/**
  Single-step approvals of expenses, leave, work-from-home and attendance
  corrections, and their effect on the project cost ledger.

  Rows of a table are numbered by position. The four kinds of approval target share
  one table; only expenses carry a project and an amount that matter.
*/
module Approvals {
  import opened Common
  import opened Attendance

  type TeamId = string
  type ProjectId = string

  datatype Kind = AttendanceRegularization | LeaveRequest | WfhRequest | Expense

  datatype Status = Pending | Approved | Rejected

  datatype Target = Target(
    kind: Kind, ownerId: UserId, claim: Claim,
    status: Status, actedById: Option<UserId>, costId: Option<nat>)

  /** What is asked for: an expense names a project and an amount, a regularization a correction. */
  datatype Claim = Claim(projectId: ProjectId, amount: int, correction: Correction)

  datatype ApprovalStep = ApprovalStep(approverId: UserId, status: Status, actedById: Option<UserId>)

  datatype ApprovalRequest = ApprovalRequest(
    kind: Kind, targetId: nat, requesterId: UserId, status: Status, step: ApprovalStep)

  datatype Cost = Cost(projectId: ProjectId, amount: int)

  /** The event a correction adds to the attendance of a user. */
  datatype CorrectionEvent = CorrectionEvent(userId: UserId, day: nat)

  datatype Db = Db(
    targets: seq<Target>, requests: seq<ApprovalRequest>, costs: seq<Cost>,
    days: seq<AttendanceDay>, events: seq<CorrectionEvent>)

  const EMPTY_DB := Db([], [], [], [], [])

  // --------------------------------------------------------------- approvers

  datatype Role = SuperAdmin | TeamLead | EndUser

  datatype Member = Member(teamId: TeamId, userId: UserId)

  datatype RoleRow = RoleRow(userId: UserId, role: Role, active: bool)

  /** Team membership, role rows in creation order, and the tenant's settings. */
  datatype Directory = Directory(members: seq<Member>, roles: seq<RoleRow>, settings: Settings)

  predicate ShareTeam(d: Directory, a: UserId, b: UserId) {
    exists m, n :: m in d.members && n in d.members && m.userId == a && n.userId == b && m.teamId == n.teamId
  }

  /** The oldest active holder of a role other than `except`, optionally only among `except`'s teammates. */
  function FirstHolder(d: Directory, rows: seq<RoleRow>, role: Role, except: UserId,
      teammatesOnly: bool): Option<UserId>
  {
    if rows == [] then None
    else if rows[0].active && rows[0].role == role && rows[0].userId != except
        && (teammatesOnly ==> ShareTeam(d, rows[0].userId, except))
    then Some(rows[0].userId)
    else FirstHolder(d, rows[1..], role, except, teammatesOnly)
  }

  function ResolveApprover(d: Directory, requester: UserId): Result<UserId> {
    var lead := FirstHolder(d, d.roles, TeamLead, requester, true);
    if lead.Some? then Success(lead.value)
    else
      var admin := FirstHolder(d, d.roles, SuperAdmin, requester, false);
      if admin.Some? then Success(admin.value) else Failure(BadRequest)
  }

  ghost predicate Holds(d: Directory, user: UserId, role: Role) {
    exists i :: 0 <= i < |d.roles| && d.roles[i] == RoleRow(user, role, true)
  }

  ghost predicate EligibleLead(d: Directory, user: UserId, requester: UserId) {
    user != requester && Holds(d, user, TeamLead) && ShareTeam(d, user, requester)
  }

  lemma {:induction false} FirstHolderFacts(d: Directory, from: nat, role: Role, except: UserId, teammatesOnly: bool)
    requires from <= |d.roles|
    ensures match FirstHolder(d, d.roles[from..], role, except, teammatesOnly)
            case Some(u) => u != except && Holds(d, u, role) && (teammatesOnly ==> ShareTeam(d, u, except))
            case None => forall i | from <= i < |d.roles| && d.roles[i].active && d.roles[i].role == role
                && d.roles[i].userId != except ::
                           teammatesOnly && !ShareTeam(d, d.roles[i].userId, except)
    decreases |d.roles| - from
  {
    if from < |d.roles| {
      var rows := d.roles[from..];
      assert rows[1..] == d.roles[from + 1..];
      FirstHolderFacts(d, from + 1, role, except, teammatesOnly);
      if rows[0].active && rows[0].role == role && rows[0].userId != except
          && (teammatesOnly ==> ShareTeam(d, rows[0].userId, except)) {
        assert d.roles[from] == RoleRow(rows[0].userId, role, true);
      }
    }
  }

  /** The approver is never the requester: an active lead from one of the requester's teams if there
      is one, otherwise an active super admin; resolution fails exactly when there is neither. */
  lemma ApproverEligible(d: Directory, requester: UserId)
    ensures match ResolveApprover(d, requester)
            case Success(a) =>
              && a != requester
              && (EligibleLead(d, a, requester)
                   || (Holds(d, a, SuperAdmin) && forall u :: !EligibleLead(d, u, requester)))
            case Failure(_) =>
              forall u :: !EligibleLead(d, u, requester) && (Holds(d, u, SuperAdmin) ==> u == requester)
  {
    assert d.roles[0..] == d.roles;
    FirstHolderFacts(d, 0, TeamLead, requester, true);
    FirstHolderFacts(d, 0, SuperAdmin, requester, false);
  }

  /** The role row at `i` makes its user an approver of the requester. */
  ghost predicate Eligible(d: Directory, i: nat, role: Role, requester: UserId) {
    && i < |d.roles| && d.roles[i].active && d.roles[i].role == role && d.roles[i].userId != requester
    && (role == TeamLead ==>
          exists m, n :: m in d.members && n in d.members && m.teamId == n.teamId
            && m.userId == d.roles[i].userId && n.userId == requester)
  }

  lemma {:induction false} FirstHolderAt(d: Directory, from: nat, role: Role, except: UserId)
    requires from <= |d.roles|
    ensures match FirstHolder(d, d.roles[from..], role, except, role == TeamLead)
            case Some(u) => exists i :: from <= i < |d.roles| && d.roles[i].userId == u && Eligible(d, i, role, except)
                              && forall j | from <= j < i :: !Eligible(d, j, role, except)
            case None => forall j | from <= j < |d.roles| :: !Eligible(d, j, role, except)
    decreases |d.roles| - from
  {
    if from < |d.roles| {
      var rows := d.roles[from..];
      assert rows[1..] == d.roles[from + 1..] && rows[0] == d.roles[from];
      FirstHolderAt(d, from + 1, role, except);
      assert Eligible(d, from, role, except)
        <==> rows[0].active && rows[0].role == role && rows[0].userId != except
             && (role == TeamLead ==> ShareTeam(d, rows[0].userId, except));
    }
  }

  /** The approver is the user of the oldest eligible lead row or, when no lead is eligible, of the oldest
      eligible super admin row; without either there is none. */
  lemma ApproverIsOldest(d: Directory, requester: UserId)
    ensures var leads := exists i: nat :: Eligible(d, i, TeamLead, requester);
            var role := if leads then TeamLead else SuperAdmin;
            match ResolveApprover(d, requester)
            case Success(u) => exists i: nat :: Eligible(d, i, role, requester) && d.roles[i].userId == u
                                 && forall j: nat | j < i :: !Eligible(d, j, role, requester)
            case Failure(e) => e == BadRequest && forall i: nat :: !Eligible(d, i, role, requester)
  {
    hide FirstHolder, Eligible;
    assert d.roles[0..] == d.roles;
    FirstHolderAt(d, 0, TeamLead, requester);
    FirstHolderAt(d, 0, SuperAdmin, requester);
    EligibleRows(d, requester);
  }

  lemma EligibleRows(d: Directory, requester: UserId)
    ensures forall i: nat, role | Eligible(d, i, role, requester) :: i < |d.roles|
  {
  }

  // --------------------------------------------------------------- requests

  function FindRequest(requests: seq<ApprovalRequest>, kind: Kind, targetId: nat): Option<nat> {
    if requests == [] then None
    else
      var last := requests[|requests| - 1];
      if last.kind == kind && last.targetId == targetId then Some(|requests| - 1)
      else FindRequest(requests[..|requests| - 1], kind, targetId)
  }

  function CreateSingleStepApproval(db: Db, d: Directory, kind: Kind, targetId: nat, requester: UserId): Result<Db> {
    var approver :- ResolveApprover(d, requester);
    if FindRequest(db.requests, kind, targetId).Some? then Success(db)
    else Success(db.(requests := db.requests +
      [ApprovalRequest(kind, targetId, requester, Pending, ApprovalStep(approver, Pending, None))]))
  }

  /** Why a correction is refused before anything is stored: its day does not exist or is another user's,
      or it does not end after it starts. */
  function CorrectionRefusal(db: Db, kind: Kind, owner: UserId, claim: Claim): Option<Error> {
    var c := claim.correction;
    if kind != AttendanceRegularization then None
    else if c.day >= |db.days| || db.days[c.day].userId != owner then Some(NotFound)
    else if c.checkOutAt <= c.checkInAt then Some(BadRequest)
    else None
  }

  function Stored(db: Db, kind: Kind, owner: UserId, claim: Claim): Db {
    db.(targets := db.targets + [Target(kind, owner, claim, Pending, None, None)])
  }

  /** Creating a target stores it first; when no approver can be found the request fails, but the
      stored target stays, pending and without an approval. */
  function Submit(db: Db, d: Directory, kind: Kind, owner: UserId, claim: Claim): Db {
    var stored := Stored(db, kind, owner, claim);
    if CorrectionRefusal(db, kind, owner, claim).Some? then db
    else match CreateSingleStepApproval(stored, d, kind, |db.targets|, owner)
    case Success(after) => after
    case Failure(_) => stored
  }

  datatype Actor = Actor(id: UserId, superAdmin: bool, teamLead: bool)

  /** The effect of a decision on its target; approving an expense creates its project cost, and approving
      a regularization rewrites its attendance day and records the correction. */
  function ApplyTargetDecision(db: Db, hours: OfficeHours, kind: Kind, targetId: nat, approve: bool,
      actor: UserId): Result<Db>
  {
    if targetId >= |db.targets| || db.targets[targetId].kind != kind then Failure(NotFound)
    else
      var t := db.targets[targetId];
      if kind == AttendanceRegularization && approve then
        var c := t.claim.correction;
        if c.day >= |db.days| then Failure(NotFound)
        else Success(db.(
          targets := db.targets[targetId := t.(status := Approved, actedById := Some(actor))],
          days := db.days[c.day := Corrected(db.days[c.day], c, hours)],
          events := db.events + [CorrectionEvent(db.days[c.day].userId, c.day)]))
      else if kind != Expense || !approve then
        Success(db.(targets :=
            db.targets[targetId := t.(status := if approve then Approved else Rejected, actedById := Some(actor))]))
      else
        var isNew := t.costId.None?;
        var costId := if isNew then |db.costs| else t.costId.value;
        Success(db.(
          costs := if isNew then db.costs + [Cost(t.claim.projectId, t.claim.amount)] else db.costs,
          targets := db.targets[targetId := t.(status := Approved, actedById := Some(actor), costId := Some(costId))]))
  }

  function Act(db: Db, d: Directory, requestId: nat, actor: Actor, approve: bool): Result<Db> {
    var _ :- Check(requestId < |db.requests|, NotFound);
    var request := db.requests[requestId];
    var _ :- Check(request.status == Pending, BadRequest);
    var _ :- Check(request.step.status == Pending, BadRequest);
    var _ :- Check(request.requesterId != actor.id, Forbidden);
    var _ :- Check(actor.superAdmin ||
      (request.step.approverId == actor.id && actor.teamLead && ShareTeam(d, actor.id, request.requesterId)),
          Forbidden);
    var next := if approve then Approved else Rejected;
    var decided := request.(status := next, step := request.step.(status := next, actedById := Some(actor.id)));
    ApplyTargetDecision(db.(requests := db.requests[requestId := decided]), ResolveOfficeHours(d.settings),
        request.kind, request.targetId, approve, actor.id)
  }

  datatype Request =
    | SubmitRequest(kind: Kind, owner: UserId, claim: Claim)
    | ActRequest(requestId: nat, actor: Actor, approve: bool)
    | RecordDayRequest(index: nat, day: AttendanceDay)
    | AddCostsRequest(toProject: ProjectId, items: seq<CostItem>, currency: string)

  /** Checking in or out adds an attendance day or rewrites one, which stays its user's. */
  function RecordDay(days: seq<AttendanceDay>, i: nat, day: AttendanceDay): seq<AttendanceDay> {
    if i < |days| then days[i := day.(userId := days[i].userId)] else days + [day]
  }

  /** A cost added by hand, in some currency. */
  datatype CostItem = CostItem(amount: int, currency: string)

  /** All items must be in the tenant's currency. */
  predicate InCurrency(items: seq<CostItem>, currency: string) {
    forall item | item in items :: item.currency == currency
  }

  function CostRows(p: ProjectId, items: seq<CostItem>): seq<Cost> {
    seq(|items|, i requires 0 <= i < |items| => Cost(p, items[i].amount))
  }

  function Step(db: Db, d: Directory, r: Request): Db {
    match r
    case SubmitRequest(kind, owner, claim) => Submit(db, d, kind, owner, claim)
    case ActRequest(id, actor, approve) => (var a := Act(db, d, id, actor, approve); if a.Success? then a.value else db)
    case RecordDayRequest(i, day) => db.(days := RecordDay(db.days, i, day))
    case AddCostsRequest(p, items, currency) =>
      if InCurrency(items, currency) then db.(costs := db.costs + CostRows(p, items)) else db
  }

  /** The directory may change between requests. */
  datatype Call = Call(directory: Directory, request: Request)

  function Run(db: Db, calls: seq<Call>): Db {
    if calls == [] then db
    else Step(Run(db, calls[..|calls| - 1]), calls[|calls| - 1].directory, calls[|calls| - 1].request)
  }

  // --------------------------------------------------------------- invariant

  /** Request, step and target agree; a decision names someone other than the requester. */
  ghost predicate RequestOk(db: Db, r: ApprovalRequest) {
    && r.targetId < |db.targets|
    && var t := db.targets[r.targetId];
       && t.kind == r.kind && t.ownerId == r.requesterId
       && r.status == r.step.status == t.status
       && r.step.actedById == t.actedById
       && (r.status == Pending <==> r.step.actedById.None?)
       && r.step.actedById != Some(r.requesterId)
  }

  /** Exactly the approved expenses own a project cost, and it has their project and amount; a correction
      is one of a day of its owner, and ends after it starts. */
  ghost predicate TargetOk(db: Db, i: nat)
    requires i < |db.targets|
  {
    var t := db.targets[i];
    && (t.costId.Some? <==> t.kind == Expense && t.status == Approved)
    && (t.costId.Some? ==>
         t.costId.value < |db.costs| && db.costs[t.costId.value] == Cost(t.claim.projectId, t.claim.amount))
    && ((forall k | 0 <= k < |db.requests| :: db.requests[k].targetId != i) ==> t.status == Pending)
    && CorrectionRefusal(db, t.kind, t.ownerId, t.claim).None?
  }

  ghost predicate Inv(db: Db) {
    && (forall k | 0 <= k < |db.requests| :: RequestOk(db, db.requests[k]))
    && (forall i | 0 <= i < |db.targets| :: TargetOk(db, i))
    && (forall j, k | 0 <= j < k < |db.requests| :: db.requests[j].targetId != db.requests[k].targetId)
    && forall i, j | 0 <= i < j < |db.targets| && db.targets[i].costId.Some? ::
         db.targets[i].costId != db.targets[j].costId
  }

  lemma {:induction false} FindRequestFacts(requests: seq<ApprovalRequest>, kind: Kind, targetId: nat)
    ensures FindRequest(requests, kind, targetId).Some?
       <==> exists k :: 0 <= k < |requests| && requests[k].kind == kind && requests[k].targetId == targetId
  {
    if requests != [] {
      FindRequestFacts(requests[..|requests| - 1], kind, targetId);
    }
  }

  lemma StoreKeepsInv(db: Db, kind: Kind, owner: UserId, claim: Claim)
    requires Inv(db) && CorrectionRefusal(db, kind, owner, claim).None?
    ensures Inv(Stored(db, kind, owner, claim))
  {
    var after := Stored(db, kind, owner, claim);
    forall k | 0 <= k < |after.requests|
      ensures RequestOk(after, after.requests[k])
    {
      assert RequestOk(db, db.requests[k]);
    }
    forall i | 0 <= i < |after.targets|
      ensures TargetOk(after, i)
    {
      if i < |db.targets| {
        assert TargetOk(db, i);
      }
    }
  }

  lemma AddRequestKeepsInv(db: Db, r: ApprovalRequest)
    requires Inv(db) && RequestOk(db, r)
    requires forall k | 0 <= k < |db.requests| :: db.requests[k].targetId != r.targetId
    ensures Inv(db.(requests := db.requests + [r]))
  {
    var after := db.(requests := db.requests + [r]);
    forall k | 0 <= k < |after.requests|
      ensures RequestOk(after, after.requests[k])
    {
      if k < |db.requests| {
        assert RequestOk(db, db.requests[k]);
      }
    }
    forall i | 0 <= i < |after.targets|
      ensures TargetOk(after, i)
    {
      assert TargetOk(db, i);
      assert forall k | 0 <= k < |db.requests| :: db.requests[k] == after.requests[k];
    }
  }

  lemma SubmitKeepsInv(db: Db, d: Directory, kind: Kind, owner: UserId, claim: Claim)
    requires Inv(db)
    ensures Inv(Submit(db, d, kind, owner, claim))
  {
    hide TargetOk, FindRequest;
    if CorrectionRefusal(db, kind, owner, claim).None? {
      var stored := Stored(db, kind, owner, claim);
      StoreKeepsInv(db, kind, owner, claim);
      assert forall k | 0 <= k < |db.requests| :: RequestOk(db, db.requests[k]);
      match ResolveApprover(d, owner) {
        case Success(approver) =>
          FindRequestFacts(stored.requests, kind, |db.targets|);
          AddRequestKeepsInv(stored,
              ApprovalRequest(kind, |db.targets|, owner, Pending, ApprovalStep(approver, Pending, None)));
        case Failure(_) =>
      }
    }
  }

  // What a decision changes: one pending request, its target, and what the target's kind brings along.
  ghost predicate Decided(db: Db, after: Db, id: nat, approve: bool, actor: UserId) {
    && id < |db.requests| && db.requests[id].targetId < |db.targets|
    && var r, i, next := db.requests[id], db.requests[id].targetId, if approve then Approved else Rejected;
       var t := db.targets[i];
       && r.status == r.step.status == Pending && r.requesterId != actor
       && after.requests == db.requests[id :=
            r.(status := next, step := r.step.(status := next, actedById := Some(actor)))]
       && i < |after.targets|
       && after.targets == db.targets[i :=
            t.(status := next, actedById := Some(actor), costId := after.targets[i].costId)]
       && |after.days| == |db.days|
       && (forall j | 0 <= j < |db.days| :: after.days[j].userId == db.days[j].userId)
       && (if t.kind == Expense && approve && t.costId.None?
           then after.costs == db.costs + [Cost(t.claim.projectId, t.claim.amount)]
               && after.targets[i].costId == Some(|db.costs|)
           else after.costs == db.costs && after.targets[i].costId == t.costId)
  }

  lemma ActDecides(db: Db, d: Directory, id: nat, actor: Actor, approve: bool)
    requires Act(db, d, id, actor, approve).Success?
    ensures id < |db.requests| && db.requests[id].targetId < |db.targets|
    ensures db.requests[id].kind == db.targets[db.requests[id].targetId].kind
    ensures Decided(db, Act(db, d, id, actor, approve).value, id, approve, actor.id)
  {
    hide ShareTeam, Corrected;
  }

  lemma ActKeepsInv(db: Db, d: Directory, id: nat, actor: Actor, approve: bool)
    requires Inv(db) && Act(db, d, id, actor, approve).Success?
    ensures Inv(Act(db, d, id, actor, approve).value)
  {
    hide Act;
    var after := Act(db, d, id, actor, approve).value;
    ActDecides(db, d, id, actor, approve);
    var target := db.requests[id].targetId;
    assert RequestOk(db, db.requests[id]);
    assert TargetOk(db, target);
    forall k | 0 <= k < |after.requests|
      ensures RequestOk(after, after.requests[k])
    {
      assert RequestOk(db, db.requests[k]);
    }
    forall i | 0 <= i < |after.targets|
      ensures TargetOk(after, i)
    {
      assert TargetOk(db, i);
      assert after.requests[id].targetId == target;
      assert forall k | 0 <= k < |db.requests| :: after.requests[k].targetId == db.requests[k].targetId;
    }
    forall i, j | 0 <= i < j < |after.targets| && after.targets[i].costId.Some?
      ensures after.targets[i].costId != after.targets[j].costId
    {
      assert TargetOk(db, i) && TargetOk(db, j);
    }
  }

  /** In a state satisfying the invariant a decision fails only for its request and its actor: it is
      accepted exactly when the request is pending and the actor, not the requester, is a super admin or
      the assigned approver leading a team of the requester. The writes to the target never fail. */
  lemma DecisionAcceptedIff(db: Db, d: Directory, id: nat, actor: Actor, approve: bool)
    requires Inv(db)
    ensures Act(db, d, id, actor, approve).Success?
       <==> && id < |db.requests| && db.requests[id].status == Pending && db.requests[id].requesterId != actor.id
            && (actor.superAdmin
                || (db.requests[id].step.approverId == actor.id && actor.teamLead
                    && ShareTeam(d, actor.id, db.requests[id].requesterId)))
  {
    hide ShareTeam, Corrected;
    if id < |db.requests| {
      assert RequestOk(db, db.requests[id]);
      assert TargetOk(db, db.requests[id].targetId);
    }
  }

  lemma AddCostsKeepsInv(db: Db, p: ProjectId, items: seq<CostItem>)
    requires Inv(db)
    ensures Inv(db.(costs := db.costs + CostRows(p, items)))
  {
    var after := db.(costs := db.costs + CostRows(p, items));
    forall k | 0 <= k < |after.requests|
      ensures RequestOk(after, after.requests[k])
    {
      assert RequestOk(db, db.requests[k]);
    }
    forall i | 0 <= i < |after.targets|
      ensures TargetOk(after, i)
    {
      assert TargetOk(db, i);
    }
  }

  lemma DaysKeepInv(db: Db, days: seq<AttendanceDay>)
    requires Inv(db) && |days| >= |db.days|
    requires forall i | 0 <= i < |db.days| :: days[i].userId == db.days[i].userId
    ensures Inv(db.(days := days))
  {
    var after := db.(days := days);
    assert forall k | 0 <= k < |db.requests| :: RequestOk(db, db.requests[k]) ==> RequestOk(after, after.requests[k]);
    assert forall i | 0 <= i < |db.targets| :: TargetOk(db, i) ==> TargetOk(after, i);
  }

  lemma {:induction false} RunKeepsInv(db: Db, calls: seq<Call>)
    requires Inv(db)
    ensures Inv(Run(db, calls))
  {
    hide Inv, Act, Submit;
    if calls != [] {
      var init, c := calls[..|calls| - 1], calls[|calls| - 1];
      RunKeepsInv(db, init);
      var before := Run(db, init);
      match c.request {
        case SubmitRequest(kind, owner, claim) => SubmitKeepsInv(before, c.directory, kind, owner, claim);
        case ActRequest(id, actor, approve) =>
          if Act(before, c.directory, id, actor, approve).Success? {
            ActKeepsInv(before, c.directory, id, actor, approve);
          }
        case RecordDayRequest(i, day) => DaysKeepInv(before, RecordDay(before.days, i, day));
        case AddCostsRequest(p, items, _) => AddCostsKeepsInv(before, p, items);
      }
    }
  }

  /** From empty tables, in every serial run: request, step and target carry the same status, and
      whoever acted was not the requester. */
  lemma ReachableStatusesAgree(calls: seq<Call>, k: nat)
    requires k < |Run(EMPTY_DB, calls).requests|
    ensures RequestOk(Run(EMPTY_DB, calls), Run(EMPTY_DB, calls).requests[k])
  {
    RunKeepsInv(EMPTY_DB, calls);
  }

  /** In every serial run exactly the approved expenses own a project cost, of their own amount and not shared. */
  lemma ReachableCostsOwned(calls: seq<Call>, i: nat, j: nat)
    requires i < |Run(EMPTY_DB, calls).targets| && j < |Run(EMPTY_DB, calls).targets|
    ensures TargetOk(Run(EMPTY_DB, calls), i)
    ensures var ts := Run(EMPTY_DB, calls).targets;
            i != j && ts[i].costId.Some? ==> ts[i].costId != ts[j].costId
  {
    RunKeepsInv(EMPTY_DB, calls);
  }

  /** In every serial run a stored correction is of an existing attendance day of its requester, and ends
      after it starts. */
  lemma ReachableCorrections(calls: seq<Call>, i: nat)
    requires i < |Run(EMPTY_DB, calls).targets| && Run(EMPTY_DB, calls).targets[i].kind == AttendanceRegularization
    ensures var db := Run(EMPTY_DB, calls);
            var t := db.targets[i];
            var c := t.claim.correction;
            c.day < |db.days| && db.days[c.day].userId == t.ownerId && c.checkInAt < c.checkOutAt
  {
    RunKeepsInv(EMPTY_DB, calls);
    assert TargetOk(Run(EMPTY_DB, calls), i);
  }

  /** A submission is refused for a correction of a day that does not exist, is another user's, or does not
      end after it starts, and then stores nothing. */
  lemma SubmissionRefused(db: Db, d: Directory, kind: Kind, owner: UserId, claim: Claim)
    requires kind == AttendanceRegularization
    requires || claim.correction.day >= |db.days| || db.days[claim.correction.day].userId != owner
             || claim.correction.checkOutAt <= claim.correction.checkInAt
    ensures Submit(db, d, kind, owner, claim) == db
  {
  }

  /** Any other submission stores its owner, project, amount and correction as they were given, pending, and
      with them a pending request of the owner at the resolved approver, if there is one; costs, days and
      events stay. */
  lemma SubmissionStores(db: Db, d: Directory, kind: Kind, owner: UserId, claim: Claim)
    requires Inv(db)
    requires kind == AttendanceRegularization ==>
               && claim.correction.day < |db.days| && db.days[claim.correction.day].userId == owner
               && claim.correction.checkInAt < claim.correction.checkOutAt
    ensures var after := Submit(db, d, kind, owner, claim);
            && after == db.(targets := after.targets, requests := after.requests)
            && after.targets == db.targets + [Target(
                 kind, owner, Claim(claim.projectId, claim.amount, claim.correction), Pending, None, None)]
            && after.requests == (match ResolveApprover(d, owner)
                 case Success(u) =>
                   db.requests + [ApprovalRequest(kind, |db.targets|, owner, Pending, ApprovalStep(u, Pending, None))]
                 case Failure(_) => db.requests)
  {
    hide ResolveApprover, FindRequest;
    FindRequestFacts(db.requests, kind, |db.targets|);
    assert forall k | 0 <= k < |db.requests| :: RequestOk(db, db.requests[k]);
  }

  datatype Submission = Submission(kind: Kind, owner: UserId, claim: Claim)

  /** What was submitted and stored in a run of calls. */
  function Submissions(calls: seq<Call>): seq<Submission> {
    if calls == [] then []
    else
      var rest, before, r := Submissions(calls[..|calls| - 1]), Run(EMPTY_DB, calls[..|calls| - 1]),
          calls[|calls| - 1].request;
      if r.SubmitRequest? && CorrectionRefusal(before, r.kind, r.owner, r.claim).None?
      then rest + [Submission(r.kind, r.owner, r.claim)] else rest
  }

  // The targets are the submissions, in order.
  ghost predicate AsSubmitted(targets: seq<Target>, submissions: seq<Submission>) {
    && |targets| == |submissions|
    && forall i | 0 <= i < |targets| ::
         Submission(targets[i].kind, targets[i].ownerId, targets[i].claim) == submissions[i]
  }

  /** In every serial run the targets are the submissions, each with the kind, owner, project, amount and
      correction it was submitted with. */
  lemma {:induction false} TargetsAreSubmissions(calls: seq<Call>)
    ensures AsSubmitted(Run(EMPTY_DB, calls).targets, Submissions(calls))
  {
    hide Submit, Act, CorrectionRefusal;
    if calls != [] {
      var init, c := calls[..|calls| - 1], calls[|calls| - 1];
      var before := Run(EMPTY_DB, init);
      TargetsAreSubmissions(init);
      match c.request {
        case SubmitRequest(kind, owner, claim) => SubmitKeepsOrder(before, c.directory, kind, owner, claim);
        case ActRequest(id, actor, approve) =>
          if Act(before, c.directory, id, actor, approve).Success? {
            ActDecides(before, c.directory, id, actor, approve);
          }
        case _ =>
      }
    }
  }

  lemma SubmitKeepsOrder(db: Db, d: Directory, kind: Kind, owner: UserId, claim: Claim)
    ensures Submit(db, d, kind, owner, claim).targets
         == if CorrectionRefusal(db, kind, owner, claim).Some? then db.targets
            else db.targets + [Target(kind, owner, claim, Pending, None, None)]
  {
    hide ResolveApprover, FindRequest;
  }

  /** The submitted amounts of the approved expenses of a project. */
  function ApprovedClaims(targets: seq<Target>, submissions: seq<Submission>, p: ProjectId): int
    requires |targets| == |submissions|
  {
    if targets == [] then 0
    else
      var n := |targets| - 1;
      ApprovedClaims(targets[..n], submissions[..n], p)
      + (if targets[n].status == Approved && submissions[n].kind == Expense && submissions[n].claim.projectId == p
         then submissions[n].claim.amount else 0)
  }

  lemma {:induction false} ApprovedAsSubmitted(targets: seq<Target>, submissions: seq<Submission>, p: ProjectId)
    requires AsSubmitted(targets, submissions)
    ensures SumApproved(targets, p) == ApprovedClaims(targets, submissions, p)
  {
    if targets != [] {
      ApprovedAsSubmitted(targets[..|targets| - 1], submissions[..|targets| - 1], p);
    }
  }

  /** A resolved request and its target never change again. */
  lemma {:induction false} ResolvedStays(db: Db, calls: seq<Call>, k: nat)
    requires Inv(db) && k < |db.requests| && db.requests[k].status != Pending
    ensures var after := Run(db, calls);
            && k < |after.requests| && after.requests[k] == db.requests[k]
            && db.requests[k].targetId < |db.targets| <= |after.targets|
            && after.targets[db.requests[k].targetId] == db.targets[db.requests[k].targetId]
  {
    assert RequestOk(db, db.requests[k]);
    if calls != [] {
      var init, c := calls[..|calls| - 1], calls[|calls| - 1];
      ResolvedStays(db, init, k);
      RunKeepsInv(db, init);
      ResolvedStaysStep(Run(db, init), c.directory, c.request, k);
    }
  }

  lemma ResolvedStaysStep(db: Db, d: Directory, r: Request, k: nat)
    requires Inv(db) && k < |db.requests| && db.requests[k].status != Pending && db.requests[k].targetId < |db.targets|
    ensures var after := Step(db, d, r);
            && k < |after.requests| && after.requests[k] == db.requests[k]
            && |db.targets| <= |after.targets|
            && after.targets[db.requests[k].targetId] == db.targets[db.requests[k].targetId]
  {
    if r.ActRequest? && Act(db, d, r.requestId, r.actor, r.approve).Success? {
      assert r.requestId != k;
      assert db.requests[r.requestId].targetId != db.requests[k].targetId;
    }
  }

  // ------------------------------------------------------------------- money

  function SumCosts(costs: seq<Cost>, p: ProjectId): int {
    if costs == [] then 0
    else
      SumCosts(costs[..|costs| - 1], p) + (if costs[|costs| - 1].projectId == p then costs[|costs| - 1].amount else 0)
  }

  function ApprovedAmount(t: Target, p: ProjectId): int {
    if t.kind == Expense && t.status == Approved && t.claim.projectId == p then t.claim.amount else 0
  }

  function SumApproved(targets: seq<Target>, p: ProjectId): int {
    if targets == [] then 0 else SumApproved(targets[..|targets| - 1], p) + ApprovedAmount(targets[|targets| - 1], p)
  }

  function SumItems(items: seq<CostItem>): int {
    if items == [] then 0 else SumItems(items[..|items| - 1]) + items[|items| - 1].amount
  }

  function AddedBy(r: Request, p: ProjectId): int {
    if r.AddCostsRequest? && r.toProject == p && InCurrency(r.items, r.currency) then SumItems(r.items) else 0
  }

  /** What a run of calls added to a project's costs by hand. */
  function AddedByHand(calls: seq<Call>, p: ProjectId): int {
    if calls == [] then 0
    else
      var r := calls[|calls| - 1].request;
      AddedByHand(calls[..|calls| - 1], p) + AddedBy(r, p)
  }

  lemma {:induction false} SumCostsRows(costs: seq<Cost>, q: ProjectId, items: seq<CostItem>, p: ProjectId)
    ensures SumCosts(costs + CostRows(q, items), p) == SumCosts(costs, p) + (if p == q then SumItems(items) else 0)
  {
    if items == [] {
      assert costs + CostRows(q, items) == costs;
    } else {
      var all := costs + CostRows(q, items);
      assert all[..|all| - 1] == costs + CostRows(q, items[..|items| - 1]);
      SumCostsRows(costs, q, items[..|items| - 1], p);
    }
  }

  lemma {:induction false} SumApprovedUpdate(targets: seq<Target>, i: nat, t: Target, p: ProjectId)
    requires i < |targets|
    ensures SumApproved(targets[i := t], p)
        == SumApproved(targets, p) - ApprovedAmount(targets[i], p) + ApprovedAmount(t, p)
  {
    if i < |targets| - 1 {
      assert targets[i := t][..|targets| - 1] == targets[..|targets| - 1][i := t];
      SumApprovedUpdate(targets[..|targets| - 1], i, t, p);
    } else {
      assert targets[i := t][..|targets| - 1] == targets[..|targets| - 1];
    }
  }

  // Deciding a target and booking its cost moves both sums by the same amount.
  lemma DecisionConservesMoney(db: Db, hours: OfficeHours, kind: Kind, id: nat, approve: bool, actor: UserId,
      p: ProjectId)
    requires id < |db.targets| && db.targets[id].status == Pending && db.targets[id].costId.None?
    requires ApplyTargetDecision(db, hours, kind, id, approve, actor).Success?
    ensures var after := ApplyTargetDecision(db, hours, kind, id, approve, actor).value;
            SumCosts(after.costs, p) - SumApproved(after.targets, p)
                == SumCosts(db.costs, p) - SumApproved(db.targets, p)
  {
    var after := ApplyTargetDecision(db, hours, kind, id, approve, actor).value;
    SumApprovedUpdate(db.targets, id, after.targets[id], p);
    if |after.costs| > |db.costs| {
      assert after.costs[..|db.costs|] == db.costs;
    }
  }

  lemma SubmitConservesMoney(db: Db, d: Directory, kind: Kind, owner: UserId, claim: Claim, p: ProjectId)
    ensures var after := Submit(db, d, kind, owner, claim);
            SumCosts(after.costs, p) == SumCosts(db.costs, p)
                && SumApproved(after.targets, p) == SumApproved(db.targets, p)
  {
    hide ResolveApprover, FindRequest;
    assert Submit(db, d, kind, owner, claim).targets[..|db.targets|] == db.targets;
  }

  lemma StepConservesMoney(db: Db, d: Directory, r: Request, p: ProjectId)
    requires Inv(db)
    ensures var after := Step(db, d, r);
            SumCosts(after.costs, p) - SumApproved(after.targets, p)
            == SumCosts(db.costs, p) - SumApproved(db.targets, p)
               + AddedBy(r, p)
  {
    hide SumCosts, SumApproved, SumItems, Submit, ApplyTargetDecision, ShareTeam;
    match r {
      case RecordDayRequest(_, _) =>
      case AddCostsRequest(q, items, _) => SumCostsRows(db.costs, q, items, p);
      case SubmitRequest(kind, owner, claim) => SubmitConservesMoney(db, d, kind, owner, claim, p);
      case ActRequest(id, actor, approve) =>
        if Act(db, d, id, actor, approve).Success? {
          var request := db.requests[id];
          assert RequestOk(db, request) && TargetOk(db, request.targetId);
          var next := if approve then Approved else Rejected;
          var decided := request.(status := next, step := request.step.(status := next, actedById := Some(actor.id)));
          DecisionConservesMoney(db.(requests := db.requests[id := decided]), ResolveOfficeHours(d.settings),
              request.kind, request.targetId, approve, actor.id, p);
        }
    }
  }

  /** Money is conserved per project over every serial run: the project costs are what was added by
      hand plus exactly the amounts of the approved expenses. */
  lemma {:induction false} CostsAreHandPlusApproved(calls: seq<Call>, p: ProjectId)
    ensures var db := Run(EMPTY_DB, calls);
            SumCosts(db.costs, p) == AddedByHand(calls, p) + SumApproved(db.targets, p)
  {
    if calls != [] {
      var init := calls[..|calls| - 1];
      CostsAreHandPlusApproved(init, p);
      RunKeepsInv(EMPTY_DB, init);
      StepConservesMoney(Run(EMPTY_DB, init), calls[|calls| - 1].directory, calls[|calls| - 1].request, p);
    }
  }

  /** So the project costs are what was added by hand plus the submitted amounts of exactly those submitted
      expenses that are approved. */
  lemma CostsAreHandPlusSubmitted(calls: seq<Call>, p: ProjectId)
    ensures var db := Run(EMPTY_DB, calls);
            && |db.targets| == |Submissions(calls)|
            && SumCosts(db.costs, p) == AddedByHand(calls, p) + ApprovedClaims(db.targets, Submissions(calls), p)
  {
    hide Run, Submissions, SumCosts;
    CostsAreHandPlusApproved(calls, p);
    TargetsAreSubmissions(calls);
    ApprovedAsSubmitted(Run(EMPTY_DB, calls).targets, Submissions(calls), p);
  }

  // -------------------------------------------------------------- corrections

  function EventsOn(events: seq<CorrectionEvent>, day: nat): nat {
    if events == [] then 0
    else EventsOn(events[..|events| - 1], day) + (if events[|events| - 1].day == day then 1 else 0)
  }

  function ApprovedOn(t: Target, day: nat): nat {
    if t.kind == AttendanceRegularization && t.status == Approved && t.claim.correction.day == day then 1 else 0
  }

  function CorrectionsOn(targets: seq<Target>, day: nat): nat {
    if targets == [] then 0 else CorrectionsOn(targets[..|targets| - 1], day) + ApprovedOn(targets[|targets| - 1], day)
  }

  lemma {:induction false} CorrectionsUpdate(targets: seq<Target>, i: nat, t: Target, day: nat)
    requires i < |targets|
    ensures CorrectionsOn(targets[i := t], day)
        == CorrectionsOn(targets, day) - ApprovedOn(targets[i], day) + ApprovedOn(t, day)
  {
    if i < |targets| - 1 {
      assert targets[i := t][..|targets| - 1] == targets[..|targets| - 1][i := t];
      CorrectionsUpdate(targets[..|targets| - 1], i, t, day);
    } else {
      assert targets[i := t][..|targets| - 1] == targets[..|targets| - 1];
    }
  }

  lemma EventsAppend(events: seq<CorrectionEvent>, e: CorrectionEvent, day: nat)
    ensures EventsOn(events + [e], day) == EventsOn(events, day) + (if e.day == day then 1 else 0)
  {
    assert (events + [e])[..|events|] == events;
  }

  lemma DecisionRecordsCorrection(db: Db, hours: OfficeHours, kind: Kind, id: nat, approve: bool, actor: UserId,
      day: nat)
    requires id < |db.targets| && db.targets[id].status == Pending
    requires ApplyTargetDecision(db, hours, kind, id, approve, actor).Success?
    ensures var after := ApplyTargetDecision(db, hours, kind, id, approve, actor).value;
            EventsOn(after.events, day) - CorrectionsOn(after.targets, day)
                == EventsOn(db.events, day) - CorrectionsOn(db.targets, day)
  {
    hide Corrected, EventsOn, CorrectionsOn;
    var after := ApplyTargetDecision(db, hours, kind, id, approve, actor).value;
    CorrectionsUpdate(db.targets, id, after.targets[id], day);
    if |after.events| > |db.events| {
      EventsAppend(db.events, after.events[|db.events|], day);
    }
  }

  lemma SubmitRecordsNothing(db: Db, d: Directory, kind: Kind, owner: UserId, claim: Claim, day: nat)
    ensures var after := Submit(db, d, kind, owner, claim);
            after.events == db.events && CorrectionsOn(after.targets, day) == CorrectionsOn(db.targets, day)
  {
    hide ResolveApprover, FindRequest;
    assert Stored(db, kind, owner, claim).targets[..|db.targets|] == db.targets;
  }

  lemma StepRecordsCorrections(db: Db, d: Directory, r: Request, day: nat)
    requires Inv(db)
    ensures var after := Step(db, d, r);
            EventsOn(after.events, day) - CorrectionsOn(after.targets, day)
                == EventsOn(db.events, day) - CorrectionsOn(db.targets, day)
  {
    hide EventsOn, CorrectionsOn, Submit, ApplyTargetDecision, ShareTeam;
    match r {
      case SubmitRequest(kind, owner, claim) => SubmitRecordsNothing(db, d, kind, owner, claim, day);
      case ActRequest(id, actor, approve) =>
        if Act(db, d, id, actor, approve).Success? {
          var request := db.requests[id];
          assert RequestOk(db, request) && TargetOk(db, request.targetId);
          var next := if approve then Approved else Rejected;
          var decided := request.(status := next, step := request.step.(status := next, actedById := Some(actor.id)));
          DecisionRecordsCorrection(db.(requests := db.requests[id := decided]), ResolveOfficeHours(d.settings),
              request.kind, request.targetId, approve, actor.id, day);
        }
      case _ =>
    }
  }

  /** Over every serial run each attendance day has exactly one correction event per approved
      regularization of it. */
  lemma {:induction false} EventsMatchCorrections(calls: seq<Call>, day: nat)
    ensures var db := Run(EMPTY_DB, calls); EventsOn(db.events, day) == CorrectionsOn(db.targets, day)
  {
    if calls != [] {
      var init := calls[..|calls| - 1];
      EventsMatchCorrections(init, day);
      RunKeepsInv(EMPTY_DB, init);
      StepRecordsCorrections(Run(EMPTY_DB, init), calls[|calls| - 1].directory, calls[|calls| - 1].request, day);
    }
  }

  /** The corrected times, and the lateness and early leaving they have by the clock of the office. */
  ghost predicate IsCorrected(before: AttendanceDay, after: AttendanceDay, c: Correction, hours: OfficeHours) {
    && after.regularized && !after.missingCheckout && after.userId == before.userId
    && after.checkInAt == Some(c.checkInAt) && after.checkOutAt == Some(c.checkOutAt)
    && after.lateMinutes == Positive(MinuteOfDay(c.checkInAt) - hours.start)
    && after.earlyLogoutMinutes == Positive(hours.end - LastMinute(c.checkOutAt))
  }

  /** Approving a regularization leaves a day of its requester with the corrected times and what they mean
      under the office hours of the tenant's settings, and touches no other day. */
  lemma ApprovalCorrectsDay(db: Db, d: Directory, id: nat, actor: Actor)
    requires Inv(db) && Act(db, d, id, actor, true).Success?
    requires db.requests[id].kind == AttendanceRegularization
    ensures var c, after := db.targets[db.requests[id].targetId].claim.correction, Act(db, d, id, actor, true).value;
            && |after.days| == |db.days| && c.day < |db.days|
            && db.days[c.day].userId == db.requests[id].requesterId && c.checkInAt < c.checkOutAt
            && IsCorrected(db.days[c.day], after.days[c.day], c, ResolveOfficeHours(d.settings))
            && forall i | 0 <= i < |db.days| && i != c.day :: after.days[i] == db.days[i]
  {
    hide LateMinutes, EarlyLogoutMinutes, MinuteOfDay, LastMinute, ShareTeam, ResolveOfficeHours;
    assert RequestOk(db, db.requests[id]);
    assert TargetOk(db, db.requests[id].targetId);
    var c := db.targets[db.requests[id].targetId].claim.correction;
    LateByTheClock(c.checkInAt, ResolveOfficeHours(d.settings).start);
    EarlyByTheClock(c.checkOutAt, ResolveOfficeHours(d.settings).end);
  }

  // ------------------------------------------------------------ the service

  class Service {
    var targets: seq<Target>
    var requests: seq<ApprovalRequest>
    var costs: seq<Cost>
    var days: seq<AttendanceDay>
    var events: seq<CorrectionEvent>

    ghost function Tables(): Db
      reads this
    {
      Db(targets, requests, costs, days, events)
    }

    constructor ()
      ensures Tables() == EMPTY_DB
    {
      targets, requests, costs, days, events := [], [], [], [], [];
    }

    /** Team leads among the requester's teammates first, in order of their role rows, then super admins. */
    method ResolveApproverId(d: Directory, requester: UserId) returns (r: Result<UserId>)
      ensures r == ResolveApprover(d, requester)
    {
      assert d.roles[0..] == d.roles;
      for i := 0 to |d.roles|
        invariant FirstHolder(d, d.roles[i..], TeamLead, requester, true)
            == FirstHolder(d, d.roles, TeamLead, requester, true)
      {
        assert d.roles[i..][1..] == d.roles[i + 1..];
        var row := d.roles[i];
        if row.active && row.role == TeamLead && row.userId != requester && ShareTeam(d, row.userId, requester) {
          return Success(row.userId);
        }
      }
      for i := 0 to |d.roles|
        invariant FirstHolder(d, d.roles[i..], SuperAdmin, requester, false)
            == FirstHolder(d, d.roles, SuperAdmin, requester, false)
      {
        assert d.roles[i..][1..] == d.roles[i + 1..];
        var row := d.roles[i];
        if row.active && row.role == SuperAdmin && row.userId != requester {
          return Success(row.userId);
        }
      }
      return Failure(BadRequest);
    }

    method CreateApproval(d: Directory, kind: Kind, targetId: nat, requester: UserId) returns (error: Option<Error>)
      modifies `requests
      ensures CarriedOut(old(Tables()), Tables(),
          CreateSingleStepApproval(old(Tables()), d, kind, targetId, requester), error)
    {
      var approver := ResolveApproverId(d, requester);
      if approver.Failure? {
        return Some(approver.error);
      }
      var existing := exists r :: r in requests && r.kind == kind && r.targetId == targetId;
      FindRequestFacts(requests, kind, targetId);
      if existing {
        return None;
      }
      requests := requests
          + [ApprovalRequest(kind, targetId, requester, Pending, ApprovalStep(approver.value, Pending, None))];
      return None;
    }

    method SubmitTarget(d: Directory, kind: Kind, owner: UserId, claim: Claim) returns (error: Option<Error>)
      modifies this
      ensures Tables() == Submit(old(Tables()), d, kind, owner, claim)
      ensures error == (if CorrectionRefusal(old(Tables()), kind, owner, claim).Some?
                        then CorrectionRefusal(old(Tables()), kind, owner, claim)
                        else if ResolveApprover(d, owner).Success? then None else Some(BadRequest))
    {
      if kind == AttendanceRegularization {
        var c := claim.correction;
        if c.day >= |days| || days[c.day].userId != owner {
          return Some(NotFound);
        }
        if c.checkOutAt <= c.checkInAt {
          return Some(BadRequest);
        }
      }
      var targetId := |targets|;
      targets := targets + [Target(kind, owner, claim, Pending, None, None)];
      error := CreateApproval(d, kind, targetId, owner);
    }

    method ApplyDecision(hours: OfficeHours, kind: Kind, targetId: nat, approve: bool, actorId: UserId)
      returns (error: Option<Error>)
      modifies `targets, `costs, `days, `events
      ensures CarriedOut(old(Tables()), Tables(),
          ApplyTargetDecision(old(Tables()), hours, kind, targetId, approve, actorId), error)
    {
      if targetId >= |targets| || targets[targetId].kind != kind {
        return Some(NotFound);
      }
      var t := targets[targetId];
      if kind == AttendanceRegularization && approve {
        var c := t.claim.correction;
        if c.day >= |days| {
          return Some(NotFound);
        }
        targets := targets[targetId := t.(status := Approved, actedById := Some(actorId))];
        days := days[c.day := Corrected(days[c.day], c, hours)];
        events := events + [CorrectionEvent(days[c.day].userId, c.day)];
      } else if kind == Expense && approve {
        var costId := t.costId;
        if costId.None? {
          costs := costs + [Cost(t.claim.projectId, t.claim.amount)];
          costId := Some(|costs| - 1);
        }
        targets := targets[targetId := t.(status := Approved, actedById := Some(actorId), costId := costId)];
      } else {
        targets := targets[targetId :=
            t.(status := if approve then Approved else Rejected, actedById := Some(actorId))];
      }
      return None;
    }

    /** The decision transaction: step, request and target are written together or not at all. */
    method ActOnApproval(d: Directory, requestId: nat, actor: Actor, approve: bool) returns (error: Option<Error>)
      modifies this
      ensures CarriedOut(old(Tables()), Tables(), Act(old(Tables()), d, requestId, actor, approve), error)
    {
      if requestId >= |requests| {
        return Some(NotFound);
      }
      var request := requests[requestId];
      if request.status != Pending || request.step.status != Pending {
        return Some(BadRequest);
      }
      if request.requesterId == actor.id {
        return Some(Forbidden);
      }
      if !actor.superAdmin {
        if request.step.approverId != actor.id || !actor.teamLead || !ShareTeam(d, actor.id, request.requesterId) {
          return Some(Forbidden);
        }
      }
      var saved := requests;
      var nextStatus := if approve then Approved else Rejected;
      requests := requests[requestId :=
          request.(step := request.step.(status := nextStatus, actedById := Some(actor.id)))];
      requests := requests[requestId := requests[requestId].(status := nextStatus)];
      assert requests == saved[requestId :=
          request.(status := nextStatus, step := request.step.(status := nextStatus, actedById := Some(actor.id)))];
      error := ApplyDecision(ResolveOfficeHours(d.settings), request.kind, request.targetId, approve, actor.id);
      if error.Some? {
        requests := saved;
      }
    }

    method AddProjectCosts(project: ProjectId, items: seq<CostItem>, currency: string) returns (error: Option<Error>)
      modifies `costs
      ensures costs == if InCurrency(items, currency) then old(costs) + CostRows(project, items) else old(costs)
      ensures error == if InCurrency(items, currency) then None else Some(BadRequest)
    {
      for i := 0 to |items|
        invariant forall k | 0 <= k < i :: items[k].currency == currency
      {
        if items[i].currency != currency {
          return Some(BadRequest);
        }
      }
      for i := 0 to |items|
        invariant costs == old(costs) + CostRows(project, items)[..i]
      {
        costs := costs + [Cost(project, items[i].amount)];
      }
      return None;
    }
  }
}
