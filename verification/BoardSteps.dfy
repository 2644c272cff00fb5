/** The other endpoints that write a board's rows, and whole runs of requests. A refused request, whatever it
    had staged before the refusal, leaves the board as it was. */
module BoardSteps {
  import opened Wrappers
  import opened Tables
  import opened TaskUpdate

  // ----- creating and deleting tasks -----

  function NewTask(status: Status, assignee: Option<AgentId>, minutes: Option<int>, isBacklog: bool,
                   plan: Option<PlanId>): Task
  {
    Task(status, assignee, None, None, None, minutes, isBacklog, plan)
  }

  predicate PlanExists(plans: seq<Plan>, p: PlanId) {
    exists k :: 0 <= k < |plans| && plans[k].id == p
  }

  /** What an agent's creation of a task checks of the assignee, beyond a user's. */
  function NewAssigneeCheck(b: Board, assignee: Option<AgentId>): Check<Refusal> {
    if assignee.None? then Pass
    else
      var agent := FindAgent(b.agents, assignee.value);
      if agent.None? then Refuse(NotFound)
      else if agent.value.isLead then Refuse(Forbidden)
      else if agent.value.board.Some? && agent.value.board != Some(b.id) then Refuse(Conflict)
      else Pass
  }

  /** A blocked task can only be created unassigned and in the inbox. A fresh id is one no row has; the
      database holds the foreign keys to agents and plans. */
  ghost function CreateTask(b: Board, t: TaskId, task: Task, dependsOn: set<TaskId>, extras: Extra, byAgent: bool)
    : Result<Board, Refusal>
  {
    if t in b.tasks then Err(Conflict) else
    :- DependencyCheck(b.tasks, b.deps, t, dependsOn);
    :- Need(extras != Malformed, Invalid);
    :- Need(BlockedBy(b.tasks, dependsOn) == {} || (task.assignee.None? && task.status == Inbox), Conflict);
    :- if byAgent then NewAssigneeCheck(b, task.assignee) else Pass;
    :- Need(task.assignee.Some? ==> FindAgent(b.agents, task.assignee.value).Some?, Conflict);
    :- Need(task.plan.Some? ==> PlanExists(b.plans, task.plan.value), Conflict);
    Ok(b.(tasks := b.tasks[t := task], deps := WithDeps(b.deps, t, dependsOn)))
  }

  function WithoutLinks(links: seq<Link>, t: TaskId): (r: seq<Link>)
    ensures forall l :: l in r <==> l in links && l.task != t
  {
    if links == [] then []
    else (if links[0].task == t then [] else [links[0]]) + WithoutLinks(links[1..], t)
  }

  function WithoutEvents(log: seq<Event>, t: TaskId): (r: seq<Event>)
    ensures forall e :: e in r <==> e in log && e.task != t
  {
    if log == [] then []
    else WithoutEvents(log[..|log| - 1], t) + (if log[|log| - 1].task == t then [] else [log[|log| - 1]])
  }

  /** An approval whose primary task goes is re-pointed to its first remaining link, or deleted without one. */
  function Repointed(approvals: map<ApprovalId, Approval>, remaining: seq<Link>, t: TaskId): map<ApprovalId, Approval> {
    map a | a in approvals && (approvals[a].task != Some(t) || TasksOf(remaining, a) != []) ::
      if approvals[a].task == Some(t) then approvals[a].(task := Some(TasksOf(remaining, a)[0])) else approvals[a]
  }

  function Unlinked(plans: seq<Plan>, t: TaskId): (r: seq<Plan>)
    ensures |r| == |plans|
    ensures forall k :: 0 <= k < |r| ==> r[k] == if plans[k].task == Some(t) then plans[k].(task := None) else plans[k]
  {
    if plans == [] then []
    else [if plans[0].task == Some(t) then plans[0].(task := None) else plans[0]] + Unlinked(plans[1..], t)
  }

  /** Plans are unlinked by the endpoint, or by the foreign key's `SET NULL` when planning is off. */
  function DeleteTask(b: Board, t: TaskId): Result<Board, Refusal> {
    if t !in b.tasks then Err(NotFound) else
    var links := WithoutLinks(b.links, t);
    Ok(b.(tasks := b.tasks - {t},
          deps := (set p | p in b.deps && p.0 != t && p.1 != t),
          approvals := Repointed(b.approvals, links, t),
          links := links,
          plans := Unlinked(b.plans, t),
          log := WithoutEvents(b.log, t)))
  }

  // ----- approvals -----

  function Distinct(ts: seq<TaskId>): (r: seq<TaskId>)
    ensures forall x :: x in r <==> x in ts
  {
    if ts == [] then []
    else
      var rest := Distinct(ts[..|ts| - 1]);
      if ts[|ts| - 1] in rest then rest else rest + [ts[|ts| - 1]]
  }

  function LinksTo(a: ApprovalId, ts: seq<TaskId>): (r: seq<Link>)
    ensures |r| == |ts|
    ensures forall k :: 0 <= k < |r| ==> r[k] == Link(a, ts[k])
  {
    if ts == [] then [] else [Link(a, ts[0])] + LinksTo(a, ts[1..])
  }

  /** Another approval is pending for the task. */
  predicate PendingElsewhere(b: Board, t: TaskId, except: Option<ApprovalId>) {
    exists a <- b.approvals.Keys :: Some(a) != except
      && b.approvals[a].status == Pending && t in TasksNamed(b.approvals[a], TasksOf(b.links, a))
  }

  /** `named` is the payload's tasks in order, repetitions included. */
  function CreateApproval(b: Board, a: ApprovalId, named: seq<TaskId>, status: ApprovalStatus): Result<Board, Refusal> {
    var ts := Distinct(named);
    :- Need(a !in b.approvals, Conflict);
    :- Need(status != Pending || forall t <- ts :: !PendingElsewhere(b, t, None), Conflict);
    :- Need(forall t <- ts :: t in b.tasks, Conflict);
    Ok(b.(approvals := b.approvals[a := Approval(if ts == [] then None else Some(ts[0]), status)],
          links := b.links + LinksTo(a, ts)))
  }

  function UpdateApproval(b: Board, a: ApprovalId, status: ApprovalStatus): Result<Board, Refusal> {
    if a !in b.approvals then Err(NotFound) else
    var row := b.approvals[a];
    :- Need(status != Pending || row.status == Pending
            || forall t <- TasksNamed(row, TasksOf(b.links, a)) :: !PendingElsewhere(b, t, Some(a)), Conflict);
    Ok(b.(approvals := b.approvals[a := row.(status := status)]))
  }

  // ----- comments -----

  /** `allowed` is whether the comment endpoint lets this lead comment outside review. */
  function AddComment(b: Board, t: TaskId, actor: Option<AgentId>, allowed: bool, blank: bool, now: Time)
    : Result<Board, Refusal>
  {
    if t !in b.tasks then Err(NotFound) else
    :- Need(actor.Some? ==> FindAgent(b.agents, actor.value).Some?, Unauthorized);
    :- Need(actor.Some? && FindAgent(b.agents, actor.value).value.isLead ==> b.tasks[t].status == Review || allowed,
            Forbidden);
    Ok(b.(log := b.log + [Event(t, actor, Comment(blank), now)]))
  }

  // ----- plans -----

  function FindPlan(plans: seq<Plan>, p: PlanId): (k: nat)
    ensures k <= |plans|
    ensures k < |plans| ==> plans[k].id == p
    ensures k == |plans| ==> !PlanExists(plans, p)
  {
    if plans == [] || plans[0].id == p then 0 else 1 + FindPlan(plans[1..], p)
  }

  /** The plan endpoints exist only while planning is enabled. */
  function PlanIndex(b: Board, p: PlanId): (k: Result<nat, Refusal>)
    ensures k.Ok? ==> k.value < |b.plans|
  {
    var k := FindPlan(b.plans, p);
    if b.planning && k < |b.plans| then Ok(k) else Err(NotFound)
  }

  function CreatePlan(b: Board, p: PlanId): Result<Board, Refusal> {
    if !b.planning then Err(NotFound) else
    :- Need(!PlanExists(b.plans, p), Conflict);
    Ok(b.(plans := b.plans + [Plan(p, DraftPlan, None, false, [])]))
  }

  /** `hasContent` is present when the payload carries content. */
  function UpdatePlan(b: Board, p: PlanId, hasContent: Option<bool>, status: Option<PlanStatus>)
    : Result<Board, Refusal>
  {
    var k :- PlanIndex(b, p);
    var plan := b.plans[k];
    :- Need(plan.status != CompletedPlan, Conflict);
    :- Need(status != Some(CompletedPlan), Invalid);
    var edited := if hasContent.Some? then plan.(hasContent := hasContent.value) else plan;
    Ok(b.(plans := b.plans[k := if status.Some? then edited.(status := status.value) else edited]))
  }

  function WithoutPlan(plans: seq<Plan>, k: nat): (r: seq<Plan>)
    requires k < |plans|
    ensures |r| == |plans| - 1
    ensures forall j :: 0 <= j < |r| ==> r[j] == plans[if j < k then j else j + 1]
  {
    plans[..k] + plans[k + 1..]
  }

  predicate Committed(tasks: map<TaskId, Task>, p: PlanId) {
    exists t <- tasks.Keys :: tasks[t].plan == Some(p)
  }

  /** The first deletion archives, the second removes the row unless a task still names the plan. */
  function DeletePlan(b: Board, p: PlanId): Result<Board, Refusal> {
    var k :- PlanIndex(b, p);
    if b.plans[k].status != ArchivedPlan then Ok(b.(plans := b.plans[k := b.plans[k].(status := ArchivedPlan)]))
    else
      :- Need(!Committed(b.tasks, p), Conflict);
      Ok(b.(plans := WithoutPlan(b.plans, k)))
  }

  function PromotePlan(b: Board, p: PlanId, t: TaskId, toBacklog: bool, assignee: Option<AgentId>)
    : Result<Board, Refusal>
  {
    var k :- PlanIndex(b, p);
    var plan := b.plans[k];
    :- Need(plan.status in {DraftPlan, ActivePlan}, Conflict);
    :- Need(plan.task.None?, Conflict);
    :- Need(t !in b.tasks && (assignee.Some? ==> FindAgent(b.agents, assignee.value).Some?), Conflict);
    Ok(b.(tasks := b.tasks[t := NewTask(if toBacklog then Backlog else Inbox, assignee, None, toBacklog, None)],
          plans := b.plans[k := plan.(task := Some(t), status := ActivePlan)]))
  }

  function DecomposePlan(b: Board, p: PlanId): Result<Board, Refusal> {
    var k :- PlanIndex(b, p);
    :- Need(b.plans[k].hasContent, Conflict);
    if b.plans[k].status == DraftPlan then Ok(b.(plans := b.plans[k := b.plans[k].(status := ActivePlan)])) else Ok(b)
  }

  function Usable(tickets: seq<bool>): nat {
    if tickets == [] then 0 else Usable(tickets[..|tickets| - 1]) + if tickets[|tickets| - 1] then 1 else 0
  }

  /** Backlog tasks with fresh ids, one for each usable ticket. */
  function BacklogTasks(tasks: map<TaskId, Task>, ids: seq<TaskId>, p: PlanId): (r: map<TaskId, Task>)
    ensures forall t :: t in r <==> t in tasks || t in ids
    ensures forall t :: t in tasks && t !in ids ==> r[t] == tasks[t]
    ensures forall t :: t in ids ==> r[t] == NewTask(Backlog, None, None, true, Some(p))
  {
    if ids == [] then tasks
    else BacklogTasks(tasks, ids[..|ids| - 1], p)[ids[|ids| - 1] := NewTask(Backlog, None, None, true, Some(p))]
  }

  predicate FreshIds(tasks: map<TaskId, Task>, ids: seq<TaskId>, count: nat) {
    |ids| == count && (forall t <- ids :: t !in tasks) && (forall i, j :: 0 <= i < j < |ids| ==> ids[i] != ids[j])
  }

  function CommitTickets(b: Board, p: PlanId, ids: seq<TaskId>): Result<Board, Refusal> {
    var k :- PlanIndex(b, p);
    var plan := b.plans[k];
    :- Need(plan.tickets != [] && !Committed(b.tasks, p) && Usable(plan.tickets) != 0, Conflict);
    :- Need(FreshIds(b.tasks, ids, Usable(plan.tickets)), Conflict);
    Ok(b.(tasks := BacklogTasks(b.tasks, ids, p), plans := b.plans[k := plan.(status := ActivePlan)]))
  }

  /** An agent's reply: new tickets are stored, and committed at once unless tasks of the plan exist. Content,
      when there is some and there are no tickets, replaces the plan's. */
  function AgentUpdatePlan(b: Board, p: PlanId, hasContent: bool, tickets: seq<bool>, ids: seq<TaskId>)
    : Result<Board, Refusal>
  {
    var k :- PlanIndex(b, p);
    var plan := b.plans[k];
    if tickets == [] then
      Ok(b.(plans := b.plans[k := if hasContent then plan.(hasContent := true) else plan]))
    else
      var count := if Committed(b.tasks, p) then 0 else Usable(tickets);
      :- Need(FreshIds(b.tasks, ids, count), Conflict);
      Ok(b.(tasks := BacklogTasks(b.tasks, ids, p), plans := b.plans[k := plan.(tickets := tickets)]))
  }

  // ----- runs -----

  /** One request, with the ids the database will draw. `Staff` is any change of the agents table. */
  datatype Step =
    | Update(task: TaskId, actor: Option<AgentId>, request: Request, now: Time)
    | Create(id: TaskId, status: Status, assignee: Option<AgentId>, minutes: Option<int>, isBacklog: bool,
             plan: Option<PlanId>, dependsOn: set<TaskId>, extras: Extra, byAgent: bool)
    | Delete(task: TaskId)
    | Say(task: TaskId, actor: Option<AgentId>, allowed: bool, blank: bool, now: Time)
    | Ask(approval: ApprovalId, named: seq<TaskId>, verdict: ApprovalStatus)
    | Resolve(approval: ApprovalId, verdict: ApprovalStatus)
    | StartPlan(planId: PlanId)
    | EditPlan(planId: PlanId, content: Option<bool>, planStatus: Option<PlanStatus>)
    | DropPlan(planId: PlanId)
    | Promote(planId: PlanId, id: TaskId, toBacklog: bool, assignee: Option<AgentId>)
    | Decompose(planId: PlanId)
    | Tickets(planId: PlanId, ids: seq<TaskId>)
    | Reply(planId: PlanId, hasContent: bool, tickets: seq<bool>, ids: seq<TaskId>)
    | Staff(agents: seq<Agent>)

  ghost function Perform(b: Board, s: Step): Result<Board, Refusal> {
    match s
    case Update(t, actor, r, now) => UpdateTask(b, t, actor, r, now)
    case Create(t, status, assignee, minutes, isBacklog, plan, dependsOn, extras, byAgent) =>
      CreateTask(b, t, NewTask(status, assignee, minutes, isBacklog, plan), dependsOn, extras, byAgent)
    case Delete(t) => DeleteTask(b, t)
    case Say(t, actor, allowed, blank, now) => AddComment(b, t, actor, allowed, blank, now)
    case Ask(a, named, verdict) => CreateApproval(b, a, named, verdict)
    case Resolve(a, verdict) => UpdateApproval(b, a, verdict)
    case StartPlan(p) => CreatePlan(b, p)
    case EditPlan(p, content, status) => UpdatePlan(b, p, content, status)
    case DropPlan(p) => DeletePlan(b, p)
    case Promote(p, t, toBacklog, assignee) => PromotePlan(b, p, t, toBacklog, assignee)
    case Decompose(p) => DecomposePlan(b, p)
    case Tickets(p, ids) => CommitTickets(b, p, ids)
    case Reply(p, hasContent, tickets, ids) => AgentUpdatePlan(b, p, hasContent, tickets, ids)
    case Staff(agents) => Ok(b.(agents := agents))
  }

  ghost function Apply(b: Board, s: Step): Board {
    var r := Perform(b, s);
    if r.Ok? then r.value else b
  }

  ghost function Run(b: Board, steps: seq<Step>): Board {
    if steps == [] then b else Apply(Run(b, steps[..|steps| - 1]), steps[|steps| - 1])
  }
}
