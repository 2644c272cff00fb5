/** One board's tables, and the lookups the endpoints make in them. */
module Tables {
  import opened Wrappers

  type TaskId = nat
  type AgentId = nat
  type BoardId = nat
  type ApprovalId = nat
  type PlanId = nat
  /** Microseconds. */
  type Time = int

  datatype Status = Triage | Backlog | Inbox | InProgress | Review | Done | Archived

  datatype Task = Task(
    status: Status,
    assignee: Option<AgentId>,
    inProgressAt: Option<Time>,
    previousInProgressAt: Option<Time>,
    doneAt: Option<Time>,
    actualMinutes: Option<int>,
    isBacklog: bool,
    plan: Option<PlanId>)

  datatype Role = Merger | Estimator | OtherRole

  datatype Agent = Agent(id: AgentId, board: Option<BoardId>, isLead: bool, role: Role)

  datatype Rules = Rules(
    approvalForDone: bool,
    reviewBeforeDone: bool,
    commentForReview: bool,
    blockOnPending: bool,
    onlyLeadMoves: bool)

  datatype ApprovalStatus = Pending | Approved | Rejected

  datatype Approval = Approval(task: Option<TaskId>, status: ApprovalStatus)

  datatype Link = Link(approval: ApprovalId, task: TaskId)

  datatype PlanStatus = DraftPlan | ActivePlan | CompletedPlan | ArchivedPlan

  /** `tickets` holds, for each decomposed ticket, whether its title is usable. */
  datatype Plan = Plan(id: PlanId, status: PlanStatus, task: Option<TaskId>, hasContent: bool, tickets: seq<bool>)

  /** The activity events some rule reads: status moves, and comments (blank or not). */
  datatype EventKind = MovedTo(status: Status) | Comment(blank: bool)

  datatype Event = Event(task: TaskId, agent: Option<AgentId>, kind: EventKind, at: Time)

  /** The rows of one board. Dependencies are pairs (task, what it depends on); links, plans and agents
      stand in the order a query returns them, and the log in order of time. */
  datatype Board = Board(
    id: BoardId,
    planning: bool,
    rules: Rules,
    tasks: map<TaskId, Task>,
    deps: set<(TaskId, TaskId)>,
    approvals: map<ApprovalId, Approval>,
    links: seq<Link>,
    plans: seq<Plan>,
    agents: seq<Agent>,
    log: seq<Event>)

  // ----- lookups -----

  predicate IsDone(tasks: map<TaskId, Task>, t: TaskId) {
    t in tasks && tasks[t].status == Done
  }

  function DepsOf(deps: set<(TaskId, TaskId)>, t: TaskId): (ds: set<TaskId>)
    ensures forall d :: d in ds <==> (t, d) in deps
  {
    set p | p in deps && p.0 == t :: p.1
  }

  /** The dependencies that are not done. */
  function BlockedBy(tasks: map<TaskId, Task>, ds: set<TaskId>): set<TaskId> {
    set d | d in ds && !IsDone(tasks, d)
  }

  function FindAgent(agents: seq<Agent>, id: AgentId): (agent: Option<Agent>)
    ensures agent.Some? ==> agent.value in agents && agent.value.id == id
    ensures agent.None? ==> forall k :: 0 <= k < |agents| ==> agents[k].id != id
  {
    if agents == [] then None
    else if agents[0].id == id then Some(agents[0])
    else FindAgent(agents[1..], id)
  }

  /** The first lead of a board. */
  function FindLead(agents: seq<Agent>, board: BoardId): (lead: Option<AgentId>)
    ensures lead.Some? ==> exists a <- agents :: a.id == lead.value && a.isLead && a.board == Some(board)
    ensures lead.None? ==> forall a <- agents :: !(a.isLead && a.board == Some(board))
  {
    if agents == [] then None
    else if agents[0].isLead && agents[0].board == Some(board) then Some(agents[0].id)
    else FindLead(agents[1..], board)
  }

  /** The index of the first plan linked to a task, or the number of plans. */
  function FirstLinked(plans: seq<Plan>, t: TaskId): (k: nat)
    ensures k <= |plans|
    ensures k < |plans| ==> plans[k].task == Some(t)
    ensures forall j :: 0 <= j < k ==> plans[j].task != Some(t)
  {
    if plans == [] || plans[0].task == Some(t) then 0 else 1 + FirstLinked(plans[1..], t)
  }

  function TasksOf(links: seq<Link>, a: ApprovalId): (ts: seq<TaskId>)
    ensures forall t :: t in ts <==> Link(a, t) in links
  {
    if links == [] then []
    else if links[0].approval == a then [links[0].task] + TasksOf(links[1..], a)
    else TasksOf(links[1..], a)
  }

  /** The tasks an approval is about: its links, or its primary task when it has none. */
  function TasksNamed(a: Approval, linked: seq<TaskId>): seq<TaskId> {
    if linked != [] then linked else if a.task.Some? then [a.task.value] else []
  }

  /** An approved approval names the task, as its primary task or by a link. */
  predicate HasApproved(approvals: map<ApprovalId, Approval>, links: seq<Link>, t: TaskId) {
    exists a <- approvals.Keys ::
      approvals[a].status == Approved && (approvals[a].task == Some(t) || Link(a, t) in links)
  }

  /** A pending approval is about the task. */
  predicate HasPending(approvals: map<ApprovalId, Approval>, links: seq<Link>, t: TaskId) {
    exists a <- approvals.Keys ::
      approvals[a].status == Pending && t in TasksNamed(approvals[a], TasksOf(links, a))
  }
}
