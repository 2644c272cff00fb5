/** What one PATCH of a task decides: the guards of the three update paths, in the order the code asks them,
    and the new task row. Nothing is written before every guard has passed. */
module TaskUpdate {
  import opened Wrappers
  import opened Tables
  import opened Cycles

  datatype Refusal = Unauthorized | Forbidden | NotFound | Conflict | Invalid

  /** A part of a request that another service checks, with its verdict. */
  datatype Extra = Absent | Valid | Malformed

  /** The fields present in the payload. */
  datatype Request = Request(
    status: Option<Status>,
    assignee: Option<Option<AgentId>>,
    comment: bool,
    dependsOn: Option<set<TaskId>>,
    tags: Extra,
    customFields: Extra,
    actualMinutes: Option<Option<int>>,
    estimate: bool,
    otherFields: bool)

  /** The row and the dependencies an accepted request leaves. */
  datatype Decision = Decision(task: Task, deps: set<(TaskId, TaskId)>)

  /** A task being edited, with the status and assignee still to be assigned to it. */
  datatype Draft = Draft(task: Task, status: Option<Status>, assignee: Option<Option<AgentId>>)

  // ----- dependencies -----

  /** The dependency rows with those of one task replaced. */
  function WithDeps(deps: set<(TaskId, TaskId)>, t: TaskId, ds: set<TaskId>): (r: set<(TaskId, TaskId)>)
    ensures forall x, d :: (x, d) in r <==> if x == t then d in ds else (x, d) in deps
  {
    (set p | p in deps && p.0 != t) + (set d | d in ds :: (t, d))
  }

  /** A task may depend on other tasks of the board as long as no cycle can be reached from the board's tasks. */
  ghost function DependencyCheck(tasks: map<TaskId, Task>, deps: set<(TaskId, TaskId)>, t: TaskId, ds: set<TaskId>)
    : Check<Refusal>
  {
    if t in ds then Refuse(Invalid)
    else if !(ds <= tasks.Keys) then Refuse(NotFound)
    else if ds != {} && CycleFrom(WithDeps(deps, t, ds), tasks.Keys) then Refuse(Conflict)
    else Pass
  }

  /** The dependency rows a request asks for. */
  ghost function ReplaceDependencies(b: Board, t: TaskId, r: Request): Result<set<(TaskId, TaskId)>, Refusal>
    requires t in b.tasks
  {
    if r.dependsOn.None? then Ok(b.deps) else
    :- Need(b.tasks[t].status != Done, Conflict);
    :- DependencyCheck(b.tasks, b.deps, t, r.dependsOn.value);
    Ok(WithDeps(b.deps, t, r.dependsOn.value))
  }

  predicate Blocked(b: Board, deps: set<(TaskId, TaskId)>, t: TaskId) {
    BlockedBy(b.tasks, DepsOf(deps, t)) != {}
  }

  // ----- gates shared by all paths -----

  /** The payload itself asks for another status. */
  predicate StatusRequested(prior: Task, r: Request) {
    r.status.Some? && r.status.value != prior.status
  }

  predicate BecomesDone(prior: Task, task: Task) {
    prior.status != Done && task.status == Done
  }

  /** Whether the newest comment on a task, by one agent or by anyone, not older than `since`, is blank. */
  function NewestComment(log: seq<Event>, t: TaskId, author: Option<AgentId>, since: Option<Time>): Option<bool> {
    if log == [] then None else
    var e := log[|log| - 1];
    if e.task == t && e.kind.Comment? && e.agent.Some? && (author.None? || e.agent == author)
       && (since.None? || since.value <= e.at)
    then Some(e.kind.blank)
    else NewestComment(log[..|log| - 1], t, author, since)
  }

  /** The first given time that is set. */
  function Either(a: Option<Time>, b: Option<Time>): Option<Time> {
    if a.Some? then a else b
  }

  predicate CompletionEvidence(b: Board, t: TaskId, prior: Task, task: Task, r: Request) {
    r.comment
    || NewestComment(b.log, t, None, Either(prior.inProgressAt, task.previousInProgressAt)) == Some(false)
  }

  function Gates(b: Board, t: TaskId, byAgent: bool, prior: Task, task: Task, r: Request): Check<Refusal> {
    if StatusRequested(prior, r) && task.status != prior.status && b.rules.blockOnPending
       && HasPending(b.approvals, b.links, t) then Refuse(Conflict)
    else if BecomesDone(prior, task) && b.rules.reviewBeforeDone && prior.status != Review then Refuse(Conflict)
    else if BecomesDone(prior, task) && b.rules.approvalForDone
       && !HasApproved(b.approvals, b.links, t) then Refuse(Conflict)
    else if byAgent && StatusRequested(prior, r) && BecomesDone(prior, task)
       && !CompletionEvidence(b, t, prior, task, r) then Refuse(Invalid)
    else Pass
  }

  // ----- timing -----

  const MICROSECONDS_PER_SECOND: int := 1_000_000

  function ElapsedMinutes(start: Time, end: Time): int {
    var seconds := if end <= start then 0 else (end - start) / MICROSECONDS_PER_SECOND;
    var minutes := (seconds + 59) / 60;
    if minutes < 1 then 1 else minutes
  }

  /** The timing fields after a change of status; `actual` is set when the payload sets the minutes itself. */
  function Timed(prior: Task, task: Task, statusUpdated: bool, actual: bool, now: Time): Task {
    if !statusUpdated || task.status == prior.status then task
    else if BecomesDone(prior, task) then
      var startedAt := Either(task.inProgressAt, task.previousInProgressAt);
      if actual || startedAt.None? then task.(doneAt := Some(now))
      else task.(doneAt := Some(now), actualMinutes := Some(ElapsedMinutes(startedAt.value, now)))
    else if prior.status == Done then
      if actual then task.(doneAt := None) else task.(doneAt := None, actualMinutes := None)
    else task
  }

  // ----- the lead's path -----

  function LeadAssignment(b: Board, task: Task, r: Request): Result<Task, Refusal> {
    if r.assignee.None? then Ok(task)
    else if r.assignee.value.None? then Ok(task.(assignee := None))
    else
      var agent := FindAgent(b.agents, r.assignee.value.value);
      :- Need(agent.Some?, NotFound);
      :- Need(!agent.value.isLead, Forbidden);
      :- Need(agent.value.board.None? || agent.value.board == Some(b.id), Conflict);
      Ok(task.(assignee := Some(agent.value.id)))
  }

  /** Whether rework may go back to an agent. */
  predicate CanRework(agents: seq<Agent>, board: BoardId, lead: AgentId, id: AgentId) {
    var agent := FindAgent(agents, id);
    id != lead && agent.Some? && agent.value.board == Some(board) && !agent.value.isLead
  }

  /** An agent moved the task to review by this event. */
  predicate IsReviewMove(e: Event, t: TaskId) {
    e.task == t && e.kind == MovedTo(Review) && e.agent.Some?
  }

  /** The agent of the newest move to review who is still a worker of the board. */
  function LastReviewMover(log: seq<Event>, agents: seq<Agent>, board: BoardId, lead: AgentId, t: TaskId)
    : Option<AgentId>
  {
    if log == [] then None else
    var e := log[|log| - 1];
    if IsReviewMove(e, t) && CanRework(agents, board, lead, e.agent.value) then e.agent
    else LastReviewMover(log[..|log| - 1], agents, board, lead, t)
  }

  function LeadStatus(b: Board, t: TaskId, lead: AgentId, task: Task, r: Request): Result<Task, Refusal> {
    if r.status.None? then Ok(task)
    else if task.status != Review then
      var assigning := r.assignee.Some? && r.assignee.value.Some?;
      :- Need(task.status == Inbox && r.status.value == InProgress && assigning, Forbidden);
      Ok(task.(status := InProgress))
    else if r.status.value == Done then Ok(task.(status := Done))
    else if r.status.value == Inbox then
      Ok(task.(status := Inbox, inProgressAt := None,
               assignee := LastReviewMover(b.log, b.agents, b.id, lead, t)))
    else Err(Forbidden)
  }

  ghost function LeadDecision(b: Board, t: TaskId, lead: Agent, r: Request, now: Time): Result<Decision, Refusal>
    requires t in b.tasks
  {
    var prior := b.tasks[t];
    :- Need(!r.comment && r.actualMinutes.None? && !r.estimate && !r.otherFields, Forbidden);
    var deps :- ReplaceDependencies(b, t, r);
    :- Need(r.tags != Malformed, Invalid);
    :- Need(!Blocked(b, deps, t) || (r.status.None? && r.assignee.None?), Conflict);
    var placed :- LeadAssignment(b, prior, r);
    var task :- LeadStatus(b, t, lead.id, placed, r);
    :- Gates(b, t, true, prior, task, r);
    :- Need(r.customFields != Malformed, Invalid);
    Ok(Decision(Timed(prior, task, r.status.Some?, false, now), deps))
  }

  // ----- the path of other agents -----

  function WorkerChecks(b: Board, t: TaskId, agent: Agent, r: Request): Check<Refusal>
    requires t in b.tasks
  {
    var prior := b.tasks[t];
    var accepting := r.status == Some(Done) && prior.status == Review && agent.role == Merger;
    if agent.board.Some? && agent.board != Some(b.id) then Refuse(Forbidden)
    else if prior.assignee.Some? && prior.assignee != Some(agent.id) && r.status.Some? && !accepting
    then Refuse(Forbidden)
    else Pass
  }

  /** An estimator annotates a backlog ticket: nothing of the task's flow is touched or asked. */
  predicate EstimateOnly(prior: Task, agent: Agent, r: Request) {
    agent.role == Estimator && r.estimate && prior.status in {Triage, Backlog} && prior.isBacklog
    && r.status.None? && r.assignee.None? && r.actualMinutes.None? && !r.otherFields
  }

  function WorkerFields(b: Board, t: TaskId, r: Request): Check<Refusal>
    requires t in b.tasks
  {
    if r.dependsOn.Some? || r.tags != Absent || r.assignee.Some? || r.actualMinutes.Some? || r.estimate || r.otherFields
    then Refuse(Forbidden)
    else if r.status.Some? && b.rules.onlyLeadMoves then Refuse(Forbidden)
    else if r.status.Some? && r.status.value != Inbox && Blocked(b, b.deps, t) then Refuse(Conflict)
    else Pass
  }

  /** The task's working fields once it is back in the inbox or waits for review. */
  function Released(task: Task): Task {
    task.(previousInProgressAt := task.inProgressAt, assignee := None, inProgressAt := None)
  }

  function WorkerMove(task: Task, agent: Agent, status: Status, now: Time): Result<Task, Refusal> {
    if status == Inbox || status == Review then Ok(Released(task))
    else if status == Done && !(task.status == Review && agent.role == Merger) then Err(Forbidden)
    else if status == InProgress then Ok(task.(assignee := Some(agent.id), inProgressAt := Some(now)))
    else Ok(task.(assignee := Some(agent.id)))
  }

  function WorkerDraft(b: Board, t: TaskId, agent: Agent, r: Request, now: Time): Result<Draft, Refusal>
    requires t in b.tasks
  {
    var prior := b.tasks[t];
    :- WorkerChecks(b, t, agent, r);
    if EstimateOnly(prior, agent, r) then Ok(Draft(prior, None, None)) else
    :- WorkerFields(b, t, r);
    if r.status.None? then Ok(Draft(prior, None, None)) else
    var task :- WorkerMove(prior, agent, r.status.value, now);
    Ok(Draft(task, r.status, None))
  }

  // ----- the administrator's path -----

  /** A blocked task goes back to the inbox, unless it is done and stays done. */
  function AdminDraft(b: Board, deps: set<(TaskId, TaskId)>, t: TaskId, r: Request, now: Time): Draft
    requires t in b.tasks
  {
    var prior := b.tasks[t];
    var target := if r.status.Some? then r.status.value else prior.status;
    var forced := Blocked(b, deps, t) && !(prior.status == Done && target == Done);
    var start := if forced then prior.(status := Inbox, assignee := None, inProgressAt := None) else prior;
    var status := if forced then Some(Inbox) else r.status;
    var assignee := if forced then Some(None) else r.assignee;
    var task :=
      if status == Some(Inbox) || status == Some(Review) then Released(start)
      else if status == Some(InProgress) then start.(inProgressAt := Some(now))
      else start;
    Draft(task, status, assignee)
  }

  function AdminAssigneeCheck(b: Board, assignee: Option<Option<AgentId>>): Check<Refusal> {
    if assignee.None? || assignee.value.None? then Pass
    else
      var agent := FindAgent(b.agents, assignee.value.value);
      if agent.None? then Refuse(NotFound)
      else if agent.value.board.Some? && agent.value.board != Some(b.id) then Refuse(Conflict)
      else Pass
  }

  // ----- the common end of the last two paths -----

  function NextStatuses(s: Status): set<Status> {
    match s
    case Triage => {Backlog, Archived}
    case Backlog => {Inbox, Triage, Archived}
    case Inbox => {InProgress, Backlog}
    case InProgress => {Review, Inbox}
    case Review => {Done, InProgress, Inbox}
    case Done => {Archived, InProgress}
    case Archived => {Backlog}
  }

  /** The pending assignments carried out. */
  function Assigned(draft: Draft, actual: Option<Option<int>>): Task {
    var s := if draft.status.Some? then draft.task.(status := draft.status.value) else draft.task;
    var a := if draft.assignee.Some? then s.(assignee := draft.assignee.value) else s;
    if actual.Some? then a.(actualMinutes := actual.value) else a
  }

  function TransitionCheck(prior: Task, draft: Draft): Check<Refusal> {
    Need(draft.status.None? || draft.status.value == prior.status || draft.status.value in NextStatuses(prior.status),
         Conflict)
  }

  /** Entering review needs a comment when the board asks for one: in the request, or a recent one of the worker. */
  function ReviewCommentCheck(b: Board, t: TaskId, prior: Task, task: Task, draft: Draft, r: Request): Check<Refusal> {
    var author := if task.assignee.Some? then task.assignee else prior.assignee;
    var since := Either(task.previousInProgressAt, prior.inProgressAt);
    Need(draft.status != Some(Review) || !b.rules.commentForReview || r.comment
         || (author.Some? && since.Some? && NewestComment(b.log, t, author, since) == Some(false)),
         Invalid)
  }

  /** A task that enters review belongs to the board's lead, when there is one. */
  function WithReviewer(b: Board, prior: Task, task: Task): Task {
    if task.status != Review || prior.status == Review then task
    else
      var lead := FindLead(b.agents, b.id);
      if lead.None? then task else task.(assignee := lead)
  }

  function Finish(b: Board, t: TaskId, byAgent: bool, draft: Draft, r: Request, now: Time): Result<Task, Refusal>
    requires t in b.tasks
  {
    var prior := b.tasks[t];
    var placed := Assigned(draft, r.actualMinutes);
    :- Gates(b, t, byAgent, prior, placed, r);
    :- TransitionCheck(prior, draft);
    var task := Timed(prior, placed, draft.status.Some?, r.actualMinutes.Some?, now);
    :- ReviewCommentCheck(b, t, prior, task, draft, r);
    :- Need(r.tags != Malformed && r.customFields != Malformed, Invalid);
    Ok(WithReviewer(b, prior, task))
  }

  function WorkerDecision(b: Board, t: TaskId, agent: Agent, r: Request, now: Time): Result<Decision, Refusal>
    requires t in b.tasks
  {
    var draft :- WorkerDraft(b, t, agent, r, now);
    var task :- Finish(b, t, true, draft, r, now);
    Ok(Decision(task, b.deps))
  }

  ghost function AdminDecision(b: Board, t: TaskId, r: Request, now: Time): Result<Decision, Refusal>
    requires t in b.tasks
  {
    if r.tags == Malformed then Err(Invalid) else
    var deps :- ReplaceDependencies(b, t, r);
    var draft := AdminDraft(b, deps, t, r, now);
    :- AdminAssigneeCheck(b, draft.assignee);
    var task :- Finish(b, t, false, draft, r, now);
    Ok(Decision(task, deps))
  }

  /** The decision on a request of an agent, or of an administrator (`actor` None). */
  ghost function Decide(b: Board, t: TaskId, actor: Option<AgentId>, r: Request, now: Time): Result<Decision, Refusal>
    requires t in b.tasks
  {
    if actor.None? then AdminDecision(b, t, r, now)
    else
      var agent := FindAgent(b.agents, actor.value);
      if agent.None? then Err(Unauthorized)
      else if agent.value.isLead then LeadDecision(b, t, agent.value, r, now)
      else WorkerDecision(b, t, agent.value, r, now)
  }

  // ----- writing -----

  function Reset(task: Task): Task {
    task.(status := Inbox, assignee := None, inProgressAt := None)
  }

  /** A task that is no longer done sends its direct dependents that are not done back to the inbox. */
  function Cascade(tasks: map<TaskId, Task>, deps: set<(TaskId, TaskId)>, t: TaskId, was: Status): map<TaskId, Task>
    requires t in tasks
  {
    if was != Done || tasks[t].status == Done then tasks
    else map d | d in tasks :: if (d, t) in deps && tasks[d].status != Done then Reset(tasks[d]) else tasks[d]
  }

  /** The first plan linked to a task is completed with it, and active again when it is reopened. */
  function PlansFollow(plans: seq<Plan>, t: TaskId, was: Status, becomes: Status): (r: seq<Plan>)
    ensures |r| == |plans|
  {
    var k := FirstLinked(plans, t);
    if k == |plans| then plans
    else if was != Done && becomes == Done then plans[k := plans[k].(status := CompletedPlan)]
    else if was == Done && becomes != Done && plans[k].status == CompletedPlan
    then plans[k := plans[k].(status := ActivePlan)]
    else plans
  }

  function Logged(log: seq<Event>, t: TaskId, actor: Option<AgentId>, comment: bool, was: Status, becomes: Status,
                  now: Time): seq<Event>
  {
    log + (if comment then [Event(t, actor, Comment(false), now)] else [])
        + (if becomes != was then [Event(t, actor, MovedTo(becomes), now)] else [])
  }

  /** The board after an accepted request. */
  function Commit(b: Board, t: TaskId, actor: Option<AgentId>, d: Decision, comment: bool, now: Time): Board
    requires t in b.tasks
  {
    var was, becomes := b.tasks[t].status, d.task.status;
    b.(tasks := Cascade(b.tasks[t := d.task], d.deps, t, was),
       deps := d.deps,
       plans := if b.planning then PlansFollow(b.plans, t, was, becomes) else b.plans,
       log := Logged(b.log, t, actor, comment, was, becomes, now))
  }

  ghost function UpdateTask(b: Board, t: TaskId, actor: Option<AgentId>, r: Request, now: Time)
    : Result<Board, Refusal>
  {
    if t !in b.tasks then Err(NotFound) else
    var decision :- Decide(b, t, actor, r, now);
    Ok(Commit(b, t, actor, decision, r.comment, now))
  }
}
