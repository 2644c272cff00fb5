/** What an update of a task leaves, and which updates are accepted, path by path: stated over the request, the old
    rows and the new row alone. */
module UpdateOutcome {
  import opened Wrappers
  import opened Tables
  import opened Cycles
  import opened TaskUpdate

  // ----- the words of the rules -----

  /** The task's dependencies are all done. */
  predicate AllDone(b: Board, deps: set<(TaskId, TaskId)>, t: TaskId) {
    forall p <- deps :: p.0 == t ==> p.1 in b.tasks && b.tasks[p.1].status == Done
  }

  /** The approval is linked to the task, or names it and is linked to none. */
  predicate IsAbout(b: Board, a: ApprovalId, t: TaskId)
    requires a in b.approvals
  {
    Link(a, t) in b.links || (b.approvals[a].task == Some(t) && forall l <- b.links :: l.approval != a)
  }

  predicate AwaitsVerdict(b: Board, t: TaskId) {
    exists a <- b.approvals.Keys :: b.approvals[a].status == Pending && IsAbout(b, a, t)
  }

  predicate IsApproved(b: Board, t: TaskId) {
    exists a <- b.approvals.Keys ::
      b.approvals[a].status == Approved && (b.approvals[a].task == Some(t) || Link(a, t) in b.links)
  }

  /** The moves a status can make. */
  const MOVES: set<(Status, Status)> := {
    (Triage, Backlog), (Backlog, Triage), (Backlog, Inbox), (Inbox, Backlog),
    (Inbox, InProgress), (InProgress, Inbox), (InProgress, Review), (Review, InProgress), (Review, Inbox),
    (Review, Done),
    (Done, InProgress), (Done, Archived), (Triage, Archived), (Backlog, Archived), (Archived, Backlog)
  }

  /** An agent that may be given tasks of the board. */
  predicate MayWorkHere(b: Board, id: AgentId) {
    var agent := FindAgent(b.agents, id);
    agent.Some? && agent.value.board in {None, Some(b.id)}
  }

  ghost predicate MayDependOn(b: Board, t: TaskId, ds: set<TaskId>) {
    t !in ds && (forall d <- ds :: d in b.tasks)
    && (ds != {} ==> !CycleFrom(WithDeps(b.deps, t, ds), b.tasks.Keys))
  }

  /** The author's newest comment on the task, not older than `since`, is not blank. */
  ghost predicate LatestBySolid(log: seq<Event>, t: TaskId, author: AgentId, since: Time) {
    exists k :: 0 <= k < |log| && IsSolidLatestBy(log, t, author, since, k)
  }

  predicate IsSolidLatestBy(log: seq<Event>, t: TaskId, author: AgentId, since: Time, k: nat)
    requires k < |log|
  {
    SaidBy(log[k], t, author, since) && !log[k].kind.blank
    && forall j :: k < j < |log| ==> !SaidBy(log[j], t, author, since)
  }

  predicate SaidBy(e: Event, t: TaskId, author: AgentId, since: Time) {
    e.task == t && e.kind.Comment? && e.agent == Some(author) && since <= e.at
  }

  // ----- what the lookups mean -----

  lemma BlockedMeans(b: Board, deps: set<(TaskId, TaskId)>, t: TaskId)
    ensures Blocked(b, deps, t) <==> !AllDone(b, deps, t)
  {
    if !AllDone(b, deps, t) {
      var p :| p in deps && p.0 == t && !IsDone(b.tasks, p.1);
      assert p.1 in BlockedBy(b.tasks, DepsOf(deps, t));
    }
    if Blocked(b, deps, t) {
      var d :| d in BlockedBy(b.tasks, DepsOf(deps, t));
      assert (t, d) in deps;
    }
  }

  lemma NoLinks(links: seq<Link>, a: ApprovalId)
    ensures TasksOf(links, a) == [] <==> forall l <- links :: l.approval != a
  {
    if TasksOf(links, a) != [] {
      assert Link(a, TasksOf(links, a)[0]) in links;
    }
    if l :| l in links && l.approval == a {
      assert l.task in TasksOf(links, a);
    }
  }

  lemma PendingMeans(b: Board, t: TaskId)
    ensures HasPending(b.approvals, b.links, t) <==> AwaitsVerdict(b, t)
  {
    hide TasksOf;
    forall a | a in b.approvals ensures t in TasksNamed(b.approvals[a], TasksOf(b.links, a)) <==> IsAbout(b, a, t) {
      NoLinks(b.links, a);
    }
  }

  lemma ApprovedMeans(b: Board, t: TaskId)
    ensures HasApproved(b.approvals, b.links, t) <==> IsApproved(b, t)
  {
  }

  lemma MovesMeans(was: Status, becomes: Status)
    ensures becomes in NextStatuses(was) <==> (was, becomes) in MOVES
  {
  }

  lemma DependencyMeans(b: Board, t: TaskId, ds: set<TaskId>)
    ensures DependencyCheck(b.tasks, b.deps, t, ds).Pass? <==> MayDependOn(b, t, ds)
  {
    hide CycleFrom;
    assert ds <= b.tasks.Keys <==> forall d <- ds :: d in b.tasks;
  }

  lemma {:induction false} NewestBySolid(log: seq<Event>, t: TaskId, author: AgentId, since: Time)
    ensures NewestComment(log, t, Some(author), Some(since)) == Some(false) <==> LatestBySolid(log, t, author, since)
  {
    if log != [] {
      var front, e := log[..|log| - 1], log[|log| - 1];
      NewestBySolid(front, t, author, since);
      if SaidBy(e, t, author, since) {
        assert IsSolidLatestBy(log, t, author, since, |log| - 1) <==> !e.kind.blank;
        assert forall k :: 0 <= k < |log| - 1 ==> !IsSolidLatestBy(log, t, author, since, k);
      } else {
        SkipOthers(log, t, author, since);
      }
    }
  }

  lemma SkipOthers(log: seq<Event>, t: TaskId, author: AgentId, since: Time)
    requires log != [] && !SaidBy(log[|log| - 1], t, author, since)
    ensures LatestBySolid(log, t, author, since) <==> LatestBySolid(log[..|log| - 1], t, author, since)
  {
    var front := log[..|log| - 1];
    forall k | 0 <= k < |front|
      ensures IsSolidLatestBy(log, t, author, since, k) <==> IsSolidLatestBy(front, t, author, since, k)
    {
      assert forall j :: k <= j < |front| ==> front[j] == log[j];
    }
    if LatestBySolid(log, t, author, since) {
      var k :| 0 <= k < |log| && IsSolidLatestBy(log, t, author, since, k);
      assert IsSolidLatestBy(front, t, author, since, k);
    }
    if LatestBySolid(front, t, author, since) {
      var k :| 0 <= k < |front| && IsSolidLatestBy(front, t, author, since, k);
      assert IsSolidLatestBy(log, t, author, since, k);
    }
  }

  // ----- the row -----

  /** The completion instant and the minutes: set on completion, cleared on reopening, otherwise kept; minutes the
      request gives win. */
  predicate TimedAs(prior: Task, row: Task, r: Request, now: Time) {
    var started := if prior.inProgressAt.Some? then prior.inProgressAt else prior.previousInProgressAt;
    var completes, reopens := prior.status != Done && row.status == Done, prior.status == Done && row.status != Done;
    && (completes ==> row.doneAt == Some(now))
    && (reopens ==> row.doneAt == None)
    && (!completes && !reopens ==> row.doneAt == prior.doneAt)
    && (r.actualMinutes.Some? ==> row.actualMinutes == r.actualMinutes.value)
    && (r.actualMinutes.None? ==>
          && (completes && started.Some? ==> row.actualMinutes == Some(ElapsedMinutes(started.value, now)))
          && (reopens ==> row.actualMinutes == None)
          && (!reopens && (!completes || started.None?) ==> row.actualMinutes == prior.actualMinutes))
  }

  /** Stamped when work begins, moved aside when it stops, otherwise kept. */
  predicate StartedAs(prior: Task, row: Task, asked: Option<Status>, now: Time) {
    var stops := asked in {Some(Inbox), Some(Review)};
    && (asked == Some(InProgress) ==> row.inProgressAt == Some(now))
    && (stops ==> row.inProgressAt == None && row.previousInProgressAt == prior.inProgressAt)
    && (asked != Some(InProgress) && !stops ==> row.inProgressAt == prior.inProgressAt)
    && (!stops ==> row.previousInProgressAt == prior.previousInProgressAt)
  }

  predicate SameOrigin(prior: Task, row: Task) {
    row.isBacklog == prior.isBacklog && row.plan == prior.plan
  }

  predicate Leads(a: Agent, board: BoardId) {
    a.isLead && a.board == Some(board)
  }

  /** A task that enters review is the board's lead's, when there is one. */
  predicate HandedToLead(b: Board, prior: Task, row: Task) {
    row.status == Review && prior.status != Review && exists a <- b.agents :: Leads(a, b.id)
  }

  /** The first of the board's leads. */
  predicate IsLeadOf(b: Board, id: Option<AgentId>) {
    id.Some? && exists k :: 0 <= k < |b.agents| && b.agents[k].id == id.value && IsFirstLead(b.agents, b.id, k)
  }

  predicate IsFirstLead(agents: seq<Agent>, board: BoardId, k: nat)
    requires k < |agents|
  {
    Leads(agents[k], board) && forall j :: 0 <= j < k ==> !Leads(agents[j], board)
  }

  lemma {:induction false} FindLeadIsFirst(agents: seq<Agent>, board: BoardId)
    ensures FindLead(agents, board).Some? ==>
      exists k :: 0 <= k < |agents| && agents[k].id == FindLead(agents, board).value && IsFirstLead(agents, board, k)
  {
    if agents != [] {
      if Leads(agents[0], board) {
        assert IsFirstLead(agents, board, 0);
      } else if FindLead(agents, board).Some? {
        FindLeadIsFirst(agents[1..], board);
        var rest := agents[1..];
        var k :| 0 <= k < |rest| && rest[k].id == FindLead(rest, board).value && IsFirstLead(rest, board, k);
        assert forall j :: 0 < j <= k ==> agents[j] == rest[j - 1];
        assert IsFirstLead(agents, board, k + 1);
      }
    }
  }

  /** The request parks the task: it leaves or finds it blocked, unless it is done and stays done. */
  predicate Parks(b: Board, deps: set<(TaskId, TaskId)>, t: TaskId, r: Request)
    requires t in b.tasks
  {
    !AllDone(b, deps, t) && !(b.tasks[t].status == Done && r.status in {None, Some(Done)})
  }

  /** The row an administrator's request leaves, when it does not park the task. */
  predicate AdminRow(b: Board, prior: Task, row: Task, r: Request, now: Time) {
    && row.status == (if r.status.Some? then r.status.value else prior.status)
    && (HandedToLead(b, prior, row) ==> IsLeadOf(b, row.assignee))
    && (!HandedToLead(b, prior, row) ==>
          && (r.assignee.Some? ==> row.assignee == r.assignee.value)
          && (r.assignee.None? && r.status in {Some(Inbox), Some(Review)} ==> row.assignee == None)
          && (r.assignee.None? && r.status !in {Some(Inbox), Some(Review)} ==> row.assignee == prior.assignee))
    && StartedAs(prior, row, r.status, now) && TimedAs(prior, row, r, now) && SameOrigin(prior, row)
  }

  /** The row it leaves when it does: whatever was asked, but for the minutes. */
  predicate ParkedRow(prior: Task, row: Task, r: Request) {
    && row.status == Inbox && row.assignee == None && row.inProgressAt == None && row.previousInProgressAt == None
    && row.doneAt == prior.doneAt && SameOrigin(prior, row)
    && row.actualMinutes == (if r.actualMinutes.Some? then r.actualMinutes.value else prior.actualMinutes)
  }

  lemma ReviewerIsLead(b: Board, prior: Task, task: Task)
    ensures var row := WithReviewer(b, prior, task);
      && row == task.(assignee := row.assignee)
      && (HandedToLead(b, prior, row) ==> IsLeadOf(b, row.assignee))
      && (!HandedToLead(b, prior, row) ==> row.assignee == task.assignee)
  {
    FindLeadIsFirst(b.agents, b.id);
  }

  lemma ParkedLeaves(b: Board, t: TaskId, draft: Draft, r: Request, now: Time)
    requires t in b.tasks && Finish(b, t, false, draft, r, now).Ok?
    requires draft.status == Some(Inbox) && draft.assignee == Some(None) && draft.task.inProgressAt == None
    requires draft.task.previousInProgressAt == None && draft.task.doneAt == b.tasks[t].doneAt
    requires draft.task.actualMinutes == b.tasks[t].actualMinutes && SameOrigin(b.tasks[t], draft.task)
    ensures ParkedRow(b.tasks[t], Finish(b, t, false, draft, r, now).value, r)
  {
    hide Gates, ReviewCommentCheck, ElapsedMinutes, FindLead;
  }

  lemma FinishLeaves(b: Board, t: TaskId, draft: Draft, r: Request, now: Time)
    requires t in b.tasks && Finish(b, t, false, draft, r, now).Ok?
    requires draft.status == r.status && draft.assignee == r.assignee
    requires StartedAs(b.tasks[t], draft.task, r.status, now)
    requires draft.task == b.tasks[t].(assignee := draft.task.assignee, inProgressAt := draft.task.inProgressAt,
                                       previousInProgressAt := draft.task.previousInProgressAt)
    requires draft.task.assignee == if r.status in {Some(Inbox), Some(Review)} then None else b.tasks[t].assignee
    ensures AdminRow(b, b.tasks[t], Finish(b, t, false, draft, r, now).value, r, now)
  {
    hide Gates, ReviewCommentCheck, ElapsedMinutes, WithReviewer, HandedToLead, IsLeadOf, TransitionCheck;
    var prior := b.tasks[t];
    ReviewerIsLead(b, prior,
                   Timed(prior, Assigned(draft, r.actualMinutes), draft.status.Some?, r.actualMinutes.Some?, now));
  }

  /** What an administrator's accepted request leaves. */
  lemma AdminLeaves(b: Board, t: TaskId, r: Request, now: Time)
    requires t in b.tasks && AdminDecision(b, t, r, now).Ok?
    ensures var d := AdminDecision(b, t, r, now).value;
      if Parks(b, d.deps, t, r) then ParkedRow(b.tasks[t], d.task, r) else AdminRow(b, b.tasks[t], d.task, r, now)
  {
    hide Blocked, AllDone, ReplaceDependencies, Finish, AdminAssigneeCheck, AdminRow, ParkedRow;
    var deps := ReplaceDependencies(b, t, r).value;
    BlockedMeans(b, deps, t);
    var draft := AdminDraft(b, deps, t, r, now);
    if Parks(b, deps, t, r) { ParkedLeaves(b, t, draft, r, now); } else { FinishLeaves(b, t, draft, r, now); }
  }

  /** The row another agent's request leaves: without a status nothing changes. */
  predicate WorkerRow(b: Board, prior: Task, row: Task, agent: AgentId, r: Request, now: Time) {
    if r.status.None? then row == prior
    else
      && row.status == r.status.value
      && (HandedToLead(b, prior, row) ==> IsLeadOf(b, row.assignee))
      && (!HandedToLead(b, prior, row) ==>
            row.assignee == if r.status.value in {Inbox, Review} then None else Some(agent))
      && StartedAs(prior, row, r.status, now) && TimedAs(prior, row, r, now) && SameOrigin(prior, row)
  }

  lemma WorkerLeaves(b: Board, t: TaskId, agent: Agent, r: Request, now: Time)
    requires t in b.tasks && WorkerDecision(b, t, agent, r, now).Ok?
    ensures var d := WorkerDecision(b, t, agent, r, now).value;
      d.deps == b.deps && WorkerRow(b, b.tasks[t], d.task, agent.id, r, now)
  {
    hide Blocked, WorkerChecks, Gates, ReviewCommentCheck, ElapsedMinutes, WithReviewer, HandedToLead, IsLeadOf;
    var prior, draft := b.tasks[t], WorkerDraft(b, t, agent, r, now).value;
    var task := Timed(prior, Assigned(draft, r.actualMinutes), draft.status.Some?, r.actualMinutes.Some?, now);
    ReviewerIsLead(b, prior, task);
    if r.status.None? { NoReviewer(b, prior, task); }
  }

  lemma NoReviewer(b: Board, prior: Task, task: Task)
    requires task.status == prior.status
    ensures WithReviewer(b, prior, task) == task
  {
  }

  /** The row a lead's request leaves. Rework (`Some(Inbox)`) goes to a worker found in the log; taking a task from
      the inbox to progress leaves its start alone. */
  predicate LeadRow(prior: Task, row: Task, r: Request, now: Time) {
    && row.status == (if r.status.Some? then r.status.value else prior.status)
    && (r.status != Some(Inbox) ==> row.assignee == if r.assignee.Some? then r.assignee.value else prior.assignee)
    && row.inProgressAt == (if r.status == Some(Inbox) then None else prior.inProgressAt)
    && row.previousInProgressAt == prior.previousInProgressAt
    && TimedAs(prior, row, r, now) && SameOrigin(prior, row)
  }

  lemma LeadLeaves(b: Board, t: TaskId, lead: Agent, r: Request, now: Time)
    requires t in b.tasks && LeadDecision(b, t, lead, r, now).Ok?
    ensures LeadRow(b.tasks[t], LeadDecision(b, t, lead, r, now).value.task, r, now)
  {
    hide Blocked, Gates, ReplaceDependencies, LastReviewMover, ElapsedMinutes, FindAgent;
    if r.assignee.Some? && r.assignee.value.Some? { FoundById(b.agents, r.assignee.value.value); }
  }

  lemma FoundById(agents: seq<Agent>, id: AgentId)
    ensures FindAgent(agents, id).Some? ==> FindAgent(agents, id).value.id == id
  {
    hide FindAgent;
  }

  /** The dependencies an accepted update leaves: those it names, or the old ones. */
  lemma DependenciesLeft(b: Board, t: TaskId, actor: Option<AgentId>, r: Request, now: Time)
    requires t in b.tasks && Decide(b, t, actor, r, now).Ok?
    ensures forall x, y :: (x, y) in Decide(b, t, actor, r, now).value.deps <==>
      (if x == t && r.dependsOn.Some? && !IsWorker(b, actor) then y in r.dependsOn.value else (x, y) in b.deps)
  {
    hide Blocked, Gates, LeadAssignment, LeadStatus, Timed, Finish, WorkerDraft, AdminAssigneeCheck, FindAgent,
         DependencyCheck;
  }

  predicate IsWorker(b: Board, actor: Option<AgentId>) {
    actor.Some? && FindAgent(b.agents, actor.value).Some? && !FindAgent(b.agents, actor.value).value.isLead
  }

  // ----- the board -----

  function NotedAs(t: TaskId, actor: Option<AgentId>, comment: bool, now: Time): seq<Event> {
    if comment then [Event(t, actor, Comment(false), now)] else []
  }

  /** An accepted update writes its row and the dependencies, resets waiting dependents when it reopens the task, logs
      its comment and its move, and leaves everything else but the plans. */
  lemma UpdateLeaves(b: Board, t: TaskId, actor: Option<AgentId>, r: Request, now: Time)
    requires t in b.tasks && Decide(b, t, actor, r, now).Ok?
    ensures var d := Decide(b, t, actor, r, now).value;
      var c := UpdateTask(b, t, actor, r, now).value;
      var moved := d.task.status != b.tasks[t].status;
      && c == b.(tasks := c.tasks, deps := d.deps, plans := c.plans, log := c.log)
      && c.log == b.log + NotedAs(t, actor, r.comment, now)
                  + (if moved then [Event(t, actor, MovedTo(d.task.status), now)] else [])
      && c.tasks.Keys == b.tasks.Keys
      && (forall x <- b.tasks.Keys :: (x, t) !in d.deps || b.tasks[t].status != Done || d.task.status == Done ==>
            c.tasks[x] == if x == t then d.task else b.tasks[x])
  {
    hide Decide, PlansFollow;
  }
}
