/** Why an update is refused: each kind of refusal only answers a fault of its kind. */
module UpdateRefusals {
  import opened Wrappers
  import opened Tables
  import opened Cycles
  import opened TaskUpdate
  import opened UpdateOutcome
  import opened UpdateAcceptance
  import DoneGate

  /** The agent a request assigns. */
  function Assignee(r: Request): Option<AgentId> {
    if r.assignee.Some? then r.assignee.value else None
  }

  /** A task or an agent that is named is not there. */
  predicate NamesUnknown(b: Board, r: Request) {
    || (r.dependsOn.Some? && exists d <- r.dependsOn.value :: d !in b.tasks)
    || (Assignee(r).Some? && FindAgent(b.agents, Assignee(r).value).None?)
  }

  predicate Merges(prior: Task, agent: Agent, r: Request) {
    r.status == Some(Done) && prior.status == Review && agent.role == Merger
  }

  /** A lead may assign, and take or give back; another agent may move its own or nobody's task of its board. */
  predicate Oversteps(b: Board, prior: Task, agent: Agent, r: Request) {
    if agent.isLead then
      || r.comment || r.actualMinutes.Some? || r.estimate || r.otherFields
      || (Assignee(r).Some? && FindAgent(b.agents, Assignee(r).value).Some?
          && FindAgent(b.agents, Assignee(r).value).value.isLead)
      || (r.status.Some?
          && !(prior.status == Inbox && r.status.value == InProgress && Assignee(r).Some?)
          && !(prior.status == Review && r.status.value in {Done, Inbox}))
    else
      || agent.board !in {None, Some(b.id)}
      || (r.status.Some? && prior.assignee !in {None, Some(agent.id)} && !Merges(prior, agent, r))
      || (!IsEstimate(prior, agent, r)
          && (r.dependsOn.Some? || r.tags != Absent || r.assignee.Some? || r.actualMinutes.Some? || r.estimate
              || r.otherFields))
      || (r.status.Some? && b.rules.onlyLeadMoves)
      || (r.status == Some(Done) && !Merges(prior, agent, r))
  }

  /** The status a request leads to: the inbox, when an administrator's leaves or finds the task blocked. */
  predicate LeadsTo(b: Board, t: TaskId, actor: Option<Agent>, r: Request, target: Status)
    requires t in b.tasks
  {
    var asked := if r.status.Some? then r.status.value else b.tasks[t].status;
    target == asked || (actor.None? && !Unblocked(b, t, r) && target == Inbox)
  }

  /** What the board is like stands against the request. */
  ghost predicate Clashes(b: Board, t: TaskId, actor: Option<Agent>, r: Request)
    requires t in b.tasks
  {
    || (r.dependsOn.Some? && b.tasks[t].status == Done)
    || (r.dependsOn.Some? && CycleFrom(WithDeps(b.deps, t, r.dependsOn.value), b.tasks.Keys))
    || (actor.Some? && !Unblocked(b, t, r))
    || (Assignee(r).Some? && FindAgent(b.agents, Assignee(r).value).Some? && !MayWorkHere(b, Assignee(r).value))
    || exists target :: LeadsTo(b, t, actor, r, target)
         && !(NothingAwaited(b, t, r, target) && MayComplete(b, t, target) && MayMove(b.tasks[t], target))
  }

  /** The request itself is not well formed, or lacks the words it takes. */
  ghost predicate Lacks(b: Board, t: TaskId, actor: Option<Agent>, r: Request)
    requires t in b.tasks
  {
    || (r.dependsOn.Some? && t in r.dependsOn.value) || !WellFormed(r)
    || (actor.Some? && r.status == Some(Done) && !DoneGate.HasEvidence(b, t, r))
    || (r.status == Some(Review) && !ReviewExplained(b, t, AuthorOf(b.tasks[t], r), r))
  }

  /** The fault a refusal answers. */
  ghost predicate Deserves(b: Board, t: TaskId, actor: Option<Agent>, r: Request, refusal: Refusal)
    requires t in b.tasks
  {
    match refusal
    case Unauthorized => false
    case NotFound => NamesUnknown(b, r)
    case Forbidden => actor.Some? && Oversteps(b, b.tasks[t], actor.value, r)
    case Conflict => Clashes(b, t, actor, r)
    case Invalid => Lacks(b, t, actor, r)
  }

  // ----- the common end -----

  lemma GatesRefusal(b: Board, t: TaskId, byAgent: bool, task: Task, r: Request)
    requires t in b.tasks
    requires byAgent && BecomesDone(b.tasks[t], task) ==>
      r.status == Some(Done) && task.previousInProgressAt == b.tasks[t].previousInProgressAt
    ensures match Gates(b, t, byAgent, b.tasks[t], task, r)
      case Pass => true
      case Refuse(e) =>
        && (e == Conflict || e == Invalid)
        && (e == Conflict ==> !(NothingAwaited(b, t, r, task.status) && MayComplete(b, t, task.status)))
        && (e == Invalid ==> byAgent && r.status == Some(Done) && !DoneGate.HasEvidence(b, t, r))
  {
    hide HasPending, HasApproved, AwaitsVerdict, IsApproved, CompletionEvidence, DoneGate.HasEvidence;
    PendingMeans(b, t);
    ApprovedMeans(b, t);
    if byAgent && BecomesDone(b.tasks[t], task) { EvidenceMeans(b, t, task, r); }
  }

  lemma FinishRefusal(b: Board, t: TaskId, byAgent: bool, draft: Draft, r: Request, now: Time)
    requires t in b.tasks
    requires draft.status.None? ==> draft.task.status == b.tasks[t].status
    requires draft.status == Some(Review) ==>
      draft.task.previousInProgressAt == b.tasks[t].inProgressAt && r.status == Some(Review)
      && draft.task.assignee == None && draft.assignee == r.assignee
    requires byAgent && b.tasks[t].status != Done && draft.status == Some(Done) ==>
      r.status == Some(Done) && draft.task.previousInProgressAt == b.tasks[t].previousInProgressAt
    ensures var target := if draft.status.Some? then draft.status.value else b.tasks[t].status;
      match Finish(b, t, byAgent, draft, r, now)
      case Ok(_) => true
      case Err(e) =>
        && (e == Conflict || e == Invalid)
        && (e == Conflict ==>
              !(NothingAwaited(b, t, r, target) && MayComplete(b, t, target) && MayMove(b.tasks[t], target)))
        && (e == Invalid ==>
              || !WellFormed(r) || (byAgent && r.status == Some(Done) && !DoneGate.HasEvidence(b, t, r))
              || (r.status == Some(Review) && !ReviewExplained(b, t, AuthorOf(b.tasks[t], r), r)))
  {
    hide Gates, ReviewCommentCheck, NothingAwaited, MayComplete, DoneGate.HasEvidence, ReviewExplained, NextStatuses,
         ElapsedMinutes, WithReviewer;
    var prior, placed := b.tasks[t], Assigned(draft, r.actualMinutes);
    var task := Timed(prior, placed, draft.status.Some?, r.actualMinutes.Some?, now);
    GatesRefusal(b, t, byAgent, placed, r);
    MovesMeans(prior.status, placed.status);
    if draft.status == Some(Review) {
      ReviewMeans(b, t, task, draft, r);
      CommentRefusal(b, t, task, draft, r);
    } else {
      NoReviewNoComment(b, t, task, draft, r);
    }
  }

  lemma CommentRefusal(b: Board, t: TaskId, task: Task, draft: Draft, r: Request)
    requires t in b.tasks
    ensures var check := ReviewCommentCheck(b, t, b.tasks[t], task, draft, r); check.Refuse? ==> check.error == Invalid
  {
    hide NewestComment;
  }

  // ----- the three paths -----

  lemma ReplaceRefusal(b: Board, t: TaskId, actor: Option<Agent>, r: Request)
    requires t in b.tasks
    ensures match ReplaceDependencies(b, t, r)
      case Ok(_) => true
      case Err(e) => Deserves(b, t, actor, r, e)
  {
    hide CycleFrom, LeadsTo, Oversteps;
  }

  lemma LeadRefusals(b: Board, t: TaskId, lead: Agent, r: Request, now: Time)
    requires t in b.tasks && lead.isLead
    ensures match LeadDecision(b, t, lead, r, now)
      case Ok(_) => true
      case Err(e) => Deserves(b, t, Some(lead), r, e)
  {
    hide Gates, Blocked, ReplaceDependencies, Unblocked, NothingAwaited, MayComplete, DoneGate.HasEvidence, MayMove,
         LastReviewMover, FindAgent, ElapsedMinutes, CycleFrom, ReviewExplained;
    ReplaceMeans(b, t, r);
    ReplaceRefusal(b, t, Some(lead), r);
    var placed := LeadAssignment(b, b.tasks[t], r);
    if placed.Ok? && LeadStatus(b, t, lead.id, placed.value, r).Ok? {
      var task := LeadStatus(b, t, lead.id, placed.value, r).value;
      GatesRefusal(b, t, true, task, r);
      assert LeadsTo(b, t, Some(lead), r, task.status);
    }
  }

  lemma WorkerRefusals(b: Board, t: TaskId, agent: Agent, r: Request, now: Time)
    requires t in b.tasks && !agent.isLead
    ensures match WorkerDecision(b, t, agent, r, now)
      case Ok(_) => true
      case Err(e) => Deserves(b, t, Some(agent), r, e)
  {
    hide Finish, Blocked, AllDone, NothingAwaited, MayComplete, DoneGate.HasEvidence, MayMove, CycleFrom, FindAgent,
         ReviewExplained;
    BlockedMeans(b, b.deps, t);
    var draft := WorkerDraft(b, t, agent, r, now);
    if draft.Ok? {
      FinishRefusal(b, t, true, draft.value, r, now);
      assert LeadsTo(b, t, Some(agent), r, if r.status.Some? then r.status.value else b.tasks[t].status);
    }
  }

  lemma AdminRefusals(b: Board, t: TaskId, r: Request, now: Time)
    requires t in b.tasks
    ensures match AdminDecision(b, t, r, now)
      case Ok(_) => true
      case Err(e) => Deserves(b, t, None, r, e)
  {
    hide Finish, Blocked, ReplaceDependencies, Unblocked, NothingAwaited, MayComplete, DoneGate.HasEvidence, MayMove,
         CycleFrom, FindAgent, ReviewExplained, Oversteps;
    ReplaceMeans(b, t, r);
    ReplaceRefusal(b, t, None, r);
    if r.tags != Malformed && ReplaceDependencies(b, t, r).Ok? {
      var draft := AdminDraft(b, ReplaceDependencies(b, t, r).value, t, r, now);
      FinishRefusal(b, t, false, draft, r, now);
      assert LeadsTo(b, t, None, r, if draft.status.Some? then draft.status.value else b.tasks[t].status);
    }
  }

  /** Every refusal answers a fault of its kind: an unknown task, agent or actor, an actor who oversteps, a board that
      stands against the request, or a request that is not well formed or lacks a comment. */
  lemma RefusalsAreDeserved(b: Board, t: TaskId, actor: Option<AgentId>, r: Request, now: Time)
    ensures match UpdateTask(b, t, actor, r, now)
      case Ok(_) => true
      case Err(e) =>
        if t !in b.tasks then e == NotFound
        else if actor.Some? && FindAgent(b.agents, actor.value).None? then e == Unauthorized
        else Deserves(b, t, if actor.Some? then FindAgent(b.agents, actor.value) else None, r, e)
  {
    hide LeadDecision, WorkerDecision, AdminDecision, Deserves, FindAgent, Commit;
    if t in b.tasks {
      AdminRefusals(b, t, r, now);
      if actor.Some? && FindAgent(b.agents, actor.value).Some? {
        var agent := FindAgent(b.agents, actor.value).value;
        if agent.isLead { LeadRefusals(b, t, agent, r, now); } else { WorkerRefusals(b, t, agent, r, now); }
      }
    }
  }
}
