/** Which status moves a step can make, and whose task it is afterwards. */
module StatusMoves {
  import opened Wrappers
  import opened Tables
  import opened TaskUpdate
  import opened BoardSteps
  import opened StepFrames
  import DependencySafety

  /** The status stays or moves along the transition table. */
  predicate Allowed(was: Status, becomes: Status) {
    becomes == was || becomes in NextStatuses(was)
  }

  lemma LeadMovesAlongTable(b: Board, t: TaskId, lead: Agent, r: Request, now: Time)
    requires t in b.tasks && LeadDecision(b, t, lead, r, now).Ok?
    ensures Allowed(b.tasks[t].status, LeadDecision(b, t, lead, r, now).value.task.status)
  {
    hide Blocked, Gates, ReplaceDependencies, FindAgent, LastReviewMover, ElapsedMinutes;
  }

  lemma DecisionMovesAlongTable(b: Board, t: TaskId, actor: Option<AgentId>, r: Request, now: Time)
    requires t in b.tasks && Decide(b, t, actor, r, now).Ok?
    ensures Allowed(b.tasks[t].status, Decide(b, t, actor, r, now).value.task.status)
  {
    hide LeadDecision, Finish, Blocked, ReplaceDependencies, AdminAssigneeCheck, WorkerChecks, NextStatuses;
    if actor.None? {
      var draft := AdminDraft(b, ReplaceDependencies(b, t, r).value, t, r, now);
      DependencySafety.FinishSetsStatus(b, t, false, draft, r, now);
    } else {
      var agent := FindAgent(b.agents, actor.value).value;
      if agent.isLead {
        LeadMovesAlongTable(b, t, agent, r, now);
      } else {
        DependencySafety.FinishSetsStatus(b, t, true, WorkerDraft(b, t, agent, r, now).value, r, now);
      }
    }
  }

  /** The step reopens a task the given one depends on. */
  ghost predicate ReopensDependencyOf(b: Board, s: Step, x: TaskId) {
    s.Update? && IsDone(b.tasks, s.task) && !IsDone(Apply(b, s).tasks, s.task) && (x, s.task) in Apply(b, s).deps
  }

  /** In any step, an existing task keeps its status, moves along the transition table by a request on itself,
      or, not being done, is sent to the inbox because a task it depends on was reopened. (Only a task that depends
      on itself could be both.) */
  lemma EveryMoveIsAllowed(b: Board, s: Step, x: TaskId)
    requires x in b.tasks && x in Apply(b, s).tasks
    ensures var was, becomes := b.tasks[x].status, Apply(b, s).tasks[x].status;
      || becomes == was
      || (s.Update? && s.task == x && becomes in NextStatuses(was))
      || (becomes == Inbox && ReopensDependencyOf(b, s, x) && (was != Done || s.task == x))
  {
    if s.Update? {
      hide Decide, PlansFollow, Logged, NextStatuses;
      if s.task in b.tasks && Decide(b, s.task, s.actor, s.request, s.now).Ok? {
        DecisionMovesAlongTable(b, s.task, s.actor, s.request, s.now);
      }
    } else if s.Create? {
      hide FindAgent, DependencyCheck, PlanExists, NewAssigneeCheck, BlockedBy;
    } else if !s.Delete? {
      hide Apply;
      MinorStepsOnTasks(b, s);
    }
  }

  /** A request touches its own task; every other task stays as it was, except that one that is not done and
      depends directly on a task just reopened goes back to the inbox, unassigned and stopped. */
  lemma OthersOnlyReset(b: Board, s: Step, x: TaskId)
    requires s.Update? && x in b.tasks && x != s.task
    ensures x in Apply(b, s).tasks
    ensures Apply(b, s).tasks[x]
         == if b.tasks[x].status != Done && ReopensDependencyOf(b, s, x)
            then b.tasks[x].(status := Inbox, assignee := None, inProgressAt := None) else b.tasks[x]
  {
    hide Decide, PlansFollow, Logged;
  }

  /** After an agent's accepted move the task is in the status asked for. In the inbox it is nobody's, in review
      it waits for the board's lead, and otherwise it is the agent's, who is stamped as its start when it begins. */
  lemma WorkerTakesOrReleases(b: Board, t: TaskId, agent: Agent, r: Request, now: Time)
    requires t in b.tasks && WorkerDecision(b, t, agent, r, now).Ok? && r.status.Some?
    ensures var prior, task := b.tasks[t], WorkerDecision(b, t, agent, r, now).value.task;
      && task.status == r.status.value
      && (task.status == Inbox ==> task.assignee.None? && task.previousInProgressAt == prior.inProgressAt)
      && (task.status == Review && prior.status != Review ==>
            task.assignee == FindLead(b.agents, b.id) && task.previousInProgressAt == prior.inProgressAt)
      && (task.status !in {Inbox, Review} ==>
            task.assignee == Some(agent.id) && task.previousInProgressAt == prior.previousInProgressAt)
      && (task.status == InProgress ==> task.inProgressAt == Some(now))
  {
    hide Blocked, WorkerChecks, Gates, ReviewCommentCheck, NextStatuses, FindLead, ElapsedMinutes;
  }

  /** An administrator's accepted request on a blocked task parks it: whatever was asked, it is in the inbox,
      unassigned and stopped. The one exception is a done task that stays done. */
  lemma AdminParksBlocked(b: Board, t: TaskId, r: Request, now: Time)
    requires t in b.tasks && AdminDecision(b, t, r, now).Ok?
    requires Blocked(b, AdminDecision(b, t, r, now).value.deps, t)
    requires !(b.tasks[t].status == Done && (r.status.None? || r.status == Some(Done)))
    ensures var task := AdminDecision(b, t, r, now).value.task;
      task.status == Inbox && task.assignee.None? && task.inProgressAt.None?
    ensures b.tasks[t].status in {Inbox, Backlog, InProgress, Review}
  {
    hide Blocked, ReplaceDependencies, Gates, ReviewCommentCheck, FindLead, AdminAssigneeCheck, ElapsedMinutes;
  }

  /** So a done task whose dependency was reopened cannot be reopened by an administrator either. */
  lemma BlockedDoneStaysDone(b: Board, t: TaskId, r: Request, now: Time)
    requires t in b.tasks && b.tasks[t].status == Done && Blocked(b, b.deps, t)
    requires r.status.Some? && r.status != Some(Done)
    ensures AdminDecision(b, t, r, now).Err?
  {
    hide Blocked, AdminDraft, Finish, AdminAssigneeCheck;
    if AdminDecision(b, t, r, now).Ok? {
      AdminParksBlocked(b, t, r, now);
      assert false;
    }
  }
}
