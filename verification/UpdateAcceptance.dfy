/** Which updates of a task are accepted, path by path and both ways: nothing else is refused, and nothing else gets
    through. */
module UpdateAcceptance {
  import opened Wrappers
  import opened Tables
  import opened TaskUpdate
  import opened UpdateOutcome
  import DoneGate

  // ----- the rules of the board -----

  /** A requested change of status waits for open approvals when the board says so. */
  predicate NothingAwaited(b: Board, t: TaskId, r: Request, target: Status)
    requires t in b.tasks
  {
    b.rules.blockOnPending && r.status.Some? && r.status.value != b.tasks[t].status && target != b.tasks[t].status ==>
      !AwaitsVerdict(b, t)
  }

  predicate MayComplete(b: Board, t: TaskId, target: Status)
    requires t in b.tasks
  {
    b.tasks[t].status != Done && target == Done ==>
      (b.rules.reviewBeforeDone ==> b.tasks[t].status == Review) && (b.rules.approvalForDone ==> IsApproved(b, t))
  }

  predicate MayMove(prior: Task, target: Status) {
    target == prior.status || (prior.status, target) in MOVES
  }

  /** Entering review takes a comment when the board says so: in the request, or by the worker since work began. */
  ghost predicate ReviewExplained(b: Board, t: TaskId, author: Option<AgentId>, r: Request)
    requires t in b.tasks
  {
    !b.rules.commentForReview || r.comment
    || (author.Some? && b.tasks[t].inProgressAt.Some?
        && LatestBySolid(b.log, t, author.value, b.tasks[t].inProgressAt.value))
  }

  predicate WellFormed(r: Request) {
    r.tags != Malformed && r.customFields != Malformed
  }

  /** What the common end asks of a request that leads to `target`. */
  ghost predicate EndAccepts(b: Board, t: TaskId, byAgent: bool, asked: Option<Status>, author: Option<AgentId>,
                             r: Request)
    requires t in b.tasks
  {
    var prior := b.tasks[t];
    var target := if asked.Some? then asked.value else prior.status;
    && NothingAwaited(b, t, r, target) && MayComplete(b, t, target) && MayMove(prior, target)
    && (byAgent && prior.status != Done && target == Done ==> DoneGate.HasEvidence(b, t, r))
    && (asked == Some(Review) ==> ReviewExplained(b, t, author, r))
    && WellFormed(r)
  }

  lemma EvidenceMeans(b: Board, t: TaskId, task: Task, r: Request)
    requires t in b.tasks && task.previousInProgressAt == b.tasks[t].previousInProgressAt
    ensures CompletionEvidence(b, t, b.tasks[t], task, r) <==> DoneGate.HasEvidence(b, t, r)
  {
    hide DoneGate.LatestIsSolid, NewestComment;
    DoneGate.NewestIsSolid(b.log, t, Either(b.tasks[t].inProgressAt, task.previousInProgressAt));
  }

  lemma ReviewMeans(b: Board, t: TaskId, task: Task, draft: Draft, r: Request)
    requires t in b.tasks && draft.status == Some(Review) && task.previousInProgressAt == b.tasks[t].inProgressAt
    ensures ReviewCommentCheck(b, t, b.tasks[t], task, draft, r).Pass?
      <==> ReviewExplained(b, t, if task.assignee.Some? then task.assignee else b.tasks[t].assignee, r)
  {
    hide NewestComment, LatestBySolid;
    var author := if task.assignee.Some? then task.assignee else b.tasks[t].assignee;
    var since := b.tasks[t].inProgressAt;
    if author.Some? && since.Some? { NewestBySolid(b.log, t, author.value, since.value); }
  }

  lemma GatesMean(b: Board, t: TaskId, byAgent: bool, task: Task, r: Request)
    requires t in b.tasks
    requires byAgent && task.status == Done != b.tasks[t].status ==>
      r.status == Some(Done) && task.previousInProgressAt == b.tasks[t].previousInProgressAt
    ensures Gates(b, t, byAgent, b.tasks[t], task, r).Pass? <==>
      NothingAwaited(b, t, r, task.status) && MayComplete(b, t, task.status)
      && (byAgent && b.tasks[t].status != Done && task.status == Done ==> DoneGate.HasEvidence(b, t, r))
  {
    hide HasPending, HasApproved, AwaitsVerdict, IsApproved, CompletionEvidence, DoneGate.HasEvidence;
    PendingMeans(b, t);
    ApprovedMeans(b, t);
    if byAgent && task.status == Done != b.tasks[t].status { EvidenceMeans(b, t, task, r); }
  }

  /** The common end accepts exactly those. */
  lemma FinishAccepts(b: Board, t: TaskId, byAgent: bool, draft: Draft, r: Request, now: Time)
    requires t in b.tasks
    requires draft.status.None? ==> draft.task.status == b.tasks[t].status
    requires draft.status == Some(Review) ==> draft.task.previousInProgressAt == b.tasks[t].inProgressAt
    requires byAgent && draft.status == Some(Done) != Some(b.tasks[t].status) ==>
      r.status == Some(Done) && draft.task.previousInProgressAt == b.tasks[t].previousInProgressAt
    ensures var given := if draft.assignee.Some? then draft.assignee.value else draft.task.assignee;
      Finish(b, t, byAgent, draft, r, now).Ok? <==>
      EndAccepts(b, t, byAgent, draft.status, if given.Some? then given else b.tasks[t].assignee, r)
  {
    hide Gates, ReviewCommentCheck, NothingAwaited, MayComplete, DoneGate.HasEvidence, ReviewExplained, NextStatuses,
         ElapsedMinutes, WithReviewer;
    var prior, placed := b.tasks[t], Assigned(draft, r.actualMinutes);
    var task := Timed(prior, placed, draft.status.Some?, r.actualMinutes.Some?, now);
    GatesMean(b, t, byAgent, placed, r);
    MovesMeans(prior.status, placed.status);
    if draft.status == Some(Review) {
      ReviewMeans(b, t, task, draft, r);
    } else {
      NoReviewNoComment(b, t, task, draft, r);
    }
  }

  lemma NoReviewNoComment(b: Board, t: TaskId, task: Task, draft: Draft, r: Request)
    requires t in b.tasks && draft.status != Some(Review)
    ensures ReviewCommentCheck(b, t, b.tasks[t], task, draft, r).Pass?
  {
  }

  // ----- dependencies -----

  /** The dependencies may be replaced as asked. */
  ghost predicate MayReplace(b: Board, t: TaskId, r: Request)
    requires t in b.tasks
  {
    r.dependsOn.Some? ==> b.tasks[t].status != Done && MayDependOn(b, t, r.dependsOn.value)
  }

  /** The task's dependencies after the request are done. */
  predicate Unblocked(b: Board, t: TaskId, r: Request) {
    if r.dependsOn.Some? then forall d <- r.dependsOn.value :: d in b.tasks && b.tasks[d].status == Done
    else AllDone(b, b.deps, t)
  }

  lemma ReplaceMeans(b: Board, t: TaskId, r: Request)
    requires t in b.tasks
    ensures ReplaceDependencies(b, t, r).Ok? <==> MayReplace(b, t, r)
    ensures ReplaceDependencies(b, t, r).Ok? ==>
      (Blocked(b, ReplaceDependencies(b, t, r).value, t) <==> !Unblocked(b, t, r))
  {
    hide DependencyCheck, MayDependOn, Blocked;
    if r.dependsOn.Some? {
      DependencyMeans(b, t, r.dependsOn.value);
      BlockedMeans(b, WithDeps(b.deps, t, r.dependsOn.value), t);
    } else {
      BlockedMeans(b, b.deps, t);
    }
  }

  // ----- the three paths -----

  /** What a lead's request has to meet. */
  ghost predicate LeadAccepts(b: Board, t: TaskId, r: Request)
    requires t in b.tasks
  {
    var prior := b.tasks[t];
    var assigning := r.assignee.Some? && r.assignee.value.Some?;
    && !r.comment && r.actualMinutes.None? && !r.estimate && !r.otherFields && WellFormed(r) && MayReplace(b, t, r)
    && (r.status.Some? || r.assignee.Some? ==> Unblocked(b, t, r))
    && (assigning ==>
          MayWorkHere(b, r.assignee.value.value) && !FindAgent(b.agents, r.assignee.value.value).value.isLead)
    && (r.status.Some? ==>
          || (prior.status == Inbox && r.status.value == InProgress && assigning)
          || (prior.status == Review && r.status.value in {Done, Inbox}))
    && (r.status.Some? ==> NothingAwaited(b, t, r, r.status.value))
    && (r.status == Some(Done) ==> MayComplete(b, t, Done) && DoneGate.HasEvidence(b, t, r))
  }

  lemma LeadAcceptsExactly(b: Board, t: TaskId, lead: Agent, r: Request, now: Time)
    requires t in b.tasks
    ensures LeadDecision(b, t, lead, r, now).Ok? <==> LeadAccepts(b, t, r)
  {
    hide Gates, Blocked, ReplaceDependencies, Unblocked, MayReplace, NothingAwaited, MayComplete, DoneGate.HasEvidence,
         LastReviewMover, FindAgent, ElapsedMinutes;
    ReplaceMeans(b, t, r);
    var placed := LeadAssignment(b, b.tasks[t], r);
    if placed.Ok? && LeadStatus(b, t, lead.id, placed.value, r).Ok? {
      GatesMean(b, t, true, LeadStatus(b, t, lead.id, placed.value, r).value, r);
      NothingChanges(b, t, r);
    }
  }

  lemma NothingChanges(b: Board, t: TaskId, r: Request)
    requires t in b.tasks
    ensures NothingAwaited(b, t, r, b.tasks[t].status)
    ensures forall target :: target != Done ==> MayComplete(b, t, target)
    ensures b.tasks[t].status == Done ==> MayComplete(b, t, Done)
  {
    hide AwaitsVerdict, IsApproved;
  }

  /** An estimator's note on a backlog ticket, with nothing else in it. */
  predicate IsEstimate(prior: Task, agent: Agent, r: Request) {
    agent.role == Estimator && r.estimate && prior.status in {Triage, Backlog} && prior.isBacklog
    && r.status.None? && r.assignee.None? && r.actualMinutes.None? && !r.otherFields
  }

  /** What another agent's request has to meet. */
  ghost predicate WorkerAccepts(b: Board, t: TaskId, agent: Agent, r: Request)
    requires t in b.tasks
  {
    var prior := b.tasks[t];
    var merging := r.status == Some(Done) && prior.status == Review && agent.role == Merger;
    && agent.board in {None, Some(b.id)} && WellFormed(r)
    && (r.status.Some? ==> prior.assignee in {None, Some(agent.id)} || merging)
    && (IsEstimate(prior, agent, r)
        || (r.dependsOn.None? && r.tags == Absent && r.assignee.None? && r.actualMinutes.None? && !r.estimate
            && !r.otherFields))
    && (r.status.Some? ==>
          && !b.rules.onlyLeadMoves
          && (r.status != Some(Inbox) ==> AllDone(b, b.deps, t))
          && (r.status == Some(Done) ==> merging)
          && EndAccepts(b, t, true, r.status, prior.assignee, r))
  }

  lemma WorkerAcceptsExactly(b: Board, t: TaskId, agent: Agent, r: Request, now: Time)
    requires t in b.tasks
    ensures WorkerDecision(b, t, agent, r, now).Ok? <==> WorkerAccepts(b, t, agent, r)
  {
    hide Finish, Blocked, AllDone, EndAccepts;
    BlockedMeans(b, b.deps, t);
    var draft := WorkerDraft(b, t, agent, r, now);
    if draft.Ok? {
      FinishAccepts(b, t, true, draft.value, r, now);
      if r.status.None? { StandingStill(b, t, r); } else { AuthorsOfReviews(b, t, r); }
    }
  }

  /** The author of a comment only matters for review. */
  lemma AuthorsOfReviews(b: Board, t: TaskId, r: Request)
    requires t in b.tasks
    ensures forall author :: r.status != Some(Review) ==>
      (EndAccepts(b, t, true, r.status, author, r) <==> EndAccepts(b, t, true, r.status, b.tasks[t].assignee, r))
    ensures forall author :: EndAccepts(b, t, true, r.status, author, r) ==> WellFormed(r)
  {
    hide NothingAwaited, MayComplete, DoneGate.HasEvidence, ReviewExplained;
  }

  /** A request for no status passes the common end when it is well formed. */
  lemma StandingStill(b: Board, t: TaskId, r: Request)
    requires t in b.tasks && r.status.None?
    ensures forall author :: EndAccepts(b, t, true, None, author, r) <==> WellFormed(r)
  {
    hide AwaitsVerdict, IsApproved, ReviewExplained;
  }

  /** What an administrator's request has to meet. On a task it parks, it is taken for one that unassigns and asks for
      the inbox. */
  ghost predicate AdminAccepts(b: Board, t: TaskId, r: Request)
    requires t in b.tasks
  {
    var prior := b.tasks[t];
    var parks := !Unblocked(b, t, r) && !(prior.status == Done && r.status in {None, Some(Done)});
    && MayReplace(b, t, r)
    && if parks then EndAccepts(b, t, false, Some(Inbox), prior.assignee, r)
       else
         && (r.assignee.Some? && r.assignee.value.Some? ==> MayWorkHere(b, r.assignee.value.value))
         && EndAccepts(b, t, false, r.status, AuthorOf(prior, r), r)
  }

  /** Whose comment counts: the agent the request assigns, or the one who had the task. */
  function AuthorOf(prior: Task, r: Request): Option<AgentId> {
    if r.assignee.Some? && r.assignee.value.Some? then r.assignee.value else prior.assignee
  }

  lemma AdminAcceptsExactly(b: Board, t: TaskId, r: Request, now: Time)
    requires t in b.tasks
    ensures AdminDecision(b, t, r, now).Ok? <==> AdminAccepts(b, t, r)
  {
    hide Finish, Blocked, ReplaceDependencies, Unblocked, MayReplace, EndAccepts, FindAgent;
    ReplaceMeans(b, t, r);
    WellFormedEnd(b, t, r);
    if ReplaceDependencies(b, t, r).Ok? {
      var draft := AdminDraft(b, ReplaceDependencies(b, t, r).value, t, r, now);
      AdminEnd(b, t, draft, r, now);
    }
  }

  lemma WellFormedEnd(b: Board, t: TaskId, r: Request)
    requires t in b.tasks
    ensures forall asked, author :: EndAccepts(b, t, false, asked, author, r) ==> r.tags != Malformed
  {
  }

  lemma AdminEnd(b: Board, t: TaskId, draft: Draft, r: Request, now: Time)
    requires t in b.tasks
    requires draft.status.None? ==> draft.task.status == b.tasks[t].status
    requires draft.status == Some(Review) ==> draft.task.previousInProgressAt == b.tasks[t].inProgressAt
    ensures var given := if draft.assignee.Some? then draft.assignee.value else draft.task.assignee;
      Finish(b, t, false, draft, r, now).Ok? <==>
      EndAccepts(b, t, false, draft.status, if given.Some? then given else b.tasks[t].assignee, r)
  {
    hide Finish, EndAccepts;
    FinishAccepts(b, t, false, draft, r, now);
  }

  /** An update is accepted exactly when its task exists, its actor is known, and the actor's path accepts it. */
  lemma AcceptedExactly(b: Board, t: TaskId, actor: Option<AgentId>, r: Request, now: Time)
    ensures UpdateTask(b, t, actor, r, now).Ok? <==>
      t in b.tasks
      && (if actor.None? then AdminAccepts(b, t, r)
          else
            var agent := FindAgent(b.agents, actor.value);
            agent.Some? && if agent.value.isLead then LeadAccepts(b, t, r) else WorkerAccepts(b, t, agent.value, r))
  {
    hide LeadDecision, WorkerDecision, AdminDecision, LeadAccepts, WorkerAccepts, AdminAccepts, FindAgent, Commit;
    if t in b.tasks {
      AdminAcceptsExactly(b, t, r, now);
      if actor.Some? && FindAgent(b.agents, actor.value).Some? {
        var agent := FindAgent(b.agents, actor.value).value;
        LeadAcceptsExactly(b, t, agent, r, now);
        WorkerAcceptsExactly(b, t, agent, r, now);
      }
    }
  }
}
