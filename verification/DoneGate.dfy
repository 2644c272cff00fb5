/** What must hold when a task becomes done: the gates, on every path and over whole runs. */
module DoneGate {
  import opened Wrappers
  import opened Tables
  import opened TaskUpdate
  import opened BoardSteps
  import opened StepFrames

  /** The conditions every path asks before a task becomes done; `deps` are the rows after the request. */
  predicate GatesOpen(b: Board, deps: set<(TaskId, TaskId)>, t: TaskId)
    requires t in b.tasks
  {
    !Blocked(b, deps, t)
    && (b.rules.reviewBeforeDone ==> b.tasks[t].status == Review)
    && (b.rules.approvalForDone ==> HasApproved(b.approvals, b.links, t))
    && (b.rules.blockOnPending ==> !HasPending(b.approvals, b.links, t))
  }

  /** An agent's comment on the task not older than `since`, after which no other was made. */
  ghost predicate LatestIsSolid(log: seq<Event>, t: TaskId, since: Option<Time>) {
    exists k :: 0 <= k < |log| && IsSolidLatest(log, t, since, k)
  }

  predicate IsSolidLatest(log: seq<Event>, t: TaskId, since: Option<Time>, k: nat)
    requires k < |log|
  {
    OnTask(log[k], t, since) && !log[k].kind.blank && forall j :: k < j < |log| ==> !OnTask(log[j], t, since)
  }

  predicate OnTask(e: Event, t: TaskId, since: Option<Time>) {
    e.task == t && e.kind.Comment? && e.agent.Some? && (since.None? || since.value <= e.at)
  }

  /** A comment in the request, or a solid one since the task was last started. */
  ghost predicate HasEvidence(b: Board, t: TaskId, r: Request)
    requires t in b.tasks
  {
    r.comment || LatestIsSolid(b.log, t, Either(b.tasks[t].inProgressAt, b.tasks[t].previousInProgressAt))
  }

  /** What is asked of an agent in particular: evidence, and a lead or a merger acting on a task in review. */
  ghost predicate AgentMay(b: Board, t: TaskId, id: AgentId, r: Request)
    requires t in b.tasks
  {
    var agent := FindAgent(b.agents, id);
    && agent.Some?
    && b.tasks[t].status == Review
    && (agent.value.isLead || agent.value.role == Merger)
    && HasEvidence(b, t, r)
  }

  // ----- the gates of each path -----

  lemma {:induction false} NewestIsSolid(log: seq<Event>, t: TaskId, since: Option<Time>)
    ensures NewestComment(log, t, None, since) == Some(false) <==> LatestIsSolid(log, t, since)
  {
    if log != [] {
      var front, e := log[..|log| - 1], log[|log| - 1];
      NewestIsSolid(front, t, since);
      if OnTask(e, t, since) {
        assert IsSolidLatest(log, t, since, |log| - 1) <==> !e.kind.blank;
        assert forall k :: 0 <= k < |log| - 1 ==> !IsSolidLatest(log, t, since, k);
      } else {
        SkipOther(log, t, since);
      }
    }
  }

  /** The newest event says nothing about the task. */
  lemma SkipOther(log: seq<Event>, t: TaskId, since: Option<Time>)
    requires log != [] && !OnTask(log[|log| - 1], t, since)
    ensures LatestIsSolid(log, t, since) <==> LatestIsSolid(log[..|log| - 1], t, since)
  {
    var front := log[..|log| - 1];
    forall k | 0 <= k < |front| ensures IsSolidLatest(log, t, since, k) <==> IsSolidLatest(front, t, since, k) {
      assert forall j :: k <= j < |front| ==> front[j] == log[j];
    }
    if LatestIsSolid(log, t, since) {
      var k :| 0 <= k < |log| && IsSolidLatest(log, t, since, k);
      assert IsSolidLatest(front, t, since, k);
    }
    if LatestIsSolid(front, t, since) {
      var k :| 0 <= k < |front| && IsSolidLatest(front, t, since, k);
      assert IsSolidLatest(log, t, since, k);
    }
  }

  /** The shared gates, once the target is done and the payload asked for it. */
  lemma GatesAsk(b: Board, t: TaskId, byAgent: bool, task: Task, r: Request)
    requires t in b.tasks && BecomesDone(b.tasks[t], task) && r.status == Some(Done)
    requires task.previousInProgressAt == b.tasks[t].previousInProgressAt
    ensures Gates(b, t, byAgent, b.tasks[t], task, r).Pass? <==>
      (b.rules.reviewBeforeDone ==> b.tasks[t].status == Review)
      && (b.rules.approvalForDone ==> HasApproved(b.approvals, b.links, t))
      && (b.rules.blockOnPending ==> !HasPending(b.approvals, b.links, t))
      && (byAgent ==> HasEvidence(b, t, r))
  {
    hide HasPending, HasApproved, NewestComment, LatestIsSolid;
    NewestIsSolid(b.log, t, Either(b.tasks[t].inProgressAt, b.tasks[t].previousInProgressAt));
  }

  lemma LeadGate(b: Board, t: TaskId, lead: Agent, r: Request, now: Time)
    requires t in b.tasks && LeadDecision(b, t, lead, r, now).Ok?
    requires BecomesDone(b.tasks[t], LeadDecision(b, t, lead, r, now).value.task)
    ensures r.status == Some(Done) && b.tasks[t].status == Review
    ensures GatesOpen(b, LeadDecision(b, t, lead, r, now).value.deps, t)
    ensures HasEvidence(b, t, r)
  {
    hide Blocked, HasPending, HasApproved, LatestIsSolid, Gates, FindAgent, ReplaceDependencies;
    var placed := LeadAssignment(b, b.tasks[t], r).value;
    var task := LeadStatus(b, t, lead.id, placed, r).value;
    GatesAsk(b, t, true, task, r);
  }

  lemma FinishGate(b: Board, t: TaskId, byAgent: bool, draft: Draft, r: Request, now: Time)
    requires t in b.tasks && Finish(b, t, byAgent, draft, r, now).Ok?
    requires BecomesDone(b.tasks[t], Finish(b, t, byAgent, draft, r, now).value)
    requires draft.status == Some(Done) ==> r.status == Some(Done)
    requires draft.status.None? ==> draft.task.status == b.tasks[t].status
    requires draft.status == Some(Done) ==> draft.task.previousInProgressAt == b.tasks[t].previousInProgressAt
    ensures r.status == Some(Done) && draft.status == Some(Done)
    ensures Gates(b, t, byAgent, b.tasks[t], Assigned(draft, r.actualMinutes), r).Pass?
    ensures (b.rules.reviewBeforeDone ==> b.tasks[t].status == Review)
      && (b.rules.approvalForDone ==> HasApproved(b.approvals, b.links, t))
      && (b.rules.blockOnPending ==> !HasPending(b.approvals, b.links, t))
      && (byAgent ==> HasEvidence(b, t, r))
  {
    hide HasPending, HasApproved, LatestIsSolid, Gates, ReviewCommentCheck, NextStatuses, FindLead;
    GatesAsk(b, t, byAgent, Assigned(draft, r.actualMinutes), r);
  }

  lemma WorkerGate(b: Board, t: TaskId, agent: Agent, r: Request, now: Time)
    requires t in b.tasks && WorkerDecision(b, t, agent, r, now).Ok?
    requires BecomesDone(b.tasks[t], WorkerDecision(b, t, agent, r, now).value.task)
    ensures b.tasks[t].status == Review && agent.role == Merger
    ensures GatesOpen(b, WorkerDecision(b, t, agent, r, now).value.deps, t)
    ensures HasEvidence(b, t, r)
  {
    hide Finish, Blocked, WorkerChecks, HasPending, HasApproved, LatestIsSolid;
    FinishGate(b, t, true, WorkerDraft(b, t, agent, r, now).value, r, now);
  }

  lemma AdminGate(b: Board, t: TaskId, r: Request, now: Time)
    requires t in b.tasks && AdminDecision(b, t, r, now).Ok?
    requires BecomesDone(b.tasks[t], AdminDecision(b, t, r, now).value.task)
    ensures GatesOpen(b, AdminDecision(b, t, r, now).value.deps, t)
  {
    hide Finish, Blocked, ReplaceDependencies, AdminAssigneeCheck, HasPending, HasApproved, LatestIsSolid;
    var deps := ReplaceDependencies(b, t, r).value;
    FinishGate(b, t, false, AdminDraft(b, deps, t, r, now), r, now);
  }

  // ----- the gates are all there is -----

  /** A request for nothing but done, perhaps with a comment. */
  function AskDone(comment: bool): Request {
    Request(Some(Done), None, comment, None, Absent, Absent, None, false, false)
  }

  /** A lead's bare request for done is accepted exactly when the task is in review and every gate is open. */
  lemma LeadFinishesExactlyWhen(b: Board, t: TaskId, lead: Agent, now: Time)
    requires t in b.tasks && b.tasks[t].status != Done
    ensures LeadDecision(b, t, lead, AskDone(false), now).Ok? <==>
      b.tasks[t].status == Review && GatesOpen(b, b.deps, t) && HasEvidence(b, t, AskDone(false))
  {
    hide Blocked, HasPending, HasApproved, HasEvidence, Gates;
    var r := AskDone(false);
    var task := b.tasks[t].(status := Done);
    GatesAsk(b, t, true, task, r);
  }

  /** Another agent's, exactly when it is a merger of this board or of none, status moves are not reserved to
      leads, the task is in review and every gate is open. */
  lemma MergerFinishesExactlyWhen(b: Board, t: TaskId, agent: Agent, comment: bool, now: Time)
    requires t in b.tasks && b.tasks[t].status != Done
    ensures WorkerDecision(b, t, agent, AskDone(comment), now).Ok? <==>
      agent.role == Merger && (agent.board.None? || agent.board == Some(b.id)) && !b.rules.onlyLeadMoves
      && b.tasks[t].status == Review && GatesOpen(b, b.deps, t) && HasEvidence(b, t, AskDone(comment))
  {
    hide Blocked, HasPending, HasApproved, HasEvidence, Gates, FindLead, NewestComment;
    var r := AskDone(comment);
    var task := b.tasks[t].(assignee := Some(agent.id), status := Done);
    GatesAsk(b, t, true, task, r);
  }

  // ----- every step -----

  /** An existing task becomes done by a step. */
  ghost predicate MarksDone(b: Board, s: Step, t: TaskId) {
    t in b.tasks && b.tasks[t].status != Done && IsDone(Apply(b, s).tasks, t)
  }

  lemma DecisionGate(b: Board, t: TaskId, actor: Option<AgentId>, r: Request, now: Time)
    requires t in b.tasks && Decide(b, t, actor, r, now).Ok?
    requires BecomesDone(b.tasks[t], Decide(b, t, actor, r, now).value.task)
    ensures GatesOpen(b, Decide(b, t, actor, r, now).value.deps, t)
    ensures actor.Some? ==> AgentMay(b, t, actor.value, r)
  {
    hide LeadDecision, WorkerDecision, AdminDecision, GatesOpen, LatestIsSolid;
    if actor.None? {
      AdminGate(b, t, r, now);
    } else {
      var agent := FindAgent(b.agents, actor.value).value;
      if agent.isLead { LeadGate(b, t, agent, r, now); } else { WorkerGate(b, t, agent, r, now); }
    }
  }

  /** A task only becomes done by an accepted request on that task, with every gate open. */
  lemma DoneOnlyThroughGates(b: Board, s: Step, t: TaskId)
    requires MarksDone(b, s, t)
    ensures s.Update? && s.task == t
    ensures GatesOpen(b, Apply(b, s).deps, t)
    ensures s.actor.Some? ==> AgentMay(b, t, s.actor.value, s.request)
  {
    hide Decide, GatesOpen, AgentMay;
    if s.Update? {
      hide PlansFollow, Logged;
      if s.task in b.tasks && Decide(b, s.task, s.actor, s.request, s.now).Ok? {
        var d := Decide(b, s.task, s.actor, s.request, s.now).value;
        assert s.task == t && d.task.status == Done;
        DecisionGate(b, s.task, s.actor, s.request, s.now);
      }
    } else if s.Create? {
      hide FindAgent, DependencyCheck, PlanExists, NewAssigneeCheck;
    } else if !s.Delete? {
      hide Apply;
      MinorStepsOnTasks(b, s);
      assert false;
    }
  }

  /** If the step is an update, it is one of an agent who is neither a lead nor a merger. */
  predicate UpdatesOrdinarily(agents: seq<Agent>, s: Step) {
    !s.Update?
    || (s.actor.Some?
        && (var agent := FindAgent(agents, s.actor.value);
            agent.None? || (!agent.value.isLead && agent.value.role != Merger)))
  }

  lemma OrdinaryStepFinishesNothing(b: Board, s: Step, t: TaskId)
    requires UpdatesOrdinarily(b.agents, s)
    ensures !MarksDone(b, s, t)
  {
    hide Apply, GatesOpen, HasEvidence;
    if MarksDone(b, s, t) {
      DoneOnlyThroughGates(b, s, t);
      assert false;
    }
  }

  /** The step creates the task, as done. */
  predicate CreatesAsDone(s: Step, t: TaskId) {
    s.Create? && s.id == t && s.status == Done
  }

  lemma UpdateAddsNothing(b: Board, s: Step)
    requires s.Update?
    ensures forall t :: t in Apply(b, s).tasks ==> t in b.tasks
  {
    hide Decide, PlansFollow, Logged;
  }

  /** A row that was not there is done only when it was created so. */
  lemma NewRowIsDone(b: Board, s: Step, t: TaskId)
    requires t !in b.tasks && IsDone(Apply(b, s).tasks, t)
    ensures CreatesAsDone(s, t)
  {
    if s.Update? {
      hide Apply;
      UpdateAddsNothing(b, s);
    } else if s.Create? {
      hide FindAgent, DependencyCheck, PlanExists, NewAssigneeCheck, BlockedBy;
    } else if !s.Delete? {
      hide Apply;
      MinorStepsOnTasks(b, s);
    }
  }

  /** Every update of the run is one of such an agent, by the agents table of its time. */
  ghost predicate RunsOrdinarily(b: Board, steps: seq<Step>) {
    forall k :: 0 <= k < |steps| ==> UpdatesOrdinarily(Run(b, steps[..k]).agents, steps[k])
  }

  /** In no run of any requests does an update of an agent who is neither a lead nor a merger mark a task done: what is
      done after a run without other updates was done before it, or was created as done. */
  lemma {:induction false} OrdinaryAgentsFinishNothing(b: Board, steps: seq<Step>, t: TaskId)
    requires RunsOrdinarily(b, steps) && IsDone(Run(b, steps).tasks, t)
    ensures IsDone(b.tasks, t) || exists s <- steps :: CreatesAsDone(s, t)
  {
    hide Apply, FindAgent, UpdatesOrdinarily;
    if steps != [] {
      var front, s := steps[..|steps| - 1], steps[|steps| - 1];
      var c := Run(b, front);
      assert s in steps && forall x <- front :: x in steps;
      assert forall k :: 0 <= k < |front| ==> front[..k] == steps[..k];
      OrdinaryStepFinishesNothing(c, s, t);
      if IsDone(c.tasks, t) {
        OrdinaryAgentsFinishNothing(b, front, t);
      } else if t !in c.tasks {
        NewRowIsDone(c, s, t);
      }
    }
  }
}
