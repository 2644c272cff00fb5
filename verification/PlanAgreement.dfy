/** A completed plan is unlinked, or the task it was promoted to is done. */
module PlanAgreement {
  import opened Wrappers
  import opened Tables
  import opened TaskUpdate
  import opened BoardSteps
  import opened StepFrames
  import opened DependencySafety

  /** A plan agrees with the task rows. */
  predicate Agrees(tasks: map<TaskId, Task>, plan: Plan) {
    plan.task.Some? ==> plan.task.value in tasks && (plan.status == CompletedPlan ==> IsDone(tasks, plan.task.value))
  }

  /** All plans agree, and no task is linked from two of them. */
  predicate PlansAgree(b: Board) {
    (forall k :: 0 <= k < |b.plans| ==> Agrees(b.tasks, b.plans[k]))
    && (forall i, j :: 0 <= i < j < |b.plans| && b.plans[i].task.Some? ==> b.plans[i].task != b.plans[j].task)
  }

  // ----- reopening a task -----

  /** What the path of other agents asks of a request that reopens a task. */
  predicate WorkerReopens(b: Board, t: TaskId, actor: AgentId, r: Request)
    requires t in b.tasks
  {
    var agent := FindAgent(b.agents, actor);
    agent.Some? && !agent.value.isLead && agent.value.board in {None, Some(b.id)}
    && b.tasks[t].assignee in {None, Some(actor)} && !b.rules.onlyLeadMoves
    && r.assignee.None? && r.tags == Absent && r.actualMinutes.None? && !r.estimate && !r.otherFields
  }

  /** What the administrator's path asks: that the agent to assign, if any, may work on the board. */
  predicate AdminReopens(b: Board, r: Request) {
    r.tags != Malformed
    && (r.assignee.Some? && r.assignee.value.Some? ==>
          var agent := FindAgent(b.agents, r.assignee.value.value);
          agent.Some? && agent.value.board in {None, Some(b.id)})
  }

  /** A request that takes a done task back to progress or archives it, and passes every guard. */
  predicate Reopens(b: Board, t: TaskId, actor: Option<AgentId>, r: Request) {
    IsDone(b.tasks, t) && r.status in {Some(InProgress), Some(Archived)}
    && r.dependsOn.None? && r.customFields != Malformed && !Blocked(b, b.deps, t)
    && !(b.rules.blockOnPending && HasPending(b.approvals, b.links, t))
    && if actor.None? then AdminReopens(b, r) else WorkerReopens(b, t, actor.value, r)
  }

  /** With planning switched off nothing follows the task: such a request, on a task whose plan is completed. */
  predicate ReopensUnwatched(b: Board, s: Step) {
    !b.planning && s.Update? && Reopens(b, s.task, s.actor, s.request)
    && exists k :: 0 <= k < |b.plans| && b.plans[k].status == CompletedPlan && b.plans[k].task == Some(s.task)
  }

  /** A lead's request leaves a done task done. */
  lemma LeadReopensNothing(b: Board, t: TaskId, lead: Agent, r: Request, now: Time)
    requires IsDone(b.tasks, t) && LeadDecision(b, t, lead, r, now).Ok?
    ensures LeadDecision(b, t, lead, r, now).value.task.status == Done
  {
    hide Blocked, ReplaceDependencies, Gates, FindAgent;
  }

  /** What the common end asks of a draft that takes a done task elsewhere. */
  lemma FinishReopens(b: Board, t: TaskId, byAgent: bool, draft: Draft, r: Request, now: Time)
    requires IsDone(b.tasks, t) && draft.status.Some? && draft.status == r.status != Some(Done)
    ensures Finish(b, t, byAgent, draft, r, now).Ok? <==>
      r.status in {Some(InProgress), Some(Archived)} && r.tags != Malformed && r.customFields != Malformed
      && !(b.rules.blockOnPending && HasPending(b.approvals, b.links, t))
  {
    hide HasPending, HasApproved, CompletionEvidence, NewestComment;
  }

  lemma WorkerReopensExactly(b: Board, t: TaskId, agent: Agent, r: Request, now: Time)
    requires IsDone(b.tasks, t) && FindAgent(b.agents, agent.id) == Some(agent) && !agent.isLead
    ensures (var d := WorkerDecision(b, t, agent, r, now); d.Ok? && d.value.task.status != Done)
      <==> Reopens(b, t, Some(agent.id), r)
  {
    hide Finish, Blocked, HasPending, FindAgent;
    var draft := WorkerDraft(b, t, agent, r, now);
    if draft.Ok? {
      if draft.value.status.Some? && draft.value.status != Some(Done) {
        FinishReopens(b, t, true, draft.value, r, now);
      }
      if Finish(b, t, true, draft.value, r, now).Ok? { FinishSetsStatus(b, t, true, draft.value, r, now); }
    }
  }

  lemma AdminReopensExactly(b: Board, t: TaskId, r: Request, now: Time)
    requires IsDone(b.tasks, t)
    ensures (var d := AdminDecision(b, t, r, now); d.Ok? && d.value.task.status != Done) <==> Reopens(b, t, None, r)
  {
    hide Finish, Blocked, HasPending, FindAgent, DependencyCheck;
    var draft := AdminDraft(b, b.deps, t, r, now);
    if draft.status.Some? && draft.status == r.status != Some(Done) {
      FinishReopens(b, t, false, draft, r, now);
    }
    if Finish(b, t, false, draft, r, now).Ok? { FinishSetsStatus(b, t, false, draft, r, now); }
  }

  /** A done task is reopened exactly by the requests that pass these guards. */
  lemma ReopensExactly(b: Board, t: TaskId, actor: Option<AgentId>, r: Request, now: Time)
    requires IsDone(b.tasks, t)
    ensures (var d := Decide(b, t, actor, r, now); d.Ok? && d.value.task.status != Done) <==> Reopens(b, t, actor, r)
  {
    hide LeadDecision, WorkerDecision, AdminDecision, Blocked, HasPending;
    if actor.None? {
      AdminReopensExactly(b, t, r, now);
    } else {
      var agent := FindAgent(b.agents, actor.value);
      if agent.Some? && agent.value.isLead {
        if LeadDecision(b, t, agent.value, r, now).Ok? { LeadReopensNothing(b, t, agent.value, r, now); }
      } else if agent.Some? {
        WorkerReopensExactly(b, t, agent.value, r, now);
      }
    }
  }

  // ----- one request -----

  /** Doneness after a request on `t`: its own, and everyone else's unchanged. */
  lemma DonenessAfter(b: Board, t: TaskId, d: Decision, x: TaskId)
    requires t in b.tasks
    ensures var after := Cascade(b.tasks[t := d.task], d.deps, t, b.tasks[t].status);
      && after.Keys == b.tasks.Keys
      && (IsDone(after, x) <==> if x == t then d.task.status == Done else IsDone(b.tasks, x))
  {
  }

  lemma UniqueLink(b: Board, t: TaskId, k: nat)
    requires PlansAgree(b) && k < |b.plans| && b.plans[k].task == Some(t)
    ensures FirstLinked(b.plans, t) == k
  {
    hide FirstLinked;
  }

  lemma CommitAgrees(b: Board, t: TaskId, actor: Option<AgentId>, d: Decision, comment: bool, now: Time)
    requires t in b.tasks && PlansAgree(b)
    requires b.planning || d.task.status == Done
      || forall k :: 0 <= k < |b.plans| && b.plans[k].task == Some(t) ==> b.plans[k].status != CompletedPlan
    ensures PlansAgree(Commit(b, t, actor, d, comment, now))
  {
    hide Cascade, FirstLinked, Logged;
    var c := Commit(b, t, actor, d, comment, now);
    forall k | 0 <= k < |c.plans| ensures Agrees(c.tasks, c.plans[k]) && c.plans[k].task == b.plans[k].task {
      assert Agrees(b.tasks, b.plans[k]);
      if b.plans[k].task.Some? {
        DonenessAfter(b, t, d, b.plans[k].task.value);
        if b.plans[k].task.value == t { UniqueLink(b, t, k); }
      }
    }
  }

  lemma UpdateAgrees(b: Board, s: Step)
    requires s.Update? && PlansAgree(b)
    ensures PlansAgree(Apply(b, s)) <==> !ReopensUnwatched(b, s)
  {
    hide Decide, Cascade, PlansFollow, Logged, Reopens;
    if IsDone(b.tasks, s.task) { ReopensExactly(b, s.task, s.actor, s.request, s.now); }
    if s.task in b.tasks && Decide(b, s.task, s.actor, s.request, s.now).Ok? {
      var d := Decide(b, s.task, s.actor, s.request, s.now).value;
      DonenessAfter(b, s.task, d, s.task);
      if ReopensUnwatched(b, s) {
        var k :| 0 <= k < |b.plans| && b.plans[k].status == CompletedPlan && b.plans[k].task == Some(s.task);
        assert !Agrees(Apply(b, s).tasks, Apply(b, s).plans[k]);
      } else {
        CommitAgrees(b, s.task, s.actor, d, s.request.comment, s.now);
      }
    }
  }

  // ----- what follows a task -----

  /** A plan that only its status changes. */
  predicate Becomes(was: Plan, after: Plan, status: PlanStatus) {
    after == was.(status := status)
  }

  /** With planning on, a task that becomes done completes its plan, a done task taken elsewhere makes its completed
      plan active again, and every other plan stays as it was. */
  lemma PlanFollowsTask(b: Board, s: Step, k: nat)
    requires s.Update? && b.planning && PlansAgree(b) && k < |b.plans|
    ensures |Apply(b, s).plans| == |b.plans|
    ensures var was, after := b.plans[k], Apply(b, s).plans[k];
      var done, doneNow := IsDone(b.tasks, s.task), IsDone(Apply(b, s).tasks, s.task);
      && (was.task == Some(s.task) && !done && doneNow ==> Becomes(was, after, CompletedPlan))
      && (was.task == Some(s.task) && done && !doneNow && was.status == CompletedPlan ==>
            Becomes(was, after, ActivePlan))
      && (was.task != Some(s.task) || done == doneNow || (done && was.status != CompletedPlan) ==> after == was)
  {
    hide Decide, Cascade, FirstLinked, Logged;
    if s.task in b.tasks && Decide(b, s.task, s.actor, s.request, s.now).Ok? {
      var d := Decide(b, s.task, s.actor, s.request, s.now).value;
      DonenessAfter(b, s.task, d, s.task);
      if b.plans[k].task == Some(s.task) { UniqueLink(b, s.task, k); }
    }
  }

  /** With planning off no update touches a plan. */
  lemma UnwatchedPlansStay(b: Board, s: Step)
    requires s.Update? && !b.planning
    ensures Apply(b, s).plans == b.plans
  {
    hide Decide, Cascade, FirstLinked, Logged;
  }

  // ----- the other endpoints -----

  lemma DeletionAgrees(b: Board, t: TaskId)
    requires PlansAgree(b) && t in b.tasks
    ensures PlansAgree(DeleteTask(b, t).value)
  {
    hide Repointed, WithoutLinks, WithoutEvents, Unlinked;
    var c := DeleteTask(b, t).value;
    forall k | 0 <= k < |c.plans| ensures Agrees(c.tasks, c.plans[k]) {
      assert Agrees(b.tasks, b.plans[k]);
    }
  }

  /** One plan is rewritten: it keeps its task, or takes one no plan has, and is not newly completed. */
  lemma RewrittenAgrees(b: Board, c: Board, k: nat, plan: Plan)
    requires PlansAgree(b) && OnlyPlanRows(b, c) && k < |b.plans| && c.plans == b.plans[k := plan]
    requires plan.status == CompletedPlan ==> b.plans[k].status == CompletedPlan && plan.task == b.plans[k].task
    requires plan.task == b.plans[k].task
      || (plan.task.Some? && plan.task.value !in b.tasks && plan.task.value in c.tasks)
    ensures PlansAgree(c)
  {
    forall i | 0 <= i < |c.plans| ensures Agrees(c.tasks, c.plans[i]) {
      assert Agrees(b.tasks, b.plans[i]);
    }
  }

  /** The steps that rewrite one plan, and add or drop none. */
  predicate RewritesPlan(b: Board, s: Step) {
    s.EditPlan? || s.Promote? || s.Decompose? || s.Tickets? || s.Reply?
    || (s.DropPlan? && (var k := FindPlan(b.plans, s.planId); k < |b.plans| && b.plans[k].status != ArchivedPlan))
  }

  lemma RewriteAgrees(b: Board, s: Step)
    requires PlansAgree(b) && RewritesPlan(b, s) && Perform(b, s).Ok?
    ensures PlansAgree(Apply(b, s))
  {
    MinorStepsOnTasks(b, s);
    hide UpdateTask, CreateTask, DeleteTask, Usable, FindAgent, FindPlan, FreshIds, BacklogTasks, OnlyPlanRows, TasksOf,
         PlansAgree, Agrees;
    var c := Apply(b, s);
    var k := PlanIndex(b, s.planId).value;
    if c.plans == b.plans {
      SamePlansAgree(b, c);
    } else {
      RewrittenAgrees(b, c, k, c.plans[k]);
    }
  }

  lemma DropAgrees(b: Board, s: Step)
    requires PlansAgree(b) && s.DropPlan? && Perform(b, s).Ok? && !RewritesPlan(b, s)
    ensures PlansAgree(Apply(b, s))
  {
    MinorStepsOnTasks(b, s);
    var k := PlanIndex(b, s.planId).value;
    DroppedAgrees(b, Apply(b, s), k);
  }

  lemma MinorStepAgrees(b: Board, s: Step)
    requires PlansAgree(b) && MinorStep(s)
    ensures PlansAgree(Apply(b, s))
  {
    hide RewritesPlan, PlansAgree, UpdateTask, CreateTask, DeleteTask, FindAgent, FindPlan, TasksOf, UpdatePlan,
         DeletePlan, PromotePlan, DecomposePlan, CommitTickets, AgentUpdatePlan, OnlyPlanRows;
    if Perform(b, s).Ok? {
      if RewritesPlan(b, s) {
        RewriteAgrees(b, s);
      } else if s.DropPlan? {
        DropAgrees(b, s);
      } else {
        MinorStepsOnTasks(b, s);
        RestOfSteps(b, s);
        if s.StartPlan? { StartedAgrees(b, Apply(b, s)); } else { SamePlansAgree(b, Apply(b, s)); }
      }
    }
  }

  lemma RestOfSteps(b: Board, s: Step)
    requires MinorStep(s) && !RewritesPlan(b, s) && !s.DropPlan?
    ensures !s.EditPlan? && !s.Promote? && !s.Decompose? && !s.Tickets? && !s.Reply?
  {
  }

  lemma SamePlansAgree(b: Board, c: Board)
    requires PlansAgree(b) && OnlyPlanRows(b, c) && c.plans == b.plans
    ensures PlansAgree(c)
  {
    forall i | 0 <= i < |c.plans| ensures Agrees(c.tasks, c.plans[i]) {
      assert Agrees(b.tasks, b.plans[i]);
    }
  }

  lemma DroppedAgrees(b: Board, c: Board, k: nat)
    requires PlansAgree(b) && OnlyPlanRows(b, c) && k < |b.plans| && c.plans == WithoutPlan(b.plans, k)
    ensures PlansAgree(c)
  {
    forall i | 0 <= i < |c.plans| ensures Agrees(c.tasks, c.plans[i]) {
      assert Agrees(b.tasks, b.plans[if i < k then i else i + 1]);
    }
  }

  lemma StartedAgrees(b: Board, c: Board)
    requires PlansAgree(b) && OnlyPlanRows(b, c)
    requires |c.plans| == |b.plans| + 1 && c.plans[..|b.plans|] == b.plans && c.plans[|b.plans|].task.None?
    ensures PlansAgree(c)
  {
    forall i | 0 <= i < |c.plans| ensures Agrees(c.tasks, c.plans[i]) {
      if i < |b.plans| { assert c.plans[i] == b.plans[i] && Agrees(b.tasks, b.plans[i]); }
    }
    forall i, j | 0 <= i < j < |c.plans| && c.plans[i].task.Some? ensures c.plans[i].task != c.plans[j].task {
      assert c.plans[i] == b.plans[i];
      if j < |b.plans| { assert c.plans[j] == b.plans[j]; }
    }
  }

  lemma CreationAgrees(b: Board, s: Step)
    requires PlansAgree(b) && s.Create?
    ensures PlansAgree(Apply(b, s))
  {
    hide FindAgent, DependencyCheck, NewAssigneeCheck, BlockedBy, PlanExists;
    forall i | 0 <= i < |b.plans| ensures Agrees(Apply(b, s).tasks, b.plans[i]) {
      assert Agrees(b.tasks, b.plans[i]);
    }
  }

  /** A step keeps plans and tasks in agreement if and only if it does not reopen, with planning off, a task
      whose plan is completed. */
  lemma AgreementExactlyUnless(b: Board, s: Step)
    requires PlansAgree(b)
    ensures PlansAgree(Apply(b, s)) <==> !ReopensUnwatched(b, s)
  {
    hide UpdateTask, CreateTask, PlansAgree;
    if s.Update? {
      hide *;
      UpdateAgrees(b, s);
    } else if s.Create? {
      CreationAgrees(b, s);
    } else if s.Delete? {
      if s.task in b.tasks { DeletionAgrees(b, s.task); }
    } else {
      MinorStepAgrees(b, s);
    }
  }

  /** Such a step exists: an administrator takes the task of a completed plan back to progress. */
  lemma ReopeningHappens()
    ensures exists b: Board, s: Step :: PlansAgree(b) && ReopensUnwatched(b, s) && !PlansAgree(Apply(b, s))
  {
    hide Apply, FindAgent, WorkerReopens, HasPending;
    var b := Board(0, false, Rules(false, false, false, false, false), map[1 := NewTask(Done, None, None, false, None)],
                   {}, map[], [], [Plan(2, CompletedPlan, Some(1), true, [])], [], []);
    var s := Update(1, None, Request(Some(InProgress), None, false, None, Absent, Absent, None, false, false), 0);
    assert DepsOf(b.deps, 1) == {};
    assert b.plans[0].status == CompletedPlan && b.plans[0].task == Some(s.task);
    AgreementExactlyUnless(b, s);
  }

  lemma PlanningStays(b: Board, s: Step)
    ensures Apply(b, s).planning == b.planning
  {
    hide Decide, CreateTask, Usable, FindAgent, FindPlan, FreshIds, BacklogTasks, TasksOf, Cascade, PlansFollow, Logged,
         Repointed, WithoutLinks, WithoutEvents, Unlinked;
    if s.Create? { CreateKeepsPlanning(b, s); }
  }

  lemma CreateKeepsPlanning(b: Board, s: Step)
    requires s.Create?
    ensures Apply(b, s).planning == b.planning
  {
    hide FindAgent, DependencyCheck, NewAssigneeCheck, BlockedBy, PlanExists;
  }

  /** With planning on, every state of every run agrees. */
  lemma {:induction false} RunsAgree(b: Board, steps: seq<Step>)
    requires PlansAgree(b) && b.planning
    ensures PlansAgree(Run(b, steps)) && Run(b, steps).planning
  {
    hide Apply, PlansAgree, Perform;
    if steps != [] {
      var c := Run(b, steps[..|steps| - 1]);
      RunsAgree(b, steps[..|steps| - 1]);
      AgreementExactlyUnless(c, steps[|steps| - 1]);
      PlanningStays(c, steps[|steps| - 1]);
    }
  }
}
