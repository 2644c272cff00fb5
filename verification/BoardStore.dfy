/** The endpoints as they change the rows in place, each proved to do what its specification function says. */
module BoardStore {
  import opened Wrappers
  import opened Tables
  import opened TaskUpdate
  import opened BoardSteps
  import opened Cycles

  /** A request being worked on: the task row and the pending assignments, edited in place. */
  class TaskUpdateInput {
    const id: TaskId
    const prior: Task
    const request: Request
    const now: Time
    var task: Task
    var status: Option<Status>
    var assignee: Option<Option<AgentId>>
    var deps: set<(TaskId, TaskId)>

    constructor (b: Board, id: TaskId, request: Request, now: Time)
      requires id in b.tasks
      ensures this.id == id && prior == b.tasks[id] && this.request == request && this.now == now
      ensures Fresh(b)
    {
      this.id, this.prior, this.request, this.now := id, b.tasks[id], request, now;
      task, status, assignee, deps := b.tasks[id], request.status, request.assignee, b.deps;
    }

    /** Nothing has been edited yet. */
    predicate Fresh(b: Board)
      reads this
    {
      id in b.tasks && prior == b.tasks[id] && task == prior && status == request.status
      && assignee == request.assignee && deps == b.deps
    }

    function AsDraft(): Draft
      reads this
    {
      Draft(task, status, assignee)
    }

    method ApplyTimingFields()
      modifies this`task
      ensures task == Timed(prior, old(task), status.Some?, request.actualMinutes.Some?, now)
    {
      if status.None? || task.status == prior.status {
        return;
      }
      if prior.status != Done && task.status == Done {
        task := task.(doneAt := Some(now));
        if request.actualMinutes.None? {
          var startedAt := if task.inProgressAt.Some? then task.inProgressAt else task.previousInProgressAt;
          if startedAt.Some? {
            task := task.(actualMinutes := Some(ElapsedMinutes(startedAt.value, now)));
          }
        }
        return;
      }
      if prior.status == Done && task.status != Done {
        task := task.(doneAt := None);
        if request.actualMinutes.None? {
          task := task.(actualMinutes := None);
        }
      }
    }

    /** Carry out the pending assignments. */
    method Assign()
      modifies this`task
      ensures task == Assigned(old(AsDraft()), request.actualMinutes)
    {
      if status.Some? { task := task.(status := status.value); }
      if assignee.Some? { task := task.(assignee := assignee.value); }
      if request.actualMinutes.Some? { task := task.(actualMinutes := request.actualMinutes.value); }
    }
  }

  class BoardStore {
    const id: BoardId
    const planning: bool
    const rules: Rules
    var tasks: map<TaskId, Task>
    var deps: set<(TaskId, TaskId)>
    var approvals: map<ApprovalId, Approval>
    var links: seq<Link>
    var plans: seq<Plan>
    var agents: seq<Agent>
    var log: seq<Event>

    function Snapshot(): Board
      reads this
    {
      Board(id, planning, rules, tasks, deps, approvals, links, plans, agents, log)
    }

    constructor (b: Board)
      ensures Snapshot() == b
    {
      id, planning, rules := b.id, b.planning, b.rules;
      tasks, deps, approvals, links := b.tasks, b.deps, b.approvals, b.links;
      plans, agents, log := b.plans, b.agents, b.log;
    }

    // ----- dependencies -----

    method ValidateDependencyUpdate(t: TaskId, ds: set<TaskId>) returns (check: Check<Refusal>)
      ensures check == DependencyCheck(tasks, deps, t, ds)
    {
      if t in ds { return Refuse(Invalid); }
      if ds == {} { return Pass; }
      var missing := set d | d in ds && d !in tasks;
      if missing != {} { return Refuse(NotFound); }
      assert ds <= tasks.Keys by {
        forall d | d in ds ensures d in tasks { assert d !in missing; }
      }
      var cycle := FindsCycle(WithDeps(deps, t, ds), tasks.Keys);
      return if cycle then Refuse(Conflict) else Pass;
    }

    // ----- the lead's path -----

    method StageDependencies(update: TaskUpdateInput) returns (check: Check<Refusal>)
      requires update.Fresh(Snapshot())
      modifies update`deps
      ensures ReplaceDependencies(Snapshot(), update.id, update.request)
           == if check.Pass? then Ok(update.deps) else Err(check.error)
    {
      if update.request.dependsOn.None? { return Pass; }
      if update.task.status == Done { return Refuse(Conflict); }
      var ds := update.request.dependsOn.value;
      check := ValidateDependencyUpdate(update.id, ds);
      if check.Pass? {
        update.deps := WithDeps(deps, update.id, ds);
      }
    }

    method LeadApplyAssignment(update: TaskUpdateInput) returns (check: Check<Refusal>)
      modifies update`task
      ensures LeadAssignment(Snapshot(), old(update.task), update.request)
           == if check.Pass? then Ok(update.task) else Err(check.error)
    {
      if update.request.assignee.None? { return Pass; }
      if update.request.assignee.value.None? {
        update.task := update.task.(assignee := None);
        return Pass;
      }
      var agent := FindAgent(agents, update.request.assignee.value.value);
      if agent.None? { return Refuse(NotFound); }
      if agent.value.isLead { return Refuse(Forbidden); }
      if agent.value.board.Some? && agent.value.board != Some(id) { return Refuse(Conflict); }
      update.task := update.task.(assignee := Some(agent.value.id));
      return Pass;
    }

    /** Walk the log from its newest event. */
    method LastWorkerWhoMovedTaskToReview(t: TaskId, lead: AgentId) returns (worker: Option<AgentId>)
      ensures worker == LastReviewMover(log, agents, id, lead, t)
    {
      var k := |log|;
      assert log[..k] == log;
      while k > 0
        invariant 0 <= k <= |log|
        invariant LastReviewMover(log, agents, id, lead, t) == LastReviewMover(log[..k], agents, id, lead, t)
      {
        k := k - 1;
        assert log[..k + 1][..k] == log[..k];
        var e := log[k];
        if e.task != t || e.kind != MovedTo(Review) || e.agent.None? { continue; }
        if e.agent.value == lead { continue; }
        var candidate := FindAgent(agents, e.agent.value);
        if candidate.None? { continue; }
        if candidate.value.board != Some(id) || candidate.value.isLead { continue; }
        return Some(candidate.value.id);
      }
      return None;
    }

    method LeadApplyStatus(update: TaskUpdateInput, lead: AgentId) returns (check: Check<Refusal>)
      modifies update`task
      ensures LeadStatus(Snapshot(), update.id, lead, old(update.task), update.request)
           == if check.Pass? then Ok(update.task) else Err(check.error)
    {
      var r := update.request;
      if r.status.None? { return Pass; }
      var target := r.status.value;
      if update.task.status != Review {
        var assigning := r.assignee.Some? && r.assignee.value.Some?;
        if update.task.status == Inbox && target == InProgress && assigning {
          update.task := update.task.(status := target);
          return Pass;
        }
        return Refuse(Forbidden);
      }
      if target != Done && target != Inbox { return Refuse(Forbidden); }
      if target == Inbox {
        var worker := LastWorkerWhoMovedTaskToReview(update.id, lead);
        update.task := update.task.(assignee := worker);
        update.task := update.task.(inProgressAt := None);
      }
      update.task := update.task.(status := target);
      return Pass;
    }

    method ApplyLeadUpdate(update: TaskUpdateInput, lead: Agent) returns (check: Check<Refusal>)
      requires update.Fresh(Snapshot())
      modifies update
      ensures LeadDecision(Snapshot(), update.id, lead, update.request, update.now)
           == if check.Pass? then Ok(Decision(update.task, update.deps)) else Err(check.error)
    {
      hide Gates, Blocked, LeadAssignment, LeadStatus, Timed, ReplaceDependencies;
      var r := update.request;
      if r.comment || r.actualMinutes.Some? || r.estimate || r.otherFields { return Refuse(Forbidden); }
      check := StageDependencies(update);
      if check.Refuse? { return; }
      if r.tags == Malformed { return Refuse(Invalid); }
      if Blocked(Snapshot(), update.deps, update.id) && (r.assignee.Some? || r.status.Some?) {
        return Refuse(Conflict);
      }
      check := LeadApplyAssignment(update);
      if check.Refuse? { return; }
      check := LeadApplyStatus(update, lead.id);
      if check.Refuse? { return; }
      check := Gates(Snapshot(), update.id, true, update.prior, update.task, r);
      if check.Refuse? { return; }
      if r.customFields == Malformed { return Refuse(Invalid); }
      update.ApplyTimingFields();
      return Pass;
    }

    // ----- the path of other agents -----

    method ApplyNonLeadRules(update: TaskUpdateInput, agent: Agent) returns (check: Check<Refusal>)
      requires update.Fresh(Snapshot())
      modifies update`task
      ensures WorkerDraft(Snapshot(), update.id, agent, update.request, update.now)
           == if check.Pass? then Ok(update.AsDraft()) else Err(check.error)
    {
      hide Blocked;
      var r, prior := update.request, update.prior;
      check := WorkerChecks(Snapshot(), update.id, agent, r);
      if check.Refuse? || EstimateOnly(prior, agent, r) { return; }
      check := WorkerFields(Snapshot(), update.id, r);
      if check.Refuse? || r.status.None? { return; }
      var target := r.status.value;
      if target == Inbox {
        update.task := update.task.(assignee := None);
        update.task := update.task.(previousInProgressAt := update.task.inProgressAt);
        update.task := update.task.(inProgressAt := None);
      } else if target == Review {
        update.task := update.task.(previousInProgressAt := update.task.inProgressAt);
        update.task := update.task.(assignee := None);
        update.task := update.task.(inProgressAt := None);
      } else if target == Done && !(update.task.status == Review && agent.role == Merger) {
        return Refuse(Forbidden);
      } else {
        update.task := update.task.(assignee := Some(agent.id));
        if target == InProgress {
          update.task := update.task.(inProgressAt := Some(update.now));
        }
      }
    }

    // ----- the administrator's path -----

    method ApplyAdminRules(update: TaskUpdateInput) returns (check: Check<Refusal>)
      requires update.Fresh(Snapshot())
      modifies update
      ensures var b, r := Snapshot(), update.request;
        var staged := ReplaceDependencies(b, update.id, r);
        if r.tags == Malformed then check == Refuse(Invalid)
        else if staged.Err? then check == Refuse(staged.error)
        else
          var draft := AdminDraft(b, staged.value, update.id, r, update.now);
          check == AdminAssigneeCheck(b, draft.assignee)
          && (check.Pass? ==> update.AsDraft() == draft && update.deps == staged.value)
    {
      hide Blocked, ReplaceDependencies;
      var r := update.request;
      if r.tags == Malformed { return Refuse(Invalid); }
      check := StageDependencies(update);
      if check.Refuse? { return; }
      var target := if r.status.Some? then r.status.value else update.task.status;
      if Blocked(Snapshot(), update.deps, update.id) && !(update.task.status == Done && target == Done) {
        update.task := update.task.(status := Inbox);
        update.task := update.task.(assignee := None);
        update.task := update.task.(inProgressAt := None);
        update.status := Some(Inbox);
        update.assignee := Some(None);
      }
      if update.status.Some? {
        if update.status.value == Inbox || update.status.value == Review {
          update.task := update.task.(previousInProgressAt := update.task.inProgressAt);
          update.task := update.task.(assignee := None);
          update.task := update.task.(inProgressAt := None);
        } else if update.status.value == InProgress {
          update.task := update.task.(inProgressAt := Some(update.now));
        }
      }
      check := AdminAssigneeCheck(Snapshot(), update.assignee);
    }

    // ----- the end of both -----

    method AssignReviewTaskToLead(update: TaskUpdateInput)
      modifies update`task
      ensures update.task == WithReviewer(Snapshot(), update.prior, old(update.task))
    {
      if update.task.status != Review || update.prior.status == Review { return; }
      var lead := FindLead(agents, id);
      if lead.None? { return; }
      update.task := update.task.(assignee := Some(lead.value));
    }

    method FinishUpdate(update: TaskUpdateInput, byAgent: bool) returns (check: Check<Refusal>)
      requires update.id in tasks && update.prior == tasks[update.id]
      modifies update`task
      ensures Finish(Snapshot(), update.id, byAgent, old(update.AsDraft()), update.request, update.now)
           == if check.Pass? then Ok(update.task) else Err(check.error)
    {
      hide Gates, TransitionCheck, Timed, ReviewCommentCheck, WithReviewer, Assigned;
      var draft, r := update.AsDraft(), update.request;
      update.Assign();
      check := Gates(Snapshot(), update.id, byAgent, update.prior, update.task, r);
      if check.Refuse? { return; }
      check := TransitionCheck(update.prior, draft);
      if check.Refuse? { return; }
      update.ApplyTimingFields();
      check := ReviewCommentCheck(Snapshot(), update.id, update.prior, update.task, draft, r);
      if check.Refuse? { return; }
      if r.tags == Malformed || r.customFields == Malformed { return Refuse(Invalid); }
      AssignReviewTaskToLead(update);
      return Pass;
    }

    method DecideUpdate(update: TaskUpdateInput, actor: Option<AgentId>) returns (check: Check<Refusal>)
      requires update.Fresh(Snapshot())
      modifies update
      ensures Decide(Snapshot(), update.id, actor, update.request, update.now)
           == if check.Pass? then Ok(Decision(update.task, update.deps)) else Err(check.error)
    {
      hide LeadDecision, WorkerDraft, AdminDraft, AdminAssigneeCheck, ReplaceDependencies, Finish, FindAgent;
      if actor.None? {
        check := ApplyAdminRules(update);
        if check.Refuse? { return; }
        check := FinishUpdate(update, false);
      } else {
        var agent := FindAgent(agents, actor.value);
        if agent.None? { return Refuse(Unauthorized); }
        if agent.value.isLead {
          check := ApplyLeadUpdate(update, agent.value);
        } else {
          check := ApplyNonLeadRules(update, agent.value);
          if check.Refuse? { return; }
          check := FinishUpdate(update, true);
        }
      }
    }

    // ----- writing -----

    /** Visit the direct dependents of `t` one by one. */
    method ReconcileDependents(t: TaskId, was: Status)
      requires t in tasks
      modifies this`tasks
      ensures tasks == Cascade(old(tasks), deps, t, was)
    {
      var doneToggled := (was == Done) != (tasks[t].status == Done);
      if !doneToggled { return; }
      var reopened := was == Done && tasks[t].status != Done;
      ghost var before := tasks;
      var rest := set d | d in tasks.Keys && (d, t) in deps;
      while rest != {}
        invariant rest <= before.Keys == tasks.Keys
        invariant forall d <- rest :: (d, t) in deps && tasks[d] == before[d]
        invariant forall d <- before.Keys :: d !in rest ==>
          tasks[d] == if reopened && (d, t) in deps && before[d].status != Done then Reset(before[d]) else before[d]
      {
        var d :| d in rest;
        rest := rest - {d};
        var dependent := tasks[d];
        if dependent.status == Done { continue; }
        if reopened {
          var shouldReset := dependent.status != Inbox || dependent.assignee.Some? || dependent.inProgressAt.Some?;
          if shouldReset {
            dependent := dependent.(status := Inbox, assignee := None);
            tasks := tasks[d := dependent.(inProgressAt := None)];
          }
        }
      }
    }

    /** The hooks on the first plan linked to the task. */
    method FollowWithPlan(t: TaskId, was: Status, becomes: Status)
      modifies this`plans
      ensures plans == if planning then PlansFollow(old(plans), t, was, becomes) else old(plans)
    {
      if !planning { return; }
      var k := FirstLinked(plans, t);
      if was != Done && becomes == Done && k < |plans| {
        plans := plans[k := plans[k].(status := CompletedPlan)];
      }
      if was == Done && becomes != Done && k < |plans| && plans[k].status == CompletedPlan {
        plans := plans[k := plans[k].(status := ActivePlan)];
      }
    }

    method PatchTask(t: TaskId, actor: Option<AgentId>, r: Request, now: Time) returns (check: Check<Refusal>)
      modifies this`tasks, this`deps, this`plans, this`log
      ensures var result := UpdateTask(old(Snapshot()), t, actor, r, now);
        if check.Pass? then result == Ok(Snapshot())
        else result == Err(check.error) && Snapshot() == old(Snapshot())
    {
      hide Decide, Cascade, PlansFollow;
      if t !in tasks { return Refuse(NotFound); }
      var update := new TaskUpdateInput(Snapshot(), t, r, now);
      check := DecideUpdate(update, actor);
      if check.Refuse? { return; }
      var was, becomes := tasks[t].status, update.task.status;
      tasks := tasks[t := update.task];
      deps := update.deps;
      ghost var grown := log;
      if r.comment { log := log + [Event(t, actor, Comment(false), now)]; }
      if becomes != was { log := log + [Event(t, actor, MovedTo(becomes), now)]; }
      assert log == Logged(grown, t, actor, r.comment, was, becomes, now);
      ReconcileDependents(t, was);
      FollowWithPlan(t, was, becomes);
    }

    // ----- deletion -----

    /** Drop the links of the task, then re-point or delete the approvals it was the primary task of. */
    method RemoveFromApprovals(t: TaskId)
      modifies this`approvals, this`links
      ensures links == WithoutLinks(old(links), t)
      ensures approvals == Repointed(old(approvals), links, t)
    {
      hide WithoutLinks, TasksOf;
      var primary := set a | a in approvals.Keys && approvals[a].task == Some(t);
      links := WithoutLinks(links, t);
      ghost var before := approvals;
      while primary != {}
        invariant links == WithoutLinks(old(links), t) && primary <= approvals.Keys <= before.Keys
        invariant forall a <- primary :: approvals[a] == before[a] && before[a].task == Some(t)
        invariant forall a <- before.Keys :: a !in primary ==>
          (a in approvals <==> before[a].task != Some(t) || TasksOf(links, a) != [])
        invariant forall a <- approvals.Keys :: a !in primary ==>
          approvals[a] == if before[a].task == Some(t) && TasksOf(links, a) != []
                          then before[a].(task := Some(TasksOf(links, a)[0])) else before[a]
      {
        var a :| a in primary;
        primary := primary - {a};
        var remaining := TasksOf(links, a);
        if remaining != [] {
          approvals := approvals[a := approvals[a].(task := Some(remaining[0]))];
          continue;
        }
        approvals := approvals - {a};
      }
    }

    method UnlinkPlans(t: TaskId)
      modifies this`plans
      ensures plans == Unlinked(old(plans), t)
    {
      hide Unlinked;
      ghost var before := plans;
      var k := 0;
      while k < |plans|
        invariant 0 <= k <= |plans| == |before|
        invariant forall j :: 0 <= j < |plans| ==>
          plans[j] == if j < k && before[j].task == Some(t) then before[j].(task := None) else before[j]
      {
        if plans[k].task == Some(t) {
          plans := plans[k := plans[k].(task := None)];
        }
        k := k + 1;
      }
    }

    method DeleteTaskAndRelatedRecords(t: TaskId) returns (check: Check<Refusal>)
      modifies this`tasks, this`deps, this`approvals, this`links, this`plans, this`log
      ensures var result := DeleteTask(old(Snapshot()), t);
        if check.Pass? then result == Ok(Snapshot())
        else result == Err(check.error) && Snapshot() == old(Snapshot())
    {
      hide WithoutLinks, WithoutEvents, Repointed, Unlinked;
      if t !in tasks { return Refuse(NotFound); }
      log := WithoutEvents(log, t);
      RemoveFromApprovals(t);
      deps := set p | p in deps && p.0 != t && p.1 != t;
      UnlinkPlans(t);
      tasks := tasks - {t};
      return Pass;
    }

    // ----- creation -----

    method AddTask(t: TaskId, task: Task, dependsOn: set<TaskId>, extras: Extra, byAgent: bool)
      returns (check: Check<Refusal>)
      modifies this`tasks, this`deps
      ensures var result := CreateTask(old(Snapshot()), t, task, dependsOn, extras, byAgent);
        if check.Pass? then result == Ok(Snapshot())
        else result == Err(check.error) && Snapshot() == old(Snapshot())
    {
      hide DependencyCheck, NewAssigneeCheck, FindAgent, PlanExists, BlockedBy;
      if t in tasks { return Refuse(Conflict); }
      check := ValidateDependencyUpdate(t, dependsOn);
      if check.Refuse? { return; }
      if extras == Malformed { return Refuse(Invalid); }
      var blockedBy := BlockedBy(tasks, dependsOn);
      if blockedBy != {} && (task.assignee.Some? || task.status != Inbox) { return Refuse(Conflict); }
      if byAgent {
        check := NewAssigneeCheck(Snapshot(), task.assignee);
        if check.Refuse? { return; }
      }
      if task.assignee.Some? && FindAgent(agents, task.assignee.value).None? { return Refuse(Conflict); }
      if task.plan.Some? && !PlanExists(plans, task.plan.value) { return Refuse(Conflict); }
      tasks := tasks[t := task];
      deps := WithDeps(deps, t, dependsOn);
      return Pass;
    }

    // ----- approvals and comments -----

    method OpenApproval(a: ApprovalId, named: seq<TaskId>, status: ApprovalStatus) returns (check: Check<Refusal>)
      modifies this`approvals, this`links
      ensures var result := CreateApproval(old(Snapshot()), a, named, status);
        if check.Pass? then result == Ok(Snapshot())
        else result == Err(check.error) && Snapshot() == old(Snapshot())
    {
      hide Distinct, LinksTo, PendingElsewhere;
      var ts := Distinct(named);
      if a in approvals { return Refuse(Conflict); }
      if status == Pending && exists t <- ts :: PendingElsewhere(Snapshot(), t, None) { return Refuse(Conflict); }
      if exists t <- ts :: t !in tasks { return Refuse(Conflict); }
      approvals := approvals[a := Approval(if ts == [] then None else Some(ts[0]), status)];
      links := links + LinksTo(a, ts);
      return Pass;
    }

    method SetApproval(a: ApprovalId, status: ApprovalStatus) returns (check: Check<Refusal>)
      modifies this`approvals
      ensures var result := UpdateApproval(old(Snapshot()), a, status);
        if check.Pass? then result == Ok(Snapshot())
        else result == Err(check.error) && Snapshot() == old(Snapshot())
    {
      hide TasksOf, PendingElsewhere;
      if a !in approvals { return Refuse(NotFound); }
      if status == Pending && approvals[a].status != Pending {
        var about := TasksOf(links, a);
        if about == [] && approvals[a].task.Some? { about := [approvals[a].task.value]; }
        if exists t <- about :: PendingElsewhere(Snapshot(), t, Some(a)) { return Refuse(Conflict); }
      }
      approvals := approvals[a := approvals[a].(status := status)];
      return Pass;
    }

    method RecordComment(t: TaskId, actor: Option<AgentId>, allowed: bool, blank: bool, now: Time)
      returns (check: Check<Refusal>)
      modifies this`log
      ensures var result := AddComment(old(Snapshot()), t, actor, allowed, blank, now);
        if check.Pass? then result == Ok(Snapshot())
        else result == Err(check.error) && Snapshot() == old(Snapshot())
    {
      if t !in tasks { return Refuse(NotFound); }
      if actor.Some? {
        var agent := FindAgent(agents, actor.value);
        if agent.None? { return Refuse(Unauthorized); }
        if agent.value.isLead && tasks[t].status != Review && !allowed { return Refuse(Forbidden); }
      }
      log := log + [Event(t, actor, Comment(blank), now)];
      return Pass;
    }

    // ----- plans -----

    method EditPlan(p: PlanId, hasContent: Option<bool>, status: Option<PlanStatus>) returns (check: Check<Refusal>)
      modifies this`plans
      ensures var result := UpdatePlan(old(Snapshot()), p, hasContent, status);
        if check.Pass? then result == Ok(Snapshot())
        else result == Err(check.error) && Snapshot() == old(Snapshot())
    {
      hide FindPlan;
      var index := PlanIndex(Snapshot(), p);
      if index.Err? { return Refuse(index.error); }
      var plan := plans[index.value];
      if plan.status == CompletedPlan { return Refuse(Conflict); }
      if hasContent.Some? { plan := plan.(hasContent := hasContent.value); }
      if status.Some? {
        if status.value == CompletedPlan { return Refuse(Invalid); }
        plan := plan.(status := status.value);
      }
      plans := plans[index.value := plan];
      return Pass;
    }

    /** Archive, and remove on the second call. */
    method DropPlan(p: PlanId) returns (check: Check<Refusal>)
      modifies this`plans
      ensures var result := DeletePlan(old(Snapshot()), p);
        if check.Pass? then result == Ok(Snapshot())
        else result == Err(check.error) && Snapshot() == old(Snapshot())
    {
      hide FindPlan, Committed;
      var index := PlanIndex(Snapshot(), p);
      if index.Err? { return Refuse(index.error); }
      var k := index.value;
      if plans[k].status == ArchivedPlan {
        if Committed(tasks, p) { return Refuse(Conflict); }
        plans := plans[..k] + plans[k + 1..];
      } else {
        plans := plans[k := plans[k].(status := ArchivedPlan)];
      }
      return Pass;
    }

    method RequestDecomposition(p: PlanId) returns (check: Check<Refusal>)
      modifies this`plans
      ensures var result := DecomposePlan(old(Snapshot()), p);
        if check.Pass? then result == Ok(Snapshot())
        else result == Err(check.error) && Snapshot() == old(Snapshot())
    {
      hide FindPlan;
      var index := PlanIndex(Snapshot(), p);
      if index.Err? { return Refuse(index.error); }
      var plan := plans[index.value];
      if !plan.hasContent { return Refuse(Conflict); }
      if plan.status == DraftPlan { plans := plans[index.value := plan.(status := ActivePlan)]; }
      return Pass;
    }

    /** An agent's reply to a plan: tickets are stored, and committed unless some were before. */
    method ReceiveReply(p: PlanId, hasContent: bool, tickets: seq<bool>, ids: seq<TaskId>)
      returns (check: Check<Refusal>)
      modifies this`tasks, this`plans
      ensures var result := AgentUpdatePlan(old(Snapshot()), p, hasContent, tickets, ids);
        if check.Pass? then result == Ok(Snapshot())
        else result == Err(check.error) && Snapshot() == old(Snapshot())
    {
      hide FindPlan, Usable, FreshIds, BacklogTasks, Committed;
      var index := PlanIndex(Snapshot(), p);
      if index.Err? { return Refuse(index.error); }
      var plan := plans[index.value];
      if tickets == [] && hasContent { plan := plan.(hasContent := true); }
      if tickets != [] {
        plan := plan.(tickets := tickets);
        if Committed(tasks, p) {
          if !FreshIds(tasks, ids, 0) { return Refuse(Conflict); }
          NoTickets(tickets, tasks, ids, p);
          assert ids == ids[..0];
        } else {
          if !FreshIds(tasks, ids, Usable(tickets)) { return Refuse(Conflict); }
          CreatePlanBacklogTasks(p, tickets, ids);
        }
      }
      plans := plans[index.value := plan];
      return Pass;
    }

    /** The loop over decomposed tickets: one backlog task for each usable ticket, in order. */
    method CreatePlanBacklogTasks(p: PlanId, tickets: seq<bool>, ids: seq<TaskId>)
      requires FreshIds(tasks, ids, Usable(tickets))
      modifies this`tasks
      ensures tasks == BacklogTasks(old(tasks), ids, p)
    {
      hide Usable, FreshIds, BacklogTasks;
      ghost var before := tasks;
      var k, used := 0, 0;
      NoTickets(tickets, tasks, ids, p);
      while k < |tickets|
        invariant 0 <= k <= |tickets| && used == Usable(tickets[..k]) <= |ids|
        invariant tasks == BacklogTasks(before, ids[..used], p)
      {
        TicketStep(tickets, k);
        if !tickets[k] {
          k := k + 1;
          continue;
        }
        BacklogStep(before, ids, used, p);
        tasks := tasks[ids[used] := NewTask(Backlog, None, None, true, Some(p))];
        used := used + 1;
        k := k + 1;
      }
      assert tickets[..k] == tickets && ids[..used] == ids;
    }

    method CommitPlanTickets(p: PlanId, ids: seq<TaskId>) returns (check: Check<Refusal>)
      modifies this`tasks, this`plans
      ensures var result := CommitTickets(old(Snapshot()), p, ids);
        if check.Pass? then result == Ok(Snapshot())
        else result == Err(check.error) && Snapshot() == old(Snapshot())
    {
      hide FindPlan, Usable, FreshIds, BacklogTasks, Committed;
      var index := PlanIndex(Snapshot(), p);
      if index.Err? { return Refuse(index.error); }
      var plan := plans[index.value];
      if plan.tickets == [] || Committed(tasks, p) || Usable(plan.tickets) == 0 { return Refuse(Conflict); }
      if !FreshIds(tasks, ids, Usable(plan.tickets)) { return Refuse(Conflict); }
      CreatePlanBacklogTasks(p, plan.tickets, ids);
      plans := plans[index.value := plan.(status := ActivePlan)];
      return Pass;
    }

    method PromoteToTask(p: PlanId, t: TaskId, toBacklog: bool, assignee: Option<AgentId>)
      returns (check: Check<Refusal>)
      modifies this`tasks, this`plans
      ensures var result := PromotePlan(old(Snapshot()), p, t, toBacklog, assignee);
        if check.Pass? then result == Ok(Snapshot())
        else result == Err(check.error) && Snapshot() == old(Snapshot())
    {
      hide FindPlan, FindAgent;
      var index := PlanIndex(Snapshot(), p);
      if index.Err? { return Refuse(index.error); }
      var plan := plans[index.value];
      if plan.status != DraftPlan && plan.status != ActivePlan { return Refuse(Conflict); }
      if plan.task.Some? { return Refuse(Conflict); }
      if t in tasks || (assignee.Some? && FindAgent(agents, assignee.value).None?) { return Refuse(Conflict); }
      tasks := tasks[t := NewTask(if toBacklog then Backlog else Inbox, assignee, None, toBacklog, None)];
      plan := plan.(task := Some(t));
      plans := plans[index.value := plan.(status := ActivePlan)];
      return Pass;
    }
  }

  lemma NoTickets(tickets: seq<bool>, tasks: map<TaskId, Task>, ids: seq<TaskId>, p: PlanId)
    ensures Usable(tickets[..0]) == 0 && BacklogTasks(tasks, ids[..0], p) == tasks
    ensures forall count :: FreshIds(tasks, ids, count) ==> |ids| == count
  {
  }

  lemma TicketStep(tickets: seq<bool>, k: nat)
    requires k < |tickets|
    ensures Usable(tickets[..k + 1]) == Usable(tickets[..k]) + if tickets[k] then 1 else 0
    ensures Usable(tickets[..k + 1]) <= Usable(tickets)
    decreases |tickets|
  {
    assert tickets[..k + 1][..k] == tickets[..k];
    if k + 1 < |tickets| {
      var front := tickets[..|tickets| - 1];
      assert front[..k] == tickets[..k] && front[..k + 1] == tickets[..k + 1];
      TicketStep(front, k);
    } else {
      assert tickets[..k + 1] == tickets;
    }
  }

  lemma BacklogStep(tasks: map<TaskId, Task>, ids: seq<TaskId>, k: nat, p: PlanId)
    requires k < |ids|
    ensures BacklogTasks(tasks, ids[..k + 1], p)
         == BacklogTasks(tasks, ids[..k], p)[ids[k] := NewTask(Backlog, None, None, true, Some(p))]
  {
    assert ids[..k + 1][..k] == ids[..k];
  }
}
