/** Dependency safety: a task that is neither in the inbox nor done has only done dependencies. */
module DependencySafety {
  import opened Wrappers
  import opened Tables
  import opened TaskUpdate
  import opened Cycles
  import opened BoardSteps
  import opened StepFrames

  /** A task that may have unfinished dependencies. */
  predicate MayWait(task: Task) {
    task.status == Inbox || task.status == Done
  }

  predicate Safe(b: Board) {
    forall p <- b.deps :: p.0 in b.tasks && (MayWait(b.tasks[p.0]) || IsDone(b.tasks, p.1))
  }

  /** A lead's request that gives a started task an unfinished dependency and asks for nothing the
      dependency guard looks at. This is the one request the guards let through too easily. */
  predicate LeadEditsDependencies(b: Board, s: Step) {
    s.Update? && s.task in b.tasks && s.actor.Some?
    && (var agent := FindAgent(b.agents, s.actor.value); agent.Some? && agent.value.isLead)
    && s.request.status.None? && s.request.assignee.None? && s.request.dependsOn.Some?
    && !MayWait(b.tasks[s.task]) && BlockedBy(b.tasks, s.request.dependsOn.value) != {}
  }

  /** The remaining guards such a request has to pass. */
  ghost predicate LeadMay(b: Board, s: Step)
    requires LeadEditsDependencies(b, s)
  {
    var r := s.request;
    !r.comment && r.actualMinutes.None? && !r.estimate && !r.otherFields && r.tags != Malformed
    && r.customFields != Malformed
    && DependencyCheck(b.tasks, b.deps, s.task, r.dependsOn.value).Pass?
  }

  ghost predicate Breaks(b: Board, s: Step) {
    LeadEditsDependencies(b, s) && LeadMay(b, s)
  }

  // ----- what each path decides -----

  /** The new row may wait, or its dependencies are done, or neither its status nor they changed. */
  predicate Careful(b: Board, t: TaskId, d: Decision)
    requires t in b.tasks
  {
    MayWait(d.task) || !Blocked(b, d.deps, t) || (d.deps == b.deps && d.task.status == b.tasks[t].status)
  }

  ghost predicate OnlyOwnDeps(b: Board, t: TaskId, d: Decision) {
    forall x, y :: x != t ==> ((x, y) in d.deps <==> (x, y) in b.deps)
  }

  lemma ReplacedDeps(b: Board, t: TaskId, r: Request)
    requires t in b.tasks && ReplaceDependencies(b, t, r).Ok?
    ensures OnlyOwnDeps(b, t, Decision(b.tasks[t], ReplaceDependencies(b, t, r).value))
    ensures r.dependsOn.Some? ==> DepsOf(ReplaceDependencies(b, t, r).value, t) == r.dependsOn.value
    ensures r.dependsOn.None? ==> ReplaceDependencies(b, t, r).value == b.deps
  {
  }

  lemma LeadKeepsStatus(b: Board, t: TaskId, lead: Agent, r: Request, now: Time)
    requires t in b.tasks && LeadDecision(b, t, lead, r, now).Ok? && r.status.None?
    ensures LeadDecision(b, t, lead, r, now).value.task.status == b.tasks[t].status
  {
    hide Blocked, ReplaceDependencies, Gates, FindAgent;
  }

  lemma LeadIsCareful(b: Board, t: TaskId, lead: Agent, r: Request, now: Time)
    requires t in b.tasks && LeadDecision(b, t, lead, r, now).Ok?
    requires r.status.Some? || r.assignee.Some? || r.dependsOn.None?
    ensures Careful(b, t, LeadDecision(b, t, lead, r, now).value)
  {
    hide Blocked, Gates, LeadAssignment, LeadStatus, Timed;
    if r.status.None? && r.assignee.None? {
      LeadKeepsStatus(b, t, lead, r, now);
    }
  }

  lemma LeadDeps(b: Board, t: TaskId, lead: Agent, r: Request, now: Time)
    requires t in b.tasks && LeadDecision(b, t, lead, r, now).Ok?
    ensures OnlyOwnDeps(b, t, LeadDecision(b, t, lead, r, now).value)
    ensures r.dependsOn.Some? ==> DepsOf(LeadDecision(b, t, lead, r, now).value.deps, t) == r.dependsOn.value
  {
    hide Blocked, Gates, LeadAssignment, LeadStatus, Timed, ReplaceDependencies;
    ReplacedDeps(b, t, r);
  }

  lemma FinishSetsStatus(b: Board, t: TaskId, byAgent: bool, draft: Draft, r: Request, now: Time)
    requires t in b.tasks && Finish(b, t, byAgent, draft, r, now).Ok?
    ensures Finish(b, t, byAgent, draft, r, now).value.status
         == if draft.status.Some? then draft.status.value else draft.task.status
    ensures draft.status.Some? ==>
      draft.status.value == b.tasks[t].status || draft.status.value in NextStatuses(b.tasks[t].status)
  {
    hide Gates, ReviewCommentCheck, NextStatuses, FindLead;
  }

  lemma WorkerIsCareful(b: Board, t: TaskId, agent: Agent, r: Request, now: Time)
    requires t in b.tasks && WorkerDecision(b, t, agent, r, now).Ok?
    ensures Careful(b, t, WorkerDecision(b, t, agent, r, now).value)
    ensures WorkerDecision(b, t, agent, r, now).value.deps == b.deps
  {
    hide Finish, Blocked, WorkerChecks;
    FinishSetsStatus(b, t, true, WorkerDraft(b, t, agent, r, now).value, r, now);
  }

  lemma AdminIsCareful(b: Board, t: TaskId, r: Request, now: Time)
    requires t in b.tasks && AdminDecision(b, t, r, now).Ok?
    ensures Careful(b, t, AdminDecision(b, t, r, now).value)
    ensures OnlyOwnDeps(b, t, AdminDecision(b, t, r, now).value)
  {
    hide Finish, Blocked, ReplaceDependencies, AdminAssigneeCheck;
    ReplacedDeps(b, t, r);
    var deps := ReplaceDependencies(b, t, r).value;
    FinishSetsStatus(b, t, false, AdminDraft(b, deps, t, r, now), r, now);
  }

  /** Every accepted decision is careful, except the lead's bare edit of dependencies. */
  lemma DecisionIsCareful(b: Board, t: TaskId, actor: Option<AgentId>, r: Request, now: Time)
    requires t in b.tasks && Decide(b, t, actor, r, now).Ok?
    ensures OnlyOwnDeps(b, t, Decide(b, t, actor, r, now).value)
    ensures Careful(b, t, Decide(b, t, actor, r, now).value) || Breaks(b, Update(t, actor, r, now))
  {
    hide LeadDecision, WorkerDecision, AdminDecision, Careful, FindAgent, DependencyCheck;
    if actor.None? {
      AdminIsCareful(b, t, r, now);
    } else if FindAgent(b.agents, actor.value).value.isLead {
      var lead := FindAgent(b.agents, actor.value).value;
      LeadDeps(b, t, lead, r, now);
      if r.status.Some? || r.assignee.Some? || r.dependsOn.None? {
        LeadIsCareful(b, t, lead, r, now);
      } else {
        BareEdit(b, t, lead, r, now);
      }
    } else {
      WorkerIsCareful(b, t, FindAgent(b.agents, actor.value).value, r, now);
    }
  }

  /** What a lead's request without status or assignee needs, and what it leaves. */
  lemma BareEdit(b: Board, t: TaskId, lead: Agent, r: Request, now: Time)
    requires t in b.tasks && r.status.None? && r.assignee.None? && r.dependsOn.Some?
    ensures LeadDecision(b, t, lead, r, now).Ok? <==>
      !r.comment && r.actualMinutes.None? && !r.estimate && !r.otherFields && r.tags != Malformed
      && r.customFields != Malformed && b.tasks[t].status != Done
      && DependencyCheck(b.tasks, b.deps, t, r.dependsOn.value).Pass?
    ensures LeadDecision(b, t, lead, r, now).Ok? ==>
      LeadDecision(b, t, lead, r, now).value == Decision(b.tasks[t], WithDeps(b.deps, t, r.dependsOn.value))
    ensures LeadDecision(b, t, lead, r, now).Ok? ==>
      Careful(b, t, LeadDecision(b, t, lead, r, now).value)
      || (!MayWait(b.tasks[t]) && BlockedBy(b.tasks, r.dependsOn.value) != {})
  {
    assert DepsOf(WithDeps(b.deps, t, r.dependsOn.value), t) == r.dependsOn.value;
    assert Blocked(b, WithDeps(b.deps, t, r.dependsOn.value), t) <==> BlockedBy(b.tasks, r.dependsOn.value) != {};
    hide Blocked, HasPending, HasApproved, CompletionEvidence, DependencyCheck;
  }

  // ----- the cascade restores the whole graph -----

  /** After a careful decision is written, repairing only the direct dependents makes the whole board safe. */
  lemma CascadeRestores(b: Board, t: TaskId, d: Decision, actor: Option<AgentId>, comment: bool, now: Time)
    requires t in b.tasks && Safe(b) && OnlyOwnDeps(b, t, d) && Careful(b, t, d)
    ensures Safe(Commit(b, t, actor, d, comment, now))
  {
    hide PlansFollow, Logged;
    var c := Commit(b, t, actor, d, comment, now);
    forall p | p in c.deps
      ensures p.0 in c.tasks && (MayWait(c.tasks[p.0]) || IsDone(c.tasks, p.1))
    {
      if p.0 == t {
        OwnDependencies(b, t, d, p);
      } else {
        assert p in b.deps;
      }
    }
  }

  lemma OwnDependencies(b: Board, t: TaskId, d: Decision, p: (TaskId, TaskId))
    requires t in b.tasks && Safe(b) && Careful(b, t, d) && p in d.deps && p.0 == t
    ensures var after := Cascade(b.tasks[t := d.task], d.deps, t, b.tasks[t].status);
      MayWait(after[t]) || IsDone(after, p.1)
  {
    assert p.1 in DepsOf(d.deps, t);
    assert IsDone(b.tasks, p.1) || p.1 in BlockedBy(b.tasks, DepsOf(d.deps, t));
  }

  // ----- every step -----

  lemma DeletionIsSafe(b: Board, t: TaskId)
    requires Safe(b) && t in b.tasks
    ensures Safe(DeleteTask(b, t).value)
  {
    hide Repointed, WithoutLinks, Unlinked, WithoutEvents;
  }

  lemma OtherStepIsSafe(b: Board, s: Step)
    requires Safe(b) && !s.Update?
    ensures Safe(Apply(b, s))
  {
    hide UpdateTask, CreateTask;
    if s.Create? {
      NewTaskIsSafe(b, s);
    } else if s.Delete? {
      if s.task in b.tasks { DeletionIsSafe(b, s.task); }
    } else {
      hide Apply;
      MinorStepsOnTasks(b, s);
    }
  }

  lemma NewTaskIsSafe(b: Board, s: Step)
    requires Safe(b) && s.Create?
    ensures Safe(Apply(b, s))
  {
    hide UpdateTask, FindAgent, NewAssigneeCheck, PlanExists;
    var c := Apply(b, s);
    if Perform(b, s).Ok? {
      forall p | p in c.deps
        ensures p.0 in c.tasks && (MayWait(c.tasks[p.0]) || IsDone(c.tasks, p.1))
      {
        if p.0 == s.id && !MayWait(c.tasks[p.0]) {
          assert p.1 !in BlockedBy(b.tasks, s.dependsOn);
        }
      }
    }
  }

  /** A step keeps a safe board safe if and only if it is not a lead's bare edit giving a started task an
      unfinished dependency. */
  lemma SafeExactlyUnless(b: Board, s: Step)
    requires Safe(b)
    ensures Safe(Apply(b, s)) <==> !Breaks(b, s)
  {
    assert Breaks(b, s) ==> s.Update? && s.task in b.tasks;
    hide Commit, Decide, Careful, OnlyOwnDeps, Breaks;
    if !s.Update? || s.task !in b.tasks {
      if !s.Update? { OtherStepIsSafe(b, s); }
    } else if Breaks(b, s) {
      BreakingStep(b, s);
    } else if Decide(b, s.task, s.actor, s.request, s.now).Ok? {
      DecisionIsCareful(b, s.task, s.actor, s.request, s.now);
      CascadeRestores(b, s.task, Decide(b, s.task, s.actor, s.request, s.now).value, s.actor, s.request.comment, s.now);
    }
  }

  lemma BreakingStep(b: Board, s: Step)
    requires Breaks(b, s)
    ensures Perform(b, s).Ok? && !Safe(Apply(b, s))
  {
    hide LeadDecision, FindAgent, PlansFollow, Logged;
    var t, r := s.task, s.request;
    var lead := FindAgent(b.agents, s.actor.value).value;
    BareEdit(b, t, lead, r, s.now);
    var d := LeadDecision(b, t, lead, r, s.now).value;
    assert Decide(b, t, s.actor, r, s.now) == Ok(d);
    var x :| x in BlockedBy(b.tasks, r.dependsOn.value);
    assert (t, x) in Apply(b, s).deps;
  }

  /** Such a step exists: a lead makes a task in progress wait for one in the inbox. */
  lemma BareEditHappens()
    ensures exists b: Board, s: Step :: Safe(b) && Breaks(b, s) && !Safe(Apply(b, s))
  {
    var waits, open := NewTask(InProgress, None, None, false, None), NewTask(Inbox, None, None, false, None);
    var b := Board(0, true, Rules(false, false, false, false, false), map[1 := waits, 2 := open], {}, map[], [], [],
                   [Agent(7, Some(0), true, OtherRole)], []);
    var s := Update(1, Some(7), Request(None, None, false, Some({2}), Absent, Absent, None, false, false), 0);
    OneEdge(1, 2, b.tasks.Keys);
    assert WithDeps({}, 1, {2}) == {(1, 2)};
    assert 2 in BlockedBy(b.tasks, {2});
    assert Safe(b) && LeadEditsDependencies(b, s) && LeadMay(b, s);
    BreakingStep(b, s);
  }

  lemma OneEdgePath(t: TaskId, d: TaskId, p: seq<TaskId>)
    requires t != d && IsPath({(t, d)}, p)
    ensures |p| <= 2 && (|p| == 2 ==> p[0] != p[1])
  {
    forall i | 0 <= i < |p| ensures (i > 0 ==> p[i] == d) && (i + 1 < |p| ==> p[i] == t) {
      if i > 0 { assert (p[i - 1], p[i]) in {(t, d)}; }
      if i + 1 < |p| { assert (p[i], p[i + 1]) in {(t, d)}; }
    }
    var second := if |p| > 1 then p[1] else d;
  }

  /** One dependency on another task is no cycle. */
  lemma OneEdge(t: TaskId, d: TaskId, nodes: set<TaskId>)
    requires t != d
    ensures !CycleFrom({(t, d)}, nodes)
  {
    forall p: seq<TaskId>, i: nat ensures !IsLasso({(t, d)}, nodes, p, i) {
      if IsPath({(t, d)}, p) { OneEdgePath(t, d, p); }
    }
  }

  /** No step of the run is one that breaks safety. */
  ghost predicate NeverBreaks(b: Board, steps: seq<Step>) {
    forall k :: 0 <= k < |steps| ==> !Breaks(Run(b, steps[..k]), steps[k])
  }

  /** Every state of a run without such a step is safe. */
  lemma {:induction false} RunsAreSafe(b: Board, steps: seq<Step>)
    requires Safe(b) && NeverBreaks(b, steps)
    ensures Safe(Run(b, steps))
  {
    hide Breaks, Apply, Safe;
    if steps != [] {
      var front := steps[..|steps| - 1];
      forall k | 0 <= k < |front| ensures !Breaks(Run(b, front[..k]), front[k]) {
        assert front[..k] == steps[..k];
      }
      RunsAreSafe(b, front);
      SafeExactlyUnless(Run(b, front), steps[|steps| - 1]);
    }
  }
}
