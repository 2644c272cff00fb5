/** The timing fields follow the status over every run. */
module TaskTiming {
  import opened Wrappers
  import opened Tables
  import opened TaskUpdate
  import opened BoardSteps
  import opened StepFrames

  /** `doneAt` is set exactly on done tasks, and no task in the inbox or in review is running. */
  predicate Timely(task: Task) {
    (task.doneAt.Some? <==> task.status == Done)
    && (task.status in {Inbox, Review} ==> task.inProgressAt.None?)
  }

  predicate AllTimely(b: Board) {
    forall t <- b.tasks.Keys :: Timely(b.tasks[t])
  }

  // ----- each path -----

  lemma LeadKeepsTime(b: Board, t: TaskId, lead: Agent, r: Request, now: Time)
    requires t in b.tasks && LeadDecision(b, t, lead, r, now).Ok? && Timely(b.tasks[t])
    ensures Timely(LeadDecision(b, t, lead, r, now).value.task)
  {
    hide Blocked, Gates, ReplaceDependencies, FindAgent, LastReviewMover, ElapsedMinutes;
  }

  /** What a draft must hold for its completion to be timely. */
  predicate TimelyDraft(prior: Task, draft: Draft) {
    var next := if draft.status.Some? then draft.status.value else prior.status;
    (draft.status.None? ==> draft.task.status == prior.status)
    && draft.task.doneAt == prior.doneAt
    && (next in {Inbox, Review} ==> draft.task.inProgressAt.None?)
  }

  lemma FinishKeepsTime(b: Board, t: TaskId, byAgent: bool, draft: Draft, r: Request, now: Time)
    requires t in b.tasks && Finish(b, t, byAgent, draft, r, now).Ok?
    requires Timely(b.tasks[t]) && TimelyDraft(b.tasks[t], draft)
    ensures Timely(Finish(b, t, byAgent, draft, r, now).value)
  {
    hide Gates, ReviewCommentCheck, NextStatuses, FindLead, ElapsedMinutes;
  }

  lemma WorkerKeepsTime(b: Board, t: TaskId, agent: Agent, r: Request, now: Time)
    requires t in b.tasks && WorkerDecision(b, t, agent, r, now).Ok? && Timely(b.tasks[t])
    ensures Timely(WorkerDecision(b, t, agent, r, now).value.task)
  {
    hide Finish, Blocked;
    FinishKeepsTime(b, t, true, WorkerDraft(b, t, agent, r, now).value, r, now);
  }

  lemma AdminKeepsTime(b: Board, t: TaskId, r: Request, now: Time)
    requires t in b.tasks && AdminDecision(b, t, r, now).Ok? && Timely(b.tasks[t])
    ensures Timely(AdminDecision(b, t, r, now).value.task)
  {
    hide Finish, Blocked, ReplaceDependencies, AdminAssigneeCheck;
    FinishKeepsTime(b, t, false, AdminDraft(b, ReplaceDependencies(b, t, r).value, t, r, now), r, now);
  }

  lemma DecisionKeepsTime(b: Board, t: TaskId, actor: Option<AgentId>, r: Request, now: Time)
    requires t in b.tasks && Decide(b, t, actor, r, now).Ok? && Timely(b.tasks[t])
    ensures Timely(Decide(b, t, actor, r, now).value.task)
  {
    hide LeadDecision, WorkerDecision, AdminDecision, Timely;
    if actor.None? {
      AdminKeepsTime(b, t, r, now);
    } else {
      var agent := FindAgent(b.agents, actor.value).value;
      if agent.isLead { LeadKeepsTime(b, t, agent, r, now); } else { WorkerKeepsTime(b, t, agent, r, now); }
    }
  }

  // ----- every step, every run -----

  /** The guards of a creation whose status is not the inbox. */
  ghost predicate MayCreate(b: Board, s: Step)
    requires s.Create?
  {
    s.id !in b.tasks && s.extras != Malformed
    && DependencyCheck(b.tasks, b.deps, s.id, s.dependsOn).Pass? && BlockedBy(b.tasks, s.dependsOn) == {}
    && (s.assignee.Some? ==> FindAgent(b.agents, s.assignee.value).Some?)
    && (s.byAgent ==> NewAssigneeCheck(b, s.assignee).Pass?)
    && (s.plan.Some? ==> PlanExists(b.plans, s.plan.value))
  }

  /** A task is created already done. */
  ghost predicate CreatesDone(b: Board, s: Step) {
    s.Create? && s.status == Done && MayCreate(b, s)
  }

  lemma UpdateKeepsTime(b: Board, s: Step)
    requires s.Update? && AllTimely(b)
    ensures AllTimely(Apply(b, s))
  {
    hide Decide, PlansFollow, Logged;
    if s.task in b.tasks && Decide(b, s.task, s.actor, s.request, s.now).Ok? {
      DecisionKeepsTime(b, s.task, s.actor, s.request, s.now);
    }
  }

  lemma CreateKeepsTime(b: Board, s: Step)
    requires s.Create? && AllTimely(b)
    ensures AllTimely(Apply(b, s)) <==> !CreatesDone(b, s)
  {
    hide FindAgent, DependencyCheck, NewAssigneeCheck, BlockedBy;
    if Perform(b, s).Ok? {
      assert s.id in Apply(b, s).tasks.Keys;
      forall t | t in Apply(b, s).tasks.Keys && t != s.id ensures Timely(Apply(b, s).tasks[t]) {
        assert t in b.tasks.Keys;
      }
    }
  }

  lemma OthersKeepTime(b: Board, s: Step)
    requires !s.Update? && !s.Create? && AllTimely(b)
    ensures AllTimely(Apply(b, s))
  {
    if s.Delete? {
      hide Repointed, WithoutLinks, WithoutEvents, Unlinked, Timely;
    } else {
      hide Apply;
      MinorStepsOnTasks(b, s);
    }
  }

  /** A step keeps every task timely if and only if it does not create a task already done. */
  lemma TimelyExactlyUnless(b: Board, s: Step)
    requires AllTimely(b)
    ensures AllTimely(Apply(b, s)) <==> !CreatesDone(b, s)
  {
    hide Apply, AllTimely, Perform;
    if s.Update? {
      UpdateKeepsTime(b, s);
    } else if s.Create? {
      CreateKeepsTime(b, s);
    } else {
      OthersKeepTime(b, s);
    }
  }

  /** Such a step exists: a done task with nothing in its way, whose `doneAt` stays unset. */
  lemma CreationAsDoneHappens()
    ensures exists b: Board, s: Step :: AllTimely(b) && CreatesDone(b, s) && !AllTimely(Apply(b, s))
  {
    var b := Board(0, true, Rules(false, false, false, false, false), map[], {}, map[], [], [], [], []);
    var s := Create(1, Done, None, None, false, None, {}, Absent, false);
    assert DependencyCheck(b.tasks, b.deps, s.id, s.dependsOn).Pass?;
    assert AllTimely(b) && CreatesDone(b, s);
    TimelyExactlyUnless(b, s);
  }

  lemma {:induction false} RunsAreTimely(b: Board, steps: seq<Step>)
    requires AllTimely(b) && forall s <- steps :: s.Create? ==> s.status != Done
    ensures AllTimely(Run(b, steps))
  {
    hide Apply, AllTimely;
    if steps != [] {
      RunsAreTimely(b, steps[..|steps| - 1]);
      assert steps[|steps| - 1] in steps;
      TimelyExactlyUnless(Run(b, steps[..|steps| - 1]), steps[|steps| - 1]);
    }
  }

  // ----- the minutes -----

  /** With `seconds` whole seconds elapsed (none when the clock went back), the minutes are the least number,
      and at least one, that covers them. */
  lemma MinutesRoundUp(start: Time, end: Time, seconds: nat)
    requires end > start ==>
      seconds * 1_000_000 <= end - start < (seconds + 1) * 1_000_000
    requires end <= start ==> seconds == 0
    ensures var m := ElapsedMinutes(start, end);
      m >= 1 && seconds <= m * 60 && (m > 1 ==> (m - 1) * 60 < seconds)
  {
    if end > start {
      assert seconds == (end - start) / 1_000_000;
    }
  }

  /** The timing of a row that becomes done, given the row before. */
  predicate CompletedAt(prior: Task, task: Task, r: Request, now: Time) {
    var startedAt := Either(prior.inProgressAt, prior.previousInProgressAt);
    && task.doneAt == Some(now)
    && task.actualMinutes == (if r.actualMinutes.Some? then r.actualMinutes.value
                              else if startedAt.Some? then Some(ElapsedMinutes(startedAt.value, now))
                              else prior.actualMinutes)
  }

  lemma LeadCompletes(b: Board, t: TaskId, lead: Agent, r: Request, now: Time)
    requires t in b.tasks && LeadDecision(b, t, lead, r, now).Ok?
    requires BecomesDone(b.tasks[t], LeadDecision(b, t, lead, r, now).value.task)
    ensures CompletedAt(b.tasks[t], LeadDecision(b, t, lead, r, now).value.task, r, now)
  {
    hide Blocked, Gates, ReplaceDependencies, FindAgent, LastReviewMover, ElapsedMinutes;
  }

  lemma FinishCompletes(b: Board, t: TaskId, byAgent: bool, draft: Draft, r: Request, now: Time)
    requires t in b.tasks && Finish(b, t, byAgent, draft, r, now).Ok?
    requires BecomesDone(b.tasks[t], Finish(b, t, byAgent, draft, r, now).value)
    requires draft.status.None? ==> draft.task.status == b.tasks[t].status
    requires draft.status == Some(Done) ==>
      draft.task == b.tasks[t].(assignee := draft.task.assignee)
    ensures CompletedAt(b.tasks[t], Finish(b, t, byAgent, draft, r, now).value, r, now)
  {
    hide Gates, ReviewCommentCheck, NextStatuses, FindLead, ElapsedMinutes;
  }

  /** A task that becomes done has its minutes counted from its last start, unless the request sets them or it
      was never started. */
  lemma MinutesOnCompletion(b: Board, t: TaskId, actor: Option<AgentId>, r: Request, now: Time)
    requires t in b.tasks && Decide(b, t, actor, r, now).Ok?
    requires BecomesDone(b.tasks[t], Decide(b, t, actor, r, now).value.task)
    ensures CompletedAt(b.tasks[t], Decide(b, t, actor, r, now).value.task, r, now)
  {
    hide Finish, Blocked, ReplaceDependencies, AdminAssigneeCheck, LeadDecision, CompletedAt;
    if actor.None? {
      FinishCompletes(b, t, false, AdminDraft(b, ReplaceDependencies(b, t, r).value, t, r, now), r, now);
    } else {
      var agent := FindAgent(b.agents, actor.value).value;
      if agent.isLead {
        LeadCompletes(b, t, agent, r, now);
      } else {
        FinishCompletes(b, t, true, WorkerDraft(b, t, agent, r, now).value, r, now);
      }
    }
  }
}
