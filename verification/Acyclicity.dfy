/** The dependency graph of a board never gets a cycle. */
module Acyclicity {
  import opened Wrappers
  import opened Tables
  import opened TaskUpdate
  import opened BoardSteps
  import opened StepFrames
  import opened Cycles
  import opened References

  /** On a board without cycles, dependencies are refused as cyclic exactly when they would close a cycle. */
  lemma RefusedExactlyWhenCyclic(b: Board, t: TaskId, ds: set<TaskId>)
    requires DepsWhole(b) && !HasCycle(b.deps) && t in b.tasks && t !in ds && ds <= b.tasks.Keys
    ensures DependencyCheck(b.tasks, b.deps, t, ds) == Refuse(Conflict) <==> HasCycle(WithDeps(b.deps, t, ds))
  {
    hide HasCycle, CycleFrom;
    var after := WithDeps(b.deps, t, ds);
    CyclesAreReached(after, b.tasks.Keys);
    if ds == {} && HasCycle(after) { FewerEdges(b.deps, after); }
  }

  lemma ReplacedIsAcyclic(b: Board, t: TaskId, r: Request)
    requires DepsWhole(b) && !HasCycle(b.deps) && t in b.tasks && ReplaceDependencies(b, t, r).Ok?
    ensures !HasCycle(ReplaceDependencies(b, t, r).value)
  {
    if r.dependsOn.Some? { RefusedExactlyWhenCyclic(b, t, r.dependsOn.value); }
    hide HasCycle, CycleFrom;
  }

  lemma DecisionIsAcyclic(b: Board, t: TaskId, actor: Option<AgentId>, r: Request, now: Time)
    requires DepsWhole(b) && !HasCycle(b.deps) && t in b.tasks && Decide(b, t, actor, r, now).Ok?
    ensures !HasCycle(Decide(b, t, actor, r, now).value.deps)
  {
    hide HasCycle, ReplaceDependencies, Finish, Blocked, AdminAssigneeCheck, AdminDraft, WorkerDraft, LeadAssignment,
         LeadStatus, Gates, FindAgent, Timed;
    if ReplaceDependencies(b, t, r).Ok? { ReplacedIsAcyclic(b, t, r); }
  }

  /** A new task has no dependents, so it closes no cycle. */
  lemma CreationIsAcyclic(b: Board, t: TaskId, ds: set<TaskId>)
    requires DepsWhole(b) && !HasCycle(b.deps) && t !in b.tasks && ds <= b.tasks.Keys
    ensures !HasCycle(WithDeps(b.deps, t, ds))
  {
    hide HasCycle;
    if HasCycle(WithDeps(b.deps, t, ds)) { NoWayBack(b.deps, WithDeps(b.deps, t, ds), t); }
  }

  lemma StepKeepsAcyclic(b: Board, s: Step)
    requires DepsWhole(b) && !HasCycle(b.deps)
    ensures !HasCycle(Apply(b, s).deps)
  {
    hide HasCycle, CycleFrom;
    if s.Update? {
      hide Decide, PlansFollow, Logged, Cascade;
      if s.task in b.tasks && Decide(b, s.task, s.actor, s.request, s.now).Ok? {
        DecisionIsAcyclic(b, s.task, s.actor, s.request, s.now);
      }
    } else if s.Create? {
      hide FindAgent, NewAssigneeCheck, BlockedBy, PlanExists;
      if Perform(b, s).Ok? { CreationIsAcyclic(b, s.id, s.dependsOn); }
    } else if s.Delete? {
      hide Repointed, WithoutLinks, WithoutEvents, Unlinked;
      if HasCycle(Apply(b, s).deps) { FewerEdges(b.deps, Apply(b, s).deps); }
    } else {
      hide Apply;
      MinorStepsOnTasks(b, s);
    }
  }

  /** No run ever closes a cycle. */
  lemma {:induction false} RunsAreAcyclic(b: Board, steps: seq<Step>)
    requires Whole(b) && !HasCycle(b.deps)
    ensures !HasCycle(Run(b, steps).deps)
  {
    hide Apply, HasCycle, LinksWhole, ApprovalsWhole, PlansWhole, LogWhole;
    if steps != [] {
      var front := steps[..|steps| - 1];
      RunsAreAcyclic(b, front);
      RunsStayWhole(b, front);
      StepKeepsAcyclic(Run(b, front), steps[|steps| - 1]);
    }
  }
}
