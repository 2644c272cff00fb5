/** What the other requests of a board leave, and which of them are accepted. */
module StepOutcome {
  import opened Wrappers
  import opened Tables
  import opened TaskUpdate
  import opened BoardSteps
  import opened UpdateOutcome

  // ----- creating tasks and commenting -----

  /** Who a task may be created for: any agent there is, or, when an agent creates it, a worker of the board. */
  predicate MayBeGiven(b: Board, assignee: Option<AgentId>, byAgent: bool) {
    assignee.Some? ==>
      var agent := FindAgent(b.agents, assignee.value);
      agent.Some? && (byAgent ==> !agent.value.isLead && agent.value.board in {None, Some(b.id)})
  }

  /** A task is created when its dependencies may be had, and are done unless it waits unassigned in the inbox; it is
      stored as given. */
  lemma CreationExactly(b: Board, s: Step)
    requires s.Create?
    ensures Perform(b, s).Ok? <==>
      s.id !in b.tasks && s.extras != Malformed && MayDependOn(b, s.id, s.dependsOn)
      && ((forall d <- s.dependsOn :: d in b.tasks && b.tasks[d].status == Done)
          || (s.assignee.None? && s.status == Inbox))
      && MayBeGiven(b, s.assignee, s.byAgent)
      && (s.plan.Some? ==> exists k :: 0 <= k < |b.plans| && b.plans[k].id == s.plan.value)
    ensures Perform(b, s).Ok? ==>
      var c := Apply(b, s);
      && c == b.(tasks := c.tasks, deps := c.deps)
      && c.tasks == b.tasks[s.id := Task(s.status, s.assignee, None, None, None, s.minutes, s.isBacklog, s.plan)]
      && forall x, y :: (x, y) in c.deps <==> (if x == s.id then y in s.dependsOn else (x, y) in b.deps)
  {
    hide FindAgent, DependencyCheck, MayDependOn, BlockedBy;
    DependencyMeans(b, s.id, s.dependsOn);
    NoneBlocks(b, s.dependsOn);
  }

  lemma NoneBlocks(b: Board, ds: set<TaskId>)
    ensures BlockedBy(b.tasks, ds) == {} <==> forall d <- ds :: d in b.tasks && b.tasks[d].status == Done
  {
    if d :| d in ds && !IsDone(b.tasks, d) { assert d in BlockedBy(b.tasks, ds); }
  }

  /** A comment is logged; a lead's only in review, unless it was mentioned or created the task. */
  lemma CommentExactly(b: Board, s: Step)
    requires s.Say?
    ensures Perform(b, s).Ok? <==>
      s.task in b.tasks
      && (s.actor.Some? ==>
            var agent := FindAgent(b.agents, s.actor.value);
            agent.Some? && (agent.value.isLead ==> b.tasks[s.task].status == Review || s.allowed))
    ensures Perform(b, s).Ok? ==>
      Apply(b, s) == b.(log := b.log + [Event(s.task, s.actor, Comment(s.blank), s.now)])
  {
    hide FindAgent;
  }

  // ----- plans -----

  /** The first plan with the id, while planning is on. */
  predicate IsPlan(b: Board, p: PlanId, k: nat) {
    b.planning && k < |b.plans| && b.plans[k].id == p && forall j :: 0 <= j < k ==> b.plans[j].id != p
  }

  lemma PlanFound(b: Board, p: PlanId, k: nat)
    requires IsPlan(b, p, k)
    ensures PlanIndex(b, p) == Ok(k)
  {
    FirstWith(b.plans, p, k);
  }

  lemma {:induction false} FirstWith(plans: seq<Plan>, p: PlanId, k: nat)
    requires k < |plans| && plans[k].id == p && forall j :: 0 <= j < k ==> plans[j].id != p
    ensures FindPlan(plans, p) == k
    decreases k
  {
    if k > 0 { FirstWith(plans[1..], p, k - 1); }
  }

  lemma FoundIsPlan(b: Board, p: PlanId)
    ensures PlanIndex(b, p).Ok? ==> IsPlan(b, p, PlanIndex(b, p).value)
    ensures PlanIndex(b, p).Err? ==> PlanIndex(b, p) == Err(NotFound)
  {
    NoneBefore(b.plans, p);
  }

  /** Without planning, or without such a plan, every plan endpoint but creation refuses. */
  lemma NoPlanNothing(b: Board, s: Step)
    requires s.EditPlan? || s.DropPlan? || s.Promote? || s.Decompose? || s.Tickets? || s.Reply?
    requires !exists k :: IsPlan(b, s.planId, k)
    ensures Perform(b, s) == Err(NotFound)
  {
    hide Usable, FreshIds, BacklogTasks, FindAgent, FindPlan, PlanIndex;
    FoundIsPlan(b, s.planId);
  }

  lemma {:induction false} NoneBefore(plans: seq<Plan>, p: PlanId)
    ensures forall j :: 0 <= j < FindPlan(plans, p) ==> plans[j].id != p
  {
    if plans != [] && plans[0].id != p {
      NoneBefore(plans[1..], p);
      assert forall j :: 0 < j < FindPlan(plans, p) ==> plans[j] == plans[1..][j - 1];
    }
  }

  lemma StartingExactly(b: Board, s: Step)
    requires s.StartPlan?
    ensures Perform(b, s).Ok? <==> b.planning && forall k :: 0 <= k < |b.plans| ==> b.plans[k].id != s.planId
    ensures Perform(b, s).Ok? ==>
      Apply(b, s) == b.(plans := b.plans + [Plan(s.planId, DraftPlan, None, false, [])])
  {
  }

  /** Content and status are written as given; a completed plan is fixed, and none is completed by hand. */
  lemma EditingExactly(b: Board, s: Step, k: nat)
    requires s.EditPlan? && IsPlan(b, s.planId, k)
    ensures Perform(b, s).Ok? <==> b.plans[k].status != CompletedPlan && s.planStatus != Some(CompletedPlan)
    ensures Perform(b, s).Ok? ==>
      var plan := Apply(b, s).plans[k];
      && Apply(b, s) == b.(plans := b.plans[k := plan]) && plan.task == b.plans[k].task
      && plan.id == b.plans[k].id && plan.tickets == b.plans[k].tickets
      && plan.hasContent == (if s.content.Some? then s.content.value else b.plans[k].hasContent)
      && plan.status == (if s.planStatus.Some? then s.planStatus.value else b.plans[k].status)
  {
    hide FindPlan;
    PlanFound(b, s.planId, k);
  }

  /** The first deletion archives; the second drops the row, unless a task was made from its tickets. */
  lemma DroppingExactly(b: Board, s: Step, k: nat)
    requires s.DropPlan? && IsPlan(b, s.planId, k)
    ensures Perform(b, s).Ok? <==>
      b.plans[k].status == ArchivedPlan ==> forall t <- b.tasks.Keys :: b.tasks[t].plan != Some(s.planId)
    ensures Perform(b, s).Ok? ==>
      Apply(b, s) == b.(plans := if b.plans[k].status == ArchivedPlan then b.plans[..k] + b.plans[k + 1..]
                                 else b.plans[k := b.plans[k].(status := ArchivedPlan)])
  {
    hide FindPlan;
    PlanFound(b, s.planId, k);
  }

  /** A plan is promoted once: to one new task, in the backlog or the inbox as asked, and the plan is active. */
  lemma PromotionExactly(b: Board, s: Step, k: nat)
    requires s.Promote? && IsPlan(b, s.planId, k)
    ensures Perform(b, s).Ok? <==>
      b.plans[k].status in {DraftPlan, ActivePlan} && b.plans[k].task.None? && s.id !in b.tasks
      && (s.assignee.Some? ==> FindAgent(b.agents, s.assignee.value).Some?)
    ensures Perform(b, s).Ok? ==>
      var c := Apply(b, s);
      && c == b.(tasks := c.tasks, plans := b.plans[k := b.plans[k].(task := Some(s.id), status := ActivePlan)])
      && c.tasks.Keys == b.tasks.Keys + {s.id} && (forall t <- b.tasks.Keys :: c.tasks[t] == b.tasks[t])
      && c.tasks[s.id].assignee == s.assignee && c.tasks[s.id].isBacklog == s.toBacklog
      && c.tasks[s.id].status == (if s.toBacklog then Backlog else Inbox)
      && Untouched(c.tasks[s.id]) && c.tasks[s.id].plan.None?
  {
    hide FindPlan, FindAgent;
    PlanFound(b, s.planId, k);
  }

  /** Nothing has happened to the task yet. */
  predicate Untouched(task: Task) {
    task.inProgressAt.None? && task.previousInProgressAt.None? && task.doneAt.None? && task.actualMinutes.None?
  }

  /** Decomposing takes content, and makes a draft active. */
  lemma DecompositionExactly(b: Board, s: Step, k: nat)
    requires s.Decompose? && IsPlan(b, s.planId, k)
    ensures Perform(b, s).Ok? <==> b.plans[k].hasContent
    ensures Perform(b, s).Ok? && b.plans[k].status == DraftPlan ==>
      Apply(b, s) == b.(plans := b.plans[k := b.plans[k].(status := ActivePlan)])
    ensures Perform(b, s).Ok? && b.plans[k].status != DraftPlan ==> Apply(b, s) == b
  {
    hide FindPlan;
    PlanFound(b, s.planId, k);
  }

  /** The positions of the usable tickets. */
  function UsableOnes(tickets: seq<bool>): set<nat> {
    set k | 0 <= k < |tickets| && tickets[k]
  }

  lemma {:induction false} UsableCount(tickets: seq<bool>)
    ensures Usable(tickets) == |UsableOnes(tickets)|
  {
    if tickets != [] {
      var front, last := tickets[..|tickets| - 1], |tickets| - 1;
      UsableCount(front);
      assert UsableOnes(front) == UsableOnes(tickets) - {last};
    }
  }

  /** Some task was made from the plan's tickets. */
  predicate AlreadyCommitted(b: Board, p: PlanId) {
    exists t <- b.tasks.Keys :: b.tasks[t].plan == Some(p)
  }

  /** One untouched backlog task of the plan for each of the fresh ids, and no other change to the tasks. */
  ghost predicate MadeFrom(b: Board, c: Board, p: PlanId, ids: seq<TaskId>) {
    && (forall t :: t in c.tasks <==> t in b.tasks || t in ids)
    && (forall t <- b.tasks.Keys :: t in c.tasks && c.tasks[t] == b.tasks[t])
    && (forall t <- ids :: t in c.tasks && t !in b.tasks && Untouched(c.tasks[t]) && c.tasks[t].plan == Some(p)
          && c.tasks[t].status == Backlog && c.tasks[t].isBacklog && c.tasks[t].assignee.None?)
    && (forall i, j :: 0 <= i < j < |ids| ==> ids[i] != ids[j])
  }

  /** Committing makes one task for each usable ticket, once, and the plan is active. */
  lemma CommittingExactly(b: Board, s: Step, k: nat)
    requires s.Tickets? && IsPlan(b, s.planId, k)
    ensures Perform(b, s).Ok? <==>
      UsableOnes(b.plans[k].tickets) != {} && !AlreadyCommitted(b, s.planId)
      && FreshIds(b.tasks, s.ids, |UsableOnes(b.plans[k].tickets)|)
    ensures Perform(b, s).Ok? ==>
      var c := Apply(b, s);
      && c == b.(tasks := c.tasks, plans := b.plans[k := b.plans[k].(status := ActivePlan)])
      && MadeFrom(b, c, s.planId, s.ids) && |s.ids| == |UsableOnes(b.plans[k].tickets)|
  {
    hide FindPlan, Usable, BacklogTasks;
    PlanFound(b, s.planId, k);
    UsableCount(b.plans[k].tickets);
  }

  /** A reply with tickets stores them, and makes their tasks unless that was done before; one without only brings
      content. */
  lemma ReplyExactly(b: Board, s: Step, k: nat)
    requires s.Reply? && IsPlan(b, s.planId, k)
    ensures Perform(b, s).Ok? <==>
      (s.tickets == []
       || FreshIds(b.tasks, s.ids, if AlreadyCommitted(b, s.planId) then 0 else |UsableOnes(s.tickets)|))
    ensures Perform(b, s).Ok? && s.tickets == [] ==>
      Apply(b, s) == b.(plans := b.plans[k := b.plans[k].(hasContent := s.hasContent || b.plans[k].hasContent)])
    ensures Perform(b, s).Ok? && s.tickets != [] ==>
      var c := Apply(b, s);
      && c == b.(tasks := c.tasks, plans := b.plans[k := b.plans[k].(tickets := s.tickets)])
      && MadeFrom(b, c, s.planId, s.ids)
      && |s.ids| == if AlreadyCommitted(b, s.planId) then 0 else |UsableOnes(s.tickets)|
  {
    hide FindPlan, Usable, BacklogTasks;
    PlanFound(b, s.planId, k);
    UsableCount(s.tickets);
  }

  // ----- refusals -----

  predicate HasPlan(b: Board, p: PlanId) {
    b.planning && exists k :: 0 <= k < |b.plans| && b.plans[k].id == p
  }

  /** The row of a plan there is. */
  function PlanRow(b: Board, p: PlanId): (plan: Plan)
    requires HasPlan(b, p)
    ensures plan.id == p && plan in b.plans
  {
    b.plans[FindPlan(b.plans, p)]
  }

  /** What a refused creation answers: an unknown dependency or, for an agent's creation, an unknown assignee; an
      agent's assigning of a lead; a request that is not well formed; and otherwise a conflict. */
  lemma CreationRefusedAs(b: Board, s: Step)
    requires s.Create? && Perform(b, s).Err?
    ensures match Perform(b, s).error
      case Unauthorized => false
      case NotFound =>
        || (exists d <- s.dependsOn :: d !in b.tasks)
        || (s.byAgent && s.assignee.Some? && FindAgent(b.agents, s.assignee.value).None?)
      case Forbidden =>
        s.byAgent && s.assignee.Some? && FindAgent(b.agents, s.assignee.value).Some?
        && FindAgent(b.agents, s.assignee.value).value.isLead
      case Invalid => s.id in s.dependsOn || s.extras == Malformed
      case Conflict => true
  {
    hide FindAgent, WithDeps, BlockedBy, PlanExists;
  }

  /** What the other refused requests answer: not found without the task, the approval or the plan; unauthorized and
      forbidden for comments alone; invalid for an edit that would complete a plan; and otherwise a conflict. */
  lemma RefusedAs(b: Board, s: Step)
    requires !s.Update? && !s.Create? && Perform(b, s).Err?
    ensures Perform(b, s).error ==
      if s.Delete? then NotFound
      else if s.Say? then
        (if s.task !in b.tasks then NotFound
         else if s.actor.Some? && FindAgent(b.agents, s.actor.value).None? then Unauthorized else Forbidden)
      else if s.Ask? then Conflict
      else if s.Resolve? then (if s.approval !in b.approvals then NotFound else Conflict)
      else if s.StartPlan? then (if b.planning then Conflict else NotFound)
      else if s.Staff? || !HasPlan(b, s.planId) then NotFound
      else if s.EditPlan? && PlanRow(b, s.planId).status != CompletedPlan then Invalid
      else Conflict
  {
    hide FindAgent, FreshIds, BacklogTasks, Usable, Committed, PendingElsewhere, Distinct, TasksOf, WithoutLinks,
         WithoutEvents, Unlinked;
  }
}
