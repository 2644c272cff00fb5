/** No row names a task or an approval that is not there, and an approval's primary task is one of its links. */
module References {
  import opened Wrappers
  import opened Tables
  import opened TaskUpdate
  import opened BoardSteps
  import opened StepFrames

  predicate DepsWhole(b: Board) {
    forall p <- b.deps :: p.0 in b.tasks && p.1 in b.tasks
  }

  predicate LinksWhole(b: Board) {
    forall l <- b.links :: l.approval in b.approvals && l.task in b.tasks
  }

  /** The primary task is one of the links, or there is neither. */
  predicate PrimaryLinked(approval: Approval, a: ApprovalId, links: seq<Link>) {
    if approval.task.Some? then Link(a, approval.task.value) in links else TasksOf(links, a) == []
  }

  predicate ApprovalsWhole(b: Board) {
    forall a <- b.approvals.Keys :: PrimaryLinked(b.approvals[a], a, b.links)
  }

  predicate PlansWhole(b: Board) {
    forall k :: 0 <= k < |b.plans| && b.plans[k].task.Some? ==> b.plans[k].task.value in b.tasks
  }

  predicate LogWhole(b: Board) {
    forall e <- b.log :: e.task in b.tasks
  }

  predicate Whole(b: Board) {
    DepsWhole(b) && LinksWhole(b) && ApprovalsWhole(b) && PlansWhole(b) && LogWhole(b)
  }

  // ----- deletion -----

  /** No row of any table names the task. */
  predicate Forgotten(b: Board, t: TaskId) {
    && t !in b.tasks
    && (forall p <- b.deps :: p.0 != t && p.1 != t)
    && (forall l <- b.links :: l.task != t)
    && (forall a <- b.approvals.Keys :: b.approvals[a].task != Some(t))
    && (forall k :: 0 <= k < |b.plans| ==> b.plans[k].task != Some(t))
    && (forall e <- b.log :: e.task != t)
  }

  /** What a deletion of `t` leaves of the other rows. */
  predicate Spared(b: Board, c: Board, t: TaskId) {
    && c.tasks == b.tasks - {t}
    && (forall p <- b.deps :: p.0 != t && p.1 != t ==> p in c.deps) && c.deps <= b.deps
    && (forall l <- b.links :: l.task != t ==> l in c.links) && (forall l <- c.links :: l in b.links)
    && (forall e <- b.log :: e.task != t ==> e in c.log) && (forall e <- c.log :: e in b.log)
    && |c.plans| == |b.plans|
    && (forall k :: 0 <= k < |b.plans| ==>
          c.plans[k] == if b.plans[k].task == Some(t) then b.plans[k].(task := None) else b.plans[k])
  }

  function Without(ts: seq<TaskId>, t: TaskId): seq<TaskId> {
    if ts == [] then [] else (if ts[0] == t then [] else [ts[0]]) + Without(ts[1..], t)
  }

  lemma {:induction false} LinksKeepTheirOrder(links: seq<Link>, a: ApprovalId, t: TaskId)
    ensures TasksOf(WithoutLinks(links, t), a) == Without(TasksOf(links, a), t)
  {
    if links != [] {
      var rest := WithoutLinks(links[1..], t);
      var others := TasksOf(links[1..], a);
      LinksKeepTheirOrder(links[1..], a, t);
      assert ([links[0]] + rest)[1..] == rest && [] + rest == rest;
      assert ([links[0].task] + others)[1..] == others && [] + Without(others, t) == Without(others, t);
    }
  }

  /** Where an approval goes when `t` is deleted: away if `t` was its primary task and its only one, to the
      first of its other tasks if `t` was its primary task, and otherwise nowhere. */
  function After(b: Board, a: ApprovalId, t: TaskId): Option<Approval>
    requires a in b.approvals
  {
    var others := Without(TasksOf(b.links, a), t);
    if b.approvals[a].task != Some(t) then Some(b.approvals[a])
    else if others == [] then None
    else Some(b.approvals[a].(task := Some(others[0])))
  }

  lemma ApprovalsAfterDeletion(b: Board, t: TaskId, a: ApprovalId)
    requires t in b.tasks && a in b.approvals
    ensures var c := DeleteTask(b, t).value;
      (if a in c.approvals then Some(c.approvals[a]) else None) == After(b, a, t)
  {
    hide WithoutLinks, WithoutEvents, Unlinked, TasksOf, Without;
    LinksKeepTheirOrder(b.links, a, t);
  }

  /** A deletion forgets the task, spares every other row, and re-points or deletes its approvals. */
  lemma DeletionForgets(b: Board, t: TaskId)
    requires t in b.tasks
    ensures var c := DeleteTask(b, t).value;
      Forgotten(c, t) && Spared(b, c, t) && c.approvals.Keys <= b.approvals.Keys
    ensures forall a <- b.approvals.Keys :: var c := DeleteTask(b, t).value;
      (if a in c.approvals then Some(c.approvals[a]) else None) == After(b, a, t)
  {
    hide WithoutLinks, WithoutEvents, Unlinked, TasksOf, Without;
    forall a | a in b.approvals.Keys
      ensures var c := DeleteTask(b, t).value;
      (if a in c.approvals then Some(c.approvals[a]) else None) == After(b, a, t)
    {
      ApprovalsAfterDeletion(b, t, a);
    }
    var links := WithoutLinks(b.links, t);
    forall a | a in b.approvals && TasksOf(links, a) != [] ensures TasksOf(links, a)[0] != t {
      assert Link(a, TasksOf(links, a)[0]) in links;
    }
  }

  lemma NoLinksLeft(links: seq<Link>, a: ApprovalId, t: TaskId)
    requires TasksOf(links, a) == []
    ensures TasksOf(WithoutLinks(links, t), a) == []
  {
    LinksKeepTheirOrder(links, a, t);
  }

  lemma DeletionKeepsApprovals(b: Board, t: TaskId)
    requires t in b.tasks && LinksWhole(b) && ApprovalsWhole(b)
    ensures LinksWhole(DeleteTask(b, t).value) && ApprovalsWhole(DeleteTask(b, t).value)
  {
    hide WithoutLinks, WithoutEvents, Unlinked, TasksOf;
    var c := DeleteTask(b, t).value;
    forall a | a in c.approvals.Keys ensures PrimaryLinked(c.approvals[a], a, c.links) {
      if b.approvals[a].task == Some(t) {
        assert Link(a, TasksOf(c.links, a)[0]) in c.links;
      } else if b.approvals[a].task.None? {
        NoLinksLeft(b.links, a, t);
      }
    }
    forall l | l in c.links ensures l.approval in c.approvals {
      assert l in b.links;
      assert l.task in TasksOf(c.links, l.approval);
    }
  }

  lemma DeletionKeepsRest(b: Board, t: TaskId)
    requires t in b.tasks && DepsWhole(b) && PlansWhole(b) && LogWhole(b)
    ensures DepsWhole(DeleteTask(b, t).value) && PlansWhole(DeleteTask(b, t).value) && LogWhole(DeleteTask(b, t).value)
  {
    hide WithoutLinks, WithoutEvents, Unlinked, Repointed;
  }

  // ----- approvals -----

  lemma {:induction false} TasksOfMore(links: seq<Link>, more: seq<Link>, a: ApprovalId)
    ensures TasksOf(links + more, a) == TasksOf(links, a) + TasksOf(more, a)
  {
    if links == [] {
      assert links + more == more;
    } else {
      assert (links + more)[1..] == links[1..] + more;
      TasksOfMore(links[1..], more, a);
    }
  }

  lemma {:induction false} TasksOfNew(a: ApprovalId, ts: seq<TaskId>, x: ApprovalId)
    ensures TasksOf(LinksTo(a, ts), x) == if x == a then ts else []
  {
    if ts != [] {
      assert LinksTo(a, ts)[1..] == LinksTo(a, ts[1..]);
      TasksOfNew(a, ts[1..], x);
    }
  }

  lemma {:induction false} NoStaleLinks(links: seq<Link>, a: ApprovalId)
    requires forall l <- links :: l.approval != a
    ensures TasksOf(links, a) == []
  {
    if links != [] { NoStaleLinks(links[1..], a); }
  }

  lemma CreationOfApproval(b: Board, a: ApprovalId, named: seq<TaskId>, status: ApprovalStatus)
    requires LinksWhole(b) && ApprovalsWhole(b) && CreateApproval(b, a, named, status).Ok?
    ensures var c := CreateApproval(b, a, named, status).value; LinksWhole(c) && ApprovalsWhole(c)
    ensures TasksOf(CreateApproval(b, a, named, status).value.links, a) == Distinct(named)
  {
    hide TasksOf, LinksTo, Distinct, PendingElsewhere;
    var c := CreateApproval(b, a, named, status).value;
    var ts := Distinct(named);
    NoStaleLinks(b.links, a);
    forall x | x in c.approvals.Keys
      ensures PrimaryLinked(c.approvals[x], x, c.links)
      ensures x == a ==> TasksOf(c.links, a) == ts
    {
      TasksOfMore(b.links, LinksTo(a, ts), x);
      TasksOfNew(a, ts, x);
      if x != a { assert PrimaryLinked(b.approvals[x], x, b.links); }
      else if ts != [] { assert Link(a, ts[0]) == LinksTo(a, ts)[0]; }
    }
    assert a in c.approvals.Keys;
  }

  // ----- every step -----

  lemma DecisionNamesTasks(b: Board, t: TaskId, actor: Option<AgentId>, r: Request, now: Time)
    requires t in b.tasks && DepsWhole(b) && Decide(b, t, actor, r, now).Ok?
    ensures forall p <- Decide(b, t, actor, r, now).value.deps :: p.0 in b.tasks && p.1 in b.tasks
  {
    hide Finish, Blocked, AdminAssigneeCheck, AdminDraft, WorkerDraft, LeadAssignment, LeadStatus, Gates, FindAgent,
         Timed;
  }

  lemma UpdateKeepsWhole(b: Board, s: Step)
    requires s.Update? && Whole(b)
    ensures Whole(Apply(b, s))
  {
    hide Decide, TasksOf, FirstLinked;
    if s.task in b.tasks && Decide(b, s.task, s.actor, s.request, s.now).Ok? {
      DecisionNamesTasks(b, s.task, s.actor, s.request, s.now);
    }
  }

  lemma CreateKeepsWhole(b: Board, s: Step)
    requires s.Create? && Whole(b)
    ensures Whole(Apply(b, s))
  {
    hide FindAgent, NewAssigneeCheck, BlockedBy, PlanExists, TasksOf;
  }

  /** A step of the plan endpoints or of the agents table. */
  predicate PlanStep(s: Step) {
    MinorStep(s) && !s.Ask? && !s.Resolve? && !s.Say?
  }

  lemma PlanStepFrame(b: Board, s: Step)
    requires PlanStep(s)
    ensures var c := Apply(b, s); c.approvals == b.approvals && c.links == b.links && c.log == b.log
  {
    hide Usable, FindAgent, PlanIndex, FreshIds, BacklogTasks;
  }

  lemma PlanStepKeepsPlans(b: Board, s: Step)
    requires PlanStep(s) && PlansWhole(b)
    ensures PlansWhole(Apply(b, s))
  {
    hide Usable, FindAgent, PlanIndex, FreshIds, BacklogTasks;
  }

  lemma PlanStepKeepsWhole(b: Board, s: Step)
    requires PlanStep(s) && Whole(b)
    ensures Whole(Apply(b, s))
  {
    hide Apply, PlansWhole, PlanRow, PrimaryLinked;
    MinorStepsOnTasks(b, s);
    PlanStepFrame(b, s);
    PlanStepKeepsPlans(b, s);
  }

  lemma ResolveKeepsWhole(b: Board, s: Step)
    requires (s.Resolve? || s.Say?) && Whole(b)
    ensures Whole(Apply(b, s))
  {
    hide FindAgent, TasksOf;
  }

  /** Every step keeps every reference whole. */
  lemma StepKeepsWhole(b: Board, s: Step)
    requires Whole(b)
    ensures Whole(Apply(b, s))
  {
    hide UpdateTask, CreateTask, CreateApproval, DeleteTask, PrimaryLinked;
    if s.Update? {
      UpdateKeepsWhole(b, s);
    } else if s.Create? {
      CreateKeepsWhole(b, s);
    } else if s.Delete? {
      DeleteKeepsWhole(b, s);
    } else if s.Ask? {
      if CreateApproval(b, s.approval, s.named, s.verdict).Ok? { AskKeepsWhole(b, s); }
    } else if s.Resolve? || s.Say? {
      ResolveKeepsWhole(b, s);
    } else {
      PlanStepKeepsWhole(b, s);
    }
  }

  lemma DeleteKeepsWhole(b: Board, s: Step)
    requires s.Delete? && Whole(b)
    ensures Whole(Apply(b, s))
  {
    hide WithoutLinks, WithoutEvents, Unlinked, Repointed, PrimaryLinked;
    if s.task in b.tasks {
      DeletionKeepsApprovals(b, s.task);
      DeletionKeepsRest(b, s.task);
    }
  }

  lemma AskKeepsWhole(b: Board, s: Step)
    requires s.Ask? && Whole(b)
    ensures Whole(Apply(b, s))
  {
    hide TasksOf, LinksTo, Distinct, PendingElsewhere, PrimaryLinked;
    if Perform(b, s).Ok? { CreationOfApproval(b, s.approval, s.named, s.verdict); }
  }

  lemma {:induction false} RunsStayWhole(b: Board, steps: seq<Step>)
    requires Whole(b)
    ensures Whole(Run(b, steps))
  {
    hide Apply, Whole;
    if steps != [] {
      RunsStayWhole(b, steps[..|steps| - 1]);
      StepKeepsWhole(Run(b, steps[..|steps| - 1]), steps[|steps| - 1]);
    }
  }
}
