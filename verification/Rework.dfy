/** Rework goes back to the worker: what a lead's refusal in review reads from the log is the history of the run. */
module Rework {
  import opened Wrappers
  import opened Tables
  import opened TaskUpdate
  import opened BoardSteps
  import opened DependencySafety

  // ----- the history, from the states of the run alone -----

  /** An agent's step takes an existing task into review. */
  ghost predicate TakesToReview(b: Board, s: Step, t: TaskId) {
    s.Update? && s.task == t && s.actor.Some? && t in b.tasks && b.tasks[t].status != Review
    && t in Apply(b, s).tasks && Apply(b, s).tasks[t].status == Review
  }

  /** The agents who took a task into review, oldest first; a deleted task has no history. */
  ghost function Movers(b: Board, steps: seq<Step>, t: TaskId): seq<AgentId> {
    if steps == [] then LogMovers(b.log, t)
    else
      var front, s := steps[..|steps| - 1], steps[|steps| - 1];
      if s.Delete? && s.task == t then []
      else if TakesToReview(Run(b, front), s, t) then Movers(b, front, t) + [s.actor.value]
      else Movers(b, front, t)
  }

  /** What the log says: the agents of its moves to review. */
  function LogMovers(log: seq<Event>, t: TaskId): seq<AgentId> {
    if log == [] then []
    else
      var front, e := log[..|log| - 1], log[|log| - 1];
      if IsReviewMove(e, t) then LogMovers(front, t) + [e.agent.value] else LogMovers(front, t)
  }

  lemma LogGrows(log: seq<Event>, e: Event, t: TaskId)
    ensures LogMovers(log + [e], t) == LogMovers(log, t) + if IsReviewMove(e, t) then [e.agent.value] else []
  {
    assert (log + [e])[..|log|] == log;
  }

  lemma {:induction false} LogWithoutOthers(log: seq<Event>, gone: TaskId, t: TaskId)
    ensures LogMovers(WithoutEvents(log, gone), t) == if gone == t then [] else LogMovers(log, t)
  {
    if log != [] {
      var front, e := log[..|log| - 1], log[|log| - 1];
      LogWithoutOthers(front, gone, t);
      if e.task == gone {
        assert WithoutEvents(front, gone) + [] == WithoutEvents(front, gone);
      } else {
        LogGrows(WithoutEvents(front, gone), e, t);
      }
    }
  }

  lemma LoggedMovers(log: seq<Event>, x: TaskId, actor: Option<AgentId>, comment: bool, was: Status, becomes: Status,
                     now: Time, t: TaskId)
    ensures LogMovers(Logged(log, x, actor, comment, was, becomes, now), t)
         == LogMovers(log, t)
            + if x == t && actor.Some? && was != Review && becomes == Review then [actor.value] else []
  {
    hide LogMovers;
    var noted := log + if comment then [Event(x, actor, Comment(false), now)] else [];
    if comment { LogGrows(log, Event(x, actor, Comment(false), now), t); } else { assert noted == log; }
    var moved := Event(x, actor, MovedTo(becomes), now);
    if becomes != was { LogGrows(noted, moved, t); } else { assert noted + [] == noted; }
  }

  /** A done task never moves straight to review. */
  lemma DoneIsNotReviewed(b: Board, t: TaskId, actor: Option<AgentId>, r: Request, now: Time)
    requires t in b.tasks && Decide(b, t, actor, r, now).Ok? && b.tasks[t].status == Done
    ensures Decide(b, t, actor, r, now).value.task.status != Review
  {
    hide Finish, Blocked, ReplaceDependencies, AdminAssigneeCheck, Gates, WorkerChecks, WorkerFields;
    if actor.None? {
      FinishSetsStatus(b, t, false, AdminDraft(b, ReplaceDependencies(b, t, r).value, t, r, now), r, now);
    } else {
      var agent := FindAgent(b.agents, actor.value).value;
      if !agent.isLead {
        FinishSetsStatus(b, t, true, WorkerDraft(b, t, agent, r, now).value, r, now);
      }
    }
  }

  lemma UpdateLogs(b: Board, s: Step, t: TaskId)
    requires s.Update?
    ensures LogMovers(Apply(b, s).log, t)
         == LogMovers(b.log, t) + if TakesToReview(b, s, t) then [s.actor.value] else []
  {
    hide Decide, LogMovers, PlansFollow, Logged;
    if s.task in b.tasks && Decide(b, s.task, s.actor, s.request, s.now).Ok? {
      var d := Decide(b, s.task, s.actor, s.request, s.now).value;
      if b.tasks[s.task].status == Done { DoneIsNotReviewed(b, s.task, s.actor, s.request, s.now); }
      LoggedMovers(b.log, s.task, s.actor, s.request.comment, b.tasks[s.task].status, d.task.status, s.now, t);
    } else {
      assert Apply(b, s) == b;
    }
  }

  lemma OthersLogNothing(b: Board, s: Step, t: TaskId)
    requires !s.Update?
    ensures LogMovers(Apply(b, s).log, t)
         == if s.Delete? && s.task == t && t in b.tasks then [] else LogMovers(b.log, t)
  {
    hide UpdateTask, LogMovers, Usable, FindAgent, PlanIndex, FreshIds, BacklogTasks, DependencyCheck, NewAssigneeCheck,
         Repointed, WithoutLinks, WithoutEvents, Unlinked;
    if s.Delete? {
      LogWithoutOthers(b.log, s.task, t);
    } else if s.Say? {
      LogGrows(b.log, Event(s.task, s.actor, Comment(s.blank), s.now), t);
    }
  }

  lemma NobodyMovedAbsent(log: seq<Event>, t: TaskId)
    requires forall e <- log :: e.task != t
    ensures LogMovers(log, t) == []
  {
  }

  /** The log of a run tells its history: no mover is missing, invented or out of order. */
  lemma {:induction false} LogTellsHistory(b: Board, steps: seq<Step>, t: TaskId)
    requires forall e <- b.log :: e.task in b.tasks
    ensures LogMovers(Run(b, steps).log, t) == Movers(b, steps, t)
    ensures forall e <- Run(b, steps).log :: e.task in Run(b, steps).tasks
  {
    hide Apply, LogMovers;
    if steps != [] {
      var front, s := steps[..|steps| - 1], steps[|steps| - 1];
      var c := Run(b, front);
      LogTellsHistory(b, front, t);
      LogStaysWhole(c, s);
      if s.Update? { UpdateLogs(c, s, t); } else { OthersLogNothing(c, s, t); }
      if s.Delete? && s.task == t && t !in c.tasks { NobodyMovedAbsent(c.log, t); }
    }
  }

  lemma LogStaysWhole(b: Board, s: Step)
    requires forall e <- b.log :: e.task in b.tasks
    ensures forall e <- Apply(b, s).log :: e.task in Apply(b, s).tasks
  {
    hide Decide, PlansFollow, Usable, FindAgent, PlanIndex, FreshIds, DependencyCheck, NewAssigneeCheck,
         Repointed, WithoutLinks, WithoutEvents, Unlinked, BlockedBy, PendingElsewhere;
  }

  // ----- the choice -----

  /** A worker of the board who is still in the agents table. */
  predicate StillWorksHere(agents: seq<Agent>, board: BoardId, id: AgentId) {
    var agent := FindAgent(agents, id);
    agent.Some? && agent.value.board == Some(board) && !agent.value.isLead
  }

  /** The newest mover still working on the board, or nobody when there is none. */
  ghost predicate IsNewestPresent(movers: seq<AgentId>, agents: seq<Agent>, board: BoardId, choice: Option<AgentId>) {
    if choice.None? then forall k :: 0 <= k < |movers| ==> !StillWorksHere(agents, board, movers[k])
    else exists k :: 0 <= k < |movers| && movers[k] == choice.value && NewestAt(movers, agents, board, k)
  }

  predicate NewestAt(movers: seq<AgentId>, agents: seq<Agent>, board: BoardId, k: nat)
    requires k < |movers|
  {
    StillWorksHere(agents, board, movers[k])
    && forall j :: k < j < |movers| ==> !StillWorksHere(agents, board, movers[j])
  }

  lemma {:induction false} ScanFindsNewest(log: seq<Event>, agents: seq<Agent>, board: BoardId, lead: AgentId,
                                           t: TaskId)
    requires FindAgent(agents, lead).Some? && FindAgent(agents, lead).value.isLead
    ensures IsNewestPresent(LogMovers(log, t), agents, board, LastReviewMover(log, agents, board, lead, t))
  {
    hide FindAgent;
    if log != [] {
      var front, e := log[..|log| - 1], log[|log| - 1];
      ScanFindsNewest(front, agents, board, lead, t);
      var movers := LogMovers(log, t);
      if IsReviewMove(e, t) {
        assert movers[|movers| - 1] == e.agent.value && movers[..|movers| - 1] == LogMovers(front, t);
        assert CanRework(agents, board, lead, e.agent.value) == StillWorksHere(agents, board, e.agent.value);
        if StillWorksHere(agents, board, e.agent.value) {
          assert NewestAt(movers, agents, board, |movers| - 1);
        } else {
          SkipNewest(movers, agents, board, LastReviewMover(front, agents, board, lead, t));
        }
      }
    }
  }

  lemma SkipNewest(movers: seq<AgentId>, agents: seq<Agent>, board: BoardId, choice: Option<AgentId>)
    requires movers != [] && !StillWorksHere(agents, board, movers[|movers| - 1])
    requires IsNewestPresent(movers[..|movers| - 1], agents, board, choice)
    ensures IsNewestPresent(movers, agents, board, choice)
  {
    hide StillWorksHere;
    var front := movers[..|movers| - 1];
    assert forall k :: 0 <= k < |front| ==> movers[k] == front[k];
    if choice.Some? {
      var k :| 0 <= k < |front| && front[k] == choice.value && NewestAt(front, agents, board, k);
      assert movers[k] == choice.value && NewestAt(movers, agents, board, k);
    }
  }

  lemma LeadSendsBack(b: Board, t: TaskId, lead: Agent, r: Request, now: Time)
    requires t in b.tasks && b.tasks[t].status == Review && r.status == Some(Inbox)
    requires LeadDecision(b, t, lead, r, now).Ok?
    ensures var task := LeadDecision(b, t, lead, r, now).value.task;
      && task.status == Inbox && task.inProgressAt.None?
      && task.assignee == LastReviewMover(b.log, b.agents, b.id, lead.id, t)
  {
    hide Blocked, Gates, ReplaceDependencies, FindAgent, LastReviewMover, ElapsedMinutes;
  }

  lemma WrittenAsDecided(b: Board, t: TaskId, actor: Option<AgentId>, r: Request, now: Time)
    requires t in b.tasks && b.tasks[t].status != Done && Decide(b, t, actor, r, now).Ok?
    ensures Perform(b, Update(t, actor, r, now)).Ok?
    ensures t in Apply(b, Update(t, actor, r, now)).tasks
    ensures Apply(b, Update(t, actor, r, now)).tasks[t] == Decide(b, t, actor, r, now).value.task
  {
    hide Decide, PlansFollow, Logged;
  }

  /** After any run, a lead who sends a reviewed task back to the inbox hands it to the newest mover who still
      works on the board, or to nobody; an assignee in the same request changes nothing. */
  lemma ReworkGoesBack(b: Board, steps: seq<Step>, t: TaskId, lead: AgentId, r: Request, now: Time)
    requires forall e <- b.log :: e.task in b.tasks
    requires var c := Run(b, steps);
      && t in c.tasks && c.tasks[t].status == Review && r.status == Some(Inbox)
      && FindAgent(c.agents, lead).Some? && FindAgent(c.agents, lead).value.isLead
      && Perform(c, Update(t, Some(lead), r, now)).Ok?
    ensures var c := Run(b, steps);
      var after := Apply(c, Update(t, Some(lead), r, now));
      && t in after.tasks && after.tasks[t].status == Inbox && after.tasks[t].inProgressAt.None?
      && IsNewestPresent(Movers(b, steps, t), c.agents, c.id, after.tasks[t].assignee)
  {
    var c := Run(b, steps);
    var agent := FindAgent(c.agents, lead).value;
    assert Decide(c, t, Some(lead), r, now) == LeadDecision(c, t, agent, r, now);
    assert Decide(c, t, Some(lead), r, now).Ok?;
    hide Decide, Apply, Perform, LeadDecision, LastReviewMover, Movers, IsNewestPresent, LogMovers, FindAgent, Run;
    WrittenAsDecided(c, t, Some(lead), r, now);
    LeadSendsBack(c, t, agent, r, now);
    LogTellsHistory(b, steps, t);
    FoundById(c.agents, lead);
    ScanFindsNewest(c.log, c.agents, c.id, lead, t);
  }

  lemma FoundById(agents: seq<Agent>, id: AgentId)
    requires FindAgent(agents, id).Some?
    ensures FindAgent(agents, id).value.id == id
  {
    hide FindAgent;
  }
}
