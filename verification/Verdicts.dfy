/** What approvals say: the requests that open and resolve them, and their verdicts over whole runs. */
module Verdicts {
  import opened Wrappers
  import opened Tables
  import opened TaskUpdate
  import opened BoardSteps
  import opened UpdateOutcome
  import DoneGate

  // ----- the history, from the requests alone -----

  /** The verdict of the last accepted request that opened or resolved an approval, or the one it began with. */
  ghost function Verdict(b: Board, steps: seq<Step>, a: ApprovalId): Option<ApprovalStatus> {
    if steps == [] then (if a in b.approvals then Some(b.approvals[a].status) else None)
    else
      var front, s := steps[..|steps| - 1], steps[|steps| - 1];
      if (s.Ask? || s.Resolve?) && s.approval == a && Perform(Run(b, front), s).Ok? then Some(s.verdict)
      else Verdict(b, front, a)
  }

  lemma OtherStepsKeepVerdicts(b: Board, s: Step, a: ApprovalId)
    requires a in Apply(b, s).approvals && !((s.Ask? || s.Resolve?) && s.approval == a && Perform(b, s).Ok?)
    ensures a in b.approvals && Apply(b, s).approvals[a].status == b.approvals[a].status
  {
    hide Decide, PlansFollow, Logged, Usable, FindAgent, PlanIndex, FreshIds, BacklogTasks, DependencyCheck,
         NewAssigneeCheck, WithoutLinks, WithoutEvents, Unlinked, BlockedBy, PendingElsewhere, Distinct, TasksOf;
  }

  lemma RequestsSetVerdicts(b: Board, s: Step)
    requires (s.Ask? || s.Resolve?) && Perform(b, s).Ok?
    ensures s.approval in Apply(b, s).approvals && Apply(b, s).approvals[s.approval].status == s.verdict
  {
    hide PendingElsewhere, Distinct, TasksOf;
  }

  /** After any run, an approval's status is its last verdict. */
  lemma {:induction false} StatusIsLastVerdict(b: Board, steps: seq<Step>, a: ApprovalId)
    requires a in Run(b, steps).approvals
    ensures Verdict(b, steps, a) == Some(Run(b, steps).approvals[a].status)
  {
    hide Apply, Perform;
    if steps != [] {
      var front, s := steps[..|steps| - 1], steps[|steps| - 1];
      var c := Run(b, front);
      if (s.Ask? || s.Resolve?) && s.approval == a && Perform(c, s).Ok? {
        RequestsSetVerdicts(c, s);
      } else {
        OtherStepsKeepVerdicts(c, s, a);
        StatusIsLastVerdict(b, front, a);
      }
    }
  }

  /** On a board that asks for approval, a task only becomes done with an approval that names it and whose last verdict
      was to approve. */
  lemma DoneByVerdict(b: Board, steps: seq<Step>, s: Step, t: TaskId)
    requires DoneGate.MarksDone(Run(b, steps), s, t) && Run(b, steps).rules.approvalForDone
    ensures var c := Run(b, steps);
      exists a <- c.approvals.Keys ::
        (c.approvals[a].task == Some(t) || Link(a, t) in c.links) && Verdict(b, steps, a) == Some(Approved)
  {
    hide Run, Apply, Verdict;
    var c := Run(b, steps);
    DoneGate.DoneOnlyThroughGates(c, s, t);
    ApprovedMeans(c, t);
    var a :| a in c.approvals.Keys && c.approvals[a].status == Approved
             && (c.approvals[a].task == Some(t) || Link(a, t) in c.links);
    StatusIsLastVerdict(b, steps, a);
  }

  // ----- opening and resolving -----

  /** Where a value first stands. */
  function FirstAt(ts: seq<TaskId>, t: TaskId): nat {
    if ts == [] || ts[0] == t then 0 else 1 + FirstAt(ts[1..], t)
  }

  lemma {:induction false} FirstInMore(ts: seq<TaskId>, x: TaskId, t: TaskId)
    ensures t in ts ==> FirstAt(ts + [x], t) == FirstAt(ts, t) < |ts|
    ensures t !in ts && t == x ==> FirstAt(ts + [x], t) == |ts|
    decreases |ts|
  {
    if ts == [] {
      assert ts + [x] == [x];
    } else {
      assert (ts + [x])[1..] == ts[1..] + [x];
      FirstInMore(ts[1..], x, t);
    }
  }

  /** Each task once, in the order of first mention. */
  lemma {:induction false} DistinctByFirst(named: seq<TaskId>)
    ensures forall i, j :: 0 <= i < j < |Distinct(named)| ==>
      FirstAt(named, Distinct(named)[i]) < FirstAt(named, Distinct(named)[j])
  {
    if named != [] {
      var front, x := named[..|named| - 1], named[|named| - 1];
      assert front + [x] == named;
      DistinctByFirst(front);
      var r := Distinct(front);
      forall k | 0 <= k < |r| ensures FirstAt(named, r[k]) == FirstAt(front, r[k]) < |front| {
        assert r[k] in front;
        FirstInMore(front, x, r[k]);
      }
      FirstInMore(front, x, x);
    }
  }

  lemma RivalMeans(b: Board, t: TaskId, except: Option<ApprovalId>)
    ensures PendingElsewhere(b, t, except) <==>
      exists a <- b.approvals.Keys :: Some(a) != except && b.approvals[a].status == Pending && IsAbout(b, a, t)
  {
    hide TasksOf;
    forall a | a in b.approvals ensures t in TasksNamed(b.approvals[a], TasksOf(b.links, a)) <==> IsAbout(b, a, t) {
      NoLinks(b.links, a);
    }
  }

  /** Opening an approval: when it is accepted, and what it leaves. */
  lemma OpeningExactly(b: Board, a: ApprovalId, named: seq<TaskId>, status: ApprovalStatus)
    ensures CreateApproval(b, a, named, status).Ok? <==>
      a !in b.approvals && (forall t <- named :: t in b.tasks)
      && (status == Pending ==> forall t <- named :: !AwaitsVerdict(b, t))
    ensures CreateApproval(b, a, named, status).Ok? ==>
      var c := CreateApproval(b, a, named, status).value;
      && c == b.(approvals := c.approvals, links := c.links)
      && c.approvals == b.approvals[a := Approval(if named == [] then None else Some(named[0]), status)]
      && c.links == b.links + LinksTo(a, Distinct(named))
  {
    hide TasksOf, AwaitsVerdict, IsAbout, PendingElsewhere, LinksTo, FirstAt;
    forall t ensures PendingElsewhere(b, t, None) <==> AwaitsVerdict(b, t) { NobodyElse(b, t); }
    FirstNamed(named);
  }

  lemma NobodyElse(b: Board, t: TaskId)
    ensures PendingElsewhere(b, t, None) <==> AwaitsVerdict(b, t)
  {
    hide IsAbout, PendingElsewhere;
    RivalMeans(b, t, None);
  }

  lemma FirstNamed(named: seq<TaskId>)
    ensures named != [] ==> Distinct(named) != [] && Distinct(named)[0] == named[0]
    ensures named == [] ==> Distinct(named) == []
  {
    if named != [] {
      DistinctByFirst(named);
      assert named[0] in Distinct(named) && FirstAt(named, named[0]) == 0;
      var k :| 0 <= k < |Distinct(named)| && Distinct(named)[k] == named[0];
    }
  }

  /** Resolving one: it is refused only where it would be a second pending approval of one of its tasks. */
  lemma ResolvingExactly(b: Board, a: ApprovalId, status: ApprovalStatus)
    ensures UpdateApproval(b, a, status).Ok? <==>
      a in b.approvals && (status == Pending && b.approvals[a].status != Pending ==> !HasRival(b, a))
    ensures UpdateApproval(b, a, status).Ok? ==>
      UpdateApproval(b, a, status).value == b.(approvals := b.approvals[a := b.approvals[a].(status := status)])
  {
    hide TasksOf, IsAbout, PendingElsewhere;
    if a in b.approvals {
      forall t ensures t in TasksNamed(b.approvals[a], TasksOf(b.links, a)) <==> IsAbout(b, a, t) {
        NamedMeans(b, a, t);
      }
      forall t ensures PendingElsewhere(b, t, Some(a)) <==>
        exists c <- b.approvals.Keys :: c != a && b.approvals[c].status == Pending && IsAbout(b, c, t)
      {
        RivalMeans(b, t, Some(a));
      }
    }
  }

  /** Another approval is pending for one of its tasks. */
  ghost predicate HasRival(b: Board, a: ApprovalId)
    requires a in b.approvals
  {
    exists c, t ::
      c in b.approvals && c != a && b.approvals[c].status == Pending && IsAbout(b, c, t) && IsAbout(b, a, t)
  }

  lemma NamedMeans(b: Board, a: ApprovalId, t: TaskId)
    requires a in b.approvals
    ensures t in TasksNamed(b.approvals[a], TasksOf(b.links, a)) <==> IsAbout(b, a, t)
  {
    hide TasksOf;
    NoLinks(b.links, a);
  }
}
