# Mission control, modelled

A Dafny model of the backend's stateful core, with proofs of what it keeps. Each module follows one part of the
program:

| part | modules |
|---|---|
| board workflow: the three update paths of a task, cascade, deletion, approvals, plans, comments | `Tables`, `TaskUpdate`, `BoardSteps`, `StepFrames`, `BoardStore`, `Cycles`, and the theorems in `DependencySafety`, `Acyclicity`, `DoneGate`, `StatusMoves`, `TaskTiming`, `PlanAgreement`, `References`, `Rework`, `UpdateOutcome`, `UpdateAcceptance`, `UpdateRefusals`, `StepOutcome`, `Verdicts` |
| approvals as interleaved transactions | `ApprovalRaces` |
| incremental JSON reader of the skill index | `Json`, `JsonPrefix`, `StreamingReader`, `ReaderSoundness`, `ReaderCourse`, `ReaderCounting`, `ReaderCutting`, `ReaderChunkSize`, `JsonText`, `JsonRoundTrip`, `PrintedFiles`, `LooseFiles`, `JsonFiles` |
| skill catalogue: tree URLs, pack sync | `TreeUrl`, `PackSync` |
| resumable event stream | `EventStream` |
| dashboard buckets | `Calendar`, `Buckets` |
| sprint membership | `Sprints`, `SprintStore` |
| budgets, rate limit, previews | `Spend`, `RateLimit`, `Preview` |
| shared shapes | `Wrappers`, `PythonText`, `Sets`, `Sums` |

Code that changes rows, buffers or buckets step by step is a class with the same fields and loops
(`BoardStore.BoardStore`, `StreamingReader.StreamingJsonReader`, `SprintStore.SprintStore`, `EventStream.Generator`,
`Cycles.Search`, `PackSync.Catalogue`, `RateLimit.Limiter`). Every method is proved equal to a function on values, and
the theorems are about those functions, over every request and every run of requests. A refused request (an
`HTTPException` before commit) leaves the old rows.

## Properties that hold only on a condition, and the condition

- Reading a skill index does not depend on how the file is cut into chunks. `_skip_whitespace` returns right after a fill
  (backend/app/api/skills_marketplace.py:472-484), so it gets past one chunk boundary a call, and a run of white space
  that holds more boundaries hides a comma, colon, brace or bracket behind it; and a bare number that is a member of the
  top-level object can be cut between its digits. Neither ever yields wrong entries: the reader fails instead
  (`ReaderSoundness.CutsOnlyLose`). When it fails is settled by counting boundaries, for every text and every cutting
  (`ReaderCutting.IndependentExactlyWhenCounted`), and so is which texts no cutting harms
  (`ReaderCutting.IndependentOfEveryCutting`). It happens at every chunk size (`ReaderChunkSize.BlankChunksLose`,
  `ReaderChunkSize.CutNumberLoses`), but never to printed lists (`PrintedFiles.PrintedListReads`).
- A JSON object whose `skills` values are lists of objects or no lists is read, unless one that is no list is not the
  last member: behind it the reader does not look for a comma (`JsonFiles.JsonFileRead`, both ways over all JSON
  files; `LooseFiles.CommaBehindOddSkills`). Beyond JSON it takes commas that are missing or too many, and ignores what
  stands behind the last bracket (`LooseFiles.LooseListReads`, `LooseFiles.LooseObjectReads`).
- A started task's dependencies are done, unless a lead gives it unfinished ones in a request for neither a status nor an
  assignee (`DependencySafety.SafeExactlyUnless`, `DependencySafety.BareEditHappens`).
- A done task has a completion instant, unless it was created done (`TaskTiming.TimelyExactlyUnless`,
  `TaskTiming.CreationAsDoneHappens`).
- A completed plan's task is done, unless it is reopened with planning switched off
  (`PlanAgreement.AgreementExactlyUnless`, `PlanAgreement.ReopeningHappens`).
- A task has at most one pending approval on each board, and at most one at all unless a write is committed while another
  board's approval is pending for one of its tasks: conflicts are looked for on the request's own board, and a request
  may name any task (`ApprovalRaces.OneAnywhereExactlyUnless`, `ApprovalRaces.CollisionHappens`).
- A tree URL is read back as its repository, unless the repository has a query, a `tree` segment, no path or a scheme
  with capitals (`TreeUrl.ReadBackExactlyWhen`).
- A pack sync can be committed, unless its discovery names a new URL twice (`PackSync.FailsExactlyOnRepeatedNew`); its
  callers build the discovery from a dictionary.

## Model

| member | source | states |
|---|---|---|
| DependencySafety.SafeExactlyUnless | backend/app/api/tasks.py:2560-2610 | On a board where every task that is neither in the inbox nor done has only done dependencies, any request of any kind keeps that if and only if it is not an accepted bare dependency edit by a lead that gives a started task an unfinished dependency |
| DependencySafety.RunsAreSafe | backend/app/api/tasks.py:572-650 | Dependency safety holds in every state of every run without such an edit |
| DependencySafety.CascadeRestores | backend/app/api/tasks.py:597-633 | Writing any decision whose own row is careful and resetting only the direct dependents that are not done makes the whole dependency graph safe again; no acyclicity is needed |
| DependencySafety.DecisionIsCareful | backend/app/api/tasks.py:2723-2904 | Every accepted decision on all three paths changes only the task's own dependency rows and leaves it waiting, or with done dependencies, or with status and dependencies unchanged, except the lead's bare edit |
| DependencySafety.BreakingStep | backend/app/api/tasks.py:2577-2585 | The lead's bare edit is accepted and leaves an unsafe board |
| DependencySafety.BareEdit | backend/app/api/tasks.py:2306-2370 | Exactly which of a lead's requests without status or assignee are accepted, and that they only replace dependencies |
| DependencySafety.BareEditHappens | backend/app/api/tasks.py:2577-2585 | A lead making a task in progress wait for one in the inbox is such an edit |
| DependencySafety.NewTaskIsSafe | backend/app/api/tasks.py:1718-1731 | Creating a task keeps dependency safety: a blocked task starts unassigned in the inbox |
| DependencySafety.DeletionIsSafe | backend/app/api/tasks.py:1888-1896 | Deleting a task keeps dependency safety |
| Acyclicity.RunsAreAcyclic | backend/app/services/task_dependencies.py:132-193 | No run of any requests ever closes a dependency cycle |
| Acyclicity.RefusedExactlyWhenCyclic | backend/app/services/task_dependencies.py:165-191 | On an acyclic board, a dependency edit is refused as cyclic exactly when the new rows would contain a cycle |
| Cycles.FindsCycle | backend/app/services/task_dependencies.py:111-129 | The depth-first search answers yes exactly when a path from one of the given nodes comes back to one of its own nodes |
| Cycles.Search.Dfs | backend/app/services/task_dependencies.py:116-127 | One search: a positive answer exhibits a reachable cycle, a negative one settles the node in an order in which every edge leads backwards |
| Cycles.CyclesAreReached | backend/app/services/task_dependencies.py:172-191 | When every row's task is searched, a cycle anywhere is a cycle found |
| DoneGate.DoneOnlyThroughGates | backend/app/api/tasks.py:293-374 | In any step of any kind, an existing task becomes done only by an accepted request on it with all dependencies done, and review, approval and no pending approval where the board asks for them; an agent needs evidence and the task in review, and is a lead or a merger |
| DoneGate.LeadGate | backend/app/api/tasks.py:2598-2624 | The same for the lead's path alone: the task was in review and every gate was open |
| DoneGate.WorkerGate | backend/app/api/tasks.py:2788-2826 | The same for other agents: only a merger, only from review |
| DoneGate.AdminGate | backend/app/api/tasks.py:3071-3093 | The same for administrators: every board rule that is on held |
| DoneGate.LeadFinishesExactlyWhen | backend/app/api/tasks.py:2463-2486 | A lead's bare request for done is accepted exactly when the task is in review, every gate is open and there is evidence |
| DoneGate.MergerFinishesExactlyWhen | backend/app/api/tasks.py:2736-2829 | Another agent's is accepted exactly when it is a merger of this board or of none, moves are not reserved to leads, the task is in review, every gate is open and there is evidence; the assignee does not matter |
| DoneGate.NewestIsSolid | backend/app/api/tasks.py:407-428 | The evidence query succeeds exactly when the last agent's comment since the task was last started is not blank |
| DoneGate.OrdinaryAgentsFinishNothing | backend/app/api/tasks.py:2818-2826 | Over runs of any requests whose updates are all by agents who are neither leads nor mergers, what is done at the end was done at the start or was created as done |
| StatusMoves.EveryMoveIsAllowed | backend/app/schemas/tasks.py:23-31 | In any step, an existing task keeps its status, moves along the transition table by a request on itself, or is sent to the inbox because a task it depends on was reopened |
| StatusMoves.OthersOnlyReset | backend/app/api/tasks.py:597-633 | A request leaves every other task as it was, except that a dependent that is not done of a task just reopened is reset; done dependents stay done |
| StatusMoves.WorkerTakesOrReleases | backend/app/api/tasks.py:2800-2831 | After an agent's accepted move the task is in the status asked for: nobody's in the inbox, the lead's in review, otherwise the agent's, with the start kept or stamped |
| StatusMoves.AdminParksBlocked | backend/app/api/tasks.py:2872-2881 | An administrator's accepted request on a blocked task parks it in the inbox, unassigned and stopped, whatever was asked, unless it is done and stays done |
| StatusMoves.BlockedDoneStaysDone | backend/app/api/tasks.py:3094-3106 | An administrator cannot reopen a done task with an unfinished dependency: the forced move to the inbox is not in the transition table |
| UpdateAcceptance.AcceptedExactly | backend/app/api/tasks.py:1789-1850 | An update is accepted if and only if the task exists, the actor is known, and the request meets the rules of the path it takes, each spelled out over the request and the old rows |
| UpdateAcceptance.LeadAcceptsExactly | backend/app/api/tasks.py:2306-2633 | A lead's: no other fields, well formed, allowed dependencies, nothing that moves a blocked task, an assignee who works here and leads nowhere, one of the three moves a lead may make, and the gates |
| UpdateAcceptance.WorkerAcceptsExactly | backend/app/api/tasks.py:2723-2831 | Another agent's: of this board or of none, its own or nobody's task unless it merges, only a status and a comment unless it estimates, and then the gates, the transition table and a comment for review |
| UpdateAcceptance.AdminAcceptsExactly | backend/app/api/tasks.py:2834-2904 | An administrator's: allowed dependencies and the common end, which on a task it parks is asked for the inbox whatever the request names |
| UpdateRefusals.RefusalsAreDeserved | backend/app/api/tasks.py:2306-2904 | A refused update answers a fault of its kind: 404 for a task or agent that is not there, 401 for an unknown actor, 403 for an agent that oversteps, 409 for a board that stands against the request, 422 for a malformed one or a missing comment |
| UpdateOutcome.AdminLeaves | backend/app/api/tasks.py:2834-2904 | The row an administrator's request leaves: the status asked for or the old one; the reviewing lead, else the assignee asked for, else nobody in the inbox and in review, else the old one; the start stamped for progress, cleared for the inbox and review, else kept; the completion instant and minutes. A blocked task is parked whatever was asked |
| UpdateOutcome.WorkerLeaves | backend/app/api/tasks.py:2800-2831 | The row another agent's request leaves, field by field: nothing without a status, otherwise taken or released |
| UpdateOutcome.LeadLeaves | backend/app/api/tasks.py:2391-2486 | The row a lead's request leaves, field by field; the start is not stamped by the shortcut to progress |
| UpdateOutcome.DependenciesLeft | backend/app/api/tasks.py:2306-2370 | The dependencies left are the named ones for the task, when the request may name them, and the old ones for every other task |
| UpdateOutcome.UpdateLeaves | backend/app/api/tasks.py:3065-3150 | An accepted update writes that row and those dependencies, logs the comment and the move, and leaves every other table but the plans |
| TaskTiming.TimelyExactlyUnless | backend/app/api/tasks.py:2500-2513 | Any step keeps `done_at` set exactly on done tasks and no `in_progress_at` on tasks in the inbox or in review, if and only if it does not create a task already done, with the guards of creation spelled out |
| TaskTiming.CreationAsDoneHappens | backend/app/api/tasks.py:1718-1741 | On an empty board a task created as done is accepted and has no completion instant |
| TaskTiming.RunsAreTimely | backend/app/api/tasks.py:2478-2486 | The same over every run that creates no done task |
| TaskTiming.MinutesRoundUp | backend/app/api/tasks.py:2495-2497 | The minutes are at least one, cover the elapsed whole seconds, and are the least such number |
| TaskTiming.MinutesOnCompletion | backend/app/api/tasks.py:2503-2509 | On every path a task that becomes done is stamped now, with the minutes since its last start unless the request sets them or it was never started |
| PlanAgreement.AgreementExactlyUnless | backend/app/api/tasks.py:2668-2714 | A step keeps every completed plan unlinked or linked to a done task, and every task linked from at most one plan, if and only if it is not, with planning off, a request that takes the done task of a completed plan to progress or the archive and passes the guards of its path |
| PlanAgreement.ReopensExactly | backend/app/api/tasks.py:2723-2904 | Which requests reopen a done task: exactly those for progress or the archive, on an unblocked task without a pending approval the board minds, that leave dependencies alone, by an administrator or by a worker of the board on its own or nobody's task when moves are not reserved to leads; never a lead's |
| PlanAgreement.ReopeningHappens | backend/app/api/tasks.py:2668-2714 | With planning off, an administrator's plain request on the task of a completed plan is such a request |
| PlanAgreement.RunsAgree | backend/app/api/plans.py:643-686 | With planning on, plans and tasks agree in every state of every run of task and plan requests |
| PlanAgreement.CommitAgrees | backend/app/api/tasks.py:3182-3228 | The hooks on the first linked plan suffice, because no second plan is linked |
| PlanAgreement.DeletionAgrees | backend/app/api/tasks.py:1910-1925 | Unlinking the plans of a deleted task keeps agreement |
| PlanAgreement.RewriteAgrees | backend/app/api/plans.py:349-367 | Editing, promoting, decomposing, committing tickets, agent replies and archiving keep agreement |
| PlanAgreement.PlanFollowsTask | backend/app/api/tasks.py:2668-2714 | With planning on, a request that makes a task done completes the plan linked to it, one that takes a done task elsewhere makes its completed plan active again, and every other plan stays as it was |
| PlanAgreement.UnwatchedPlansStay | backend/app/api/tasks.py:2668-2714 | With planning off no update of a task touches a plan |
| StepOutcome.CreationExactly | backend/app/api/tasks.py:1693-1753 | When a creation is accepted, and the row and dependencies it writes and nothing else |
| StepOutcome.CommentExactly | backend/app/api/tasks.py:2012-2040 | When a comment is accepted, and that it is logged and nothing else changes |
| StepOutcome.NoPlanNothing | backend/app/api/plans.py:64-77 | With planning off, or without such a plan, every endpoint of a plan answers 404 |
| StepOutcome.CreationRefusedAs | backend/app/api/tasks.py:1693-1753 | A refused creation answers 404 only for an unknown dependency or assignee, 403 only for an agent assigning a lead, 422 only for a self-dependency or a malformed part |
| StepOutcome.RefusedAs | backend/app/api/plans.py:64-829 | What every other refused request of a board answers |
| StepOutcome.StartingExactly | backend/app/api/plans.py:238-315 | A new plan is an unlinked draft without tickets |
| StepOutcome.EditingExactly | backend/app/api/plans.py:338-372 | An edit writes the content and status it gives and nothing else, unless the plan is completed or the edit would complete it |
| StepOutcome.DroppingExactly | backend/app/api/plans.py:409-439 | The first deletion archives, the second drops the row unless a task was made from its tickets |
| StepOutcome.PromotionExactly | backend/app/api/plans.py:632-700 | A draft or active plan without a task gets one new task, in the backlog or the inbox as asked, and is active |
| StepOutcome.DecompositionExactly | backend/app/api/plans.py:707-733 | A plan with content becomes active if it is a draft, and nothing else changes |
| StepOutcome.CommittingExactly | backend/app/api/plans.py:769-829 | A plan no task was made from, with usable tickets, gets one backlog task for each of them and is active |
| StepOutcome.ReplyExactly | backend/app/api/plans.py:533-618 | A reply's content is kept; its tickets are stored, and made into tasks unless that was done before |
| References.DeletionForgets | backend/app/api/tasks.py:1853-1929 | After a deletion no task, dependency, link, approval, plan or event names the task, every other row is as it was, and each approval is kept, re-pointed to its first remaining task or deleted, exactly as its links say |
| References.LinksKeepTheirOrder | backend/app/services/approval_task_links.py:85-106 | The tasks remaining for an approval are its tasks in their old order without the deleted one |
| References.DeletionKeepsApprovals | backend/app/api/tasks.py:1872-1887 | Deletion keeps "the primary task is one of the links, or there is neither" |
| References.CreationOfApproval | backend/app/api/approvals.py:400-427 | Creating an approval links it to the distinct named tasks in order and makes the first the primary one |
| Verdicts.StatusIsLastVerdict | backend/app/api/approvals.py:439-470 | After any run, the status of an approval is the verdict of the last accepted request on it, computed from the steps, or the one it started with |
| Verdicts.DoneByVerdict | backend/app/api/tasks.py:293-334 | On a board that asks for approval, a task only becomes done with an approval naming it whose last verdict was to approve |
| Verdicts.OpeningExactly | backend/app/api/approvals.py:392-428 | When a new approval is accepted, and the row and links it leaves |
| Verdicts.ResolvingExactly | backend/app/api/approvals.py:439-470 | A status is written as given unless it would make a second pending approval of one of its tasks |
| Verdicts.DistinctByFirst | backend/app/services/approval_task_links.py:62-82 | Named tasks are linked once each, in the order of first mention |
| References.StepKeepsWhole | backend/app/api/tasks.py:1853-1929 | Every step keeps all references between tasks, dependencies, approvals, links, plans and log whole |
| References.RunsStayWhole | backend/app/api/approvals.py:399-470 | References are whole in every state of every run |
| Rework.ReworkGoesBack | backend/app/api/tasks.py:2478-2486 | After any run, a lead who returns a reviewed task to the inbox hands it to the most recent agent who took it to review and still works on the board, or to nobody, whatever assignee the request names |
| Rework.LogTellsHistory | backend/app/api/tasks.py:2489-2492 | What the log says about moves to review is the history computed from the states of the run: no mover missing, invented or out of order |
| Rework.ScanFindsNewest | backend/app/api/tasks.py:2415-2440 | The scan of the log finds the newest mover who is present, of the board and no lead, and nobody only if there is none |
| BoardStore.BoardStore.PatchTask | backend/app/api/tasks.py:1789-1850 | The endpoint as a sequence of in-place edits ends in exactly the specified rows, or refuses with the specified error and the old rows |
| BoardStore.BoardStore.DecideUpdate | backend/app/api/tasks.py:1838-1850 | The choice of path and its guards, in the code's order, give the specified decision |
| BoardStore.BoardStore.ValidateDependencyUpdate | backend/app/services/task_dependencies.py:132-193 | Self-dependency, missing tasks and cycles are refused in that order |
| BoardStore.BoardStore.ApplyLeadUpdate | backend/app/api/tasks.py:2560-2633 | The lead's path edits the row and stages dependencies as specified |
| BoardStore.BoardStore.LeadApplyAssignment | backend/app/api/tasks.py:2391-2412 | Assignment by a lead: unknown agents, leads and agents of other boards are refused |
| BoardStore.BoardStore.LeadApplyStatus | backend/app/api/tasks.py:2443-2486 | Status changes by a lead, the inbox shortcut included, with its unset start |
| BoardStore.BoardStore.LastWorkerWhoMovedTaskToReview | backend/app/api/tasks.py:2415-2440 | The loop over the log from its newest event returns the specified worker |
| BoardStore.BoardStore.ApplyNonLeadRules | backend/app/api/tasks.py:2723-2831 | The path of other agents, estimators included, edits the row as specified |
| BoardStore.BoardStore.ApplyAdminRules | backend/app/api/tasks.py:2834-2904 | The administrator's path: a blocked task is forced to the inbox unless done and staying done, in the code's order of assignments |
| BoardStore.BoardStore.FinishUpdate | backend/app/api/tasks.py:3065-3150 | The common end: pending assignments, gates, transition table, timing, review comment, reviewer |
| BoardStore.BoardStore.AssignReviewTaskToLead | backend/app/api/tasks.py:2958-2972 | A task entering review goes to the board's first lead, if any |
| BoardStore.TaskUpdateInput.ApplyTimingFields | backend/app/api/tasks.py:2500-2513 | The timing fields after a change of status, in place |
| BoardStore.BoardStore.ReconcileDependents | backend/app/api/tasks.py:572-650 | The loop over direct dependents leaves the specified rows: done ones stay done, the others are reset when the task is reopened |
| BoardStore.BoardStore.FollowWithPlan | backend/app/api/tasks.py:2668-2714 | The two plan hooks write the first linked plan as specified |
| BoardStore.BoardStore.DeleteTaskAndRelatedRecords | backend/app/api/tasks.py:1853-1929 | Deletion in place leaves the specified tables |
| BoardStore.BoardStore.RemoveFromApprovals | backend/app/api/tasks.py:1869-1887 | The loop over primary approvals re-points or deletes each |
| BoardStore.BoardStore.AddTask | backend/app/api/tasks.py:1693-1753 | Creation by a user or by an agent writes the row and its dependencies, or refuses |
| BoardStore.BoardStore.OpenApproval | backend/app/api/approvals.py:392-428 | Creating an approval writes its row and links, or refuses on a pending rival or a missing task |
| BoardStore.BoardStore.SetApproval | backend/app/api/approvals.py:439-470 | A status change is written; reopening is refused while another approval is pending for one of its tasks |
| BoardStore.BoardStore.RecordComment | backend/app/api/tasks.py:2012-2040 | A comment is logged; a lead is refused outside review unless mentioned or the task's creator |
| BoardStore.BoardStore.EditPlan | backend/app/api/plans.py:338-372 | Completed plans cannot be edited, and no edit completes one |
| BoardStore.BoardStore.DropPlan | backend/app/api/plans.py:409-439 | The first deletion archives, the second removes the row unless a task still names it |
| BoardStore.BoardStore.RequestDecomposition | backend/app/api/plans.py:707-733 | A plan without content is refused, a draft becomes active |
| BoardStore.BoardStore.ReceiveReply | backend/app/api/plans.py:533-618 | Tickets of a reply are stored, and committed only if no task of the plan exists |
| BoardStore.BoardStore.CreatePlanBacklogTasks | backend/app/api/plans.py:140-176 | The loop over tickets creates one backlog task for each usable ticket and skips the others |
| BoardStore.BoardStore.CommitPlanTickets | backend/app/api/plans.py:769-829 | Committing tickets creates the specified tasks once and activates the plan |
| BoardStore.BoardStore.PromoteToTask | backend/app/api/plans.py:632-700 | Promotion links one new task and activates the plan, for unlinked draft or active plans only |
| ApprovalRaces.AtMostOnePending | backend/app/api/approvals.py:169-190 | In every interleaving of concurrent creations, status changes, failures and task deletions, each task has at most one pending approval on each board |
| ApprovalRaces.EveryInterleavingKeeps | backend/app/services/approval_task_links.py:125-141 | The invariant behind it: lock ownership, no rival for a transaction about to write, and rows whose names a transaction guards |
| ApprovalRaces.WriteIsExclusive | backend/app/services/approval_task_links.py:125-141 | Two transactions about to write never guard the same existing task |
| ApprovalRaces.SomeoneMoves | backend/app/services/approval_task_links.py:131-141 | Locking the named tasks `FOR UPDATE` in ascending order cannot deadlock: while a transaction is unfinished, some unfinished one does not wait for such a lock |
| ApprovalRaces.RemoveShrinks | backend/app/api/tasks.py:1869-1887 | Deleting a task never adds a task to what an approval is about |
| ApprovalRaces.AloneItGoesThrough | backend/app/api/approvals.py:392-428 | A request without rivals on its board, left alone, is committed |
| ApprovalRaces.ReadsExactly | backend/app/api/approvals.py:439-466 | What a transaction reads, and which tasks it locks: those it would make an approval pending for |
| ApprovalRaces.ChecksExactly | backend/app/api/approvals.py:169-190 | With its locks held, it goes on unless another approval of its board is pending for one of those tasks |
| ApprovalRaces.CommittedAsAsked | backend/app/api/approvals.py:400-470 | A committed creation stores the approval as asked with its first task and its links; a committed change leaves the status asked for, unless that is what it had read, and then writes nothing |
| ApprovalRaces.RemovesExactly | backend/app/api/tasks.py:1869-1887 | A deleted task is taken from what every approval is about, and the approval goes when nothing is left |
| ApprovalRaces.TwoBoardsCollide | backend/app/services/approval_task_links.py:157-168 | Two boards can each get a pending approval of one task |
| ApprovalRaces.StepKeepsAnywhere | backend/app/services/approval_task_links.py:144-196 | From any reachable state in which each task has at most one pending approval of whatever board, a step keeps that if and only if it is not the commit of a write that makes an approval pending for a task for which another board's approval is pending |
| ApprovalRaces.OneAnywhereExactlyUnless | backend/app/api/approvals.py:169-190 | Each task has at most one pending approval at all in every state of an interleaving if and only if it has at the start and no such commit happens |
| ApprovalRaces.CollisionHappens | backend/app/services/approval_task_links.py:157-168 | Two boards' requests for the one task of an otherwise empty database collide |
| ApprovalRaces.AtMostOnePendingAnywhere | backend/app/api/approvals.py:392-428 | In particular, when approvals and requests are about their own board's tasks, no interleaving collides |
| ReaderSoundness.CutsOnlyLose | backend/app/api/skills_marketplace.py:446-606 | For every text and every way of cutting it, the chunked read fails or yields exactly the entries of the whole text |
| ReaderCourse.RunsExactlyWhenFits | backend/app/api/skills_marketplace.py:446-606 | What is looked for in a text that reads in one piece (the characters, the values, the white space before each) depends on the text alone, and the chunked read succeeds if and only if the reader, filling once for each skip that runs out of its buffer, gets to each of them |
| ReaderCutting.IndependentExactlyWhenFits | backend/app/api/skills_marketplace.py:446-606 | For every text and every way of cutting it, the answer is that of one chunk if and only if the text is refused anyway or its course fits the chunks |
| ReaderCounting.FitsExactlyWhenCounted | backend/app/api/skills_marketplace.py:472-501 | Replaying the reader's fills comes to the same as counting the boundaries in the white space before each token: fewer than it skips times for a single character, and for a value the count and its parity say how far the buffer then reaches |
| ReaderCutting.IndependentExactlyWhenCounted | backend/app/api/skills_marketplace.py:446-606 | For every text and every way of cutting it, the answer is that of one chunk if and only if the text is refused anyway or those counts come out right along its course |
| ReaderCutting.ReachedBySkipping | backend/app/api/skills_marketplace.py:472-484 | From the end of a token, with nothing in the buffer beyond the first boundary, skipping n times reaches the next token if and only if fewer than n boundaries lie in the white space between |
| ReaderCutting.HarmlessCuts | backend/app/api/skills_marketplace.py:472-501 | When that is so of every single-character token and no boundary lies in a number behind its first digit, the chunked read answers as the whole text does, failure included, whatever the white space before values |
| ReaderCutting.IndependentOfCuts | backend/app/api/skills_marketplace.py:446-606 | Every cutting leaves the answer alone when the white space before single-character tokens is shorter than what the reader skips and every number ends at its first digit |
| ReaderCutting.IndependentOfEveryCutting | backend/app/api/skills_marketplace.py:446-606 | For every text, all cuttings leave the answer alone if and only if the text is refused anyway or that is so, with the bracket of a `skills` array behind wider white space both seen and missed |
| ReaderChunkSize.LongChunksFit | backend/app/api/skills_marketplace.py:456-464 | With chunks no shorter than any run of white space before a single-character token, cut numbers are all that can go wrong |
| ReaderChunkSize.FixedChunksHarmless | backend/app/api/skills_marketplace.py:456-464 | Read n characters at a time, n being 16384 in the code, a text without longer runs of white space and without a multiple of n inside a number reads as in one piece |
| ReaderChunkSize.BlankChunksLose | backend/app/api/skills_marketplace.py:472-484 | At every chunk size n, the empty array with 2n blanks between its brackets is read in one piece and refused in chunks |
| ReaderChunkSize.CutNumberLoses | backend/app/api/skills_marketplace.py:486-501 | At every chunk size n, some object whose only member is the number 12 is read in one piece and refused in chunks |
| JsonRoundTrip.PrintedParses | backend/app/api/skills_marketplace.py:486-501 | Every well-formed value, printed and, if it is a number, followed by no digit, is decoded back to itself and to its end |
| PrintedFiles.PrintedListReads | backend/app/api/skills_marketplace.py:531-551 | A printed list of objects is read back in full, for every way of cutting it |
| PrintedFiles.PrintedObjectReads | backend/app/api/skills_marketplace.py:553-606 | A printed object whose `skills` member is a list of objects gives back exactly that list from one piece, and for every way of cutting it if and only if none of its members is a number that goes on behind its first digit |
| PrintedFiles.PrintedSkillsRead | backend/app/api/skills_marketplace.py:553-606 | The text `{"skills": `, a printed list of objects and `}` is read back as exactly that list, for every way of cutting it |
| PrintedFiles.NoSkillsNoEntries | backend/app/api/skills_marketplace.py:553-606 | A printed object without a member named `skills` yields nothing |
| JsonPrefix.ValuePrefix | backend/app/api/skills_marketplace.py:489-499 | Decoding a beginning of the text either fails or agrees with decoding the text, except within a number at the cut |
| JsonText.TextParses | backend/app/api/skills_marketplace.py:486-501 | Every text of sections 2 to 8 of RFC 8259, with any white space between its tokens, any spelling of its characters and any numerals, decodes to the value it denotes, a repeated key keeping its place and taking the last value; NaN and the infinities are taken too |
| JsonText.NumeralExactly | backend/app/api/skills_marketplace.py:486-501 | The scanner takes a whole text for a number exactly when it is one by the grammar |
| JsonText.StringsAreStrict | backend/app/api/skills_marketplace.py:486-501 | Control characters, unknown escapes, fewer than four hexadecimal digits and a missing quote are refused |
| JsonText.LoneSurrogateIsKept | backend/app/api/skills_marketplace.py:486-501 | A surrogate escape that is not one of a pair is kept as it is |
| JsonFiles.JsonFileRead | backend/app/api/skills_marketplace.py:516-606 | A file that holds any JSON text, however laid out and spelled, with anything behind it, is read from one piece if and only if it is a list of objects, or an object whose `skills` values are each a list of objects, or no list and the last member; the entries are then the elements of those lists in order |
| LooseFiles.LooseListReads | backend/app/api/skills_marketplace.py:531-551 | A list of objects is read in full whatever white space and however many commas stand around them, and whatever stands behind its bracket |
| LooseFiles.ListEnds | backend/app/api/skills_marketplace.py:531-551 | Where the next token is no bracket, comma or object, the list is refused |
| LooseFiles.LooseObjectReads | backend/app/api/skills_marketplace.py:553-606 | The `skills` lists of an object are read in full and in order, with or without commas between the members, and other members are passed over |
| LooseFiles.ObjectEnds | backend/app/api/skills_marketplace.py:553-606 | Where the next token is no brace or quote, the object is refused |
| LooseFiles.CommaBehindOddSkills | backend/app/api/skills_marketplace.py:581-593 | A comma behind a `skills` value that is no list makes the file refused, whatever follows |
| StreamingReader.StreamingJsonReader.FillBuffer | backend/app/api/skills_marketplace.py:456-464 | Filling appends the next chunk, or sets the end flag |
| StreamingReader.StreamingJsonReader.SkipWhitespace | backend/app/api/skills_marketplace.py:472-484 | Where the position stands after skipping, and that it stops after one fill |
| StreamingReader.StreamingJsonReader.DecodeValue | backend/app/api/skills_marketplace.py:486-501 | The loop that fills until a value decodes ends, with the specified value and position |
| StreamingReader.StreamingJsonReader.ConsumeChar | backend/app/api/skills_marketplace.py:503-514 | The expected character is consumed, or the read fails |
| StreamingReader.StreamingJsonReader.ReadArrayValues | backend/app/api/skills_marketplace.py:531-551 | The array loop ends with the specified objects |
| StreamingReader.StreamingJsonReader.ReadSkillsFromObject | backend/app/api/skills_marketplace.py:553-606 | The member loop ends with the specified objects |
| StreamingReader.StreamingJsonReader.ReadTopLevelEntries | backend/app/api/skills_marketplace.py:516-529 | The whole read, over the file's chunks, is the specified run over the file's text and cuts |
| TreeUrl.ReadBackExactlyWhen | backend/app/api/skills_marketplace.py:387-407 | For any repository URL with a scheme and an ASCII host, any branch and any path, parsing the printed tree URL gives back the repository if and only if it has a path and neither query nor fragment, no path segment is `tree`, the scheme is in lower case and nothing is left to normalize |
| TreeUrl.MarkerFirst | backend/app/api/skills_marketplace.py:399-403 | The marker is found right after the repository's path exactly when no segment of it is `tree`, and never later |
| TreeUrl.SplitPrinted | backend/app/api/skills_marketplace.py:398-407 | Splitting a printed tree URL gives back the scheme and the host, and a path that begins with the repository's and the marker |
| TreeUrl.NormalizeForgets | backend/app/api/skills_marketplace.py:332-336 | Normalizing takes off white space around a URL, final slashes and a `.git` before them, and nothing else |
| TreeUrl.SplitForgets | backend/app/api/skills_marketplace.py:397-407 | Control characters and blanks before a URL, and tabs and line breaks in it, make no difference to how it is split |
| TreeUrl.TreeUrlTells | backend/app/api/skills_marketplace.py:387-394 | Tree URLs of one repository are equal only for the same branch and the same path in it |
| TreeUrl.SkillCountIsExact | backend/app/api/skills_marketplace.py:410-416 | A pack's count is the number of catalogue entries built for its repository, when every entry was built for a repository that is read back |
| TreeUrl.BuildSkillCountByRepo | backend/app/api/skills_marketplace.py:409-416 | The counting loop counts, for every repository, the URLs read as its own |
| TreeUrl.PackSkillCount | backend/app/api/skills_marketplace.py:894-896 | With the counts built from the catalogue, a pack's count is the number of entries whose URL is read as the pack's repository, and the number of entries built for it when all of them were built for repositories that are read back |
| PackSync.SyncIsUpsert | backend/app/api/skills_marketplace.py:1456-1485 | After syncing a discovery without repeated URLs each discovered URL occurs exactly once with its candidate's fields, and rows with other URLs are untouched and in place |
| PackSync.LastCandidateWins | backend/app/api/skills_marketplace.py:1461-1484 | Of candidates that repeat a URL of the catalogue the last one's fields stay in its row |
| PackSync.SyncIsIdempotent | backend/app/api/skills_marketplace.py:1461-1493 | Syncing the same discovery again changes nothing and reports zero created and zero updated |
| PackSync.CountsAreExact | backend/app/api/skills_marketplace.py:1461-1484 | The reported counts are the new URLs and the rows that differed |
| PackSync.FailsExactlyOnRepeatedNew | backend/app/models/skills.py:22-28 | A sync cannot be committed if and only if the discovery names a new URL twice |
| PackSync.Catalogue.SyncPack | backend/app/api/skills_marketplace.py:1456-1493 | The upsert loop leaves the specified rows and counts, or the old rows |
| PackSync.Catalogue.ApplyCandidateUpdates | backend/app/api/skills_marketplace.py:1067-1091 | The row gets the candidate's fields, and the answer says whether any differed |
| EventStream.DeliversOnceInOrder | backend/app/api/tasks.py:1600-1640 | If no timestamp is shared by more events than the memory holds, then over any number of polls nothing is delivered twice, times never go back, every fetched event has been delivered by the end of its poll, and the memory is the tail of what was delivered |
| EventStream.RepeatsExactlyWhenFull | backend/app/api/tasks.py:1621-1630 | Polling an unchanged store again repeats something if and only if its newest timestamp is shared by more events than the memory holds |
| EventStream.StillRemembered | backend/app/api/tasks.py:1621-1630 | A delivered event not older than the cursor is still remembered |
| EventStream.PollDelivers | backend/app/api/activity.py:372-392 | By the end of a poll each of its rows has been delivered |
| EventStream.CursorIsLatest | backend/app/api/activity.py:372-392 | Whatever a poll fetched, its cursor ends at the latest instant of its own and of the delivered events |
| EventStream.Generator.Deliver | backend/app/api/activity.py:353-392 | The loop yields the specified events, and the set holds exactly the queue's ids, no more than the limit |
| Calendar.OneLine | backend/app/api/metrics.py:119-125 | Comparing datetimes field by field is comparing instants on the Gregorian calendar, and equal instants have equal fields |
| Calendar.NextDayIsNext | backend/app/api/metrics.py:108-112 | The next day, over month and year ends and leap years, is one day later |
| Calendar.PlusDays | backend/app/api/metrics.py:108-112 | Moving by days moves the instant by as many days and keeps the time of day |
| Calendar.DayOne | backend/app/api/metrics.py:94-105 | The count of days begins with the first of January of year 1 |
| Calendar.MonthLengths | backend/app/api/metrics.py:108-112 | The lengths of the months, by their alternation |
| Buckets.BucketsTileTheRange | backend/app/api/metrics.py:119-125 | For hours, days, weeks and months, the buckets of a range are exactly the bucket starts of its moments |
| Buckets.StartsTile | backend/app/api/metrics.py:119-125 | From any bucket start the list is strictly increasing and holds exactly the starts up to the end, whatever the end |
| Buckets.WholeBucket | backend/app/api/metrics.py:94-116 | Every moment from a start up to the next one has that start |
| Buckets.StartIsLast | backend/app/api/metrics.py:94-105 | The start of a moment's bucket is the last full hour, midnight, midnight a whole number of weeks from Monday the 5th of January 1970, or first of a month, that is not after it |
| Buckets.BuildBuckets | backend/app/api/metrics.py:119-125 | The loop ends with that list |
| Buckets.SeriesConserves | backend/app/api/metrics.py:128-141 | A series over a range keeps the total of every mapping keyed by starts of its moments |
| Sprints.RunsKeepAgreement | backend/app/api/sprints.py:671-698 | In every state of every run of adding, removing, building sprints, batch creation and remediation, a task's sprint is `s` exactly when its only link is to `s`, and no task has two links |
| Sprints.StepAgrees | backend/app/api/sprints.py:716-733 | Each of these endpoints keeps that agreement |
| Sprints.AddedOnce | backend/app/api/sprints.py:672-698 | Adding gives the sprint to exactly the listed tasks of the board that had none, once each, and leaves every other task alone |
| Sprints.AddingExactly | backend/app/api/sprints.py:651-703 | When tickets are added, and the links appended: one for each listed task of the board in no sprint, once, in order, at the next positions |
| Sprints.NextIsFree | backend/app/api/sprints.py:661-668 | The next position is right behind the last link of the sprint, or 0 |
| Sprints.RemoveUndoesAdd | backend/app/api/sprints.py:707-733 | Removing a ticket just added restores the tables |
| Sprints.RemovalExactly | backend/app/api/sprints.py:707-733 | A link is removed if and only if the task is in the sprint; its sprint goes with it and nothing else does |
| Sprints.RefusedAs | backend/app/api/sprints.py:422-445 | Refused requests answer 404 for tickets and sprints that are not there, 422 for a sprint of no tickets, 409 for an empty backlog |
| Sprints.AutoExactly | backend/app/api/sprints.py:422-496 | A sprint from the backlog takes the first tasks asked for, or all, in the backlog's order |
| Sprints.OrganisingExactly | backend/app/api/sprints.py:1282-1320 | Organising links the whole backlog in order to a new sprint |
| Sprints.BatchExactly | backend/app/api/sprints.py:1361-1391 | Every new item becomes a backlog task, linked to the sprint it names when that is the board's |
| Sprints.RemediationAgrees | backend/app/api/agent.py:293-340 | Attaching a reviewer's task to the sprint under review keeps agreement |
| Sprints.RemediationExactly | backend/app/api/agent.py:293-340 | A reviewer's task is no backlog task and joins the sprint under review behind its links |
| SprintStore.SprintStore.AddSprintTickets | backend/app/api/sprints.py:651-703 | The loop over ids, with its passed-over tasks and running position, writes the specified rows |
| SprintStore.SprintStore.RemoveSprintTicket | backend/app/api/sprints.py:707-733 | Removal writes the specified rows or refuses |
| SprintStore.SprintStore.AutoSprintFromBacklog | backend/app/api/sprints.py:422-496 | A sprint from the backlog links the first chosen rows as specified, or refuses |
| SprintStore.SprintStore.OrganiseBacklog | backend/app/api/sprints.py:1282-1320 | The sprint part of organising links the whole backlog as specified |
| SprintStore.SprintStore.BatchCreateBacklog | backend/app/api/sprints.py:1361-1391 | Batch creation writes the specified tasks and links |
| Spend.BoardsSpendAtMostAll | backend/app/api/governance.py:130-183 | For non-negative costs the spends reported for the boards with a budget sum to at most the organization's spend |
| Spend.EveryCostOnce | backend/app/api/governance.py:148-175 | All boards together are charged exactly the costs that belong to one of them, each once |
| Spend.SpendIsDue | backend/app/api/governance.py:170-175 | What is added up for a board is exactly its agents' costs and, when it is its gateway's only board, the gateway's costs without an agent |
| Spend.ChargedOnce | backend/app/api/governance.py:158-175 | A cost belongs to at most one board |
| Spend.ReportedAsDue | backend/app/api/governance.py:164-183 | Every board with a budget is reported, in order, with its budget and exactly the costs that belong to it |
| Spend.BudgetStatus | backend/app/api/governance.py:130-183 | The loops over usage, boards and agents report the specified spends |
| RateLimit.WindowNeverOverfull | backend/app/api/mcp_proxy.py:67-81 | With a non-decreasing clock, no interval (x - W, x] ever holds more than the maximum of accepted calls of a board |
| RateLimit.RefusedExactlyWhenFull | backend/app/api/mcp_proxy.py:67-81 | A call is refused exactly when the window before it holds the maximum, counted over the whole history although old timestamps are evicted |
| RateLimit.RefusalFindsExactlyFull | backend/app/api/mcp_proxy.py:75-81 | A refused call finds exactly the maximum in its window |
| RateLimit.CallPrunes | backend/app/api/mcp_proxy.py:67-81 | A call leaves in its board's bucket exactly what is in the window, and itself if accepted; other buckets stay |
| RateLimit.Limiter.CheckToolCall | backend/app/api/mcp_proxy.py:67-81 | One check prunes and appends as specified |
| Preview.PreviewWithLimit | backend/app/api/agent.py:205-241 | However the encoding is cut into chunks, empty ones included, and for every limit, the early-stopping loop returns the truncation of the full text, says exactly whether the text exceeds the limit, and returns at most the limit |
| Preview.ShortenedShowsBeginning | backend/app/api/agent.py:197-202 | A shortened preview has the limit's length and shows the beginning of the text, with dots when there is room |
| Preview.ShortIsWhole | backend/app/api/agent.py:197-199 | A text within the limit is shown whole |

## Left out

- Preview.PreviewWithLimit: does not model the fallback to `str(value)` when the encoder raises.
- Spend.BudgetStatus: costs are exact numbers, not floats, and the rounded percentages are not modelled.
- Calendar.PlusDays: years are unbounded, where Python raises outside 1 to 9999.
- JSON: Python's recursion limit and its limit on the digits of an integer; numbers are kept as their literals.
- Board: the rows of one board, without approvals of other boards that name its tasks (those are in `ApprovalRaces`).
- A request reads the clock once, and the commits inside one request are one step; a failure between them is not modelled.
- The verdicts on tags and custom fields are inputs of a request.
- Task titles, priorities, due dates and other fields no rule reads.
- Comments kept in channel threads, mentions, notifications, dispatch to agents, thread resolution.
- Sprint lifecycle service: starting, completing and cancelling sprints, which move tasks too; sprint deletion and link cleanup by the database.
- Reads of an approval and of its links count as one step of its transaction; an approval's commit is atomic.
- ApprovalRaces.SomeoneMoves: does not model the key-share locks that inserting an approval and its links takes on the named tasks, in the request's order; they conflict with `FOR UPDATE`, so requests that name tasks in other orders can wait for each other there.
- ApprovalRaces.Remove: deleting a task, its links and its approvals is one step, where the source issues several statements in one transaction.
- Runs: the log's order is taken as the order of time, while the instants of a run's requests are arbitrary; the source orders events by their timestamps.
- TreeUrl.BuildSkillCountByRepo: a URL whose host `urlsplit` refuses, such as one with an unmatched bracket or with characters that normalize to a separator, makes the source raise; the model splits every URL.
- TreeUrl.ReadBackExactlyWhen: repositories on hosts with other than ASCII characters, because `urlsplit` refuses some of them.
- Fresh ids are assumed to be drawn unused; a taken one is refused.
- Authentication, access to boards, pagination, HTTP and SQL.
- Server-sent approval and memory streams, which keep no memory of ids.
- Gateway traffic, Git cloning, guessing names from SKILL.md, webhooks, templates, users, the frontend and the scripts.
