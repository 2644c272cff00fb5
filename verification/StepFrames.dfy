/** What the steps other than updates, creations and deletions do to the task rows. */
module StepFrames {
  import opened Wrappers
  import opened Tables
  import opened TaskUpdate
  import opened BoardSteps

  /** A row a plan endpoint creates. */
  predicate PlanRow(task: Task) {
    task == NewTask(task.status, task.assignee, None, task.isBacklog, task.plan) && task.status in {Inbox, Backlog}
  }

  /** Dependency rows stay, task rows stay, and new rows are those of plan endpoints. */
  predicate OnlyPlanRows(b: Board, c: Board) {
    && c.deps == b.deps
    && (forall t <- b.tasks.Keys :: t in c.tasks && c.tasks[t] == b.tasks[t])
    && (forall t <- c.tasks.Keys :: t in b.tasks || PlanRow(c.tasks[t]))
  }

  predicate MinorStep(s: Step) {
    !s.Update? && !s.Create? && !s.Delete?
  }

  lemma MinorStepsOnTasks(b: Board, s: Step)
    requires MinorStep(s)
    ensures OnlyPlanRows(b, Apply(b, s))
  {
    hide UpdateTask, CreateTask, DeleteTask, Usable, PlanIndex, FindAgent;
  }
}
