/** Sprint membership is kept twice: as link rows and as the task's own sprint. The endpoints that write either
    keep the two in agreement. */
module Sprints {
  import opened Wrappers

  type TaskId = nat
  type SprintId = nat
  type BoardId = nat

  /** `score` and `createdAt` order the backlog. */
  datatype Task = Task(board: BoardId, sprint: Option<SprintId>, backlog: bool, score: int, createdAt: int)

  datatype Ticket = Ticket(sprint: SprintId, task: TaskId, position: int)

  datatype Refusal = NotFound | Conflict | Invalid

  datatype Tables = Tables(tasks: map<TaskId, Task>, tickets: seq<Ticket>, sprints: map<SprintId, BoardId>)

  // ----- the invariant -----

  /** The sprints a task is linked to, one for each link. */
  function SprintsOf(tickets: seq<Ticket>, t: TaskId): seq<SprintId> {
    if tickets == [] then []
    else
      var rest, last := SprintsOf(tickets[..|tickets| - 1], t), tickets[|tickets| - 1];
      if last.task == t then rest + [last.sprint] else rest
  }

  /** The task's sprint is `s` exactly when its only link is to `s`; without a sprint it has no link. */
  predicate TaskAgrees(d: Tables, t: TaskId)
    requires t in d.tasks
  {
    SprintsOf(d.tickets, t) == if d.tasks[t].sprint.Some? then [d.tasks[t].sprint.value] else []
  }

  predicate Agree(d: Tables) {
    (forall t <- d.tasks.Keys :: TaskAgrees(d, t)) && forall k <- d.tickets :: k.task in d.tasks
  }

  // ----- the operations -----

  predicate HasTicket(tickets: seq<Ticket>, t: TaskId) {
    exists k <- tickets :: k.task == t
  }

  /** Link a task to a sprint, on both sides. */
  function Attach(d: Tables, s: SprintId, t: TaskId, position: int): Tables
    requires t in d.tasks
  {
    d.(tickets := d.tickets + [Ticket(s, t, position)], tasks := d.tasks[t := d.tasks[t].(sprint := Some(s))])
  }

  predicate CanAdd(d: Tables, board: BoardId, t: TaskId) {
    t in d.tasks && d.tasks[t].board == board && !HasTicket(d.tickets, t)
  }

  /** The tasks of another board, and those in any sprint already, are passed over; a repeated id is only added
      once. */
  function AddAll(d: Tables, board: BoardId, s: SprintId, ids: seq<TaskId>, position: int): (Tables, int)
    decreases |ids|
  {
    if ids == [] then (d, position)
    else
      var (before, next) := AddAll(d, board, s, ids[..|ids| - 1], position);
      var t := ids[|ids| - 1];
      if CanAdd(before, board, t) then (Attach(before, s, t, next), next + 1) else (before, next)
  }

  /** The greatest position in a sprint. */
  function LastPosition(tickets: seq<Ticket>, s: SprintId): Option<int> {
    if tickets == [] then None
    else
      var rest, last := LastPosition(tickets[..|tickets| - 1], s), tickets[|tickets| - 1];
      if last.sprint == s && (rest.None? || rest.value < last.position) then Some(last.position) else rest
  }

  function NextPosition(tickets: seq<Ticket>, s: SprintId): int {
    var last := LastPosition(tickets, s);
    if last.Some? then last.value + 1 else 0
  }

  predicate SprintOn(d: Tables, s: SprintId, board: BoardId) {
    s in d.sprints && d.sprints[s] == board
  }

  function AddTickets(d: Tables, board: BoardId, s: SprintId, ids: seq<TaskId>): Result<Tables, Refusal> {
    if !SprintOn(d, s, board) then Err(NotFound) else
    Ok(AddAll(d, board, s, ids, NextPosition(d.tickets, s)).0)
  }

  /** The index of the first link of a task to a sprint, or the number of links. */
  function FindTicket(tickets: seq<Ticket>, s: SprintId, t: TaskId): (k: nat)
    ensures k <= |tickets|
    ensures k < |tickets| ==> tickets[k].sprint == s && tickets[k].task == t
    ensures forall j :: 0 <= j < k ==> !(tickets[j].sprint == s && tickets[j].task == t)
  {
    if tickets == [] || (tickets[0].sprint == s && tickets[0].task == t) then 0 else 1 + FindTicket(tickets[1..], s, t)
  }

  function RemoveTicket(d: Tables, board: BoardId, s: SprintId, t: TaskId): Result<Tables, Refusal> {
    if !SprintOn(d, s, board) then Err(NotFound) else
    var k := FindTicket(d.tickets, s, t);
    :- Need(k < |d.tickets|, NotFound);
    Ok(d.(tickets := d.tickets[..k] + d.tickets[k + 1..],
          tasks := if t in d.tasks then d.tasks[t := d.tasks[t].(sprint := None)] else d.tasks))
  }

  predicate Unassigned(task: Task, board: BoardId) {
    task.board == board && task.backlog && task.sprint.None?
  }

  /** `rows` answers the query for the board's unassigned backlog: highest score first, oldest first. */
  predicate IsBacklog(d: Tables, board: BoardId, rows: seq<TaskId>) {
    && (forall t <- rows :: t in d.tasks && Unassigned(d.tasks[t], board))
    && (forall t <- d.tasks.Keys :: Unassigned(d.tasks[t], board) ==> t in rows)
    && (forall i, j :: 0 <= i < j < |rows| ==> rows[i] != rows[j])
    && (forall i, j :: 0 <= i < j < |rows| ==>
          d.tasks[rows[i]].score > d.tasks[rows[j]].score
          || (d.tasks[rows[i]].score == d.tasks[rows[j]].score
              && d.tasks[rows[i]].createdAt <= d.tasks[rows[j]].createdAt))
  }

  /** Link the listed tasks one after the other, at positions from 0. */
  function AttachAll(d: Tables, s: SprintId, rows: seq<TaskId>): (r: Tables)
    requires forall t <- rows :: t in d.tasks
    ensures r.tasks.Keys == d.tasks.Keys && r.sprints == d.sprints
  {
    if rows == [] then d else Attach(AttachAll(d, s, rows[..|rows| - 1]), s, rows[|rows| - 1], |rows| - 1)
  }

  /** A new sprint from the first `take` rows of the backlog, or from all of it. */
  function SprintFromBacklog(d: Tables, board: BoardId, s: SprintId, rows: seq<TaskId>, take: Option<int>)
    : Result<Tables, Refusal>
    requires IsBacklog(d, board, rows)
  {
    if take.Some? && take.value <= 0 then Err(Invalid) else
    :- Need(rows != [] && s !in d.sprints, Conflict);
    var chosen := if take.None? || take.value >= |rows| then rows else rows[..take.value];
    Ok(AttachAll(d.(sprints := d.sprints[s := board]), s, chosen))
  }

  /** The sprint part of organising the backlog: an empty backlog is no error. */
  function Organise(d: Tables, board: BoardId, s: SprintId, rows: seq<TaskId>): Tables
    requires IsBacklog(d, board, rows)
  {
    if rows == [] || s in d.sprints then d else AttachAll(d.(sprints := d.sprints[s := board]), s, rows)
  }

  /** A ticket to create, with the sprint asked for. */
  datatype Item = Item(id: TaskId, sprint: Option<SprintId>, score: int, createdAt: int)

  function CreateOne(d: Tables, board: BoardId, item: Item): Tables {
    if item.id in d.tasks then d
    else
      var row := Task(board, None, true, item.score, item.createdAt);
      var created := d.(tasks := d.tasks[item.id := row]);
      if item.sprint.Some? && SprintOn(d, item.sprint.value, board)
      then Attach(created, item.sprint.value, item.id, 0) else created
  }

  /** Ids are drawn fresh; one that is taken is no step of the source and changes nothing here. */
  function BatchCreate(d: Tables, board: BoardId, items: seq<Item>): Tables {
    if items == [] then d else CreateOne(BatchCreate(d, board, items[..|items| - 1]), board, items[|items| - 1])
  }

  /** A task a reviewer creates joins the sprint under review, when there is one. */
  function Remediate(d: Tables, board: BoardId, item: Item, reviewing: Option<SprintId>): Tables {
    if item.id in d.tasks then d
    else
      var created := d.(tasks := d.tasks[item.id := Task(board, None, false, item.score, item.createdAt)]);
      if reviewing.None? || HasTicket(d.tickets, item.id) then created
      else Attach(created, reviewing.value, item.id, NextPosition(d.tickets, reviewing.value))
  }

  datatype Step =
    | Add(board: BoardId, sprint: SprintId, ids: seq<TaskId>)
    | Remove(board: BoardId, sprint: SprintId, task: TaskId)
    | Auto(board: BoardId, sprint: SprintId, rows: seq<TaskId>, take: Option<int>)
    | Organised(board: BoardId, sprint: SprintId, rows: seq<TaskId>)
    | Batch(board: BoardId, items: seq<Item>)
    | Remediation(board: BoardId, item: Item, reviewing: Option<SprintId>)

  /** The rows a step was given are what the database answers. */
  predicate Answered(d: Tables, step: Step) {
    match step
    case Auto(board, _, rows, _) => IsBacklog(d, board, rows)
    case Organised(board, _, rows) => IsBacklog(d, board, rows)
    case Remediation(board, _, reviewing) => reviewing.Some? ==> SprintOn(d, reviewing.value, board)
    case _ => true
  }

  function Apply(d: Tables, step: Step): Tables
    requires Answered(d, step)
  {
    match step
    case Add(board, s, ids) => (var r := AddTickets(d, board, s, ids); if r.Ok? then r.value else d)
    case Remove(board, s, t) => (var r := RemoveTicket(d, board, s, t); if r.Ok? then r.value else d)
    case Auto(board, s, rows, take) =>
      (var r := SprintFromBacklog(d, board, s, rows, take);
       if r.Ok? then r.value else d)
    case Organised(board, s, rows) => Organise(d, board, s, rows)
    case Batch(board, items) => BatchCreate(d, board, items)
    case Remediation(board, item, reviewing) => Remediate(d, board, item, reviewing)
  }

  /** A run; a step whose rows are not the database's answer is not one. */
  function Run(d: Tables, steps: seq<Step>): Tables {
    if steps == [] then d
    else
      var before, step := Run(d, steps[..|steps| - 1]), steps[|steps| - 1];
      if Answered(before, step) then Apply(before, step) else before
  }

  // ----- links one at a time -----

  lemma SprintsOfMore(tickets: seq<Ticket>, k: Ticket, t: TaskId)
    ensures SprintsOf(tickets + [k], t) == SprintsOf(tickets, t) + if k.task == t then [k.sprint] else []
  {
    assert (tickets + [k])[..|tickets|] == tickets;
  }

  lemma {:induction false} NoTicketNoSprint(tickets: seq<Ticket>, t: TaskId)
    ensures SprintsOf(tickets, t) == [] <==> !HasTicket(tickets, t)
  {
    if tickets != [] {
      var front, last := tickets[..|tickets| - 1], tickets[|tickets| - 1];
      NoTicketNoSprint(front, t);
      assert forall k :: k in tickets <==> k in front || k == last;
    }
  }

  /** Linking a task that has no link keeps agreement. */
  lemma AttachAgrees(d: Tables, s: SprintId, t: TaskId, position: int)
    requires Agree(d) && t in d.tasks && SprintsOf(d.tickets, t) == []
    ensures Agree(Attach(d, s, t, position))
  {
    hide SprintsOf;
    var after := Attach(d, s, t, position);
    forall x | x in after.tasks.Keys ensures TaskAgrees(after, x) {
      assert TaskAgrees(d, x);
      SprintsOfMore(d.tickets, Ticket(s, t, position), x);
    }
  }

  lemma {:induction false} AddAgrees(d: Tables, board: BoardId, s: SprintId, ids: seq<TaskId>, position: int)
    requires Agree(d)
    ensures Agree(AddAll(d, board, s, ids, position).0)
    decreases |ids|
  {
    hide Agree, SprintsOf, Attach;
    if ids != [] {
      AddAgrees(d, board, s, ids[..|ids| - 1], position);
      var before := AddAll(d, board, s, ids[..|ids| - 1], position);
      var t := ids[|ids| - 1];
      if CanAdd(before.0, board, t) {
        NoTicketNoSprint(before.0.tickets, t);
        AttachAgrees(before.0, s, t, before.1);
      }
    }
  }

  lemma {:induction false} SprintsOfWithout(tickets: seq<Ticket>, k: nat, t: TaskId)
    requires k < |tickets|
    ensures tickets[k].task != t ==> SprintsOf(tickets[..k] + tickets[k + 1..], t) == SprintsOf(tickets, t)
    ensures tickets[k].task == t ==> |SprintsOf(tickets[..k] + tickets[k + 1..], t)| == |SprintsOf(tickets, t)| - 1
    decreases |tickets|
  {
    var front, last := tickets[..|tickets| - 1], tickets[|tickets| - 1];
    if k == |tickets| - 1 {
      assert tickets[..k] + tickets[k + 1..] == front;
    } else {
      SprintsOfWithout(front, k, t);
      assert front[..k] == tickets[..k] && front[k + 1..] + [last] == tickets[k + 1..];
      assert front[..k] + front[k + 1..] + [last] == front[..k] + (front[k + 1..] + [last]);
      SprintsOfMore(front[..k] + front[k + 1..], last, t);
    }
  }

  lemma RemoveAgrees(d: Tables, board: BoardId, s: SprintId, t: TaskId)
    requires Agree(d) && RemoveTicket(d, board, s, t).Ok?
    ensures Agree(RemoveTicket(d, board, s, t).value)
  {
    hide SprintsOf, FindTicket;
    var after := RemoveTicket(d, board, s, t).value;
    var k := FindTicket(d.tickets, s, t);
    assert d.tickets[k] in d.tickets;
    forall x | x in after.tasks.Keys ensures TaskAgrees(after, x) {
      assert TaskAgrees(d, x);
      SprintsOfWithout(d.tickets, k, x);
    }
    forall l | l in after.tickets ensures l in d.tickets {
    }
  }

  /** Attaching tasks without links and without repetitions keeps agreement, and the others as they were. */
  lemma {:induction false} AttachAllAgrees(d: Tables, s: SprintId, rows: seq<TaskId>)
    requires Agree(d) && forall t <- rows :: t in d.tasks && SprintsOf(d.tickets, t) == []
    requires forall i, j :: 0 <= i < j < |rows| ==> rows[i] != rows[j]
    ensures Agree(AttachAll(d, s, rows))
    ensures forall t :: t !in rows ==> SprintsOf(AttachAll(d, s, rows).tickets, t) == SprintsOf(d.tickets, t)
  {
    hide Agree, SprintsOf;
    if rows != [] {
      var front, t := rows[..|rows| - 1], rows[|rows| - 1];
      AttachAllAgrees(d, s, front);
      var before := AttachAll(d, s, front);
      AttachAgrees(before, s, t, |rows| - 1);
      forall x | x !in rows ensures SprintsOf(AttachAll(d, s, rows).tickets, x) == SprintsOf(d.tickets, x) {
        SprintsOfMore(before.tickets, Ticket(s, t, |rows| - 1), x);
      }
    }
  }

  lemma BacklogIsFree(d: Tables, board: BoardId, rows: seq<TaskId>)
    requires Agree(d) && IsBacklog(d, board, rows)
    ensures forall t <- rows :: t in d.tasks && SprintsOf(d.tickets, t) == []
  {
    hide SprintsOf;
    forall t | t in rows ensures t in d.tasks && SprintsOf(d.tickets, t) == [] {
      assert t in d.tasks.Keys && TaskAgrees(d, t);
    }
  }

  lemma AutoAgrees(d: Tables, board: BoardId, s: SprintId, rows: seq<TaskId>, chosen: seq<TaskId>)
    requires Agree(d) && IsBacklog(d, board, rows) && chosen <= rows
    ensures forall t <- chosen :: t in d.tasks
    ensures Agree(AttachAll(d.(sprints := d.sprints[s := board]), s, chosen))
  {
    BacklogIsFree(d, board, rows);
    hide SprintsOf, AttachAll;
    var based := d.(sprints := d.sprints[s := board]);
    assert Agree(based) by { SameRows(d, based); }
    AttachAllAgrees(based, s, chosen);
  }

  lemma SameRows(d: Tables, after: Tables)
    requires Agree(d) && after.tasks == d.tasks && after.tickets == d.tickets
    ensures Agree(after)
  {
    forall t | t in after.tasks.Keys ensures TaskAgrees(after, t) {
      assert TaskAgrees(d, t);
    }
  }

  lemma NewTaskAgrees(d: Tables, t: TaskId, row: Task)
    requires Agree(d) && t !in d.tasks && row.sprint.None?
    ensures Agree(d.(tasks := d.tasks[t := row])) && SprintsOf(d.tickets, t) == []
  {
    NoTicketNoSprint(d.tickets, t);
    hide SprintsOf;
    var after := d.(tasks := d.tasks[t := row]);
    forall x | x in after.tasks.Keys ensures TaskAgrees(after, x) {
      if x != t { assert TaskAgrees(d, x); }
    }
  }

  lemma CreateAgrees(d: Tables, board: BoardId, item: Item)
    requires Agree(d)
    ensures Agree(CreateOne(d, board, item))
  {
    hide Agree, SprintsOf, Attach;
    if item.id !in d.tasks {
      var row := Task(board, None, true, item.score, item.createdAt);
      NewTaskAgrees(d, item.id, row);
      if item.sprint.Some? {
        AttachAgrees(d.(tasks := d.tasks[item.id := row]), item.sprint.value, item.id, 0);
      }
    }
  }

  lemma {:induction false} BatchAgrees(d: Tables, board: BoardId, items: seq<Item>)
    requires Agree(d)
    ensures Agree(BatchCreate(d, board, items))
  {
    hide Agree, CreateOne;
    if items != [] {
      BatchAgrees(d, board, items[..|items| - 1]);
      CreateAgrees(BatchCreate(d, board, items[..|items| - 1]), board, items[|items| - 1]);
    }
  }

  lemma RemediationAgrees(d: Tables, board: BoardId, item: Item, reviewing: Option<SprintId>)
    requires Agree(d)
    ensures Agree(Remediate(d, board, item, reviewing))
  {
    hide Agree, SprintsOf, Attach, NextPosition;
    if item.id !in d.tasks {
      var row := Task(board, None, false, item.score, item.createdAt);
      NewTaskAgrees(d, item.id, row);
      if reviewing.Some? {
        AttachAgrees(d.(tasks := d.tasks[item.id := row]), reviewing.value, item.id,
                     NextPosition(d.tickets, reviewing.value));
      }
    }
  }

  /** Links and sprints agree after every step. */
  lemma StepAgrees(d: Tables, step: Step)
    requires Agree(d) && Answered(d, step)
    ensures Agree(Apply(d, step))
  {
    hide Agree, IsBacklog, AddAll, AttachAll, NextPosition;
    match step
    case Add(board, s, ids) => AddAgrees(d, board, s, ids, NextPosition(d.tickets, s));
    case Remove(board, s, t) => if RemoveTicket(d, board, s, t).Ok? { RemoveAgrees(d, board, s, t); }
    case Auto(board, s, rows, take) =>
      if SprintFromBacklog(d, board, s, rows, take).Ok? {
        AutoAgrees(d, board, s, rows, if take.None? || take.value >= |rows| then rows else rows[..take.value]);
      }
    case Organised(board, s, rows) => AutoAgrees(d, board, s, rows, rows);
    case Batch(board, items) => BatchAgrees(d, board, items);
    case Remediation(board, item, reviewing) => RemediationAgrees(d, board, item, reviewing);
  }

  /** Links and sprints agree in every state of every run. */
  lemma {:induction false} RunsKeepAgreement(d: Tables, steps: seq<Step>)
    requires Agree(d)
    ensures Agree(Run(d, steps))
  {
    hide Agree, Apply, Answered;
    if steps != [] {
      RunsKeepAgreement(d, steps[..|steps| - 1]);
      var before := Run(d, steps[..|steps| - 1]);
      if Answered(before, steps[|steps| - 1]) { StepAgrees(before, steps[|steps| - 1]); }
    }
  }

  // ----- what one call leaves -----

  /** After adding, each id of the board that had no sprint has this one, and every other task keeps its own. */
  lemma {:induction false} AddedOnce(d: Tables, board: BoardId, s: SprintId, ids: seq<TaskId>, position: int)
    requires Agree(d)
    ensures var after := AddAll(d, board, s, ids, position).0;
      after.tasks.Keys == d.tasks.Keys && forall t <- d.tasks.Keys ::
        after.tasks[t] == if t in ids && d.tasks[t].board == board && d.tasks[t].sprint.None?
                          then d.tasks[t].(sprint := Some(s)) else d.tasks[t]
    decreases |ids|
  {
    hide Agree;
    if ids != [] {
      var front, t := ids[..|ids| - 1], ids[|ids| - 1];
      AddedOnce(d, board, s, front, position);
      AddAgrees(d, board, s, front, position);
      var before := AddAll(d, board, s, front, position).0;
      LinkedExactlyWithSprint(before, t);
      assert forall x :: x in ids <==> x in front || x == t;
      hide HasTicket;
    }
  }

  lemma LinkedExactlyWithSprint(d: Tables, t: TaskId)
    requires Agree(d)
    ensures t in d.tasks ==> (HasTicket(d.tickets, t) <==> d.tasks[t].sprint.Some?)
  {
    NoTicketNoSprint(d.tickets, t);
    hide SprintsOf, HasTicket;
    if t in d.tasks.Keys { assert TaskAgrees(d, t); }
  }

  /** Removing a task just added to a sprint undoes the addition. */
  lemma RemoveUndoesAdd(d: Tables, board: BoardId, s: SprintId, t: TaskId)
    requires Agree(d) && SprintOn(d, s, board) && CanAdd(d, board, t)
    ensures var added := AddTickets(d, board, s, [t]);
      added.Ok? && RemoveTicket(added.value, board, s, t) == Ok(d)
  {
    hide NextPosition, TaskAgrees;
    LinkedExactlyWithSprint(d, t);
    var p := NextPosition(d.tickets, s);
    assert [t][..0] == [];
    assert AddAll(d, board, s, [t], p).0 == Attach(d, s, t, p);
    var added := Attach(d, s, t, p);
    var k := FindTicket(added.tickets, s, t);
    forall j | 0 <= j < |d.tickets| ensures added.tickets[j].task != t {
      assert d.tickets[j] in d.tickets;
    }
    assert added.tickets[|d.tickets|] == Ticket(s, t, p);
    assert k == |d.tickets|;
    assert added.tickets[..k] + added.tickets[k + 1..] == d.tickets;
    assert added.tasks[t := added.tasks[t].(sprint := None)] == d.tasks;
  }

  // ----- the links each call writes -----

  /** One link after the other. */
  function TicketsFor(s: SprintId, ts: seq<TaskId>, first: int): (r: seq<Ticket>)
    ensures |r| == |ts| && forall i :: 0 <= i < |ts| ==> r[i] == Ticket(s, ts[i], first + i)
  {
    if ts == [] then [] else TicketsFor(s, ts[..|ts| - 1], first) + [Ticket(s, ts[|ts| - 1], first + |ts| - 1)]
  }

  predicate IsFree(d: Tables, board: BoardId, t: TaskId) {
    t in d.tasks && d.tasks[t].board == board && d.tasks[t].sprint.None?
  }

  /** The listed tasks of the board that are in no sprint, each once, in the order of first mention. */
  function FreeOnes(d: Tables, board: BoardId, ids: seq<TaskId>): (r: seq<TaskId>)
    ensures forall t :: t in r <==> t in ids && IsFree(d, board, t)
  {
    if ids == [] then []
    else
      var before, t := FreeOnes(d, board, ids[..|ids| - 1]), ids[|ids| - 1];
      if IsFree(d, board, t) && t !in before then before + [t] else before
  }

  /** Whether one more task is linked: the loop's test comes to being free and not yet chosen. */
  lemma CanAddMeans(d: Tables, board: BoardId, s: SprintId, front: seq<TaskId>, t: TaskId, position: int)
    requires Agree(d)
    ensures CanAdd(AddAll(d, board, s, front, position).0, board, t)
      <==> IsFree(d, board, t) && t !in FreeOnes(d, board, front)
  {
    hide Agree, HasTicket, AddAll, FreeOnes;
    AddedOnce(d, board, s, front, position);
    AddAgrees(d, board, s, front, position);
    LinkedExactlyWithSprint(AddAll(d, board, s, front, position).0, t);
    assert t in d.tasks ==> t in d.tasks.Keys;
  }

  lemma AddStep(d: Tables, board: BoardId, s: SprintId, ids: seq<TaskId>, position: int)
    requires ids != []
    ensures var front, t := ids[..|ids| - 1], ids[|ids| - 1];
      var (before, next) := AddAll(d, board, s, front, position);
      AddAll(d, board, s, ids, position)
      == if CanAdd(before, board, t) then (Attach(before, s, t, next), next + 1) else (before, next)
  {
    hide CanAdd, Attach;
  }

  /** Adding appends a link for each free task, at the next positions. */
  lemma {:induction false} AddedInOrder(d: Tables, board: BoardId, s: SprintId, ids: seq<TaskId>, position: int)
    requires Agree(d)
    ensures var (after, next) := AddAll(d, board, s, ids, position);
      var free := FreeOnes(d, board, ids);
      after.tickets == d.tickets + TicketsFor(s, free, position) && next == position + |free|
      && after.sprints == d.sprints
    decreases |ids|
  {
    hide Agree, CanAdd, AddAll, IsFree, TicketsFor;
    if ids == [] {
      NothingAdded(d, board, s, position);
    } else {
      var front, t := ids[..|ids| - 1], ids[|ids| - 1];
      AddedInOrder(d, board, s, front, position);
      AddStep(d, board, s, ids, position);
      CanAddMeans(d, board, s, front, t, position);
      TicketsMore(s, FreeOnes(d, board, front), t, position);
    }
  }

  lemma NothingAdded(d: Tables, board: BoardId, s: SprintId, position: int)
    ensures AddAll(d, board, s, [], position) == (d, position) && TicketsFor(s, [], position) == []
  {
  }

  lemma TicketsMore(s: SprintId, ts: seq<TaskId>, t: TaskId, first: int)
    ensures TicketsFor(s, ts + [t], first) == TicketsFor(s, ts, first) + [Ticket(s, t, first + |ts|)]
  {
    assert (ts + [t])[..|ts|] == ts;
  }

  lemma {:induction false} LastIsLast(tickets: seq<Ticket>, s: SprintId)
    ensures var last := LastPosition(tickets, s);
      && (last.None? ==> forall k <- tickets :: k.sprint != s)
      && (last.Some? ==> (forall k <- tickets :: k.sprint == s ==> k.position <= last.value)
                         && HasLinkAt(tickets, s, last.value))
  {
    if tickets != [] {
      var front, last := tickets[..|tickets| - 1], tickets[|tickets| - 1];
      LastIsLast(front, s);
      assert forall k :: k in tickets <==> k in front || k == last;
    }
  }

  predicate HasLinkAt(tickets: seq<Ticket>, s: SprintId, position: int) {
    exists k <- tickets :: k.sprint == s && k.position == position
  }

  /** The next position is behind every link of the sprint and right behind one of them, or 0 when there is none. */
  lemma NextIsFree(tickets: seq<Ticket>, s: SprintId)
    ensures forall k <- tickets :: k.sprint == s ==> k.position < NextPosition(tickets, s)
    ensures HasLinkAt(tickets, s, NextPosition(tickets, s) - 1)
      || (NextPosition(tickets, s) == 0 && forall k <- tickets :: k.sprint != s)
  {
    hide LastPosition, HasLinkAt;
    LastIsLast(tickets, s);
  }

  /** Tickets are added when the sprint is the board's: one for each free task, behind those it has. */
  lemma AddingExactly(d: Tables, board: BoardId, s: SprintId, ids: seq<TaskId>)
    requires Agree(d)
    ensures AddTickets(d, board, s, ids).Ok? <==> s in d.sprints && d.sprints[s] == board
    ensures AddTickets(d, board, s, ids).Ok? ==>
      var c := AddTickets(d, board, s, ids).value;
      && c.sprints == d.sprints
      && c.tickets == d.tickets + TicketsFor(s, FreeOnes(d, board, ids), NextPosition(d.tickets, s))
  {
    hide AddAll, NextPosition;
    AddedInOrder(d, board, s, ids, NextPosition(d.tickets, s));
  }

  /** A link is removed when there is one: with it the task's sprint, and nothing else. */
  lemma RemovalExactly(d: Tables, board: BoardId, s: SprintId, t: TaskId)
    requires Agree(d)
    ensures RemoveTicket(d, board, s, t).Ok? <==>
      s in d.sprints && d.sprints[s] == board && t in d.tasks && d.tasks[t].sprint == Some(s)
    ensures RemoveTicket(d, board, s, t).Ok? ==>
      var c := RemoveTicket(d, board, s, t).value;
      && c.sprints == d.sprints && c.tasks == d.tasks[t := d.tasks[t].(sprint := None)]
      && |c.tickets| == |d.tickets| - 1 && (forall k <- c.tickets :: k in d.tickets && k.task != t)
      && forall k <- d.tickets :: k.task != t ==> k in c.tickets
  {
    hide SprintsOf;
    var k := FindTicket(d.tickets, s, t);
    if k < |d.tickets| {
      assert d.tickets[k] in d.tickets;
      assert TaskAgrees(d, t);
      OnlyLink(d.tickets, k);
      var after := d.tickets[..k] + d.tickets[k + 1..];
      forall x | x in d.tickets && x.task != t ensures x in after {
        var i :| 0 <= i < |d.tickets| && d.tickets[i] == x;
        assert i != k && x == after[if i < k then i else i - 1];
      }
    } else if t in d.tasks && d.tasks[t].sprint == Some(s) {
      assert TaskAgrees(d, t);
      LinkBehind(d.tickets, s, t);
    }
  }

  /** A task with one link has it where it is found. */
  lemma OnlyLink(tickets: seq<Ticket>, k: nat)
    requires k < |tickets| && |SprintsOf(tickets, tickets[k].task)| <= 1
    ensures SprintsOf(tickets, tickets[k].task) == [tickets[k].sprint]
    ensures forall i :: 0 <= i < |tickets| && i != k ==> tickets[i].task != tickets[k].task
  {
    hide SprintsOf;
    var t := tickets[k].task;
    var rest := tickets[..k] + tickets[k + 1..];
    SprintsOfWithout(tickets, k, t);
    NoTicketNoSprint(rest, t);
    forall i | 0 <= i < |tickets| && i != k ensures tickets[i].task != t {
      assert tickets[i] == rest[if i < k then i else i - 1];
      assert tickets[i] in rest;
    }
    LinkOf(tickets, k);
  }

  lemma {:induction false} LinkOf(tickets: seq<Ticket>, k: nat)
    requires k < |tickets| && forall i :: 0 <= i < |tickets| && i != k ==> tickets[i].task != tickets[k].task
    ensures SprintsOf(tickets, tickets[k].task) == [tickets[k].sprint]
  {
    var front, last := tickets[..|tickets| - 1], tickets[|tickets| - 1];
    if k == |tickets| - 1 {
      NoTicketNoSprint(front, last.task);
    } else {
      LinkOf(front, k);
    }
  }

  lemma {:induction false} LinkBehind(tickets: seq<Ticket>, s: SprintId, t: TaskId)
    requires SprintsOf(tickets, t) == [s]
    ensures exists k :: 0 <= k < |tickets| && tickets[k].sprint == s && tickets[k].task == t
  {
    var front, last := tickets[..|tickets| - 1], tickets[|tickets| - 1];
    if last.task == t {
      assert (SprintsOf(front, t) + [last.sprint])[|SprintsOf(front, t)|] == last.sprint;
    } else {
      LinkBehind(front, s, t);
      var k :| 0 <= k < |front| && front[k].sprint == s && front[k].task == t;
      assert tickets[k] == front[k];
    }
  }

  /** Linking a list of tasks gives each the sprint, at its place in the list. */
  lemma {:induction false} AttachedInOrder(d: Tables, s: SprintId, rows: seq<TaskId>)
    requires forall t <- rows :: t in d.tasks
    ensures var c := AttachAll(d, s, rows);
      && c.tickets == d.tickets + TicketsFor(s, rows, 0) && c.sprints == d.sprints
      && forall t <- d.tasks.Keys :: t in c.tasks
           && c.tasks[t] == if t in rows then d.tasks[t].(sprint := Some(s)) else d.tasks[t]
  {
    if rows != [] {
      var front, t := rows[..|rows| - 1], rows[|rows| - 1];
      AttachedInOrder(d, s, front);
      assert forall x :: x in rows <==> x in front || x == t;
    }
  }

  /** A new sprint takes the first of the backlog, as many as asked for or all, in order. */
  lemma AutoExactly(d: Tables, board: BoardId, s: SprintId, rows: seq<TaskId>, take: Option<int>)
    requires IsBacklog(d, board, rows)
    ensures SprintFromBacklog(d, board, s, rows, take).Ok? <==>
      (take.Some? ==> take.value > 0) && rows != [] && s !in d.sprints
    ensures SprintFromBacklog(d, board, s, rows, take).Ok? ==>
      var c := SprintFromBacklog(d, board, s, rows, take).value;
      var n := if take.Some? && take.value < |rows| then take.value else |rows|;
      && c.sprints == d.sprints[s := board] && c.tickets == d.tickets + TicketsFor(s, rows[..n], 0)
      && forall t <- d.tasks.Keys :: t in c.tasks
           && c.tasks[t] == if t in rows[..n] then d.tasks[t].(sprint := Some(s)) else d.tasks[t]
  {
    hide AttachAll;
    if SprintFromBacklog(d, board, s, rows, take).Ok? {
      var n := if take.Some? && take.value < |rows| then take.value else |rows|;
      assert rows[..|rows|] == rows;
      AttachedInOrder(d.(sprints := d.sprints[s := board]), s, rows[..n]);
    }
  }

  /** What refused requests answer: not found for tickets of a sprint that is not there or not in it, invalid for a
      sprint of no tickets, and a conflict for one from an empty backlog. */
  lemma RefusedAs(d: Tables, board: BoardId, s: SprintId, ids: seq<TaskId>, t: TaskId, rows: seq<TaskId>,
                  take: Option<int>)
    requires IsBacklog(d, board, rows)
    ensures AddTickets(d, board, s, ids).Err? ==> AddTickets(d, board, s, ids).error == NotFound
    ensures RemoveTicket(d, board, s, t).Err? ==> RemoveTicket(d, board, s, t).error == NotFound
    ensures SprintFromBacklog(d, board, s, rows, take).Err? ==>
      SprintFromBacklog(d, board, s, rows, take).error == if take.Some? && take.value <= 0 then Invalid else Conflict
  {
    hide AddAll, AttachAll, IsBacklog;
  }

  /** Organising links the whole backlog to a new sprint. */
  lemma OrganisingExactly(d: Tables, board: BoardId, s: SprintId, rows: seq<TaskId>)
    requires IsBacklog(d, board, rows)
    ensures rows == [] || s in d.sprints ==> Organise(d, board, s, rows) == d
    ensures rows != [] && s !in d.sprints ==>
      var c := Organise(d, board, s, rows);
      && c.sprints == d.sprints[s := board] && c.tickets == d.tickets + TicketsFor(s, rows, 0)
      && forall t <- d.tasks.Keys :: t in c.tasks
           && c.tasks[t] == if t in rows then d.tasks[t].(sprint := Some(s)) else d.tasks[t]
  {
    hide AttachAll;
    AttachedInOrder(d.(sprints := d.sprints[s := board]), s, rows);
  }

  /** The sprint an item gets: the one it asks for, if that is the board's. */
  function SprintFor(d: Tables, board: BoardId, item: Item): Option<SprintId> {
    if item.sprint.Some? && item.sprint.value in d.sprints && d.sprints[item.sprint.value] == board then item.sprint
    else None
  }

  /** The first item with its id, which no task has. */
  predicate IsNew(d: Tables, items: seq<Item>, i: nat)
    requires i < |items|
  {
    items[i].id !in d.tasks && forall j :: 0 <= j < i ==> items[j].id != items[i].id
  }

  lemma CreatingOne(d: Tables, board: BoardId, item: Item)
    ensures var c := CreateOne(d, board, item);
      && c.sprints == d.sprints && (forall t <- d.tasks.Keys :: t in c.tasks && c.tasks[t] == d.tasks[t])
      && c.tasks.Keys == d.tasks.Keys + {item.id}
      && (item.id !in d.tasks ==>
            var s := SprintFor(d, board, item);
            && c.tasks[item.id] == Task(board, s, true, item.score, item.createdAt)
            && c.tickets == d.tickets + if s.Some? then [Ticket(s.value, item.id, 0)] else [])
      && (item.id in d.tasks ==> c == d)
  {
  }

  /** The links of the new items, in order. */
  function NewLinks(d: Tables, board: BoardId, items: seq<Item>): seq<Ticket> {
    if items == [] then []
    else
      var before, i := NewLinks(d, board, items[..|items| - 1]), |items| - 1;
      var s := SprintFor(d, board, items[i]);
      if IsNew(d, items, i) && s.Some? then before + [Ticket(s.value, items[i].id, 0)] else before
  }

  /** The new items' rows, and no change to the others. */
  ghost predicate Stored(d: Tables, board: BoardId, items: seq<Item>, c: Tables) {
    && (forall t :: t in c.tasks <==> t in d.tasks || Mentions(items, t))
    && (forall t <- d.tasks.Keys :: t in c.tasks && c.tasks[t] == d.tasks[t])
    && forall i :: 0 <= i < |items| && IsNew(d, items, i) ==>
         items[i].id in c.tasks
         && c.tasks[items[i].id] == Task(board, SprintFor(d, board, items[i]), true, items[i].score, items[i].createdAt)
  }

  predicate Mentions(items: seq<Item>, t: TaskId) {
    exists i :: 0 <= i < |items| && items[i].id == t
  }

  lemma MentionsMore(items: seq<Item>, t: TaskId)
    requires items != []
    ensures Mentions(items, t) <==> Mentions(items[..|items| - 1], t) || items[|items| - 1].id == t
  {
    var front := items[..|items| - 1];
    if Mentions(items, t) {
      var i :| 0 <= i < |items| && items[i].id == t;
      assert i < |front| ==> front[i].id == t;
    }
    if i :| 0 <= i < |front| && front[i].id == t { assert items[i].id == t; }
  }

  lemma OneMoreStored(d: Tables, board: BoardId, items: seq<Item>, before: Tables)
    requires items != [] && before.sprints == d.sprints && Stored(d, board, items[..|items| - 1], before)
    ensures Stored(d, board, items, CreateOne(before, board, items[|items| - 1]))
  {
    hide CreateOne, SprintFor, Mentions;
    var front, n := items[..|items| - 1], |items| - 1;
    var c := CreateOne(before, board, items[n]);
    CreatingOne(before, board, items[n]);
    SameSprints(before, d, board, items[n]);
    forall t ensures Mentions(items, t) <==> Mentions(front, t) || items[n].id == t { MentionsMore(items, t); }
    NewIsUnmentioned(d, items);
    forall i | 0 <= i < |items| && IsNew(d, items, i)
      ensures items[i].id in c.tasks
      ensures c.tasks[items[i].id]
           == Task(board, SprintFor(d, board, items[i]), true, items[i].score, items[i].createdAt)
    {
      if i < n { assert front[i] == items[i] && IsNew(d, front, i); }
    }
  }

  lemma SameSprints(a: Tables, d: Tables, board: BoardId, item: Item)
    requires a.sprints == d.sprints
    ensures SprintFor(a, board, item) == SprintFor(d, board, item)
  {
  }

  lemma NewIsUnmentioned(d: Tables, items: seq<Item>)
    requires items != []
    ensures var n := |items| - 1;
      IsNew(d, items, n) <==> items[n].id !in d.tasks && !Mentions(items[..n], items[n].id)
  {
    var n := |items| - 1;
    assert forall j :: 0 <= j < n ==> items[..n][j] == items[j];
  }

  /** Every new item becomes a backlog task of the board, linked to the sprint it asks for when that is the board's. */
  lemma {:induction false} BatchExactly(d: Tables, board: BoardId, items: seq<Item>)
    ensures var c := BatchCreate(d, board, items);
      c.sprints == d.sprints && c.tickets == d.tickets + NewLinks(d, board, items) && Stored(d, board, items, c)
  {
    hide CreateOne, SprintFor, IsNew, Mentions;
    BatchSprints(d, board, items);
    if items == [] {
      assert d.tickets + [] == d.tickets;
      NobodyStored(d, board);
    } else {
      var n := |items| - 1;
      var before := BatchCreate(d, board, items[..n]);
      BatchSprints(d, board, items[..n]);
      BatchExactly(d, board, items[..n]);
      OneMoreStored(d, board, items, before);
      CreatingOne(before, board, items[n]);
      SameSprints(before, d, board, items[n]);
      NewIsUnmentioned(d, items);
    }
  }

  lemma NobodyStored(d: Tables, board: BoardId)
    ensures Stored(d, board, [], d)
  {
  }

  lemma {:induction false} BatchSprints(d: Tables, board: BoardId, items: seq<Item>)
    ensures BatchCreate(d, board, items).sprints == d.sprints
  {
    if items != [] { BatchSprints(d, board, items[..|items| - 1]); }
  }

  /** A reviewer's task is no backlog task; it joins the sprint under review, behind its links. */
  lemma RemediationExactly(d: Tables, board: BoardId, item: Item, reviewing: Option<SprintId>)
    requires Agree(d) && item.id !in d.tasks
    ensures var c := Remediate(d, board, item, reviewing);
      && c.sprints == d.sprints
      && c.tasks == d.tasks[item.id := Task(board, reviewing, false, item.score, item.createdAt)]
      && c.tickets == d.tickets + if reviewing.None? then []
                                  else [Ticket(reviewing.value, item.id, NextPosition(d.tickets, reviewing.value))]
  {
    hide NextPosition;
    assert !HasTicket(d.tickets, item.id);
    assert d.tickets + [] == d.tickets;
  }
}
