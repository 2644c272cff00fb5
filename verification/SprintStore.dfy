/** The sprint endpoints as loops over their rows, each proved to do what its specification function says. */
module SprintStore {
  import opened Wrappers
  import opened Sprints

  class SprintStore {
    var tasks: map<TaskId, Task>
    var tickets: seq<Ticket>
    var sprints: map<SprintId, BoardId>

    function Snapshot(): Tables
      reads this
    {
      Tables(tasks, tickets, sprints)
    }

    constructor (d: Tables)
      ensures Snapshot() == d
    {
      tasks, tickets, sprints := d.tasks, d.tickets, d.sprints;
    }

    method Link(s: SprintId, t: TaskId, position: int)
      requires t in tasks
      modifies this`tasks, this`tickets
      ensures Snapshot() == Attach(old(Snapshot()), s, t, position)
    {
      tickets := tickets + [Ticket(s, t, position)];
      tasks := tasks[t := tasks[t].(sprint := Some(s))];
    }

    method AddSprintTickets(board: BoardId, s: SprintId, ids: seq<TaskId>) returns (check: Check<Refusal>)
      modifies this`tasks, this`tickets
      ensures var result := AddTickets(old(Snapshot()), board, s, ids);
        if check.Pass? then result == Ok(Snapshot())
        else result == Err(check.error) && Snapshot() == old(Snapshot())
    {
      hide NextPosition, Attach, HasTicket;
      if s !in sprints || sprints[s] != board { return Refuse(NotFound); }
      ghost var before := Snapshot();
      var first := NextPosition(tickets, s);
      var nextPosition := first;
      var k := 0;
      while k < |ids|
        invariant 0 <= k <= |ids|
        invariant (Snapshot(), nextPosition) == AddAll(before, board, s, ids[..k], first)
      {
        assert ids[..k + 1][..k] == ids[..k];
        var t := ids[k];
        k := k + 1;
        if t !in tasks || tasks[t].board != board { continue; }
        if HasTicket(tickets, t) { continue; }
        Link(s, t, nextPosition);
        nextPosition := nextPosition + 1;
      }
      assert ids[..k] == ids;
      return Pass;
    }

    method RemoveSprintTicket(board: BoardId, s: SprintId, t: TaskId) returns (check: Check<Refusal>)
      modifies this`tasks, this`tickets
      ensures var result := RemoveTicket(old(Snapshot()), board, s, t);
        if check.Pass? then result == Ok(Snapshot())
        else result == Err(check.error) && Snapshot() == old(Snapshot())
    {
      hide FindTicket;
      if s !in sprints || sprints[s] != board { return Refuse(NotFound); }
      var k := FindTicket(tickets, s, t);
      if k == |tickets| { return Refuse(NotFound); }
      if t in tasks {
        tasks := tasks[t := tasks[t].(sprint := None)];
      }
      tickets := tickets[..k] + tickets[k + 1..];
      return Pass;
    }

    /** The loop over the chosen rows. */
    method LinkAll(s: SprintId, rows: seq<TaskId>)
      requires forall t <- rows :: t in tasks
      modifies this`tasks, this`tickets
      ensures Snapshot() == AttachAll(old(Snapshot()), s, rows)
    {
      hide Attach;
      ghost var before := Snapshot();
      var index := 0;
      while index < |rows|
        invariant 0 <= index <= |rows| && tasks.Keys == before.tasks.Keys
        invariant Snapshot() == AttachAll(before, s, rows[..index])
      {
        assert rows[..index + 1][..index] == rows[..index];
        Link(s, rows[index], index);
        AttachKeys(before, s, rows, index + 1);
        index := index + 1;
      }
      assert rows[..index] == rows;
    }

    method AutoSprintFromBacklog(board: BoardId, s: SprintId, rows: seq<TaskId>, take: Option<int>)
      returns (check: Check<Refusal>)
      requires IsBacklog(Snapshot(), board, rows)
      modifies this
      ensures var result := SprintFromBacklog(old(Snapshot()), board, s, rows, take);
        if check.Pass? then result == Ok(Snapshot())
        else result == Err(check.error) && Snapshot() == old(Snapshot())
    {
      hide AttachAll;
      if take.Some? && take.value <= 0 { return Refuse(Invalid); }
      if rows == [] || s in sprints { return Refuse(Conflict); }
      var chosen := if take.None? || take.value >= |rows| then rows else rows[..take.value];
      sprints := sprints[s := board];
      LinkAll(s, chosen);
      return Pass;
    }

    method OrganiseBacklog(board: BoardId, s: SprintId, rows: seq<TaskId>)
      requires IsBacklog(Snapshot(), board, rows)
      modifies this
      ensures Snapshot() == Organise(old(Snapshot()), board, s, rows)
    {
      hide AttachAll;
      if rows == [] || s in sprints { return; }
      sprints := sprints[s := board];
      LinkAll(s, rows);
    }

    method BatchCreateBacklog(board: BoardId, items: seq<Item>)
      modifies this`tasks, this`tickets
      ensures Snapshot() == BatchCreate(old(Snapshot()), board, items)
    {
      hide Attach;
      ghost var before := Snapshot();
      var k := 0;
      while k < |items|
        invariant 0 <= k <= |items|
        invariant Snapshot() == BatchCreate(before, board, items[..k])
      {
        assert items[..k + 1][..k] == items[..k];
        var item := items[k];
        k := k + 1;
        if item.id in tasks { continue; }
        tasks := tasks[item.id := Task(board, None, true, item.score, item.createdAt)];
        if item.sprint.Some? {
          if item.sprint.value in sprints && sprints[item.sprint.value] == board {
            Link(item.sprint.value, item.id, 0);
          }
        }
      }
      assert items[..k] == items;
    }
  }

  lemma AttachKeys(d: Tables, s: SprintId, rows: seq<TaskId>, k: nat)
    requires 0 < k <= |rows| && forall t <- rows :: t in d.tasks
    ensures AttachAll(d, s, rows[..k]) == Attach(AttachAll(d, s, rows[..k - 1]), s, rows[k - 1], k - 1)
    ensures AttachAll(d, s, rows[..k]).tasks.Keys == d.tasks.Keys
  {
    assert rows[..k][..k - 1] == rows[..k - 1];
  }
}
