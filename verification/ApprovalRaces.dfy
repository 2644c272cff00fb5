/** Approval requests as interleaved transactions: read, lock the named tasks one by one, look for conflicts,
    write and commit. Between any two of these steps every other transaction may move. */
module ApprovalRaces {
  import opened Wrappers
  import opened Tables
  import opened BoardSteps
  import References
  import Sets

  type TxId = nat

  /** A committed approval of any board. */
  datatype Row = Row(board: BoardId, task: Option<TaskId>, status: ApprovalStatus)

  /** The committed tables; `used` are the approval ids ever drawn. */
  datatype Db = Db(tasks: set<TaskId>, approvals: map<ApprovalId, Row>, links: seq<Link>, used: set<ApprovalId>)

  /** A request; `named` is without repetitions. */
  datatype Ask =
    | Create(board: BoardId, id: ApprovalId, status: ApprovalStatus, named: seq<TaskId>)
    | Change(board: BoardId, id: ApprovalId, status: ApprovalStatus)

  datatype Phase = Waiting | Locking(left: set<TaskId>) | Checking | Writing | Finished(ok: bool)

  /** A transaction: the tasks it has to lock (none when it need not check), and the status it read. */
  datatype Txn = Txn(ask: Ask, phase: Phase, guards: set<TaskId>, seen: Option<ApprovalStatus>)

  datatype System = System(db: Db, locks: map<TaskId, TxId>, txns: map<TxId, Txn>)

  datatype Action =
    | Read(tx: TxId)
    | Lock(tx: TxId)
    | Check(tx: TxId)
    | Commit(tx: TxId)
    | Fail(tx: TxId)
    | Remove(t: TaskId)

  // ----- the steps -----

  /** The tasks an approval is about. */
  function Names(db: Db, a: ApprovalId): set<TaskId>
    requires a in db.approvals
  {
    var ts := TasksOf(db.links, a);
    if ts != [] then Listed(ts)
    else if db.approvals[a].task.Some? then {db.approvals[a].task.value} else {}
  }

  /** A pending approval of the board, other than `except`, that is about one of the tasks. */
  predicate Conflict(db: Db, board: BoardId, ts: set<TaskId>, except: Option<ApprovalId>) {
    exists a <- db.approvals.Keys ::
      db.approvals[a].board == board && db.approvals[a].status == Pending
      && Some(a) != except && Names(db, a) * ts != {}
  }

  function Listed(named: seq<TaskId>): set<TaskId> {
    set t | t in named
  }

  function Released(locks: map<TaskId, TxId>, tx: TxId): map<TaskId, TxId> {
    map t | t in locks && locks[t] != tx :: locks[t]
  }

  function Done(s: System, tx: TxId, ok: bool): System
    requires tx in s.txns
  {
    s.(locks := Released(s.locks, tx), txns := s.txns[tx := s.txns[tx].(phase := Finished(ok))])
  }

  function Begin(db: Db, ask: Ask): Txn {
    match ask
    case Create(_, _, status, named) =>
      var ts := if status == Pending then Listed(named) else {};
      Txn(ask, if ts == {} then Writing else Locking(ts), ts, None)
    case Change(board, a, status) =>
      if a !in db.approvals || db.approvals[a].board != board then Txn(ask, Finished(false), {}, None)
      else
        var seen := db.approvals[a].status;
        var ts := if status == Pending && seen != Pending then Names(db, a) else {};
        Txn(ask, if ts == {} then Writing else Locking(ts), ts, Some(seen))
  }

  predicate IsLeast(ts: set<TaskId>, t: TaskId) {
    t in ts && forall u <- ts :: t <= u
  }

  function Least(ts: set<TaskId>): (t: TaskId)
    requires ts != {}
    ensures IsLeast(ts, t)
  {
    LeastExists(ts);
    var t :| IsLeast(ts, t);
    t
  }

  lemma LeastExists(ts: set<TaskId>)
    requires ts != {}
    ensures exists t :: IsLeast(ts, t)
  {
    var x :| x in ts;
    if ts == {x} {
      assert IsLeast(ts, x);
    } else {
      LeastExists(ts - {x});
      var y :| IsLeast(ts - {x}, y);
      forall u | u in ts ensures (if x < y then x else y) <= u {
        assert u == x || u in ts - {x};
      }
      assert IsLeast(ts, if x < y then x else y);
    }
  }

  /** A transaction waits for its least remaining task while another holds it. */
  predicate Blocked(s: System, tx: TxId) {
    tx in s.txns && s.txns[tx].phase.Locking? && s.txns[tx].phase.left != {}
    && var t := Least(s.txns[tx].phase.left); t in s.db.tasks && t in s.locks
  }

  /** Rows that do not exist are not locked. */
  function TakeLock(s: System, tx: TxId): System
    requires tx in s.txns && s.txns[tx].phase.Locking?
  {
    var txn := s.txns[tx];
    var left := txn.phase.left;
    if left == {} then s.(txns := s.txns[tx := txn.(phase := Checking)])
    else if Blocked(s, tx) then s
    else
      var t := Least(left);
      s.(locks := if t in s.db.tasks then s.locks[t := tx] else s.locks,
         txns := s.txns[tx := txn.(phase := Locking(left - {t}))])
  }

  function Look(s: System, tx: TxId): System
    requires tx in s.txns
  {
    var txn := s.txns[tx];
    var except := if txn.ask.Change? then Some(txn.ask.id) else None;
    if Conflict(s.db, txn.ask.board, txn.guards, except) then Done(s, tx, false)
    else s.(txns := s.txns[tx := txn.(phase := Writing)])
  }

  function Write(s: System, tx: TxId): System
    requires tx in s.txns
  {
    var txn := s.txns[tx];
    var db := s.db;
    match txn.ask
    case Create(board, a, status, named) =>
      if a in db.used || !(forall t <- named :: t in db.tasks) then Done(s, tx, false)
      else
        var row := Row(board, if named == [] then None else Some(named[0]), status);
        Done(s.(db := db.(approvals := db.approvals[a := row], links := db.links + LinksTo(a, named),
                          used := db.used + {a})), tx, true)
    case Change(_, a, status) =>
      if a !in db.approvals then Done(s, tx, false)
      else if txn.seen == Some(status) then Done(s, tx, true)
      else Done(s.(db := db.(approvals := db.approvals[a := db.approvals[a].(status := status)])), tx, true)
  }

  /** A task nobody has locked is deleted, its approvals re-pointed or deleted with it. */
  function RemoveTask(db: Db, t: TaskId): Db {
    var links := WithoutLinks(db.links, t);
    db.(tasks := db.tasks - {t}, links := links,
        approvals := map a | a in db.approvals && (db.approvals[a].task != Some(t) || TasksOf(links, a) != []) ::
          if db.approvals[a].task == Some(t) then db.approvals[a].(task := Some(TasksOf(links, a)[0]))
          else db.approvals[a])
  }

  function Act(s: System, action: Action): System {
    match action
    case Read(x) =>
      if x in s.txns && s.txns[x].phase.Waiting? then s.(txns := s.txns[x := Begin(s.db, s.txns[x].ask)]) else s
    case Lock(x) => if x in s.txns && s.txns[x].phase.Locking? then TakeLock(s, x) else s
    case Check(x) => if x in s.txns && s.txns[x].phase.Checking? then Look(s, x) else s
    case Commit(x) => if x in s.txns && s.txns[x].phase.Writing? then Write(s, x) else s
    case Fail(x) => if x in s.txns && !s.txns[x].phase.Finished? then Done(s, x, false) else s
    case Remove(t) => if t in s.locks then s else s.(db := RemoveTask(s.db, t))
  }

  function Interleaving(s: System, schedule: seq<Action>): System {
    if schedule == [] then s else Act(Interleaving(s, schedule[..|schedule| - 1]), schedule[|schedule| - 1])
  }

  // ----- the invariant -----

  predicate PendingOn(db: Db, a: ApprovalId, board: BoardId, t: TaskId) {
    a in db.approvals && db.approvals[a].status == Pending && db.approvals[a].board == board && t in Names(db, a)
  }

  /** On each board, each task has at most one pending approval. */
  ghost predicate OnePending(db: Db) {
    forall a, c, board, t :: PendingOn(db, a, board, t) && PendingOn(db, c, board, t) ==> a == c
  }

  /** Links join existing rows, and the primary task of a linked approval is one of its links. */
  predicate Rooted(db: Db) {
    && db.approvals.Keys <= db.used
    && (forall l <- db.links :: l.approval in db.approvals && l.task in db.tasks)
    && (forall a <- db.approvals.Keys ::
          && (TasksOf(db.links, a) != [] ==>
                db.approvals[a].task.Some? && db.approvals[a].task.value in TasksOf(db.links, a))
          && (db.approvals[a].task.Some? ==> db.approvals[a].task.value in db.tasks))
  }

  /** Every existing task the transaction has passed in its locking is locked by it. */
  predicate Holds(s: System, tx: TxId)
    requires tx in s.txns
  {
    var txn := s.txns[tx];
    var passed := if txn.phase.Locking? then txn.guards - txn.phase.left else txn.guards;
    (txn.phase.Locking? || txn.phase.Checking? || txn.phase.Writing?) ==>
      forall t <- passed :: t in s.db.tasks ==> t in s.locks && s.locks[t] == tx
  }

  /** A transaction about to write has no rival. */
  ghost predicate Clear(s: System, tx: TxId)
    requires tx in s.txns
  {
    var txn := s.txns[tx];
    txn.phase.Writing? ==> forall a, t :: t in txn.guards && PendingOn(s.db, a, txn.ask.board, t) ==> a == txn.ask.id
  }

  /** What a running transaction guards covers what it will make pending. */
  predicate Covers(s: System, tx: TxId)
    requires tx in s.txns
  {
    var txn := s.txns[tx];
    var running := txn.phase.Locking? || txn.phase.Checking? || txn.phase.Writing?;
    match txn.ask
    case Create(_, _, status, named) => running && status == Pending ==> txn.guards == Listed(named)
    case Change(board, a, status) =>
      (running ==> a in s.db.used)
      && (running && a in s.db.approvals ==> s.db.approvals[a].board == board)
      && (running && a in s.db.approvals && status == Pending && txn.seen != Some(Pending) ==>
            Names(s.db, a) <= txn.guards)
  }

  /** Locks belong to running transactions, and what a transaction still has to lock comes after what it holds. */
  predicate LocksOrdered(s: System) {
    forall t <- s.locks.Keys :: s.locks[t] in s.txns
      && !s.txns[s.locks[t]].phase.Finished? && !s.txns[s.locks[t]].phase.Waiting?
      && (s.txns[s.locks[t]].phase.Locking? ==> forall u <- s.txns[s.locks[t]].phase.left :: t < u)
  }

  ghost predicate TxnOk(s: System, tx: TxId)
    requires tx in s.txns
  {
    Holds(s, tx) && Clear(s, tx) && Covers(s, tx)
    && (s.txns[tx].phase.Locking? ==> s.txns[tx].phase.left <= s.txns[tx].guards)
  }

  ghost predicate Inv(s: System) {
    OnePending(s.db) && Rooted(s.db) && LocksOrdered(s) && forall x <- s.txns.Keys :: TxnOk(s, x)
  }

  // ----- what the writes do to the names -----

  lemma NamesAfterCreate(db: Db, after: Db, id: ApprovalId, named: seq<TaskId>, row: Row)
    requires Rooted(db) && id !in db.used && (forall t <- named :: t in db.tasks)
    requires row.task == if named == [] then None else Some(named[0])
    requires after == db.(approvals := db.approvals[id := row], links := db.links + LinksTo(id, named),
                          used := db.used + {id})
    ensures Rooted(after)
    ensures Names(after, id) == Listed(named)
    ensures forall a <- db.approvals.Keys :: Names(after, a) == Names(db, a)
  {
    hide TasksOf, LinksTo;
    forall a | a in after.approvals.Keys
      ensures TasksOf(after.links, a) == if a == id then named else TasksOf(db.links, a)
    {
      References.TasksOfMore(db.links, LinksTo(id, named), a);
      References.TasksOfNew(id, named, a);
      if a == id { References.NoStaleLinks(db.links, a); }
    }
    assert TasksOf(after.links, id) == named;
  }

  lemma RemoveShrinks(db: Db, t: TaskId)
    requires Rooted(db)
    ensures var after := RemoveTask(db, t);
      && Rooted(after) && after.approvals.Keys <= db.approvals.Keys
      && forall a <- after.approvals.Keys ::
           && after.approvals[a].board == db.approvals[a].board && after.approvals[a].status == db.approvals[a].status
           && Names(after, a) <= Names(db, a)
  {
    hide TasksOf, WithoutLinks;
    var after := RemoveTask(db, t);
    forall a | a in after.approvals.Keys
      ensures forall x :: x in TasksOf(after.links, a) <==> x in TasksOf(db.links, a) && x != t
      ensures TasksOf(db.links, a) == [] ==> TasksOf(after.links, a) == []
      ensures TasksOf(after.links, a) != [] ==> TasksOf(after.links, a)[0] in TasksOf(after.links, a)
    {
      if TasksOf(db.links, a) == [] { References.NoLinksLeft(db.links, a, t); }
    }
    forall a | a in after.approvals.Keys
      ensures Names(after, a) <= Names(db, a)
    {
    }
    forall l | l in after.links ensures l.approval in after.approvals {
      assert l in db.links;
      assert l.task in TasksOf(after.links, l.approval);
    }
  }

  /** Deleting a task takes it from what every approval is about, and the approval with it when nothing is left. */
  lemma RemovesExactly(db: Db, t: TaskId, a: ApprovalId)
    requires Rooted(db) && a in db.approvals
    ensures var after := RemoveTask(db, t);
      && (a in after.approvals <==> Names(db, a) != {t})
      && (a in after.approvals ==> Names(after, a) == Names(db, a) - {t})
      && after.tasks == db.tasks - {t}
  {
    hide TasksOf, WithoutLinks;
    var after, ts := RemoveTask(db, t), TasksOf(db.links, a);
    assert forall x :: x in TasksOf(after.links, a) <==> x in ts && x != t;
    if ts == [] {
      References.NoLinksLeft(db.links, a, t);
    } else {
      assert ts[0] in ts;
      assert TasksOf(after.links, a) == [] <==> Listed(ts) == {t} by { OnlyOne(ts, TasksOf(after.links, a), t); }
    }
  }

  lemma OnlyOne(ts: seq<TaskId>, rest: seq<TaskId>, t: TaskId)
    requires ts != [] && forall x :: x in rest <==> x in ts && x != t
    ensures rest == [] <==> Listed(ts) == {t}
  {
    if rest == [] {
      assert ts[0] in ts;
      forall x | x in ts ensures x == t { assert x !in rest; }
    } else {
      assert rest[0] in rest;
      assert rest[0] in Listed(ts);
    }
  }

  // ----- every action keeps the invariant -----

  lemma BeginKeeps(s: System, x: TxId)
    requires Inv(s) && x in s.txns && s.txns[x].phase.Waiting?
    ensures Inv(Act(s, Read(x)))
  {
    hide TasksOf, OnePending;
    var after := Act(s, Read(x));
    forall y | y in after.txns.Keys ensures TxnOk(after, y) {
      if y != x { assert TxnOk(s, y); }
    }
  }

  lemma LockKeeps(s: System, x: TxId)
    requires Inv(s) && x in s.txns && s.txns[x].phase.Locking?
    ensures Inv(Act(s, Lock(x)))
  {
    hide Names, OnePending, Rooted;
    var left := s.txns[x].phase.left;
    if left == {} {
      AllLocked(s, x);
    } else if !Blocked(s, x) {
      OneLocked(s, x, Least(left));
    }
  }

  lemma AllLocked(s: System, x: TxId)
    requires Inv(s) && x in s.txns && s.txns[x].phase == Locking({})
    ensures Inv(s.(txns := s.txns[x := s.txns[x].(phase := Checking)]))
  {
    hide Names, OnePending, Rooted;
    var after := s.(txns := s.txns[x := s.txns[x].(phase := Checking)]);
    assert TxnOk(s, x);
    forall y | y in after.txns.Keys ensures TxnOk(after, y) {
      if y != x { assert TxnOk(s, y); }
    }
  }

  lemma OneLocked(s: System, x: TxId, t: TaskId)
    requires Inv(s) && x in s.txns && s.txns[x].phase.Locking? && IsLeast(s.txns[x].phase.left, t)
    requires t in s.db.tasks ==> t !in s.locks
    ensures Inv(s.(locks := if t in s.db.tasks then s.locks[t := x] else s.locks,
                   txns := s.txns[x := s.txns[x].(phase := Locking(s.txns[x].phase.left - {t}))]))
  {
    hide Names, OnePending, Rooted;
    var after := s.(locks := if t in s.db.tasks then s.locks[t := x] else s.locks,
                    txns := s.txns[x := s.txns[x].(phase := Locking(s.txns[x].phase.left - {t}))]);
    assert TxnOk(s, x);
    forall y | y in after.txns.Keys ensures TxnOk(after, y) {
      if y != x { assert TxnOk(s, y); }
    }
  }

  lemma FinishKeeps(s: System, x: TxId, ok: bool)
    requires Inv(s) && x in s.txns
    ensures Inv(Done(s, x, ok))
  {
    hide Names, OnePending, Rooted;
    var after := Done(s, x, ok);
    forall y | y in after.txns.Keys ensures TxnOk(after, y) {
      if y != x { assert TxnOk(s, y); }
    }
  }

  lemma CheckKeeps(s: System, x: TxId)
    requires Inv(s) && x in s.txns && s.txns[x].phase.Checking?
    ensures Inv(Act(s, Check(x)))
  {
    hide Names, OnePending, Rooted;
    var txn := s.txns[x];
    var except := if txn.ask.Change? then Some(txn.ask.id) else None;
    if Conflict(s.db, txn.ask.board, txn.guards, except) {
      FinishKeeps(s, x, false);
    } else {
      var after := Act(s, Check(x));
      forall a, t | t in txn.guards && PendingOn(s.db, a, txn.ask.board, t) ensures a == txn.ask.id {
        assert a in s.db.approvals.Keys && t in Names(s.db, a) * txn.guards;
      }
      assert TxnOk(s, x);
      forall y | y in after.txns.Keys ensures TxnOk(after, y) {
        if y != x { assert TxnOk(s, y); }
      }
    }
  }

  lemma RemoveKeeps(s: System, t: TaskId)
    requires Inv(s) && t !in s.locks
    ensures Inv(Act(s, Remove(t)))
  {
    RemoveShrinks(s.db, t);
    hide Names, Rooted, RemoveTask;
    var after := Act(s, Remove(t));
    assert after.db.tasks == s.db.tasks - {t} && after.db.used == s.db.used by { RemoveTables(s.db, t); }
    forall a, board, u | PendingOn(after.db, a, board, u) ensures PendingOn(s.db, a, board, u) {
    }
    forall y | y in after.txns.Keys ensures TxnOk(after, y) {
      assert TxnOk(s, y);
    }
  }

  lemma RemoveTables(db: Db, t: TaskId)
    ensures RemoveTask(db, t).tasks == db.tasks - {t} && RemoveTask(db, t).used == db.used
  {
  }

  /** `x` makes an approval pending, or some approval less so; what its locks exclude. */
  lemma WriteIsExclusive(s: System, x: TxId, y: TxId, t: TaskId)
    requires Inv(s) && x in s.txns && y in s.txns && s.txns[x].phase.Writing? && s.txns[y].phase.Writing?
    requires t in s.txns[x].guards && t in s.txns[y].guards && t in s.db.tasks
    ensures x == y
  {
    hide Names, OnePending, Rooted, PendingOn;
    assert TxnOk(s, x) && TxnOk(s, y);
  }

  /** The tables after a write: one approval changed or appeared, and if it is pending now and was not before,
      the writer guarded all it names. */
  ghost predicate Wrote(s: System, x: TxId, db: Db)
    requires x in s.txns
  {
    var ask := s.txns[x].ask;
    && Rooted(db) && db.tasks == s.db.tasks && s.db.used <= db.used
    && s.db.approvals.Keys <= db.approvals.Keys <= s.db.approvals.Keys + {ask.id}
    && (ask.id in s.db.used ==> ask.id in s.db.approvals)
    && (forall a <- s.db.approvals.Keys ::
          db.approvals[a].board == s.db.approvals[a].board && Names(db, a) == Names(s.db, a))
    && (forall a <- s.db.approvals.Keys :: a != ask.id ==> db.approvals[a] == s.db.approvals[a])
    && (ask.id in db.approvals && ask.id !in s.db.approvals ==>
          ask.Create? && db.approvals[ask.id].board == ask.board && Names(db, ask.id) == Listed(ask.named))
    && (forall board, t :: PendingOn(db, ask.id, board, t) ==>
          PendingOn(s.db, ask.id, board, t) || (board == ask.board && t in s.txns[x].guards && t in db.tasks))
  }

  lemma CreateWrites(s: System, x: TxId)
    requires Inv(s) && x in s.txns && s.txns[x].phase.Writing? && s.txns[x].ask.Create?
    requires s.txns[x].ask.id !in s.db.used && forall t <- s.txns[x].ask.named :: t in s.db.tasks
    ensures Wrote(s, x, Act(s, Commit(x)).db)
  {
    hide TasksOf, OnePending, LocksOrdered, Holds, Clear, LinksTo, Names, Rooted;
    assert TxnOk(s, x) && s.db.approvals.Keys <= s.db.used by { RootedUses(s.db); }
    var ask := s.txns[x].ask;
    NamesAfterCreate(s.db, Act(s, Commit(x)).db, ask.id, ask.named,
                     Row(ask.board, if ask.named == [] then None else Some(ask.named[0]), ask.status));
  }

  lemma RootedUses(db: Db)
    requires Rooted(db)
    ensures db.approvals.Keys <= db.used
  {
  }

  lemma ChangeWrites(s: System, x: TxId)
    requires Inv(s) && x in s.txns && s.txns[x].phase.Writing? && s.txns[x].ask.Change?
    requires s.txns[x].ask.id in s.db.approvals && s.txns[x].seen != Some(s.txns[x].ask.status)
    ensures Wrote(s, x, Act(s, Commit(x)).db)
  {
    hide TasksOf, OnePending, LocksOrdered, Holds, Clear;
    assert TxnOk(s, x);
  }

  lemma NewDb(s: System, x: TxId) returns (db: Db, ok: bool)
    requires Inv(s) && x in s.txns && s.txns[x].phase.Writing?
    ensures db == s.db || Wrote(s, x, db)
    ensures Act(s, Commit(x)) == Done(s.(db := db), x, ok)
  {
    hide Inv, Wrote, LinksTo;
    db := Act(s, Commit(x)).db;
    ok := Act(s, Commit(x)).txns[x].phase.ok;
    var ask := s.txns[x].ask;
    if ask.Create? {
      if ask.id !in s.db.used && forall t <- ask.named :: t in s.db.tasks { CreateWrites(s, x); }
    } else if ask.id in s.db.approvals && s.txns[x].seen != Some(ask.status) {
      ChangeWrites(s, x);
    }
  }

  /** What a transaction locks: the tasks it would make an approval pending for, none when it makes none. A change of
      another board's approval, or of none, is refused at once. */
  lemma ReadsExactly(s: System, x: TxId)
    requires x in s.txns && s.txns[x].phase.Waiting?
    ensures var ask, db, txn := s.txns[x].ask, s.db, Act(s, Read(x)).txns[x];
      var found := ask.Create? || (ask.id in db.approvals && db.approvals[ask.id].board == ask.board);
      var raises := ask.status == Pending && found && (ask.Change? ==> db.approvals[ask.id].status != Pending);
      && txn.ask == ask && (!found ==> txn.phase == Finished(false))
      && (found ==> txn.seen == (if ask.Change? then Some(db.approvals[ask.id].status) else None))
      && (found && !raises ==> txn.guards == {})
      && (raises ==> txn.guards == if ask.Create? then Listed(ask.named) else Names(db, ask.id))
      && (found ==> txn.phase == if txn.guards == {} then Writing else Locking(txn.guards))
  {
    hide Names;
  }

  /** With every lock held, a transaction goes on to write unless another approval of its board is pending for one of
      the tasks. */
  lemma ChecksExactly(s: System, x: TxId)
    requires x in s.txns && s.txns[x].phase.Checking?
    ensures var ask, guards := s.txns[x].ask, s.txns[x].guards;
      var rival := exists a <- s.db.approvals.Keys, t <- guards ::
        PendingOn(s.db, a, ask.board, t) && (ask.Change? ==> a != ask.id);
      Act(s, Check(x)).txns[x].phase == (if rival then Finished(false) else Writing) && Act(s, Check(x)).db == s.db
  {
    hide Names;
    var ask, guards := s.txns[x].ask, s.txns[x].guards;
    var except := if ask.Change? then Some(ask.id) else None;
    if Conflict(s.db, ask.board, guards, except) {
      var a :| a in s.db.approvals.Keys && s.db.approvals[a].board == ask.board && s.db.approvals[a].status == Pending
               && Some(a) != except && Names(s.db, a) * guards != {};
      var t :| t in Names(s.db, a) * guards;
      assert PendingOn(s.db, a, ask.board, t);
    }
    if a, t :|
      (a in s.db.approvals.Keys && t in guards && PendingOn(s.db, a, ask.board, t) && (ask.Change? ==> a != ask.id)) {
      assert t in Names(s.db, a) * guards;
    }
  }

  /** A committed creation stores the approval as asked, with its first task and its links in order; a committed change
      of status leaves the row in the status asked for, and writes nothing when that is what it had read. */
  lemma CommittedAsAsked(s: System, x: TxId)
    requires x in s.txns && s.txns[x].phase.Writing?
    ensures var ask, db, after := s.txns[x].ask, s.db, Act(s, Commit(x));
      var named := if ask.Create? then ask.named else [];
      && x in after.txns
      && after.txns[x].phase == Finished(if ask.Create? then ask.id !in db.used && forall t <- named :: t in db.tasks
                                         else ask.id in db.approvals)
      && (after.txns[x].phase != Finished(true) ==> after.db == db)
      && (after.txns[x].phase == Finished(true) && ask.Create? ==>
            after.db == Db(db.tasks,
                           db.approvals[ask.id :=
                                           Row(ask.board, if named == [] then None else Some(named[0]), ask.status)],
                           after.db.links, db.used + {ask.id})
            && after.db.links == db.links + LinksTo(ask.id, named))
      && (after.txns[x].phase == Finished(true) && ask.Change? && s.txns[x].seen == Some(ask.status) ==> after.db == db)
      && (after.txns[x].phase == Finished(true) && ask.Change? && s.txns[x].seen != Some(ask.status) ==>
            ask.id in db.approvals
            && after.db == db.(approvals := db.approvals[ask.id := db.approvals[ask.id].(status := ask.status)]))
  {
    hide LinksTo;
  }

  lemma WroteOnce(s: System, x: TxId, db: Db)
    requires Inv(s) && x in s.txns && s.txns[x].phase.Writing? && Wrote(s, x, db)
    ensures OnePending(db)
  {
    hide Rooted, LocksOrdered, Holds, Covers, Names;
    assert TxnOk(s, x);
    var id := s.txns[x].ask.id;
    forall a, board, t | PendingOn(db, a, board, t) && a != id ensures PendingOn(s.db, a, board, t) {
    }
  }

  lemma WroteClear(s: System, x: TxId, y: TxId, db: Db)
    requires Inv(s) && x in s.txns && s.txns[x].phase.Writing? && Wrote(s, x, db) && y in s.txns
    ensures Clear(s.(db := db), y)
  {
    hide Rooted, LocksOrdered, Holds, Covers, OnePending, Names;
    assert TxnOk(s, y) && TxnOk(s, x);
    var id := s.txns[x].ask.id;
    if s.txns[y].phase.Writing? {
      forall a, t | t in s.txns[y].guards && PendingOn(db, a, s.txns[y].ask.board, t) ensures a == s.txns[y].ask.id {
        if a == id && !PendingOn(s.db, id, s.txns[y].ask.board, t) {
          WriteIsExclusive(s, x, y, t);
        } else {
          assert PendingOn(s.db, a, s.txns[y].ask.board, t);
        }
      }
    }
  }

  lemma WroteKeeps(s: System, x: TxId, db: Db)
    requires Inv(s) && x in s.txns && s.txns[x].phase.Writing? && Wrote(s, x, db)
    ensures Inv(s.(db := db))
  {
    hide Rooted, LocksOrdered, OnePending, Names, PendingOn, Clear;
    WroteOnce(s, x, db);
    var after := s.(db := db);
    assert LocksOrdered(after) by { SameLocks(s, after); }
    forall y | y in after.txns.Keys ensures TxnOk(after, y) {
      assert TxnOk(s, y);
      WroteClear(s, x, y, db);
    }
  }

  lemma SameLocks(s: System, after: System)
    requires LocksOrdered(s) && after.locks == s.locks && after.txns == s.txns
    ensures LocksOrdered(after)
  {
  }

  lemma CommitKeeps(s: System, x: TxId)
    requires Inv(s) && x in s.txns && s.txns[x].phase.Writing?
    ensures Inv(Act(s, Commit(x)))
  {
    hide *;
    var db, ok := NewDb(s, x);
    if db != s.db { WroteKeeps(s, x, db); }
    assert s.(db := s.db) == s;
    FinishKeeps(s.(db := db), x, ok);
  }

  lemma ActKeeps(s: System, action: Action)
    requires Inv(s)
    ensures Inv(Act(s, action))
  {
    hide Inv, TakeLock, Look, Write, Done, Begin, RemoveTask;
    match action
    case Read(x) => if x in s.txns && s.txns[x].phase.Waiting? { BeginKeeps(s, x); }
    case Lock(x) => if x in s.txns && s.txns[x].phase.Locking? { LockKeeps(s, x); }
    case Check(x) => if x in s.txns && s.txns[x].phase.Checking? { CheckKeeps(s, x); }
    case Commit(x) => if x in s.txns && s.txns[x].phase.Writing? { CommitKeeps(s, x); }
    case Fail(x) => if x in s.txns { FinishKeeps(s, x, false); }
    case Remove(t) => if t !in s.locks { RemoveKeeps(s, t); }
  }

  // ----- the theorems -----

  /** Tables before any of the transactions has moved. */
  ghost predicate Start(s: System) {
    OnePending(s.db) && Rooted(s.db) && s.locks == map[] && forall x <- s.txns.Keys :: s.txns[x].phase.Waiting?
  }

  lemma {:induction false} EveryInterleavingKeeps(s: System, schedule: seq<Action>)
    requires Start(s)
    ensures Inv(Interleaving(s, schedule))
  {
    hide Act, OnePending, Rooted;
    if schedule != [] {
      EveryInterleavingKeeps(s, schedule[..|schedule| - 1]);
      ActKeeps(Interleaving(s, schedule[..|schedule| - 1]), schedule[|schedule| - 1]);
    }
  }

  /** In every interleaving, each task has at most one pending approval on each board. */
  lemma AtMostOnePending(s: System, schedule: seq<Action>)
    requires Start(s)
    ensures OnePending(Interleaving(s, schedule).db)
  {
    EveryInterleavingKeeps(s, schedule);
  }

  /** Nobody deadlocks: as long as a transaction is unfinished, some unfinished transaction is not blocked. */
  lemma SomeoneMoves(s: System, x: TxId) returns (mover: TxId)
    requires Inv(s) && x in s.txns && !s.txns[x].phase.Finished?
    ensures mover in s.txns && !s.txns[mover].phase.Finished? && !Blocked(s, mover)
    decreases if Blocked(s, x) then 1 + |Above(s, Least(s.txns[x].phase.left))| else 0
  {
    hide OnePending, Rooted, TxnOk;
    if Blocked(s, x) {
      var t := Least(s.txns[x].phase.left);
      var y := s.locks[t];
      if Blocked(s, y) {
        var u := Least(s.txns[y].phase.left);
        assert t < u && u in Above(s, t) && u !in Above(s, u);
        assert Above(s, u) <= Above(s, t) - {u};
        Sets.SubsetSize(Above(s, u), Above(s, t) - {u});
      }
      mover := SomeoneMoves(s, y);
    } else {
      mover := x;
    }
  }

  /** The locked tasks not before `t`, `t` excluded. */
  function Above(s: System, t: TaskId): set<TaskId> {
    set u | u in s.locks.Keys && u > t
  }

  // ----- the same task on two boards -----

  lemma {:induction false} Concatenated(s: System, first: seq<Action>, second: seq<Action>)
    ensures Interleaving(s, first + second) == Interleaving(Interleaving(s, first), second)
  {
    if second == [] {
      assert first + second == first;
    } else {
      assert (first + second)[..|first + second| - 1] == first + second[..|second| - 1];
      Concatenated(s, first, second[..|second| - 1]);
    }
  }

  function Alone(x: TxId): seq<Action> {
    [Read(x), Lock(x), Lock(x), Check(x), Commit(x)]
  }

  lemma FiveSteps(s: System, x: TxId)
    ensures Interleaving(s, Alone(x)) == Act(Act(Act(Act(Act(s, Read(x)), Lock(x)), Lock(x)), Check(x)), Commit(x))
  {
    hide Act;
    var a := Alone(x);
    assert a[..4] == a[..5][..4] && a[..3] == a[..4][..3] && a[..2] == a[..3][..2] && a[..1] == a[..2][..1];
    assert a[..5] == a && a[..0] == [];
    assert Interleaving(s, a[..1]) == Act(s, Read(x));
    assert Interleaving(s, a[..2]) == Act(Interleaving(s, a[..1]), Lock(x));
    assert Interleaving(s, a[..3]) == Act(Interleaving(s, a[..2]), Lock(x));
    assert Interleaving(s, a[..4]) == Act(Interleaving(s, a[..3]), Check(x));
  }

  predicate CanCreate(s: System, x: TxId, board: BoardId, id: ApprovalId, t: TaskId) {
    x in s.txns && s.txns[x] == Txn(Ask.Create(board, id, Pending, [t]), Waiting, {}, None)
    && t in s.db.tasks && t !in s.locks && id !in s.db.used && !Conflict(s.db, board, {t}, None)
  }

  function Created(db: Db, board: BoardId, id: ApprovalId, t: TaskId): Db {
    db.(approvals := db.approvals[id := Row(board, Some(t), Pending)], links := db.links + LinksTo(id, [t]),
        used := db.used + {id})
  }

  lemma ReadAlone(s: System, x: TxId, board: BoardId, id: ApprovalId, t: TaskId)
    requires CanCreate(s, x, board, id, t)
    ensures Act(s, Read(x)) == s.(txns := s.txns[x := s.txns[x].(phase := Locking({t}), guards := {t})])
  {
    hide Conflict;
    assert Listed([t]) == {t};
  }

  lemma LockAlone(s: System, x: TxId, t: TaskId)
    requires x in s.txns && s.txns[x].phase == Locking({t}) && t in s.db.tasks && t !in s.locks
    ensures Act(Act(s, Lock(x)), Lock(x))
         == s.(locks := s.locks[t := x], txns := s.txns[x := s.txns[x].(phase := Checking)])
  {
    assert Least({t}) == t && {t} - {t} == {};
    var held := s.(locks := s.locks[t := x], txns := s.txns[x := s.txns[x].(phase := Locking({}))]);
    assert Act(s, Lock(x)) == held;
  }

  lemma WriteAlone(s: System, x: TxId, board: BoardId, id: ApprovalId, t: TaskId)
    requires x in s.txns && s.txns[x].phase == Checking && s.txns[x].ask == Ask.Create(board, id, Pending, [t])
    requires s.txns[x].guards == {t} && t in s.db.tasks && id !in s.db.used && !Conflict(s.db, board, {t}, None)
    requires t in s.locks && s.locks[t] == x
    ensures var after := Act(Act(s, Check(x)), Commit(x));
      after.db == Created(s.db, board, id, t) && t !in after.locks
      && forall y <- s.txns.Keys :: y in after.txns && (y != x ==> after.txns[y] == s.txns[y])
  {
    hide Conflict, LinksTo;
    assert Act(s, Check(x)) == s.(txns := s.txns[x := s.txns[x].(phase := Writing)]);
  }

  /** Left alone, a request without rivals on its board goes through. */
  lemma AloneItGoesThrough(s: System, x: TxId, board: BoardId, id: ApprovalId, t: TaskId)
    requires CanCreate(s, x, board, id, t)
    ensures var after := Interleaving(s, Alone(x));
      after.db == Created(s.db, board, id, t) && t !in after.locks
      && forall y <- s.txns.Keys :: y in after.txns && (y != x ==> after.txns[y] == s.txns[y])
  {
    hide Conflict, LinksTo, Act, Interleaving, Created;
    FiveSteps(s, x);
    ReadAlone(s, x, board, id, t);
    var s1 := Act(s, Read(x));
    LockAlone(s1, x, t);
    WriteAlone(Act(Act(s1, Lock(x)), Lock(x)), x, board, id, t);
  }

  /** Conflicts are looked for on the request's own board only, and a request may name any task: two boards can
      each get a pending approval of one task. */
  lemma TwoBoardsCollide(s: System, x: TxId, y: TxId, one: BoardId, other: BoardId, a: ApprovalId, c: ApprovalId,
                         t: TaskId)
    requires Start(s) && x != y && one != other && a != c
    requires CanCreate(s, x, one, a, t) && CanCreate(s, y, other, c, t)
    ensures var db := Interleaving(s, Alone(x) + Alone(y)).db; PendingOn(db, a, one, t) && PendingOn(db, c, other, t)
  {
    hide OnePending, LinksTo, TasksOf, Names, Interleaving;
    Concatenated(s, Alone(x), Alone(y));
    AloneItGoesThrough(s, x, one, a, t);
    var middle := Interleaving(s, Alone(x));
    CreatedNames(s.db, one, a, t);
    assert CanCreate(middle, y, other, c, t);
    AloneItGoesThrough(middle, y, other, c, t);
    CreatedNames(middle.db, other, c, t);
  }

  lemma CreatedNames(db: Db, board: BoardId, id: ApprovalId, t: TaskId)
    requires Rooted(db) && id !in db.used && t in db.tasks
    ensures var after := Created(db, board, id, t);
      Rooted(after) && Names(after, id) == {t} && forall a <- db.approvals.Keys :: Names(after, a) == Names(db, a)
  {
    hide Rooted, Names;
    assert Listed([t]) == {t};
    NamesAfterCreate(db, Created(db, board, id, t), id, [t], Row(board, Some(t), Pending));
  }

  // ----- pending anywhere -----

  predicate PendingFor(db: Db, a: ApprovalId, t: TaskId) {
    a in db.approvals && db.approvals[a].status == Pending && t in Names(db, a)
  }

  /** Each task has at most one pending approval, of whatever board. */
  ghost predicate OneAnywhere(db: Db) {
    forall a, c, t :: PendingFor(db, a, t) && PendingFor(db, c, t) ==> a == c
  }

  /** The tasks the write of a transaction makes an approval pending for. */
  function Raises(s: System, x: TxId): set<TaskId>
    requires x in s.txns
  {
    var txn := s.txns[x];
    match txn.ask
    case Create(_, a, status, named) =>
      if status == Pending && a !in s.db.used && Listed(named) <= s.db.tasks then Listed(named) else {}
    case Change(_, a, status) =>
      if status == Pending && a in s.db.approvals && txn.seen != Some(Pending) then Names(s.db, a) else {}
  }

  /** An approval of another board is pending for a task the write makes pending. */
  predicate Crossed(s: System, x: TxId, a: ApprovalId, t: TaskId)
    requires x in s.txns
  {
    t in Raises(s, x) && PendingFor(s.db, a, t) && s.db.approvals[a].board != s.txns[x].ask.board
  }

  /** The action commits a write that meets such an approval. */
  ghost predicate Crosses(s: System, action: Action) {
    action.Commit? && action.tx in s.txns && s.txns[action.tx].phase.Writing?
    && exists a, t :: Crossed(s, action.tx, a, t)
  }

  /** What a write leaves pending: what it raises, and what was pending before. */
  ghost predicate RaisesOnly(s: System, x: TxId, after: Db)
    requires x in s.txns
  {
    var id, board := s.txns[x].ask.id, s.txns[x].ask.board;
    && (forall a, t :: a != id ==> (PendingFor(after, a, t) <==> PendingFor(s.db, a, t)))
    && (forall a :: a != id && a in after.approvals && a in s.db.approvals ==>
          after.approvals[a].board == s.db.approvals[a].board)
    && (forall t <- Raises(s, x) :: PendingFor(after, id, t) && after.approvals[id].board == board)
    && (forall t :: PendingFor(after, id, t) ==> t in Raises(s, x) || PendingFor(s.db, id, t))
    && (Raises(s, x) != {} && id in s.db.approvals ==> s.db.approvals[id].board == board)
  }

  lemma CreateRaises(s: System, x: TxId)
    requires Inv(s) && x in s.txns && s.txns[x].phase.Writing? && s.txns[x].ask.Create?
    ensures RaisesOnly(s, x, Act(s, Commit(x)).db)
  {
    hide TasksOf, OnePending, LocksOrdered, TxnOk, LinksTo, Names, Rooted;
    var ask := s.txns[x].ask;
    assert s.db.approvals.Keys <= s.db.used by { RootedUses(s.db); }
    if ask.id !in s.db.used && forall t <- ask.named :: t in s.db.tasks {
      NamesAfterCreate(s.db, Act(s, Commit(x)).db, ask.id, ask.named,
                       Row(ask.board, if ask.named == [] then None else Some(ask.named[0]), ask.status));
    }
  }

  lemma ChangeRaises(s: System, x: TxId)
    requires Inv(s) && x in s.txns && s.txns[x].phase.Writing? && s.txns[x].ask.Change?
    ensures RaisesOnly(s, x, Act(s, Commit(x)).db)
  {
    hide TasksOf, OnePending, LocksOrdered, Holds, Clear;
    assert TxnOk(s, x);
  }

  lemma SameBoardIsOne(db: Db, a: ApprovalId, c: ApprovalId, t: TaskId)
    requires OnePending(db) && PendingFor(db, a, t) && PendingFor(db, c, t)
    requires db.approvals[a].board == db.approvals[c].board
    ensures a == c
  {
    hide Names;
    assert PendingOn(db, a, db.approvals[a].board, t) && PendingOn(db, c, db.approvals[a].board, t);
  }

  lemma RivalStays(s: System, x: TxId, after: Db, a: ApprovalId, t: TaskId)
    requires x in s.txns && RaisesOnly(s, x, after) && Crossed(s, x, a, t)
    ensures !OneAnywhere(after)
  {
    hide Names, Raises, PendingFor;
    assert a in s.db.approvals by { PendingExists(s.db, a, t); }
    assert PendingFor(after, a, t) && PendingFor(after, s.txns[x].ask.id, t);
  }

  lemma PendingExists(db: Db, a: ApprovalId, t: TaskId)
    requires PendingFor(db, a, t)
    ensures a in db.approvals
  {
  }

  /** An approval pending beside one the write raised is of another board, and was pending before. */
  lemma BesideRaised(s: System, x: TxId, after: Db, c: ApprovalId, t: TaskId)
    requires x in s.txns && RaisesOnly(s, x, after) && OnePending(after) && OneAnywhere(s.db)
    requires PendingFor(after, s.txns[x].ask.id, t) && PendingFor(after, c, t) && c != s.txns[x].ask.id
    ensures Crossed(s, x, c, t)
  {
    hide Names, Raises, OnePending;
    assert PendingFor(s.db, c, t);
    if after.approvals[c].board == s.txns[x].ask.board { SameBoardIsOne(after, s.txns[x].ask.id, c, t); }
  }

  lemma CommitAnywhere(s: System, x: TxId)
    requires Inv(s) && x in s.txns && s.txns[x].phase.Writing? && OneAnywhere(s.db)
    ensures OneAnywhere(Act(s, Commit(x)).db) <==> !Crosses(s, Commit(x))
  {
    hide Act, Names, Raises, PendingFor, OnePending, Rooted, LocksOrdered, TxnOk, RaisesOnly, Crossed;
    var after, id := Act(s, Commit(x)).db, s.txns[x].ask.id;
    if s.txns[x].ask.Create? { CreateRaises(s, x); } else { ChangeRaises(s, x); }
    CommitKeeps(s, x);
    if a, t :| Crossed(s, x, a, t) {
      RivalStays(s, x, after, a, t);
    } else {
      forall a: ApprovalId, c: ApprovalId, t: TaskId | PendingFor(after, a, t) && PendingFor(after, c, t)
        ensures a == c
      {
        if a != c && (a == id || c == id) {
          BesideRaised(s, x, after, if a == id then c else a, t);
        } else {
          OthersAsBefore(s, x, after, a, t);
          OthersAsBefore(s, x, after, c, t);
        }
      }
    }
  }

  lemma OthersAsBefore(s: System, x: TxId, after: Db, a: ApprovalId, t: TaskId)
    requires x in s.txns && RaisesOnly(s, x, after) && PendingFor(after, a, t)
    ensures a != s.txns[x].ask.id ==> PendingFor(s.db, a, t)
  {
  }

  lemma RemovalAnywhere(s: System, t: TaskId)
    requires Inv(s) && OneAnywhere(s.db) && t !in s.locks
    ensures OneAnywhere(Act(s, Remove(t)).db)
  {
    hide Names, Rooted, RemoveTask;
    assert Rooted(s.db) by { RootedNow(s); }
    RemoveShrinks(s.db, t);
    RemovedNow(s, t);
    forall a, u | PendingFor(RemoveTask(s.db, t), a, u) ensures PendingFor(s.db, a, u) {
      assert a in RemoveTask(s.db, t).approvals.Keys;
    }
  }

  /** A step leaves every task with at most one pending approval at all if and only if it is not the commit of a
      write that meets another board's. */
  lemma StepKeepsAnywhere(s: System, action: Action)
    requires Inv(s) && OneAnywhere(s.db)
    ensures OneAnywhere(Act(s, action).db) <==> !Crosses(s, action)
  {
    hide Act, Inv, OneAnywhere, Crossed;
    if action.Commit? && action.tx in s.txns && s.txns[action.tx].phase.Writing? {
      CommitAnywhere(s, action.tx);
    } else if action.Remove? && action.t !in s.locks {
      RemovalAnywhere(s, action.t);
    } else if action.Commit? || action.Remove? {
      NothingHappens(s, action);
    } else {
      DbStays(s, action);
    }
  }

  ghost predicate NeverCrosses(s: System, schedule: seq<Action>) {
    forall k :: 0 <= k < |schedule| ==> !Crosses(Interleaving(s, schedule[..k]), schedule[k])
  }

  /** In every state of the interleaving each task has at most one pending approval at all. */
  ghost predicate AlwaysOneAnywhere(s: System, schedule: seq<Action>) {
    forall k :: 0 <= k <= |schedule| ==> OneAnywhere(Interleaving(s, schedule[..k]).db)
  }

  lemma SplitAlways(s: System, schedule: seq<Action>)
    requires schedule != []
    ensures AlwaysOneAnywhere(s, schedule)
      <==> AlwaysOneAnywhere(s, schedule[..|schedule| - 1]) && OneAnywhere(Interleaving(s, schedule).db)
  {
    hide OneAnywhere, Interleaving;
    var n := |schedule| - 1;
    assert forall k :: 0 <= k <= n ==> schedule[..n][..k] == schedule[..k];
    assert schedule[..n + 1] == schedule;
  }

  lemma SplitNever(s: System, schedule: seq<Action>)
    requires schedule != []
    ensures var n := |schedule| - 1;
      NeverCrosses(s, schedule)
      <==> NeverCrosses(s, schedule[..n]) && !Crosses(Interleaving(s, schedule[..n]), schedule[n])
  {
    hide Crosses, Interleaving;
    var n := |schedule| - 1;
    assert forall k :: 0 <= k < n ==> schedule[..n][..k] == schedule[..k] && schedule[..n][k] == schedule[k];
  }

  /** In every state of an interleaving each task has at most one pending approval, of whatever board, if and only if
      that is so at the start and no commit meets another board's pending approval. */
  lemma {:induction false} OneAnywhereExactlyUnless(s: System, schedule: seq<Action>)
    requires Start(s)
    ensures AlwaysOneAnywhere(s, schedule) <==> OneAnywhere(s.db) && NeverCrosses(s, schedule)
  {
    hide Act, Inv, OneAnywhere, Crosses, Start;
    if schedule == [] {
      assert schedule[..0] == [];
    } else {
      var n := |schedule| - 1;
      var c := Interleaving(s, schedule[..n]);
      OneAnywhereExactlyUnless(s, schedule[..n]);
      SplitAlways(s, schedule);
      SplitNever(s, schedule);
      if AlwaysOneAnywhere(s, schedule[..n]) {
        assert schedule[..n][..n] == schedule[..n];
        EveryInterleavingKeeps(s, schedule[..n]);
        StepKeepsAnywhere(c, schedule[n]);
      }
    }
  }

  // ----- requests that stay at home -----

  /** Every approval, and every request to create one, is about tasks of its own board. */
  ghost predicate AtHome(s: System, home: TaskId -> BoardId) {
    && (forall a <- s.db.approvals.Keys :: forall t <- Names(s.db, a) :: home(t) == s.db.approvals[a].board)
    && (forall x <- s.txns.Keys :: s.txns[x].ask.Create? ==>
          forall t <- s.txns[x].ask.named :: home(t) == s.txns[x].ask.board)
  }

  lemma AsksStay(s: System, action: Action)
    ensures var after := Act(s, action);
      after.txns.Keys == s.txns.Keys && forall x <- s.txns.Keys :: after.txns[x].ask == s.txns[x].ask
  {
    hide Names, Conflict, RemoveTask, Blocked;
  }

  lemma DbStays(s: System, action: Action)
    requires !action.Commit? && !action.Remove?
    ensures Act(s, action).db == s.db
  {
    hide Names, Conflict, RemoveTask, Blocked;
  }

  lemma HomeKeeps(s: System, action: Action, home: TaskId -> BoardId)
    requires Inv(s) && AtHome(s, home)
    ensures AtHome(Act(s, action), home)
  {
    AsksStay(s, action);
    hide Act, Inv, Rooted, Names;
    if action.Commit? && action.tx in s.txns && s.txns[action.tx].phase.Writing? {
      var db, ok := NewDb(s, action.tx);
    } else if action.Remove? && action.t !in s.locks {
      assert Rooted(s.db) by { RootedNow(s); }
      RemoveShrinks(s.db, action.t);
      assert Act(s, action).db == RemoveTask(s.db, action.t) by { RemovedNow(s, action.t); }
    } else if action.Commit? || action.Remove? {
      assert Act(s, action) == s by { NothingHappens(s, action); }
    } else {
      DbStays(s, action);
    }
  }

  lemma RootedNow(s: System)
    requires Inv(s)
    ensures Rooted(s.db)
  {
  }

  lemma RemovedNow(s: System, t: TaskId)
    requires t !in s.locks
    ensures Act(s, Remove(t)).db == RemoveTask(s.db, t)
  {
  }

  lemma NothingHappens(s: System, action: Action)
    requires action.Commit? ==> action.tx !in s.txns || !s.txns[action.tx].phase.Writing?
    requires action.Remove? ==> action.t in s.locks
    requires action.Commit? || action.Remove?
    ensures Act(s, action) == s
  {
  }

  /** Boards that stay at home never cross. */
  lemma HomeNeverCrosses(s: System, action: Action, home: TaskId -> BoardId)
    requires Inv(s) && AtHome(s, home)
    ensures !Crosses(s, action)
  {
    hide Names, OnePending, Rooted, LocksOrdered;
    if action.Commit? && action.tx in s.txns && s.txns[action.tx].phase.Writing? {
      var x := action.tx;
      assert TxnOk(s, x);
      forall a, t ensures !Crossed(s, x, a, t) {
        if t in Raises(s, x) && PendingFor(s.db, a, t) {
          assert a in s.db.approvals.Keys && home(t) == s.db.approvals[a].board;
          RaisedAtHome(s, x, home, t);
        }
      }
    }
  }

  lemma RaisedAtHome(s: System, x: TxId, home: TaskId -> BoardId, t: TaskId)
    requires AtHome(s, home) && x in s.txns && s.txns[x].phase.Writing? && Covers(s, x) && t in Raises(s, x)
    ensures home(t) == s.txns[x].ask.board
  {
    hide Names;
  }

  lemma HomeIsOne(db: Db, home: TaskId -> BoardId)
    requires OnePending(db)
    requires forall a <- db.approvals.Keys :: forall t <- Names(db, a) :: home(t) == db.approvals[a].board
    ensures OneAnywhere(db)
  {
    hide Names, OnePending;
    forall a, c, t | PendingFor(db, a, t) && PendingFor(db, c, t) ensures a == c {
      assert a in db.approvals.Keys && c in db.approvals.Keys;
      SameBoardIsOne(db, a, c, t);
    }
  }

  lemma {:induction false} HomeThroughout(s: System, schedule: seq<Action>, home: TaskId -> BoardId)
    requires Start(s) && AtHome(s, home)
    ensures AtHome(Interleaving(s, schedule), home) && NeverCrosses(s, schedule)
  {
    hide Act, AtHome, Start, Inv, Crosses;
    if schedule != [] {
      var n := |schedule| - 1;
      HomeThroughout(s, schedule[..n], home);
      EveryInterleavingKeeps(s, schedule[..n]);
      HomeNeverCrosses(Interleaving(s, schedule[..n]), schedule[n], home);
      HomeKeeps(Interleaving(s, schedule[..n]), schedule[n], home);
      SplitNever(s, schedule);
    }
  }

  /** When every board's approvals and requests are about its own tasks, each task has at most one pending
      approval at all, in every state of every interleaving. */
  lemma AtMostOnePendingAnywhere(s: System, schedule: seq<Action>, home: TaskId -> BoardId)
    requires Start(s) && AtHome(s, home)
    ensures AtHome(Interleaving(s, schedule), home)
    ensures AlwaysOneAnywhere(s, schedule) && OneAnywhere(Interleaving(s, schedule).db)
  {
    hide Act, Interleaving, Names, Rooted, NeverCrosses, OneAnywhere, OnePending;
    HomeThroughout(s, schedule, home);
    HomeIsOne(s.db, home);
    OneAnywhereExactlyUnless(s, schedule);
    assert schedule[..|schedule|] == schedule;
  }

  // ----- a collision -----

  /** Such a commit happens: two boards each ask for an approval of the one task there is, one after the other. */
  lemma CollisionHappens()
    ensures exists s: System, schedule: seq<Action> ::
      Start(s) && OneAnywhere(s.db) && !OneAnywhere(Interleaving(s, schedule).db) && !NeverCrosses(s, schedule)
  {
    hide Interleaving, NeverCrosses, TasksOf;
    var first := Txn(Ask.Create(1, 1, Pending, [1]), Waiting, {}, None);
    var second := Txn(Ask.Create(2, 2, Pending, [1]), Waiting, {}, None);
    var s := System(Db({1}, map[], [], {}), map[], map[1 := first, 2 := second]);
    TwoBoardsCollide(s, 1, 2, 1, 2, 1, 2, 1);
    var schedule := Alone(1) + Alone(2);
    Collided(Interleaving(s, schedule).db, 1, 1, 2, 2, 1);
    OneAnywhereExactlyUnless(s, schedule);
    assert schedule[..|schedule|] == schedule;
  }

  lemma Collided(db: Db, a: ApprovalId, one: BoardId, c: ApprovalId, other: BoardId, t: TaskId)
    requires PendingOn(db, a, one, t) && PendingOn(db, c, other, t) && a != c
    ensures !OneAnywhere(db)
  {
    hide Names;
    assert PendingFor(db, a, t) && PendingFor(db, c, t);
  }
}
