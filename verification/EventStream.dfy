/** The resumable event stream: a cursor, and a bounded memory of the ids already delivered. */
module EventStream {
  import Sets

  type EventId = nat
  type Time = int

  datatype Event = Event(id: EventId, at: Time)

  /** What one connection remembers between polls. How much it may hold is `limit` below; the service uses 2000. */
  datatype Memory = Memory(lastSeen: Time, queue: seq<EventId>)

  function Later(a: Time, b: Time): Time {
    if a < b then b else a
  }

  /** The queue with one more id, the oldest dropped when it is too long. */
  function Remember(queue: seq<EventId>, id: EventId, limit: nat): seq<EventId> {
    var longer := queue + [id];
    if |longer| > limit then longer[1..] else longer
  }

  /** One row: skipped when its id is remembered, otherwise delivered. */
  function Row(r: (Memory, seq<Event>), e: Event, limit: nat): (Memory, seq<Event>) {
    if e.id in r.0.queue then r
    else (Memory(Later(r.0.lastSeen, e.at), Remember(r.0.queue, e.id, limit)), r.1 + [e])
  }

  /** The memory after a poll has gone through its rows, and what it yielded. */
  function Poll(m: Memory, rows: seq<Event>, limit: nat): (Memory, seq<Event>) {
    if rows == [] then (m, []) else Row(Poll(m, rows[..|rows| - 1], limit), rows[|rows| - 1], limit)
  }

  function Polls(m: Memory, fetched: seq<seq<Event>>, limit: nat): (r: (Memory, seq<Event>)) {
    if fetched == [] then (m, [])
    else
      var (before, yielded) := Polls(m, fetched[..|fetched| - 1], limit);
      var (after, more) := Poll(before, fetched[|fetched| - 1], limit);
      (after, yielded + more)
  }

  // ----- the loop -----

  class Generator {
    const limit: nat
    var lastSeen: Time
    var seenIds: set<EventId>
    var seenQueue: seq<EventId>

    /** The set holds the queue's ids, each of which is in the queue once. */
    ghost predicate Valid()
      reads this
    {
      && (forall x :: x in seenIds <==> x in seenQueue)
      && (forall i, j :: 0 <= i < j < |seenQueue| ==> seenQueue[i] != seenQueue[j])
      && |seenQueue| <= limit
    }

    function AsMemory(): Memory
      reads this
    {
      Memory(lastSeen, seenQueue)
    }

    constructor (since: Time, limit: nat)
      ensures Valid() && AsMemory() == Memory(since, []) && this.limit == limit
    {
      this.limit := limit;
      lastSeen, seenIds, seenQueue := since, {}, [];
    }

    method Deliver(rows: seq<Event>) returns (yielded: seq<Event>)
      requires Valid()
      modifies this
      ensures Valid() && |seenIds| == |seenQueue|
      ensures (AsMemory(), yielded) == Poll(old(AsMemory()), rows, limit)
    {
      yielded := [];
      ghost var start := AsMemory();
      var k := 0;
      while k < |rows|
        invariant 0 <= k <= |rows| && Valid()
        invariant (AsMemory(), yielded) == Poll(start, rows[..k], limit)
      {
        assert rows[..k + 1][..k] == rows[..k];
        var e := rows[k];
        k := k + 1;
        if e.id in seenIds { continue; }
        RememberedSet(seenQueue, seenIds, e.id);
        seenIds := seenIds + {e.id};
        seenQueue := seenQueue + [e.id];
        if |seenQueue| > limit {
          var oldest := seenQueue[0];
          seenQueue := seenQueue[1..];
          seenIds := seenIds - {oldest};
        }
        lastSeen := if lastSeen < e.at then e.at else lastSeen;
        yielded := yielded + [e];
      }
      assert rows[..k] == rows;
      DistinctSize(seenQueue, seenIds);
    }
  }

  /** Adding an id to both, and dropping the queue's oldest from both, keeps the set and the queue alike. */
  lemma RememberedSet(queue: seq<EventId>, seen: set<EventId>, id: EventId)
    requires (forall x :: x in seen <==> x in queue) && id !in seen
    requires forall i, j :: 0 <= i < j < |queue| ==> queue[i] != queue[j]
    ensures var longer := queue + [id];
      (forall x :: x in seen + {id} <==> x in longer)
      && (forall x :: x in (seen + {id}) - {longer[0]} <==> x in longer[1..])
  {
    var longer := queue + [id];
    assert forall x :: x in longer <==> x in queue || x == id;
    assert longer == [longer[0]] + longer[1..];
    assert longer[0] !in longer[1..];
  }

  lemma {:induction false} DistinctSize<T>(q: seq<T>, s: set<T>)
    requires forall x :: x in s <==> x in q
    requires forall i, j :: 0 <= i < j < |q| ==> q[i] != q[j]
    ensures |s| == |q|
  {
    if q == [] {
      assert s == {};
    } else {
      assert forall x :: x in q <==> x in q[1..] || x == q[0];
      DistinctSize(q[1..], s - {q[0]});
    }
  }

  // ----- what a poll fetches -----

  predicate Sorted(es: seq<Event>) {
    forall i, j :: 0 <= i < j < |es| ==> es[i].at <= es[j].at
  }

  predicate Distinct(es: seq<Event>) {
    forall i, j :: 0 <= i < j < |es| ==> es[i] != es[j]
  }

  /** Ids identify the events of the store. */
  predicate Identified(store: set<Event>) {
    forall a, b :: a in store && b in store && a.id == b.id ==> a == b
  }

  function AtTime(store: set<Event>, time: Time): set<Event> {
    set e | e in store && e.at == time
  }

  /** No timestamp is shared by more events than the memory holds. */
  ghost predicate GroupsFit(store: set<Event>, limit: nat) {
    forall time :: |AtTime(store, time)| <= limit
  }

  /** Rows of the store not older than the cursor, each once, in order of time. */
  predicate IsFetch(store: set<Event>, since: Time, rows: seq<Event>) {
    Sorted(rows) && Distinct(rows) && forall e <- rows :: e in store && since <= e.at
  }

  /** Each poll fetches with the cursor the polls before it left; the store only matters through the rows. */
  predicate Fetches(store: set<Event>, m: Memory, fetched: seq<seq<Event>>, limit: nat) {
    forall k :: 0 <= k < |fetched| ==>
      IsFetch(store, Polls(m, fetched[..k], limit).0.lastSeen, fetched[k])
  }

  // ----- the invariant -----

  function Ids(es: seq<Event>): (ids: seq<EventId>)
    ensures |ids| == |es| && forall i :: 0 <= i < |es| ==> ids[i] == es[i].id
  {
    if es == [] then [] else Ids(es[..|es| - 1]) + [es[|es| - 1].id]
  }

  /** How many of the events delivered are forgotten. */
  function Forgotten(yielded: seq<Event>, limit: nat): nat {
    if |yielded| > limit then |yielded| - limit else 0
  }

  /** The ids of the last events delivered, as many as the memory holds. */
  function LastIds(yielded: seq<Event>, limit: nat): seq<EventId> {
    Ids(yielded)[Forgotten(yielded, limit)..]
  }

  /** After delivering `yielded`, all at once or over polls. */
  predicate Tracks(m: Memory, since: Time, yielded: seq<Event>, store: set<Event>, limit: nat) {
    && Sorted(yielded) && Distinct(yielded)
    && (forall e <- yielded :: e in store && since <= e.at <= m.lastSeen)
    && since <= m.lastSeen && (yielded != [] ==> m.lastSeen == yielded[|yielded| - 1].at)
    && m.queue == LastIds(yielded, limit)
  }

  /** The events from position `i` on share one timestamp, so they are no more than the memory holds. */
  lemma NewestGroupFits(yielded: seq<Event>, store: set<Event>, limit: nat, i: nat)
    requires Sorted(yielded) && Distinct(yielded) && GroupsFit(store, limit) && i < |yielded|
    requires (forall e <- yielded :: e in store) && yielded[|yielded| - 1].at == yielded[i].at
    ensures |yielded| - i <= limit
  {
    hide GroupsFit;
    var tail, time := yielded[i..], yielded[i].at;
    var group := set x | x in tail;
    DistinctSize(tail, group);
    assert group <= AtTime(store, time);
    Fits(store, limit, time);
    Sets.SubsetSize(group, AtTime(store, time));
  }

  /** An event delivered before, and not older than the cursor, is still remembered. */
  lemma StillRemembered(m: Memory, since: Time, yielded: seq<Event>, store: set<Event>, limit: nat, e: Event)
    requires Tracks(m, since, yielded, store, limit) && GroupsFit(store, limit)
    requires e in yielded && m.lastSeen <= e.at
    ensures e.id in m.queue
  {
    hide GroupsFit, Ids;
    var i :| 0 <= i < |yielded| && yielded[i] == e;
    NewestGroupFits(yielded, store, limit, i);
    assert m.queue[i - Forgotten(yielded, limit)] == Ids(yielded)[i];
  }

  lemma Fits(store: set<Event>, limit: nat, time: Time)
    requires GroupsFit(store, limit)
    ensures |AtTime(store, time)| <= limit
  {
  }

  lemma RememberLast(yielded: seq<Event>, e: Event, limit: nat)
    ensures Remember(LastIds(yielded, limit), e.id, limit) == LastIds(yielded + [e], limit)
  {
    assert Ids(yielded + [e]) == Ids(yielded) + [e.id];
    hide Ids;
  }

  /** Delivering one more event keeps the memory in step. */
  lemma DeliveryTracks(m: Memory, since: Time, yielded: seq<Event>, store: set<Event>, limit: nat, e: Event)
    requires Tracks(m, since, yielded, store, limit) && GroupsFit(store, limit)
    requires e in store && m.lastSeen <= e.at && e.id !in m.queue
    ensures Tracks(Memory(e.at, Remember(m.queue, e.id, limit)), since, yielded + [e], store, limit)
  {
    if e in yielded { StillRemembered(m, since, yielded, store, limit, e); }
    hide GroupsFit, LastIds, Remember;
    RememberLast(yielded, e, limit);
  }

  /** One poll keeps the memory in step, and leaves the cursor at its last row at most. */
  lemma {:induction false} PollTracks(store: set<Event>, since: Time, m: Memory, earlier: seq<Event>, rows: seq<Event>,
                                      limit: nat)
    requires Identified(store) && GroupsFit(store, limit) && Tracks(m, since, earlier, store, limit)
    requires IsFetch(store, m.lastSeen, rows)
    ensures var r := Poll(m, rows, limit); Tracks(r.0, since, earlier + r.1, store, limit)
    ensures rows != [] ==> Poll(m, rows, limit).0.lastSeen <= rows[|rows| - 1].at
    ensures rows == [] ==> Poll(m, rows, limit).0.lastSeen == m.lastSeen
  {
    PollStep(m, rows, limit);
    if rows == [] {
      assert earlier + [] == earlier;
    } else {
      hide *;
      var front, e := rows[..|rows| - 1], rows[|rows| - 1];
      FrontFetched(store, m.lastSeen, rows);
      PollTracks(store, since, m, earlier, front, limit);
      RowTracks(Poll(m, front, limit), earlier, since, store, limit, e);
    }
  }

  lemma RowTracks(r: (Memory, seq<Event>), earlier: seq<Event>, since: Time, store: set<Event>, limit: nat, e: Event)
    requires GroupsFit(store, limit) && Tracks(r.0, since, earlier + r.1, store, limit)
    requires e in store && r.0.lastSeen <= e.at
    ensures var next := Row(r, e, limit);
      Tracks(next.0, since, earlier + next.1, store, limit) && next.0.lastSeen <= e.at
  {
    hide GroupsFit, Tracks, Remember;
    if e.id !in r.0.queue {
      DeliveryTracks(r.0, since, earlier + r.1, store, limit, e);
      assert earlier + (r.1 + [e]) == earlier + r.1 + [e];
    }
  }

  lemma PollStep(m: Memory, rows: seq<Event>, limit: nat)
    ensures rows == [] ==> Poll(m, rows, limit) == (m, [])
    ensures rows != [] ==> Poll(m, rows, limit) == Row(Poll(m, rows[..|rows| - 1], limit), rows[|rows| - 1], limit)
  {
  }

  /** Whatever a poll fetched, its cursor ends at the latest instant there was, its own or a delivered event's. */
  lemma {:induction false} CursorIsLatest(m: Memory, rows: seq<Event>, limit: nat)
    ensures var (after, yielded) := Poll(m, rows, limit);
      && m.lastSeen <= after.lastSeen && (forall e <- yielded :: e.at <= after.lastSeen)
      && (after.lastSeen == m.lastSeen || exists e <- yielded :: e.at == after.lastSeen)
  {
    hide Remember;
    if rows != [] {
      CursorIsLatest(m, rows[..|rows| - 1], limit);
      var (before, earlier) := Poll(m, rows[..|rows| - 1], limit);
      var last := rows[|rows| - 1];
      assert forall e :: e in earlier + [last] <==> e in earlier || e == last;
    }
  }

  /** By the end of a poll every row it fetched has been delivered. */
  lemma {:induction false} PollDelivers(store: set<Event>, since: Time, m: Memory, earlier: seq<Event>,
                                        rows: seq<Event>, limit: nat, e: Event)
    requires Identified(store) && GroupsFit(store, limit) && Tracks(m, since, earlier, store, limit)
    requires IsFetch(store, m.lastSeen, rows) && e in rows
    ensures e in earlier + Poll(m, rows, limit).1
  {
    hide GroupsFit, Tracks, Remember, Identified, IsFetch;
    var front, last := rows[..|rows| - 1], rows[|rows| - 1];
    FrontFetched(store, m.lastSeen, rows);
    var before, yielded := Poll(m, front, limit).0, Poll(m, front, limit).1;
    if e != last {
      PollDelivers(store, since, m, earlier, front, limit, e);
    } else if e.id in before.queue {
      PollTracks(store, since, m, earlier, front, limit);
      RememberedWasDelivered(before, since, earlier + yielded, store, limit, e);
    }
  }

  lemma FrontFetched(store: set<Event>, since: Time, rows: seq<Event>)
    requires IsFetch(store, since, rows) && rows != []
    ensures IsFetch(store, since, rows[..|rows| - 1]) && rows[|rows| - 1] in store && since <= rows[|rows| - 1].at
    ensures |rows| > 1 ==> rows[..|rows| - 1][|rows| - 2].at <= rows[|rows| - 1].at
  {
  }

  lemma RememberedWasDelivered(m: Memory, since: Time, yielded: seq<Event>, store: set<Event>, limit: nat, e: Event)
    requires Identified(store) && Tracks(m, since, yielded, store, limit) && e in store && e.id in m.queue
    requires m.lastSeen <= e.at
    ensures e in yielded && e.at == m.lastSeen
  {
    hide Ids;
    var i :| 0 <= i < |m.queue| && m.queue[i] == e.id;
    assert yielded[Forgotten(yielded, limit) + i].id == e.id;
  }

  /** Over any number of polls: nothing is delivered twice, times never go back, every fetched event has been
      delivered by the end of its poll, and the memory is the tail of what was delivered. */
  lemma {:induction false} DeliversOnceInOrder(store: set<Event>, since: Time, fetched: seq<seq<Event>>, limit: nat)
    requires Identified(store) && GroupsFit(store, limit) && Fetches(store, Memory(since, []), fetched, limit)
    ensures var r := Polls(Memory(since, []), fetched, limit);
      && Tracks(r.0, since, r.1, store, limit) && |r.0.queue| <= limit
      && forall rows <- fetched :: forall e <- rows :: e in r.1
  {
    hide GroupsFit, Poll;
    var m := Memory(since, []);
    if fetched != [] {
      var front := fetched[..|fetched| - 1];
      forall k | 0 <= k < |front| ensures IsFetch(store, Polls(m, front[..k], limit).0.lastSeen, front[k]) {
        assert front[..k] == fetched[..k];
      }
      DeliversOnceInOrder(store, since, front, limit);
      var (before, yielded) := Polls(m, front, limit);
      PollTracks(store, since, before, yielded, fetched[|fetched| - 1], limit);
      var (after, more) := Poll(before, fetched[|fetched| - 1], limit);
      forall rows, e | rows in fetched && e in rows ensures e in yielded + more {
        if rows in front {
          assert e in yielded;
        } else {
          PollDelivers(store, since, before, yielded, rows, limit, e);
        }
      }
    }
  }

  // ----- the bound is exact -----

  /** The rows of a store in order of time, not older than the cursor. */
  function FetchAll(rows: seq<Event>, since: Time): seq<Event> {
    if rows == [] then []
    else (if since <= rows[0].at then [rows[0]] else []) + FetchAll(rows[1..], since)
  }

  lemma {:induction false} FetchAllIsTail(rows: seq<Event>, since: Time, k: nat)
    requires Sorted(rows) && k <= |rows|
    requires forall i :: 0 <= i < k ==> rows[i].at < since
    requires forall i :: k <= i < |rows| ==> since <= rows[i].at
    ensures FetchAll(rows, since) == rows[k..]
  {
    if rows != [] {
      if k > 0 {
        FetchAllIsTail(rows[1..], since, k - 1);
        assert rows[1..][k - 1..] == rows[k..];
      } else {
        FetchAllIsTail(rows[1..], since, 0);
      }
    }
  }

  /** A first poll delivers every row, whatever the memory can hold. */
  lemma {:induction false} FirstPoll(rows: seq<Event>, since: Time, limit: nat)
    requires Sorted(rows) && DistinctIds(rows) && forall e <- rows :: since <= e.at
    ensures Poll(Memory(since, []), rows, limit).1 == rows
    ensures Poll(Memory(since, []), rows, limit).0.queue == LastIds(rows, limit)
    ensures Poll(Memory(since, []), rows, limit).0.lastSeen == if rows == [] then since else rows[|rows| - 1].at
  {
    if rows != [] {
      var front, e := rows[..|rows| - 1], rows[|rows| - 1];
      FirstPoll(front, since, limit);
      RememberLast(front, e, limit);
      assert front + [e] == rows;
    }
  }

  predicate DistinctIds(rows: seq<Event>) {
    forall i, j :: 0 <= i < j < |rows| ==> rows[i].id != rows[j].id
  }

  /** A poll all of whose rows are remembered delivers nothing. */
  lemma {:induction false} QuietPoll(m: Memory, rows: seq<Event>, limit: nat)
    requires forall e <- rows :: e.id in m.queue
    ensures Poll(m, rows, limit) == (m, [])
  {
    if rows != [] { QuietPoll(m, rows[..|rows| - 1], limit); }
  }

  /** A poll whose first row is forgotten delivers it. */
  lemma {:induction false} LoudPoll(m: Memory, rows: seq<Event>, limit: nat)
    requires rows != [] && rows[0].id !in m.queue
    ensures Poll(m, rows, limit).1 != []
  {
    if |rows| > 1 { LoudPoll(m, rows[..|rows| - 1], limit); }
  }

  /** Polling an unchanged store a second time repeats something if and only if its newest timestamp is shared
      by more events than the memory holds (`k` is where that newest group begins). */
  lemma RepeatsExactlyWhenFull(rows: seq<Event>, since: Time, limit: nat, k: nat)
    requires Sorted(rows) && DistinctIds(rows) && k < |rows| && forall e <- rows :: since <= e.at
    requires forall i :: 0 <= i < k ==> rows[i].at < rows[|rows| - 1].at
    requires forall i :: k <= i < |rows| ==> rows[i].at == rows[|rows| - 1].at
    ensures var first := Poll(Memory(since, []), FetchAll(rows, since), limit);
      var second := Poll(first.0, FetchAll(rows, first.0.lastSeen), limit);
      second.1 != [] <==> |rows| - k > limit
  {
    hide LastIds;
    FetchAllIsTail(rows, since, 0);
    assert rows[0..] == rows;
    FirstPoll(rows, since, limit);
    var m := Poll(Memory(since, []), rows, limit).0;
    FetchAllIsTail(rows, m.lastSeen, k);
    LastIdsHold(rows, limit);
    if |rows| - k > limit {
      LoudPoll(m, rows[k..], limit);
    } else {
      QuietPoll(m, rows[k..], limit);
    }
  }

  lemma LastIdsHold(rows: seq<Event>, limit: nat)
    requires DistinctIds(rows)
    ensures forall i :: 0 <= i < |rows| ==> (rows[i].id in LastIds(rows, limit) <==> |rows| - i <= limit)
  {
    hide Ids;
    var from := Forgotten(rows, limit);
    forall i | 0 <= i < |rows| ensures rows[i].id in LastIds(rows, limit) <==> |rows| - i <= limit {
      if i >= from { assert LastIds(rows, limit)[i - from] == rows[i].id; }
    }
  }
}
