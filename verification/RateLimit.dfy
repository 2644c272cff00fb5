/** The sliding-window limiter of tool calls, one bucket of timestamps per board. */
module RateLimit {

  type BoardId = nat

  /** A call and whether it was let through. */
  datatype Call = Call(board: BoardId, at: real, accepted: bool)

  function Recent(calls: seq<real>, start: real): (r: seq<real>)
    ensures |r| <= |calls|
  {
    if calls == [] then []
    else
      var last := calls[|calls| - 1];
      Recent(calls[..|calls| - 1], start) + if last > start then [last] else []
  }

  class Limiter {
    const enabled: bool
    const window: real
    const maxCalls: nat
    var buckets: map<BoardId, seq<real>>

    constructor (enabled: bool, window: real, maxCalls: nat)
      ensures this.enabled == enabled && this.window == window && this.maxCalls == maxCalls && buckets == map[]
    {
      this.enabled, this.window, this.maxCalls, buckets := enabled, window, maxCalls, map[];
    }

    /** Expired timestamps are evicted before the count, also when the call is refused. */
    method CheckToolCall(board: BoardId, now: real) returns (accepted: bool)
      modifies this`buckets
      ensures !enabled ==> accepted && buckets == old(buckets)
      ensures enabled ==> (buckets, accepted) == Decide(old(buckets), board, now, window, maxCalls)
    {
      if !enabled { return true; }
      var windowStart := now - window;
      var calls := Bucket(buckets, board);
      var kept := [];
      var k := 0;
      while k < |calls|
        invariant 0 <= k <= |calls| && kept == Recent(calls[..k], windowStart)
      {
        assert calls[..k + 1][..k] == calls[..k];
        if calls[k] > windowStart { kept := kept + [calls[k]]; }
        k := k + 1;
      }
      assert calls[..k] == calls;
      buckets := buckets[board := kept];
      if |kept| >= maxCalls { return false; }
      buckets := buckets[board := buckets[board] + [now]];
      assert buckets == old(buckets)[board := kept + [now]];
      return true;
    }
  }

  function Bucket(buckets: map<BoardId, seq<real>>, board: BoardId): seq<real> {
    if board in buckets then buckets[board] else []
  }

  function Decide(buckets: map<BoardId, seq<real>>, board: BoardId, now: real, window: real, maxCalls: nat)
    : (map<BoardId, seq<real>>, bool)
  {
    var kept := Recent(Bucket(buckets, board), now - window);
    if |kept| >= maxCalls then (buckets[board := kept], false) else (buckets[board := kept + [now]], true)
  }

  /** A call leaves its board's bucket with what is in the window and, if accepted, itself at the end; the other
      boards' buckets stay as they were. */
  lemma CallPrunes(buckets: map<BoardId, seq<real>>, board: BoardId, now: real, window: real, maxCalls: nat)
    ensures var (after, accepted) := Decide(buckets, board, now, window, maxCalls);
      && after.Keys == buckets.Keys + {board}
      && (forall other <- buckets.Keys :: other != board ==> after[other] == buckets[other])
      && (accepted ==> after[board] != [] && after[board][|after[board]| - 1] == now)
      && (var kept := if accepted then after[board][..|after[board]| - 1] else after[board];
          forall x :: x in kept <==> x in Bucket(buckets, board) && x > now - window)
  {
    KeptAreRecent(Bucket(buckets, board), now - window);
  }

  lemma {:induction false} KeptAreRecent(calls: seq<real>, start: real)
    ensures forall x :: x in Recent(calls, start) <==> x in calls && x > start
  {
    if calls != [] {
      var front, last := calls[..|calls| - 1], calls[|calls| - 1];
      KeptAreRecent(front, start);
      assert calls == front + [last];
    }
  }

  /** The requests of a run: which board, and when. */
  datatype Request = Request(board: BoardId, at: real)

  function Run(requests: seq<Request>, window: real, maxCalls: nat): (r: (map<BoardId, seq<real>>, seq<Call>))
    ensures |r.1| == |requests|
  {
    if requests == [] then (map[], [])
    else
      var (buckets, calls) := Run(requests[..|requests| - 1], window, maxCalls);
      var last := requests[|requests| - 1];
      var (after, accepted) := Decide(buckets, last.board, last.at, window, maxCalls);
      (after, calls + [Call(last.board, last.at, accepted)])
  }

  // ----- the reference: counting in the whole history -----

  /** All accepted calls of a board. */
  function Accepted(calls: seq<Call>, board: BoardId): seq<real> {
    if calls == [] then []
    else
      var last := calls[|calls| - 1];
      Accepted(calls[..|calls| - 1], board) + if last.board == board && last.accepted then [last.at] else []
  }

  predicate Ordered(requests: seq<Request>) {
    forall i, j :: 0 <= i < j < |requests| ==> requests[i].at <= requests[j].at
  }

  // ----- evicting loses nothing -----

  lemma RecentStep(calls: seq<real>, x: real, start: real)
    ensures Recent(calls + [x], start) == Recent(calls, start) + if x > start then [x] else []
  {
    assert (calls + [x])[..|calls|] == calls;
  }

  /** Evicting twice is evicting at the later start. */
  lemma {:induction false} RecentTwice(calls: seq<real>, early: real, late: real)
    requires early <= late
    ensures Recent(Recent(calls, early), late) == Recent(calls, late)
  {
    if calls != [] {
      var front, last := calls[..|calls| - 1], calls[|calls| - 1];
      RecentTwice(front, early, late);
      if last > early {
        RecentStep(Recent(front, early), last, late);
      } else {
        assert Recent(front, early) + [] == Recent(front, early) && Recent(front, late) + [] == Recent(front, late);
      }
    }
  }

  /** The bucket holds, of all accepted calls of the board, those later than some instant the board's window has
      left behind. */
  ghost predicate Faithful(bucket: seq<real>, calls: seq<Call>, board: BoardId, upTo: real, window: real) {
    bucket == Accepted(calls, board)
    || exists start: real :: start <= upTo - window && bucket == Recent(Accepted(calls, board), start)
  }

  /** What a call counts is the whole history of its window, although old timestamps are thrown away. */
  lemma CountsWholeWindow(bucket: seq<real>, calls: seq<Call>, board: BoardId, upTo: real, now: real, window: real)
    requires Faithful(bucket, calls, board, upTo, window) && upTo <= now
    ensures Recent(bucket, now - window) == Recent(Accepted(calls, board), now - window)
  {
    hide Recent, Accepted;
    if bucket != Accepted(calls, board) {
      var start: real :| start <= upTo - window && bucket == Recent(Accepted(calls, board), start);
      RecentTwice(Accepted(calls, board), start, now - window);
    }
  }

  lemma AcceptedStep(calls: seq<Call>, c: Call, board: BoardId)
    ensures Accepted(calls + [c], board)
         == Accepted(calls, board) + if c.board == board && c.accepted then [c.at] else []
  {
    assert (calls + [c])[..|calls|] == calls;
  }

  /** One more request, on this board or another, leaves the bucket faithful. */
  lemma StepIsFaithful(buckets: map<BoardId, seq<real>>, calls: seq<Call>, r: Request, window: real, maxCalls: nat,
                       board: BoardId)
    requires window > 0.0 && Faithful(Bucket(buckets, board), calls, board, r.at, window)
    ensures var (after, accepted) := Decide(buckets, r.board, r.at, window, maxCalls);
      Faithful(Bucket(after, board), calls + [Call(r.board, r.at, accepted)], board, r.at, window)
  {
    hide Recent, Accepted;
    var (after, accepted) := Decide(buckets, r.board, r.at, window, maxCalls);
    AcceptedStep(calls, Call(r.board, r.at, accepted), board);
    if r.board == board {
      CountsWholeWindow(Bucket(buckets, board), calls, board, r.at, r.at, window);
      RecentStep(Accepted(calls, board), r.at, r.at - window);
    }
    assert Accepted(calls, board) + [] == Accepted(calls, board);
  }

  lemma {:induction false} BucketsAreFaithful(requests: seq<Request>, window: real, maxCalls: nat, board: BoardId,
                                              upTo: real)
    requires window > 0.0 && Ordered(requests) && forall r <- requests :: r.at <= upTo
    ensures var run := Run(requests, window, maxCalls); Faithful(Bucket(run.0, board), run.1, board, upTo, window)
  {
    hide Recent, Accepted, Decide, Bucket;
    if requests == [] {
      NothingAccepted(board);
      NoBucket(board);
    } else {
      var front, last := requests[..|requests| - 1], requests[|requests| - 1];
      assert last in requests;
      BucketsAreFaithful(front, window, maxCalls, board, last.at);
      var before := Run(front, window, maxCalls);
      StepIsFaithful(before.0, before.1, last, window, maxCalls, board);
    }
  }

  lemma NoBucket(board: BoardId)
    ensures Bucket(map[], board) == []
  {
  }

  lemma NothingAccepted(board: BoardId)
    ensures Accepted([], board) == []
  {
  }

  /** A call is refused exactly when the window before it already holds `maxCalls` accepted calls of its board,
      counted over the whole history. */
  lemma RefusedExactlyWhenFull(requests: seq<Request>, next: Request, window: real, maxCalls: nat)
    requires window > 0.0 && Ordered(requests + [next])
    ensures var calls := Run(requests, window, maxCalls).1;
      var decided := Run(requests + [next], window, maxCalls).1;
      !decided[|requests|].accepted <==> |Recent(Accepted(calls, next.board), next.at - window)| >= maxCalls
  {
    hide Recent, Accepted;
    assert (requests + [next])[..|requests|] == requests;
    EarlierOrdered(requests, next);
    BucketsAreFaithful(requests, window, maxCalls, next.board, next.at);
    var run := Run(requests, window, maxCalls);
    CountsWholeWindow(Bucket(run.0, next.board), run.1, next.board, next.at, next.at, window);
  }

  // ----- the bound -----

  /** The timestamps in the interval from `start`, excluded, to `end`, included. */
  function Between(times: seq<real>, start: real, end: real): seq<real> {
    if times == [] then []
    else
      var last := times[|times| - 1];
      Between(times[..|times| - 1], start, end) + if start < last <= end then [last] else []
  }

  lemma BetweenStep(times: seq<real>, x: real, start: real, end: real)
    ensures Between(times + [x], start, end) == Between(times, start, end) + if start < x <= end then [x] else []
  {
    assert (times + [x])[..|times|] == times;
  }

  lemma {:induction false} NarrowerHasFewer(times: seq<real>, start: real, later: real, end: real)
    requires start <= later
    ensures |Between(times, later, end)| <= |Recent(times, start)|
  {
    if times != [] { NarrowerHasFewer(times[..|times| - 1], start, later, end); }
  }

  /** No interval as long as the window ever holds more than `maxCalls` accepted calls of a board. */
  lemma {:induction false} WindowNeverOverfull(requests: seq<Request>, window: real, maxCalls: nat, board: BoardId,
                                               x: real)
    requires window > 0.0 && Ordered(requests)
    ensures |Between(Accepted(Run(requests, window, maxCalls).1, board), x - window, x)| <= maxCalls
  {
    hide Recent, Accepted, Decide, Bucket, Between;
    if requests == [] {
      NothingAccepted(board);
      NothingBetween(x - window, x);
    } else {
      var front, last := requests[..|requests| - 1], requests[|requests| - 1];
      assert front + [last] == requests;
      WindowNeverOverfull(front, window, maxCalls, board, x);
      var before, after := Run(front, window, maxCalls).1, Run(requests, window, maxCalls).1;
      assert after == before + [after[|front|]];
      AcceptedStep(before, after[|front|], board);
      if last.board == board && after[|front|].accepted {
        RefusedExactlyWhenFull(front, last, window, maxCalls);
        BetweenStep(Accepted(before, board), last.at, x - window, x);
        if x - window < last.at <= x { NarrowerHasFewer(Accepted(before, board), last.at - window, x - window, x); }
      } else {
        assert Accepted(before, board) + [] == Accepted(before, board);
      }
    }
  }

  lemma NothingBetween(start: real, end: real)
    ensures Between([], start, end) == []
  {
  }

  /** A refused call finds its window full to the brim, never more. */
  lemma RefusalFindsExactlyFull(requests: seq<Request>, next: Request, window: real, maxCalls: nat)
    requires window > 0.0 && Ordered(requests + [next])
    requires !Run(requests + [next], window, maxCalls).1[|requests|].accepted
    ensures |Between(Accepted(Run(requests, window, maxCalls).1, next.board), next.at - window, next.at)| == maxCalls
  {
    hide Run, Recent, Accepted, Between;
    RefusedExactlyWhenFull(requests, next, window, maxCalls);
    EarlierOrdered(requests, next);
    WindowNeverOverfull(requests, window, maxCalls, next.board, next.at);
    AcceptedNotLater(requests, window, maxCalls, next.board, next.at);
    RecentIsBetween(Accepted(Run(requests, window, maxCalls).1, next.board), next.at - window, next.at);
  }

  lemma EarlierOrdered(requests: seq<Request>, next: Request)
    requires Ordered(requests + [next])
    ensures Ordered(requests) && forall r <- requests :: r.at <= next.at
  {
    forall i, j | 0 <= i < j < |requests| ensures requests[i].at <= requests[j].at {
      assert (requests + [next])[i] == requests[i] && (requests + [next])[j] == requests[j];
    }
    forall r | r in requests ensures r.at <= next.at {
      var i :| 0 <= i < |requests| && requests[i] == r;
      assert (requests + [next])[i] == r && (requests + [next])[|requests|] == next;
    }
  }

  lemma {:induction false} AcceptedNotLater(requests: seq<Request>, window: real, maxCalls: nat, board: BoardId,
                                            end: real)
    requires forall r <- requests :: r.at <= end
    ensures forall x <- Accepted(Run(requests, window, maxCalls).1, board) :: x <= end
  {
    hide Decide, Bucket;
    if requests != [] {
      var front := requests[..|requests| - 1];
      AcceptedNotLater(front, window, maxCalls, board, end);
      var before, after := Run(front, window, maxCalls).1, Run(requests, window, maxCalls).1;
      assert after == before + [after[|front|]];
      AcceptedStep(before, after[|front|], board);
    }
  }

  lemma {:induction false} RecentIsBetween(times: seq<real>, start: real, end: real)
    requires forall x <- times :: x <= end
    ensures Recent(times, start) == Between(times, start, end)
  {
    if times != [] {
      var front, last := times[..|times| - 1], times[|times| - 1];
      assert last in times && forall x <- front :: x in times;
      RecentIsBetween(front, start, end);
    }
  }
}
