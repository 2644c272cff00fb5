/** The exact condition on the chunks as a count of boundaries: how many lie in the white space before each token
    decides whether the reader gets to it, and where its buffer then ends. Nothing of the reader is replayed. */
module ReaderCounting {
  import opened Wrappers
  import opened PythonText
  import opened Json
  import opened JsonPrefix
  import opened StreamingReader
  import opened ReaderSoundness
  import opened ReaderCourse

  // ----- the shape of a course -----

  /** The course begins at `i` and goes through the text from left to right. */
  predicate Laid(text: string, i: nat, course: Course)
    decreases course
  {
    i <= |text| &&
    match course
    case Over => true
    case Stuck => true
    case Mark(from, to, skips, rest) =>
      from == i && to == SkipSpace(text, i) < |text| && skips >= 2 && Laid(text, to + 1, rest)
    case Item(from, to, skips, need, end, rest) =>
      from == i && to == SkipSpace(text, i) < |text| && skips >= 1 && to < need <= end <= |text|
      && Laid(text, end, rest)
    case Bracket(from, to, end, seen, missed) =>
      from == i && to == SkipSpace(text, i) < |text| && to < end && Laid(text, to + 1, seen) && Laid(text, end, missed)
  }

  lemma {:induction false} ArrayLaid(text: string, i: nat, acc: seq<Value>, after: Course)
    requires i <= |text|
    requires ReadArray(text, i, acc).Good? ==> Laid(text, ReadArray(text, i, acc).end, after)
    ensures Laid(text, i, ArrayCourse(text, i, after))
    decreases |text| - i
  {
    hide ParseValue, ReadArrayTurn, ArrayCourse, ReadArray;
    var turn := ReadArrayTurn(text, SkipSpace(text, i), acc);
    ArrayCourseBegins(text, i, acc, after);
    if turn.Fail? {
      FailedTurnIsStuck(text, i, acc, after);
    } else {
      ArrayTurnGoesOn(text, i, acc);
      if turn.Again? { ArrayLaid(text, turn.from, turn.acc, after); }
    }
  }

  lemma FailedTurnIsStuck(text: string, i: nat, acc: seq<Value>, after: Course)
    requires i <= |text| && ReadArrayTurn(text, SkipSpace(text, i), acc).Fail?
    ensures ArrayCourse(text, i, after) == Stuck
  {
    TurnIgnoresEntries(text, SkipSpace(text, i), acc);
    hide ParseValue;
  }

  lemma ArrayTurnGoesOn(text: string, i: nat, acc: seq<Value>)
    requires i <= |text|
    ensures var turn := ReadArrayTurn(text, SkipSpace(text, i), acc);
      && (turn.Finish? ==> ReadArray(text, i, acc) == Good(turn.result, turn.end))
      && (turn.Again? ==> ReadArray(text, i, acc) == ReadArray(text, turn.from, turn.acc))
  {
    hide ReadArrayTurn;
  }

  lemma EnoughIsWithin(text: string, i: nat)
    requires i <= |text| && ParseValue(text, i).Good?
    ensures i < |text| && SkipSpace(text, i) == i
    ensures i < Enough(text, i, ParseValue(text, i).end) <= ParseValue(text, i).end <= |text|
  {
    ValueStart(text, i);
    if NumberEnd(text, i).Some? { NumberIsDecoded(text, i); }
  }

  lemma KeyLaid(text: string, q: nat)
    requires q <= |text| && ReadKey(text, q).Good?
    ensures ParseValue(text, q).Good? && q < ParseValue(text, q).end < ReadKey(text, q).end <= |text|
    ensures SkipSpace(text, ParseValue(text, q).end) == ReadKey(text, q).end - 1
  {
  }

  lemma {:induction false} ObjectLaid(text: string, i: nat, more: nat)
    requires i <= |text|
    ensures Laid(text, i, ObjectCourse(text, i, more))
    decreases |text| - i, 0
  {
    hide ParseValue, ReadKey, MemberCourse;
    var q := SkipSpace(text, i);
    if q < |text| && text[q] != '}' && ReadKey(text, q).Good? {
      KeyLaid(text, q);
      MemberLaid(text, ReadKey(text, q).end, ReadKey(text, q).value);
    }
  }

  lemma {:induction false} MemberLaid(text: string, i: nat, key: seq<nat>)
    requires i <= |text|
    ensures Laid(text, i, MemberCourse(text, i, key))
    decreases |text| - i, 2
  {
    hide ParseValue, ReadArray, Enough, ObjectCourse, ArrayCourse, TailCourse, IsObjectArray;
    var k := SkipSpace(text, i);
    if key == SKILLS_KEY && k < |text| && text[k] == '[' {
      var whole := ReadArray(text, k + 1, []);
      if whole.Good? {
        TailLaid(text, whole.end);
        ArrayLaid(text, k + 1, [], TailCourse(text, whole.end));
        ObjectLaid(text, whole.end, 0);
      }
    } else if ParseValue(text, k).Good? {
      EnoughIsWithin(text, k);
      var end := ParseValue(text, k).end;
      if key == SKILLS_KEY { ObjectLaid(text, end, 0); } else { TailLaid(text, end); }
    }
  }

  lemma TailLaid(text: string, i: nat)
    requires i <= |text|
    ensures Laid(text, i, TailCourse(text, i))
    decreases |text| - i, 1
  {
    hide ObjectCourse;
    var j := SkipSpace(text, i);
    if j < |text| && text[j] == ',' { ObjectLaid(text, j + 1, 0); } else { ObjectLaid(text, i, 2); }
  }

  lemma WholeLaid(text: string)
    ensures Laid(text, 0, WholeCourse(text))
  {
    hide ArrayCourse, ObjectCourse;
    var i := SkipSpace(text, 0);
    if i < |text| {
      ArrayLaid(text, i + 1, [], Over);
      ObjectLaid(text, i + 1, 0);
    }
  }

  // ----- boundaries -----

  predicate IsBoundary(text: string, cuts: set<nat>, b: nat) {
    0 < b <= |text| && (b == |text| || b in cuts)
  }

  /** The first boundary at or behind a position. */
  function Bound(text: string, cuts: set<nat>, p: nat): (b: nat)
    requires p <= |text|
    ensures p <= b <= |text|
  {
    if p == |text| || (p > 0 && p in cuts) then p else NextBoundary(text, cuts, p)
  }

  lemma BoundIsFirst(text: string, cuts: set<nat>, p: nat, b: nat)
    requires p <= b && IsBoundary(text, cuts, b)
    ensures Bound(text, cuts, p) <= b
  {
  }

  lemma NextIsFirst(text: string, cuts: set<nat>, p: nat, b: nat)
    requires p < b && IsBoundary(text, cuts, b)
    ensures NextBoundary(text, cuts, p) <= b
  {
  }

  /** The boundaries behind the start of the text that lie at `from` or behind it, and before `to`. */
  function Inside(cuts: set<nat>, from: nat, to: nat): set<nat> {
    set c | c in cuts && 0 < c && from <= c < to
  }

  /** Where the buffer ends when the reader reaches a token from white space, decoding: it reads two chunks after each
      failure, one to have more and one because its position is at the end again. So many boundaries are between. */
  function BufferBehind(text: string, cuts: set<nat>, count: nat, to: nat): (r: nat)
    requires to < |text|
    ensures to < r <= |text|
  {
    var next := NextBoundary(text, cuts, to);
    if to in cuts || count % 2 == 1 then next else NextBoundary(text, cuts, next)
  }

  /** Where the buffer ends once the reader, which had it filled up to `b`, stands at the token at `to`, looked for
      with so many skips before it decodes. A skip reads one chunk at most. */
  function BufferAt(text: string, cuts: set<nat>, b: nat, to: nat, skips: nat): (r: nat)
    requires b <= |text| && to < |text|
    ensures to < r <= |text|
  {
    var count := |Inside(cuts, b, to)|;
    if to < b then b
    else if count < skips then NextBoundary(text, cuts, to)
    else BufferBehind(text, cuts, count - skips, to)
  }

  function Larger(a: nat, b: nat): nat {
    if a < b then b else a
  }

  /** The same when a value stands there that decodes from `need` on. */
  function BufferFor(text: string, cuts: set<nat>, b: nat, to: nat, skips: nat, need: nat): (r: nat)
    requires b <= |text| && to < |text| && need <= |text|
    ensures to < r <= |text|
  {
    Larger(BufferAt(text, cuts, b, to, skips), Bound(text, cuts, need))
  }

  /** The boundaries, counted from a buffer that ends at `b`, let the reader through the course: no more of them lie
      before a single character than it skips, and no value is decoded short of its end. */
  predicate Counted(text: string, cuts: set<nat>, course: Course, b: nat)
    requires b <= |text|
  {
    match course
    case Over => true
    case Stuck => false
    case Mark(_, to, skips, rest) =>
      to < |text| && |Inside(cuts, b, to)| < skips
      && Counted(text, cuts, rest, BufferAt(text, cuts, b, to, skips))
    case Item(_, to, skips, need, end, rest) =>
      to < |text| && need <= |text|
      && (var l := BufferFor(text, cuts, b, to, skips, need);
          end <= l && Counted(text, cuts, rest, l))
    case Bracket(_, to, end, seen, missed) =>
      to < |text| && end <= |text|
      && if |Inside(cuts, b, to)| < 2 then Counted(text, cuts, seen, BufferAt(text, cuts, b, to, 2))
         else Counted(text, cuts, missed, BufferFor(text, cuts, b, to, 3, end))
  }

  // ----- skipping -----

  lemma FirstSkip(text: string, cuts: set<nat>, at: At, n: nat)
    requires Within(text, at)
    ensures Skips(text, cuts, at, n) == if n == 0 then at else Skips(text, cuts, Skip(text, cuts, at), n - 1)
    ensures SkipSpace(text, Skip(text, cuts, at).p) == SkipSpace(text, at.p)
  {
    hide Skip;
    SkipSpaceFrom(text, at.p, Skip(text, cuts, at).p);
  }

  lemma OneFewer(cuts: set<nat>, b: nat, next: nat, to: nat)
    requires b in cuts && 0 < b < to && b < next && forall c <- cuts :: !(b < c < next)
    ensures |Inside(cuts, b, to)| == 1 + |Inside(cuts, next, to)|
  {
    assert Inside(cuts, b, to) == {b} + Inside(cuts, next, to);
  }

  /** Still at white space: at the end of a chunk, with the next one in the buffer. */
  predicate Behind(text: string, cuts: set<nat>, at: At, to: nat) {
    at.p < to < |text| && at.b == NextBoundary(text, cuts, at.p) && SkipSpace(text, at.p) == to
  }

  /** Each skip gets past one boundary: where so many skips leave the reader. */
  ghost predicate Skipped(text: string, cuts: set<nat>, b: nat, to: nat, skips: nat, r: At)
    requires b <= |text| && to < |text|
  {
    var count := |Inside(cuts, b, to)|;
    if count < skips then r == At(to, if to < b then b else NextBoundary(text, cuts, to))
    else Behind(text, cuts, r, to) && |Inside(cuts, r.b, to)| == count - skips
  }

  lemma {:induction false} SkipsCount(text: string, cuts: set<nat>, at: At, to: nat, skips: nat)
    requires Within(text, at) && IsBoundary(text, cuts, at.b) && to == SkipSpace(text, at.p) < |text| && skips > 0
    ensures Skipped(text, cuts, at.b, to, skips, Skips(text, cuts, at, skips))
    decreases skips
  {
    hide Skips;
    FirstSkip(text, cuts, at, skips);
    var next := Skip(text, cuts, at);
    if to < at.b {
      assert Inside(cuts, at.b, to) == {};
      SkipSpaceFrom(text, at.p, to);
      StayAtToken(text, cuts, next, skips - 1);
    } else {
      BoundaryPassed(text, cuts, at.b, to);
      NextAgain(text, cuts, at.b, to);
      if skips == 1 {
        NoSkipsLeft(text, cuts, next);
      } else {
        SkipsCount(text, cuts, next, to, skips - 1);
      }
    }
  }

  lemma NoSkipsLeft(text: string, cuts: set<nat>, at: At)
    requires Within(text, at)
    ensures Skips(text, cuts, at, 0) == at
  {
  }

  lemma BoundaryPassed(text: string, cuts: set<nat>, b: nat, to: nat)
    requires IsBoundary(text, cuts, b) && b <= to < |text|
    ensures var next := NextBoundary(text, cuts, b);
      |Inside(cuts, b, to)| == if b == to then 0 else 1 + |Inside(cuts, next, to)|
    ensures b == to ==> |Inside(cuts, NextBoundary(text, cuts, b), to)| == 0
  {
    if b < to {
      OneFewer(cuts, b, NextBoundary(text, cuts, b), to);
    } else {
      assert Inside(cuts, b, to) == {} == Inside(cuts, NextBoundary(text, cuts, b), to);
    }
  }

  /** With no boundary between two positions, the next one is the same. */
  lemma NextAgain(text: string, cuts: set<nat>, p: nat, to: nat)
    requires p <= to < |text|
    ensures to < NextBoundary(text, cuts, p) ==> NextBoundary(text, cuts, to) == NextBoundary(text, cuts, p)
  {
  }

  // ----- loading -----

  /** At the value the buffer grows chunk by chunk, until it is long enough. */
  lemma {:induction false} LoadedHere(text: string, cuts: set<nat>, to: nat, b: nat, need: nat)
    requires to < b && IsBoundary(text, cuts, b) && SkipSpace(text, to) == to && to < need <= |text|
    ensures Loaded(text, cuts, At(to, b), to, need) == Larger(b, Bound(text, cuts, need))
    decreases |text| - b
  {
    if need <= b {
      BoundIsFirst(text, cuts, need, b);
    } else {
      var more := NextBoundary(text, cuts, b);
      assert Skip(text, cuts, At(to, more)) == At(to, more);
      LoadedHere(text, cuts, to, more, need);
      assert Bound(text, cuts, need) > b;
      NextIsFirst(text, cuts, b, Bound(text, cuts, need));
    }
  }

  /** At white space before the value, by two chunks at a time. */
  lemma {:induction false} LoadedBehind(text: string, cuts: set<nat>, at: At, to: nat, need: nat)
    requires Behind(text, cuts, at, to) && to < need <= |text|
    ensures Loaded(text, cuts, at, to, need)
      == Larger(BufferBehind(text, cuts, |Inside(cuts, at.b, to)|, to), Bound(text, cuts, need))
    decreases |text| - at.p
  {
    hide Loaded, Bound, Inside, NextBoundary, SkipSpace;
    var more := NextBoundary(text, cuts, at.b);
    var next := Skip(text, cuts, At(at.p, more));
    LoadedOnce(text, cuts, at, to, need);
    SkipSpaceFrom(text, at.p, to);
    NextAgain(text, cuts, at.p, to);
    if at.b <= to {
      NextAgain(text, cuts, at.b, to);
      BoundaryPassed(text, cuts, at.b, to);
    } else {
      NothingInside(cuts, at.b, to);
    }
    if to < more {
      NothingInside(cuts, more, to);
      LoadedHere(text, cuts, to, more, need);
    } else {
      BoundaryPassed(text, cuts, more, to);
      if more == to {
        LoadedHere(text, cuts, to, NextBoundary(text, cuts, to), need);
      } else {
        SkipSpaceFrom(text, at.p, more);
        LoadedBehind(text, cuts, next, to, need);
      }
    }
  }

  lemma NothingInside(cuts: set<nat>, b: nat, to: nat)
    requires to <= b
    ensures |Inside(cuts, b, to)| == 0
  {
    assert Inside(cuts, b, to) == {};
  }

  lemma LoadedOnce(text: string, cuts: set<nat>, at: At, to: nat, need: nat)
    requires Behind(text, cuts, at, to)
    ensures var next := Skip(text, cuts, At(at.p, NextBoundary(text, cuts, at.b)));
      Loaded(text, cuts, at, to, need) == Loaded(text, cuts, next, to, need)
  {
    hide Skip;
  }

  /** What skipping and then loading leaves in the buffer, counted. */
  lemma LoadedCount(text: string, cuts: set<nat>, at: At, to: nat, skips: nat, need: nat)
    requires Within(text, at) && IsBoundary(text, cuts, at.b) && to == SkipSpace(text, at.p) < |text| && skips > 0
    requires to < need <= |text|
    ensures Loaded(text, cuts, Skips(text, cuts, at, skips), to, need)
      == BufferFor(text, cuts, at.b, to, skips, need)
  {
    hide Skips, Loaded, Inside, Bound;
    SkipsCount(text, cuts, at, to, skips);
    SkipSpaceFrom(text, at.p, to);
    if |Inside(cuts, at.b, to)| < skips {
      LoadedHere(text, cuts, to, if to < at.b then at.b else NextBoundary(text, cuts, to), need);
    } else {
      if to < at.b { NothingInside(cuts, at.b, to); }
      LoadedBehind(text, cuts, Skips(text, cuts, at, skips), to, need);
    }
  }

  // ----- fitting is counting -----

  lemma BoundIsBoundary(text: string, cuts: set<nat>, p: nat)
    requires 0 < p <= |text|
    ensures IsBoundary(text, cuts, Bound(text, cuts, p))
  {
  }

  lemma BuffersAreBoundaries(text: string, cuts: set<nat>, b: nat, to: nat, skips: nat)
    requires IsBoundary(text, cuts, b) && to < |text|
    ensures IsBoundary(text, cuts, BufferAt(text, cuts, b, to, skips))
    ensures forall need: nat :: to < need <= |text| ==>
      IsBoundary(text, cuts, BufferFor(text, cuts, b, to, skips, need))
      && need <= BufferFor(text, cuts, b, to, skips, need)
  {
    hide Inside;
    forall need: nat | to < need <= |text|
      ensures IsBoundary(text, cuts, BufferFor(text, cuts, b, to, skips, need))
      ensures need <= BufferFor(text, cuts, b, to, skips, need)
    {
      BoundIsBoundary(text, cuts, need);
    }
  }

  lemma BoundaryWithin(text: string, cuts: set<nat>, b: nat)
    requires IsBoundary(text, cuts, b)
    ensures 0 < b <= |text|
  {
  }

  /** A token is reached exactly when fewer boundaries lie before it than the reader skips times. */
  lemma ReachedExactly(text: string, cuts: set<nat>, from: nat, b: nat, to: nat, skips: nat)
    requires from <= b && IsBoundary(text, cuts, b) && to == SkipSpace(text, from) < |text| && skips > 0
    ensures var r := Skips(text, cuts, At(from, b), skips);
      && (r.p == to <==> |Inside(cuts, b, to)| < skips)
      && (r.p == to ==> r.b == BufferAt(text, cuts, b, to, skips))
  {
    hide Skips, Inside;
    BoundaryWithin(text, cuts, b);
    SkipsCount(text, cuts, At(from, b), to, skips);
  }

  lemma ThirdSkip(text: string, cuts: set<nat>, at: At)
    requires Within(text, at)
    ensures Skip(text, cuts, Skips(text, cuts, at, 2)) == Skips(text, cuts, at, 3)
  {
    PeekIsTwoSkips(text, cuts, at);
  }

  /** Whether the reader sees a bracket, and what is in its buffer then, or once it has decoded what it missed. */
  lemma BracketExactly(text: string, cuts: set<nat>, from: nat, b: nat, to: nat, end: nat)
    requires from <= b && IsBoundary(text, cuts, b) && to == SkipSpace(text, from) < |text| && to < end <= |text|
    ensures var r := Skips(text, cuts, At(from, b), 2);
      && (r.p == to <==> |Inside(cuts, b, to)| < 2)
      && (r.p == to ==> r.b == BufferAt(text, cuts, b, to, 2))
      && Loaded(text, cuts, Skip(text, cuts, r), to, end) == BufferFor(text, cuts, b, to, 3, end)
    ensures IsBoundary(text, cuts, BufferAt(text, cuts, b, to, 2))
    ensures IsBoundary(text, cuts, BufferFor(text, cuts, b, to, 3, end))
    ensures end <= BufferFor(text, cuts, b, to, 3, end)
  {
    hide Skips, Loaded, Inside, BufferAt, BufferFor;
    ReachedExactly(text, cuts, from, b, to, 2);
    BuffersAreBoundaries(text, cuts, b, to, 2);
    BuffersAreBoundaries(text, cuts, b, to, 3);
    ThirdSkip(text, cuts, At(from, b));
    LoadedCount(text, cuts, At(from, b), to, 3, end);
  }

  /** Replaying the reader's fills and counting boundaries come to the same. */
  lemma {:induction false} FitsExactlyWhenCounted(text: string, cuts: set<nat>, i: nat, course: Course, b: nat)
    requires Laid(text, i, course) && i <= b && IsBoundary(text, cuts, b)
    ensures 0 < b <= |text|
    ensures Fits(text, cuts, course, b) <==> Counted(text, cuts, course, b)
    decreases course
  {
    hide IsBoundary, Skips, Loaded, Inside, BufferAt, BufferFor;
    BoundaryWithin(text, cuts, b);
    match course
    case Over =>
    case Stuck =>
    case Mark(from, to, skips, rest) =>
      ReachedExactly(text, cuts, from, b, to, skips);
      BuffersAreBoundaries(text, cuts, b, to, skips);
      FitsExactlyWhenCounted(text, cuts, to + 1, rest, BufferAt(text, cuts, b, to, skips));
    case Item(from, to, skips, need, end, rest) =>
      LoadedCount(text, cuts, At(from, b), to, skips, need);
      BuffersAreBoundaries(text, cuts, b, to, skips);
      var l := BufferFor(text, cuts, b, to, skips, need);
      if end <= l { FitsExactlyWhenCounted(text, cuts, end, rest, l); }
    case Bracket(from, to, end, seen, missed) =>
      BracketExactly(text, cuts, from, b, to, end);
      FitsExactlyWhenCounted(text, cuts, to + 1, seen, BufferAt(text, cuts, b, to, 2));
      FitsExactlyWhenCounted(text, cuts, end, missed, BufferFor(text, cuts, b, to, 3, end));
  }
}
