/** When cutting a text into chunks changes what is read: the exact condition on the chunks, simpler conditions on
    where the boundaries fall, and texts that read differently. */
module ReaderCutting {
  import opened Wrappers
  import opened PythonText
  import opened Json
  import opened StreamingReader
  import opened ReaderSoundness
  import opened ReaderCourse
  import opened ReaderCounting
  import Sets

  // ----- the course of a text that reads -----

  /** The course does not get stuck, as long as the reader sees the brackets. */
  predicate Unstuck(course: Course) {
    match course
    case Over => true
    case Stuck => false
    case Mark(_, _, _, rest) => Unstuck(rest)
    case Item(_, _, _, _, _, rest) => Unstuck(rest)
    case Bracket(_, _, _, seen, _) => Unstuck(seen)
  }

  lemma {:induction false} ArrayUnstuck(text: string, i: nat, acc: seq<Value>, after: Course)
    requires i <= |text| && ReadArray(text, i, acc).Good? && Unstuck(after)
    ensures Unstuck(ArrayCourse(text, i, after))
    decreases |text| - i
  {
    hide ParseValue, ReadArrayTurn, ArrayCourse, ReadArray;
    var q := SkipSpace(text, i);
    var turn := ReadArrayTurn(text, q, acc);
    ReadArrayBegins(text, i, acc);
    ArrayCourseBegins(text, i, acc, after);
    if turn.Again? { ArrayUnstuck(text, turn.from, turn.acc, after); }
  }

  lemma {:induction false} ObjectUnstuck(text: string, i: nat, more: nat, acc: seq<Value>)
    requires i <= |text| && ReadObject(text, i, acc).Good?
    ensures Unstuck(ObjectCourse(text, i, more))
    decreases |text| - i, 0
  {
    hide ParseValue, ReadKey, ReadObject, ReadAfterKey, Resume, MemberCourse;
    var q := SkipSpace(text, i);
    NextToken(text, i, acc);
    if text[q] != '}' {
      var key := ReadKey(text, q);
      ReadObjectByKey(text, i, key.value, key.end, acc);
      MemberUnstuck(text, key.end, key.value, acc);
    }
  }

  lemma MemberUnstuck(text: string, i: nat, key: seq<nat>, acc: seq<Value>)
    requires i <= |text| && Resume(text, ReadAfterKey(text, i, key, acc)).Good?
    ensures Unstuck(MemberCourse(text, i, key))
    decreases |text| - i, 2
  {
    hide Resume, ReadAfterKey, MemberCourse;
    var k := SkipSpace(text, i);
    if key == SKILLS_KEY && k < |text| && text[k] == '[' {
      BracketRead(text, At(i, |text|), k, acc);
      BracketUnstuck(text, i, k, acc);
    } else if key == SKILLS_KEY {
      OtherRead(text, At(i, |text|), k, acc);
      ValueUnstuck(text, i, k, key, acc);
    } else {
      PlainRead(text, i, k, key, acc);
      ValueUnstuck(text, i, k, key, acc);
    }
  }

  lemma PlainRead(text: string, i: nat, k: nat, key: seq<nat>, acc: seq<Value>)
    requires i <= |text| && k == SkipSpace(text, i) && key != SKILLS_KEY
    requires Resume(text, ReadAfterKey(text, i, key, acc)).Good?
    ensures ParseValue(text, k).Good? && Resume(text, ReadTail(text, ParseValue(text, k).end, acc)).Good?
  {
    hide ParseValue, ReadTail, ReadObject;
  }

  lemma BracketUnstuck(text: string, i: nat, k: nat, acc: seq<Value>)
    requires i <= |text| && k == SkipSpace(text, i) && k < |text| && text[k] == '[' && GoodAfterArray(text, k + 1, acc)
    ensures Unstuck(MemberCourse(text, i, SKILLS_KEY))
    decreases |text| - i, 1
  {
    hide ParseValue, Resume, ReadTail, ReadArray, ObjectCourse, ArrayCourse, TailCourse, IsObjectArray;
    var whole := ReadArray(text, k + 1, acc);
    ArrayEndIgnores(text, k + 1, acc, []);
    TailUnstuck(text, whole.end, whole.value);
    ArrayUnstuck(text, k + 1, [], TailCourse(text, whole.end));
  }

  lemma ValueUnstuck(text: string, i: nat, k: nat, key: seq<nat>, acc: seq<Value>)
    requires i <= |text| && k == SkipSpace(text, i) && ParseValue(text, k).Good?
    requires key == SKILLS_KEY ==>
      (k < |text| ==> text[k] != '[') && ReadObject(text, ParseValue(text, k).end, acc).Good?
    requires key != SKILLS_KEY ==> Resume(text, ReadTail(text, ParseValue(text, k).end, acc)).Good?
    ensures Unstuck(MemberCourse(text, i, key))
    decreases |text| - i, 1
  {
    hide ParseValue, Resume, ReadTail, ReadArray, ReadObject, Enough, ObjectCourse, ArrayCourse, TailCourse,
         IsObjectArray;
    var end := ParseValue(text, k).end;
    if key == SKILLS_KEY { ObjectUnstuck(text, end, 0, acc); } else { TailUnstuck(text, end, acc); }
  }

  lemma TailUnstuck(text: string, i: nat, acc: seq<Value>)
    requires i <= |text| && Resume(text, ReadTail(text, i, acc)).Good?
    ensures Unstuck(TailCourse(text, i))
    decreases |text| - i, 1
  {
    hide ReadObject, ObjectCourse;
    var j := SkipSpace(text, i);
    if j < |text| && text[j] == ',' {
      ObjectUnstuck(text, j + 1, 0, acc);
    } else {
      NoCommaNoTail(text, i, acc);
      ObjectUnstuck(text, i, 2, acc);
    }
  }

  lemma WholeUnstuck(text: string)
    requires ReadWhole(text).Good?
    ensures Unstuck(WholeCourse(text))
  {
    hide ReadArray, ReadObject, ArrayCourse, ObjectCourse;
    var i := SkipSpace(text, 0);
    if text[i] == '[' { ArrayUnstuck(text, i + 1, [], Over); } else { ObjectUnstuck(text, i + 1, 0, []); }
  }

  // ----- boundaries that do no harm -----

  /** The white space before a token does not hide it: fewer boundaries lie in it than the reader skips times. */
  predicate Reached(cuts: set<nat>, from: nat, to: nat, skips: nat) {
    |Inside(cuts, from, to)| < skips
  }

  /** No boundary lies in a number behind its first digit. */
  predicate Uncut(cuts: set<nat>, need: nat, end: nat) {
    forall c <- cuts :: !(need <= c < end)
  }

  /** Every single-character token is reached, and every number uncut. */
  predicate Clear(cuts: set<nat>, course: Course) {
    match course
    case Over => true
    case Stuck => false
    case Mark(from, to, skips, rest) => Reached(cuts, from, to, skips) && Clear(cuts, rest)
    case Item(_, _, _, need, end, rest) => Uncut(cuts, need, end) && Clear(cuts, rest)
    case Bracket(from, to, _, seen, _) => Reached(cuts, from, to, 2) && Clear(cuts, seen)
  }

  /** From the end of a token, with nothing in the buffer beyond the first boundary, skipping gets to the next. */
  lemma ReachedBySkipping(text: string, cuts: set<nat>, from: nat, to: nat, skips: nat)
    requires from <= |text| && to == SkipSpace(text, from) < |text| && skips > 0
    ensures Reached(cuts, from, to, skips) <==> Skips(text, cuts, At(from, Bound(text, cuts, from)), skips).p == to
  {
    hide Skips;
    ReachedExactly(text, cuts, from, Bound(text, cuts, from), to, skips);
    FromFirstBoundary(text, cuts, from, to);
  }

  lemma FromFirstBoundary(text: string, cuts: set<nat>, from: nat, to: nat)
    requires from <= |text|
    ensures Inside(cuts, Bound(text, cuts, from), to) == Inside(cuts, from, to)
  {
  }

  /** A fuller buffer has fewer boundaries before it. */
  lemma FewerInside(cuts: set<nat>, from: nat, b: nat, to: nat)
    requires from <= b
    ensures |Inside(cuts, b, to)| <= |Inside(cuts, from, to)|
  {
    Sets.SubsetSize(Inside(cuts, b, to), Inside(cuts, from, to));
  }

  lemma UncutToTheEnd(text: string, cuts: set<nat>, need: nat, end: nat)
    requires 0 < need <= end <= |text|
    ensures end <= Bound(text, cuts, need) <==> Uncut(cuts, need, end)
    ensures Uncut(cuts, need, end) ==> Bound(text, cuts, need) == Bound(text, cuts, end)
  {
    if Uncut(cuts, need, end) {
      BoundIsBoundary(text, cuts, need);
      BoundIsBoundary(text, cuts, end);
      BoundIsFirst(text, cuts, end, Bound(text, cuts, need));
      BoundIsFirst(text, cuts, need, Bound(text, cuts, end));
    }
  }

  lemma {:induction false} ClearCounted(text: string, cuts: set<nat>, i: nat, course: Course, b: nat)
    requires Laid(text, i, course) && Clear(cuts, course) && i <= b <= |text|
    ensures Counted(text, cuts, course, b)
    decreases course
  {
    hide Inside, BufferAt, Bound, Uncut;
    match course
    case Over =>
    case Stuck =>
    case Mark(from, to, skips, rest) =>
      FewerInside(cuts, from, b, to);
      ClearCounted(text, cuts, to + 1, rest, BufferAt(text, cuts, b, to, skips));
    case Item(_, to, skips, need, end, rest) =>
      UncutToTheEnd(text, cuts, need, end);
      ClearCounted(text, cuts, end, rest, BufferFor(text, cuts, b, to, skips, need));
    case Bracket(from, to, _, seen, _) =>
      FewerInside(cuts, from, b, to);
      ClearCounted(text, cuts, to + 1, seen, BufferAt(text, cuts, b, to, 2));
  }

  // ----- when the white space before values is out of the way -----

  /** The white space before a value, and before the bracket of a `skills` array, does not keep the reader from
      standing at it before it decodes. */
  predicate ValuesReached(cuts: set<nat>, course: Course) {
    match course
    case Over => true
    case Stuck => true
    case Mark(_, _, _, rest) => ValuesReached(cuts, rest)
    case Item(from, to, skips, _, _, rest) => Reached(cuts, from, to, skips) && ValuesReached(cuts, rest)
    case Bracket(from, to, _, seen, _) => Reached(cuts, from, to, 2) && ValuesReached(cuts, seen)
  }

  /** Behind a token reached from the first boundary the buffer ends at the first boundary again. */
  lemma FirstAgain(text: string, cuts: set<nat>, from: nat, to: nat, skips: nat)
    requires from <= to < |text|
    ensures |Inside(cuts, Bound(text, cuts, from), to)| < skips <==> Reached(cuts, from, to, skips)
    ensures Reached(cuts, from, to, skips) ==>
      BufferAt(text, cuts, Bound(text, cuts, from), to, skips) == Bound(text, cuts, to + 1)
  {
    FromFirstBoundary(text, cuts, from, to);
    hide Inside;
    var b := Bound(text, cuts, from);
    BoundIsBoundary(text, cuts, to + 1);
    if to < b {
      BoundIsFirst(text, cuts, to + 1, b);
      BoundIsFirst(text, cuts, from, Bound(text, cuts, to + 1));
    } else {
      NextIsFirst(text, cuts, to, Bound(text, cuts, to + 1));
      BoundIsFirst(text, cuts, to + 1, NextBoundary(text, cuts, to));
    }
  }

  lemma BoundsGrow(text: string, cuts: set<nat>, p: nat, q: nat)
    requires 0 < p <= q <= |text|
    ensures Bound(text, cuts, p) <= Bound(text, cuts, q)
  {
    BoundIsBoundary(text, cuts, q);
    BoundIsFirst(text, cuts, p, Bound(text, cuts, q));
  }

  /** With the white space before values out of the way, the count comes out exactly when the course is clear. */
  lemma {:induction false} CountedWhenClear(text: string, cuts: set<nat>, i: nat, course: Course)
    requires Laid(text, i, course) && ValuesReached(cuts, course)
    ensures Counted(text, cuts, course, Bound(text, cuts, i)) <==> Clear(cuts, course)
    decreases course
  {
    hide Inside, BufferAt, Bound, Uncut, Reached;
    match course
    case Over =>
    case Stuck =>
    case Mark(from, to, skips, rest) =>
      FirstAgain(text, cuts, from, to, skips);
      if Reached(cuts, from, to, skips) { CountedWhenClear(text, cuts, to + 1, rest); }
    case Item(from, to, skips, need, end, rest) =>
      FirstAgain(text, cuts, from, to, skips);
      BoundsGrow(text, cuts, to + 1, need);
      UncutToTheEnd(text, cuts, need, end);
      if Uncut(cuts, need, end) { CountedWhenClear(text, cuts, end, rest); }
    case Bracket(from, to, _, seen, _) =>
      FirstAgain(text, cuts, from, to, 2);
      CountedWhenClear(text, cuts, to + 1, seen);
  }

  // ----- chunk independence -----

  lemma StartIsBoundary(text: string, cuts: set<nat>)
    requires text != ""
    ensures IsBoundary(text, cuts, NextBoundary(text, cuts, 0)) && Bound(text, cuts, 0) == NextBoundary(text, cuts, 0)
  {
  }

  lemma ReadIsText(text: string)
    requires ReadWhole(text).Good?
    ensures text != ""
  {
  }

  /** The chunked read of a text that reads succeeds if and only if the boundaries count out. */
  lemma RunsExactlyWhenCounted(text: string, cuts: set<nat>)
    requires ReadWhole(text).Good?
    ensures RunTopLevel(text, cuts).Done? <==> Counted(text, cuts, WholeCourse(text), NextBoundary(text, cuts, 0))
  {
    hide ReadWhole, WholeCourse, RunTopLevel, Laid, Fits, Counted;
    ReadIsText(text);
    WholeLaid(text);
    StartIsBoundary(text, cuts);
    RunsExactlyWhenFits(text, cuts);
    FitsExactlyWhenCounted(text, cuts, 0, WholeCourse(text), NextBoundary(text, cuts, 0));
  }

  lemma {:induction false} NothingCut(text: string, i: nat, course: Course)
    requires Laid(text, i, course) && Unstuck(course)
    ensures Clear({}, course)
    decreases course
  {
    match course
    case Over =>
    case Stuck =>
    case Mark(from, to, _, rest) =>
      assert Inside({}, from, to) == {};
      NothingCut(text, to + 1, rest);
    case Item(_, _, _, _, end, rest) => NothingCut(text, end, rest);
    case Bracket(from, to, _, seen, _) =>
      assert Inside({}, from, to) == {};
      NothingCut(text, to + 1, seen);
  }

  /** A text read with every single-character token reached and every number uncut reads as in one piece. */
  lemma HarmlessCuts(text: string, cuts: set<nat>)
    requires ReadWhole(text).Good? ==> Clear(cuts, WholeCourse(text))
    ensures Answer(RunTopLevel(text, cuts)) == if ReadWhole(text).Good? then Some(ReadWhole(text).value) else None
  {
    hide ReadWhole, WholeCourse, RunTopLevel, Laid, Clear, Counted;
    CutsOnlyLose(text, cuts);
    if ReadWhole(text).Good? {
      WholeLaid(text);
      RunsExactlyWhenCounted(text, cuts);
      ClearCounted(text, cuts, 0, WholeCourse(text), NextBoundary(text, cuts, 0));
    }
  }

  lemma OneChunk(text: string)
    ensures Answer(RunTopLevel(text, {})) == if ReadWhole(text).Good? then Some(ReadWhole(text).value) else None
  {
    hide ReadWhole, WholeCourse, RunTopLevel, Laid, Clear;
    if ReadWhole(text).Good? {
      WholeLaid(text);
      WholeUnstuck(text);
      NothingCut(text, 0, WholeCourse(text));
    }
    HarmlessCuts(text, {});
  }

  /** Chunk independence, exactly: for every text and every way of cutting it, the reader answers as on one chunk if
      and only if the text is refused anyway or its course fits the chunks. */
  lemma IndependentExactlyWhenFits(text: string, cuts: set<nat>)
    ensures Answer(RunTopLevel(text, cuts)) == Answer(RunTopLevel(text, {}))
      <==> (ReadWhole(text).Good? ==> Fits(text, cuts, WholeCourse(text), NextBoundary(text, cuts, 0)))
  {
    hide ReadWhole, WholeCourse, RunTopLevel, Fits;
    OneChunk(text);
    CutsOnlyLose(text, cuts);
    if ReadWhole(text).Good? { RunsExactlyWhenFits(text, cuts); }
  }

  /** The same condition as a count of the boundaries before each token. */
  lemma IndependentExactlyWhenCounted(text: string, cuts: set<nat>)
    ensures Answer(RunTopLevel(text, cuts)) == Answer(RunTopLevel(text, {}))
      <==> (ReadWhole(text).Good? ==> Counted(text, cuts, WholeCourse(text), NextBoundary(text, cuts, 0)))
  {
    hide ReadWhole, WholeCourse, RunTopLevel, Counted;
    OneChunk(text);
    CutsOnlyLose(text, cuts);
    if ReadWhole(text).Good? { RunsExactlyWhenCounted(text, cuts); }
  }

  /** When the white space before values does not matter, every count starts afresh: the reader answers as on one chunk
      if and only if the text is refused anyway, or every comma, colon, brace and bracket is reached and no number is
      cut behind its first digit. */
  lemma IndependentExactlyWhenClear(text: string, cuts: set<nat>)
    requires ReadWhole(text).Good? ==> ValuesReached(cuts, WholeCourse(text))
    ensures Answer(RunTopLevel(text, cuts)) == Answer(RunTopLevel(text, {}))
      <==> (ReadWhole(text).Good? ==> Clear(cuts, WholeCourse(text)))
  {
    hide ReadWhole, WholeCourse, RunTopLevel, Laid, Clear, Counted, ValuesReached;
    IndependentExactlyWhenCounted(text, cuts);
    if ReadWhole(text).Good? {
      ReadIsText(text);
      WholeLaid(text);
      StartIsBoundary(text, cuts);
      CountedWhenClear(text, cuts, 0, WholeCourse(text));
    }
  }

  // ----- texts every cutting leaves alone -----

  /** Where a gap begins to have room for boundaries. */
  function Room(from: nat): nat {
    if from == 0 then 1 else from
  }

  /** Not room enough for as many boundaries as the reader skips times. */
  predicate Narrow(from: nat, to: nat, skips: nat) {
    to < skips + Room(from)
  }

  /** The white space before every single-character token is narrow, and every number ends at its first digit. Where
      the white space before the bracket of a `skills` array is not, that must hold whether it is seen or missed. */
  predicate Airless(course: Course) {
    match course
    case Over => true
    case Stuck => false
    case Mark(from, to, skips, rest) => Narrow(from, to, skips) && Airless(rest)
    case Item(_, _, _, need, end, rest) => need == end && Airless(rest)
    case Bracket(from, to, _, seen, missed) => Airless(seen) && (Narrow(from, to, 2) || Airless(missed))
  }

  function Range(lo: nat, hi: nat): set<nat> {
    if lo < hi then Range(lo, hi - 1) + {hi - 1} else {}
  }

  lemma {:induction false} RangeIs(lo: nat, hi: nat)
    ensures forall c: nat :: c in Range(lo, hi) <==> lo <= c < hi
    ensures |Range(lo, hi)| == if lo < hi then hi - lo else 0
    decreases hi
  {
    if lo < hi { RangeIs(lo, hi - 1); }
  }

  /** The white space of a narrow gap is reached wherever the boundaries fall. */
  lemma NarrowReached(cuts: set<nat>, from: nat, to: nat, skips: nat)
    requires Narrow(from, to, skips) && skips > 0
    ensures Reached(cuts, from, to, skips)
  {
    RangeIs(Room(from), to);
    Sets.SubsetSize(Inside(cuts, from, to), Range(Room(from), to));
  }

  lemma {:induction false} AirlessCounted(text: string, cuts: set<nat>, i: nat, course: Course, b: nat)
    requires Laid(text, i, course) && Airless(course) && i <= b <= |text|
    ensures Counted(text, cuts, course, b)
    decreases course
  {
    hide Inside, BufferAt, Bound, Narrow;
    match course
    case Over =>
    case Stuck =>
    case Mark(from, to, skips, rest) =>
      NarrowReached(cuts, from, to, skips);
      FewerInside(cuts, from, b, to);
      AirlessCounted(text, cuts, to + 1, rest, BufferAt(text, cuts, b, to, skips));
    case Item(_, to, skips, need, end, rest) =>
      AirlessCounted(text, cuts, end, rest, BufferFor(text, cuts, b, to, skips, need));
    case Bracket(from, to, end, seen, missed) =>
      if |Inside(cuts, b, to)| < 2 {
        AirlessCounted(text, cuts, to + 1, seen, BufferAt(text, cuts, b, to, 2));
      } else {
        if Narrow(from, to, 2) { NarrowReached(cuts, from, to, 2); }
        FewerInside(cuts, from, b, to);
        AirlessCounted(text, cuts, end, missed, BufferFor(text, cuts, b, to, 3, end));
      }
  }

  /** Such a text reads the same however it is cut. */
  lemma IndependentOfCuts(text: string, cuts: set<nat>)
    requires ReadWhole(text).Good? ==> Airless(WholeCourse(text))
    ensures Answer(RunTopLevel(text, cuts)) == Answer(RunTopLevel(text, {}))
  {
    hide ReadWhole, WholeCourse, RunTopLevel, Airless, Counted, Laid;
    IndependentExactlyWhenCounted(text, cuts);
    if ReadWhole(text).Good? {
      WholeLaid(text);
      AirlessCounted(text, cuts, 0, WholeCourse(text), NextBoundary(text, cuts, 0));
    }
  }

  /** Boundaries a course that is not airless does not survive: all of the first gap that is not narrow, the first one
      inside the first number that goes on behind its first digit, or two that hide a bracket and those that the rest,
      with the bracket missed, does not survive. */
  function Trouble(course: Course): set<nat> {
    match course
    case Over => {}
    case Stuck => {}
    case Mark(from, to, skips, rest) =>
      if Narrow(from, to, skips) then Trouble(rest) else Range(Room(from), to)
    case Item(_, _, _, need, end, rest) => if need == end then Trouble(rest) else {need}
    case Bracket(from, _, _, seen, missed) =>
      if Airless(seen) then {Room(from), Room(from) + 1} + Trouble(missed) else Trouble(seen)
  }

  lemma {:induction false} TroubleAhead(text: string, i: nat, course: Course)
    requires Laid(text, i, course)
    ensures forall c <- Trouble(course) :: i <= c && 0 < c
    decreases course
  {
    hide Airless, Range, Narrow;
    match course
    case Over =>
    case Stuck =>
    case Mark(from, to, skips, rest) =>
      RangeIs(Room(from), to);
      TroubleAhead(text, to + 1, rest);
    case Item(_, _, _, _, end, rest) => TroubleAhead(text, end, rest);
    case Bracket(_, to, end, seen, missed) =>
      TroubleAhead(text, to + 1, seen);
      TroubleAhead(text, end, missed);
  }

  /** From `i` on, the boundaries are these. */
  predicate Ahead(cuts: set<nat>, i: nat, trouble: set<nat>) {
    (forall c <- cuts :: i <= c ==> c in trouble) && (forall c <- trouble :: c in cuts)
  }

  /** When no boundary lies before the position, the buffer stays the same. */
  lemma NothingBefore(text: string, cuts: set<nat>, i: nat, j: nat, trouble: set<nat>)
    requires i < j <= |text| && Ahead(cuts, i, trouble) && forall c <- trouble :: j <= c
    ensures Bound(text, cuts, i) == Bound(text, cuts, j)
    ensures forall to: nat :: to <= j ==> Inside(cuts, i, to) == {}
  {
    assert forall c <- cuts :: i <= c ==> j <= c;
  }


  /** A gap with too many boundaries in it hides its token. */
  lemma WideLoses(text: string, cuts: set<nat>, from: nat, to: nat, skips: nat)
    requires from <= |text| && from <= to && !Narrow(from, to, skips) && Ahead(cuts, from, Range(Room(from), to))
    ensures |Inside(cuts, Bound(text, cuts, from), to)| >= skips
  {
    RangeIs(Room(from), to);
    FromFirstBoundary(text, cuts, from, to);
    assert Inside(cuts, from, to) == Range(Room(from), to);
  }

  /** A boundary behind the first digit of a number cuts it. */
  lemma CutLoses(text: string, cuts: set<nat>, i: nat, course: Course)
    requires course.Item? && Laid(text, i, course) && course.need < course.end && Ahead(cuts, i, {course.need})
    ensures !Counted(text, cuts, course, Bound(text, cuts, i))
  {
    hide BufferAt, Inside;
    NothingBefore(text, cuts, i, course.need, {course.need});
    FirstAgain(text, cuts, i, course.to, course.skips);
    BoundsGrow(text, cuts, course.to + 1, course.need);
  }

  lemma ItemGoesOn(text: string, cuts: set<nat>, i: nat, course: Course, trouble: set<nat>)
    requires course.Item? && Laid(text, i, course) && course.need == course.end
    requires Ahead(cuts, i, trouble) && forall c <- trouble :: course.end <= c
    requires Counted(text, cuts, course, Bound(text, cuts, i))
    ensures Counted(text, cuts, course.rest, Bound(text, cuts, course.end))
  {
    hide BufferAt, Inside, Bound;
    NothingBefore(text, cuts, i, course.end, trouble);
    FirstAgain(text, cuts, i, course.to, course.skips);
    BoundsGrow(text, cuts, course.to + 1, course.end);
  }

  /** Two boundaries in the white space before a bracket hide it, and leave the buffer at the first boundary behind
      the array. */
  lemma BracketMissed(text: string, cuts: set<nat>, from: nat, to: nat, end: nat, trouble: set<nat>)
    requires from <= to < end <= |text| && !Narrow(from, to, 2) && forall c <- trouble :: end <= c
    requires Ahead(cuts, from, {Room(from), Room(from) + 1} + trouble)
    ensures |Inside(cuts, Bound(text, cuts, from), to)| == 2 && Ahead(cuts, end, trouble)
    ensures BufferFor(text, cuts, Bound(text, cuts, from), to, 3, end) == Bound(text, cuts, end)
  {
    FromFirstBoundary(text, cuts, from, to);
    assert Inside(cuts, from, to) == {Room(from), Room(from) + 1};
    hide BufferAt, Inside;
    FirstAgain(text, cuts, from, to, 3);
    BoundsGrow(text, cuts, to + 1, end);
    if to + 1 < end { NothingBefore(text, cuts, to + 1, end, trouble); }
  }

  lemma {:induction false} TroubleLoses(text: string, cuts: set<nat>, i: nat, course: Course)
    requires Laid(text, i, course) && !Airless(course) && Ahead(cuts, i, Trouble(course))
    ensures !Counted(text, cuts, course, Bound(text, cuts, i))
    decreases course
  {
    hide BufferAt, Bound, Inside, Range, Narrow, Ahead;
    match course
    case Over =>
    case Stuck =>
    case Mark(from, to, skips, rest) =>
      if Narrow(from, to, skips) {
        TroubleAhead(text, to + 1, rest);
        NothingBefore(text, cuts, i, to + 1, Trouble(rest));
        FirstAgain(text, cuts, from, to, skips);
        StillAhead(cuts, i, to + 1, Trouble(rest));
        TroubleLoses(text, cuts, to + 1, rest);
      } else {
        WideLoses(text, cuts, from, to, skips);
      }
    case Item(_, _, _, need, end, rest) =>
      if need < end {
        CutLoses(text, cuts, i, course);
      } else if Counted(text, cuts, course, Bound(text, cuts, i)) {
        TroubleAhead(text, end, rest);
        ItemGoesOn(text, cuts, i, course, Trouble(rest));
        StillAhead(cuts, i, end, Trouble(rest));
        TroubleLoses(text, cuts, end, rest);
      }
    case Bracket(from, to, end, seen, missed) =>
      if Airless(seen) {
        TroubleAhead(text, end, missed);
        BracketMissed(text, cuts, from, to, end, Trouble(missed));
        TroubleLoses(text, cuts, end, missed);
      } else {
        TroubleAhead(text, to + 1, seen);
        NothingBefore(text, cuts, i, to + 1, Trouble(seen));
        FirstAgain(text, cuts, from, to, 2);
        StillAhead(cuts, i, to + 1, Trouble(seen));
        TroubleLoses(text, cuts, to + 1, seen);
      }
  }

  lemma StillAhead(cuts: set<nat>, i: nat, j: nat, trouble: set<nat>)
    requires i <= j && Ahead(cuts, i, trouble)
    ensures Ahead(cuts, j, trouble)
  {
  }

  /** For any text, every way of cutting it leaves the answer alone if and only if it is refused anyway or airless. */
  lemma IndependentOfEveryCutting(text: string)
    ensures (forall cuts: set<nat> :: Answer(RunTopLevel(text, cuts)) == Answer(RunTopLevel(text, {})))
      <==> (ReadWhole(text).Good? ==> Airless(WholeCourse(text)))
  {
    hide ReadWhole, WholeCourse, RunTopLevel, Airless, Counted, Laid, Trouble;
    if ReadWhole(text).Good? && !Airless(WholeCourse(text)) {
      var cuts := Trouble(WholeCourse(text));
      ReadIsText(text);
      WholeLaid(text);
      StartIsBoundary(text, cuts);
      TroubleLoses(text, cuts, 0, WholeCourse(text));
      IndependentExactlyWhenCounted(text, cuts);
    } else {
      forall cuts: set<nat> ensures Answer(RunTopLevel(text, cuts)) == Answer(RunTopLevel(text, {})) {
        IndependentOfCuts(text, cuts);
      }
    }
  }
}
