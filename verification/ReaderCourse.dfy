/** What the reader looks for in a text, and which chunks let it find everything. The course of a read is a
    matter of the text alone: the characters and values looked for, and the white space before each. It fits the
    chunks when the reader, which fills its buffer once for each skip that runs out of it, gets to each of them.
    The chunked read succeeds exactly then. */
module ReaderCourse {
  import opened Wrappers
  import opened PythonText
  import opened Json
  import opened JsonPrefix
  import opened StreamingReader
  import opened ReaderSoundness

  /** What is looked for next, from position `from`, after skipping white space `skips` times: a single character
      at `to`; a value at `to`, decoded as soon as the buffer reaches `need`, that ends at `end`; or the bracket of
      a `skills` array at `to`, which the reader can miss and then decodes as one value. */
  datatype Course =
    | Over
    | Stuck
    | Mark(from: nat, to: nat, skips: nat, rest: Course)
    | Item(from: nat, to: nat, skips: nat, need: nat, end: nat, rest: Course)
    | Bracket(from: nat, to: nat, end: nat, seen: Course, missed: Course)

  /** How much of a value must be in the buffer before it decodes: a bare number decodes from its first digit on. */
  function Enough(text: string, i: nat, end: nat): nat
    requires i < |text|
  {
    if NumberEnd(text, i).Some? then FirstDigit(text, i) + 1 else end
  }

  function ArrayCourse(text: string, i: nat, after: Course): Course
    requires i <= |text|
    decreases |text| - i
  {
    var j := SkipSpace(text, i);
    match ReadArrayTurn(text, j, [])
    case Fail => Stuck
    case Finish(_, _) => Mark(i, j, 2, after)
    case Again(_, next) =>
      if text[j] == ',' then Mark(i, j, 2, ArrayCourse(text, next, after))
      else Item(i, j, 3, next, next, ArrayCourse(text, next, after))
  }

  /** `more` is how often white space was skipped before the object loop came round. */
  function ObjectCourse(text: string, i: nat, more: nat): Course
    requires i <= |text|
    decreases |text| - i, 0
  {
    var j := SkipSpace(text, i);
    if j == |text| then Stuck
    else if text[j] == '}' then Mark(i, j, more + 2, Over)
    else
      match ReadKey(text, j)
      case Bad => Stuck
      case Good(key, next) =>
        var end := ParseValue(text, j).end;
        Item(i, j, more + 3, end, end, Mark(end, next - 1, 3, MemberCourse(text, next, key)))
  }

  function MemberCourse(text: string, i: nat, key: seq<nat>): Course
    requires i <= |text|
    decreases |text| - i, 0
  {
    var k := SkipSpace(text, i);
    if key == SKILLS_KEY && k < |text| && text[k] == '[' then
      match ReadArray(text, k + 1, [])
      case Bad => Stuck
      case Good(_, end) =>
        Bracket(i, k, end, ArrayCourse(text, k + 1, TailCourse(text, end)),
                if IsObjectArray(text, k) then ObjectCourse(text, end, 0) else Stuck)
    else
      match ParseValue(text, k)
      case Bad => Stuck
      case Good(_, end) =>
        if key == SKILLS_KEY then Item(i, k, 3, Enough(text, k, end), end, ObjectCourse(text, end, 0))
        else Item(i, k, 1, Enough(text, k, end), end, TailCourse(text, end))
  }

  function TailCourse(text: string, i: nat): Course
    requires i <= |text|
    decreases |text| - i, 1
  {
    var j := SkipSpace(text, i);
    if j < |text| && text[j] == ',' then Mark(i, j, 2, ObjectCourse(text, j + 1, 0)) else ObjectCourse(text, i, 2)
  }

  /** A strict array of objects stands at `k`. */
  predicate IsObjectArray(text: string, k: nat)
    requires k <= |text|
  {
    ParseValue(text, k).Good? && ParseValue(text, k).value.Arr? && AllObjects(ParseValue(text, k).value.items)
  }

  function WholeCourse(text: string): Course {
    var i := SkipSpace(text, 0);
    if i == |text| then Stuck
    else if text[i] == '[' then Mark(0, i, 2, ArrayCourse(text, i + 1, Over))
    else if text[i] == '{' then Mark(0, i, 2, ObjectCourse(text, i + 1, 0))
    else Stuck
  }

  // ----- the chunks -----

  function Skips(text: string, cuts: set<nat>, at: At, n: nat): (r: At)
    requires Within(text, at)
    ensures Within(text, r) && at.p <= r.p <= SkipSpace(text, at.p) && at.b <= r.b
    decreases n
  {
    if n == 0 then at
    else
      var next := Skip(text, cuts, at);
      SkipSpaceFrom(text, at.p, next.p);
      Skips(text, cuts, next, n - 1)
  }

  /** The end of the buffer once a value at `q` decodes: chunks are read, and white space is skipped, until the
      position is `q` and the buffer reaches `need`. */
  function Loaded(text: string, cuts: set<nat>, at: At, q: nat, need: nat): (b: nat)
    requires Within(text, at)
    ensures at.b <= b <= |text|
    decreases |text| - at.b, |text| - at.p
  {
    if at.p == q && need <= at.b then at.b
    else
      var next := Skip(text, cuts, At(at.p, NextBoundary(text, cuts, at.b)));
      if next == at then at.b else Loaded(text, cuts, next, q, need)
  }

  /** The reader, with its buffer filled up to `b`, gets through the course. */
  ghost predicate Fits(text: string, cuts: set<nat>, course: Course, b: nat) {
    match course
    case Over => true
    case Stuck => false
    case Mark(from, to, skips, rest) =>
      from <= b <= |text|
      && (var r := Skips(text, cuts, At(from, b), skips);
          r.p == to && Fits(text, cuts, rest, r.b))
    case Item(from, to, skips, need, end, rest) =>
      from <= b <= |text|
      && (var l := Loaded(text, cuts, Skips(text, cuts, At(from, b), skips), to, need);
          end <= l && Fits(text, cuts, rest, l))
    case Bracket(from, to, end, seen, missed) =>
      from <= b <= |text|
      && (var r := Skips(text, cuts, At(from, b), 2);
          if r.p == to then Fits(text, cuts, seen, r.b)
          else Fits(text, cuts, missed, Loaded(text, cuts, Skip(text, cuts, r), to, end)))
  }

  // ----- decoding -----

  /** What decoding leaves: the value and the buffer loaded for it, or, from a buffer that ends inside a number,
      nothing but a part of the number. */
  ghost predicate DecodedFrom(text: string, q: nat, l: nat, r: Decoded)
    requires q <= |text| && ParseValue(text, q).Good?
  {
    var v := ParseValue(text, q);
    if v.end <= l then r == Decoded(v.value, At(v.end, l)) else r.Decoded? ==> r.at.p < v.end
  }

  lemma NoNumberIsObject(text: string, i: nat)
    requires i <= |text| && ParseValue(text, i).Good? && !ParseValue(text, i).value.Num?
    ensures i < |text| && NumberEnd(text, i).None?
  {
    if i < |text| && NumberEnd(text, i).Some? { NumberIsDecoded(text, i); }
  }

  /** At a value, the buffer decodes it exactly when it reaches far enough. */
  lemma BufferDecodes(text: string, b: nat, q: nat)
    requires q <= b <= |text| && ParseValue(text, q).Good?
    ensures var v := ParseValue(text, q); var r := ParseValue(text[..b], q);
            && (r.Good? <==> Enough(text, q, v.end) <= b)
            && (r.Good? && v.end <= b ==> r == v)
            && (r.Good? && b < v.end ==> r.end < v.end)
  {
    var v := ParseValue(text, q);
    if NumberEnd(text, q).Some? {
      NumberIsDecoded(text, q);
      if q < b {
        NumberPrefix(text, b, q);
        if NumberEnd(text[..b], q).Some? {
          NumberIsDecoded(text[..b], q);
          if v.end <= b { assert text[..b][q..v.end] == text[q..v.end]; }
        } else {
          NumberStarts(text, b, q);
        }
      }
    } else {
      ValuePrefix(text, b, q);
    }
  }

  /** Before its first digit a number does not decode to anything. */
  lemma NumberStarts(text: string, b: nat, q: nat)
    requires q < b <= |text| && NumberEnd(text, q).Some? && NumberEnd(text[..b], q).None?
    ensures b <= FirstDigit(text, q) && ParseValue(text[..b], q).Bad?
  {
    hide DigitsEnd, FractionEnd, ExponentEnd;
    NumberPrefix(text, b, q);
    NumberIsDecoded(text, q);
    ConstantPrefix(text, b, q);
  }

  lemma {:induction false} DecodeLoopExact(text: string, cuts: set<nat>, at: At, q: nat)
    requires Within(text, at) && q == SkipSpace(text, at.p) && ParseValue(text, q).Good?
    ensures DecodedFrom(text, q, Loaded(text, cuts, at, q, Enough(text, q, ParseValue(text, q).end)),
                        DecodeLoop(text, cuts, at))
    decreases |text| - at.b, |text| - at.p
  {
    ValueStart(text, q);
    var next := Skip(text, cuts, At(at.p, NextBoundary(text, cuts, at.b)));
    if at.p == q {
      BufferDecodes(text, at.b, q);
    } else if ParseValue(text[..at.b], at.p).Good? {
      ValueStart(text[..at.b], at.p);
    }
    if ParseValue(text[..at.b], at.p).Bad? && next != at {
      SkipSpaceFrom(text, at.p, next.p);
      DecodeLoopExact(text, cuts, next, q);
    }
  }

  lemma DecodeExact(text: string, cuts: set<nat>, at: At)
    requires Within(text, at) && ParseValue(text, SkipSpace(text, at.p)).Good?
    ensures var q := SkipSpace(text, at.p);
            DecodedFrom(text, q, Loaded(text, cuts, Skip(text, cuts, at), q, Enough(text, q, ParseValue(text, q).end)),
                        Decode(text, cuts, at))
  {
    var start := Skip(text, cuts, at);
    SkipSpaceFrom(text, at.p, start.p);
    DecodeLoopExact(text, cuts, start, SkipSpace(text, at.p));
  }

  /** Where the whole text has no value, no buffer decodes one. */
  lemma NothingDecodes(text: string, cuts: set<nat>, at: At)
    requires Within(text, at) && ParseValue(text, SkipSpace(text, at.p)).Bad?
    ensures Decode(text, cuts, at).Lost?
  {
    DecodeSound(text, cuts, at);
    var q := SkipSpace(text, at.p);
    if q < |text| && NumberEnd(text, q).Some? { NumberIsDecoded(text, q); }
  }

  lemma PeekIsTwoSkips(text: string, cuts: set<nat>, at: At)
    requires Within(text, at)
    ensures Skips(text, cuts, at, 1) == Skip(text, cuts, at)
    ensures Skips(text, cuts, at, 2) == Peek(text, cuts, at)
    ensures Skips(text, cuts, at, 3) == Skip(text, cuts, Peek(text, cuts, at)) == ColonAt(text, cuts, at)
    ensures SkipSpace(text, Peek(text, cuts, at).p) == SkipSpace(text, at.p)
  {
    var one := Skip(text, cuts, at);
    SkipSpaceFrom(text, at.p, one.p);
    var two := Skip(text, cuts, one);
    SkipSpaceFrom(text, at.p, two.p);
    assert Skips(text, cuts, two, 1) == Skip(text, cuts, two);
    assert Skips(text, cuts, one, 2) == Skip(text, cuts, two);
  }

  // ----- arrays -----

  /** Short of a comma or a bracket, the array loop fails. */
  lemma ShortOfMark(text: string, cuts: set<nat>, here: At, acc: seq<Value>)
    requires Within(text, here) && here.p < SkipSpace(text, here.p) < |text|
    requires text[SkipSpace(text, here.p)] in {',', ']'}
    ensures ArrayTurnAt(text, cuts, here, acc).Fail?
  {
    NoValueAtMark(text, SkipSpace(text, here.p));
    hide ParseValue, Decode, SkipSpace;
    assert IsSpace(text[here.p]);
    NothingDecodes(text, cuts, here);
  }

  lemma NoValueAtMark(text: string, q: nat)
    requires q < |text| && text[q] in {',', ']'}
    ensures ParseValue(text, q).Bad?
  {
  }

  /** Loading for all of a value always gets there. */
  lemma {:induction false} LoadedEnough(text: string, cuts: set<nat>, at: At, q: nat, need: nat)
    requires Within(text, at) && q == SkipSpace(text, at.p) && q < |text| && need <= |text|
    ensures need <= Loaded(text, cuts, at, q, need)
    decreases |text| - at.b, |text| - at.p
  {
    if at.p != q || at.b < need {
      var next := Skip(text, cuts, At(at.p, NextBoundary(text, cuts, at.b)));
      SkipSpaceFrom(text, at.p, next.p);
      LoadedEnough(text, cuts, next, q, need);
    }
  }

  /** A position inside the buffer, or at the end of the text: where looking for a character leaves the reader. */
  ghost predicate Stands(text: string, here: At) {
    Within(text, here) && (here.p == here.b ==> here.p == |text|)
  }

  /** An entry is decoded whether the reader stands at it or at white space before it. */
  lemma EntryExact(text: string, cuts: set<nat>, here: At, acc: seq<Value>)
    requires Stands(text, here) && ParseValue(text, SkipSpace(text, here.p)).Good?
    requires ParseValue(text, SkipSpace(text, here.p)).value.Obj?
    ensures var q := SkipSpace(text, here.p);
            var v := ParseValue(text, q);
            var l := Loaded(text, cuts, Skip(text, cuts, here), q, v.end);
            v.end <= l && ArrayTurnAt(text, cuts, here, acc) == Again(acc + [v.value], At(v.end, l))
  {
    hide ParseValue, Loaded, Skip, Decode;
    var q := SkipSpace(text, here.p);
    NoNumberIsObject(text, q);
    ObjectIsBraced(text, q);
    assert here.p < q ==> IsSpace(text[here.p]);
    DecodeExact(text, cuts, here);
    SkipSpaceFrom(text, here.p, Skip(text, cuts, here).p);
    LoadedEnough(text, cuts, Skip(text, cuts, here), q, ParseValue(text, q).end);
  }

  lemma ObjectIsBraced(text: string, i: nat)
    requires i <= |text| && ParseValue(text, i).Good? && ParseValue(text, i).value.Obj?
    ensures i < |text| && text[i] == '{'
  {
    if text[i] == '[' { OpenBracketIsArray(text, i); }
  }

  /** A turn of the array loop, with its buffer. */
  ghost predicate TurnFollows(text: string, cuts: set<nat>, here: At, q: nat, run: Turn<seq<Value>, At>,
                              whole: Turn<seq<Value>, nat>)
    requires Within(text, here) && q <= |text|
  {
    match whole
    case Fail => true
    case Finish(entries, _) => if here.p == q then run == Finish(entries, At(q + 1, here.b)) else run.Fail?
    case Again(entries, next) =>
      if q < |text| && text[q] == ',' then (if here.p == q then run == Again(entries, At(q + 1, here.b)) else run.Fail?)
      else
        var l := Loaded(text, cuts, Skip(text, cuts, here), q, next);
        next <= l && run == Again(entries, At(next, l))
  }

  lemma ArrayTurnExact(text: string, cuts: set<nat>, here: At, acc: seq<Value>)
    requires Stands(text, here)
    ensures var q := SkipSpace(text, here.p);
            TurnFollows(text, cuts, here, q, ArrayTurnAt(text, cuts, here, acc), ReadArrayTurn(text, q, acc))
  {
    hide ParseValue, Loaded, Skip, Decode;
    var q := SkipSpace(text, here.p);
    if q < |text| {
      if text[q] in {',', ']'} {
        if here.p < q { ShortOfMark(text, cuts, here, acc); }
      } else if ParseValue(text, q).Good? && ParseValue(text, q).value.Obj? {
        EntryExact(text, cuts, here, acc);
      }
    }
  }

  lemma TurnIgnoresEntries(text: string, j: nat, acc: seq<Value>)
    requires j <= |text|
    ensures var turn, bare := ReadArrayTurn(text, j, acc), ReadArrayTurn(text, j, []);
      && (turn.Fail? <==> bare.Fail?) && (turn.Finish? <==> bare.Finish?)
      && (turn.Again? ==> bare.Again? && turn.from == bare.from)
  {
    hide ParseValue;
  }

  lemma TurnPlace(text: string, j: nat, acc: seq<Value>)
    requires j <= |text|
    ensures var turn := ReadArrayTurn(text, j, acc);
      && (turn.Finish? ==> j < |text| && turn.end == j + 1)
      && (turn.Again? ==> j < |text| && (text[j] == ',' ==> turn.from == j + 1))
  {
    hide ParseValue;
  }

  lemma ReadArrayBegins(text: string, i: nat, acc: seq<Value>)
    requires i <= |text| && ReadArray(text, i, acc).Good?
    ensures var turn := ReadArrayTurn(text, SkipSpace(text, i), acc);
      && !turn.Fail?
      && (turn.Finish? ==> ReadArray(text, i, acc) == Good(turn.result, turn.end))
      && (turn.Again? ==> ReadArray(text, i, acc) == ReadArray(text, turn.from, turn.acc))
  {
    hide ReadArrayTurn;
  }

  lemma ArrayCourseBegins(text: string, i: nat, acc: seq<Value>, after: Course)
    requires i <= |text|
    ensures var q := SkipSpace(text, i);
      var turn := ReadArrayTurn(text, q, acc);
      && (turn.Finish? ==> q < |text| && turn.end == q + 1 && ArrayCourse(text, i, after) == Mark(i, q, 2, after))
      && (turn.Again? ==> q < |text|)
      && (turn.Again? && text[q] == ',' ==>
            turn.from == q + 1 && ArrayCourse(text, i, after) == Mark(i, q, 2, ArrayCourse(text, turn.from, after)))
      && (turn.Again? && text[q] != ',' ==>
            ArrayCourse(text, i, after) == Item(i, q, 3, turn.from, turn.from, ArrayCourse(text, turn.from, after)))
  {
    TurnIgnoresEntries(text, SkipSpace(text, i), acc);
    TurnPlace(text, SkipSpace(text, i), acc);
    hide ParseValue;
  }

  /** The array loop succeeds exactly when its course fits, up to what comes after it. */
  lemma {:induction false} ArrayExact(text: string, cuts: set<nat>, at: At, acc: seq<Value>, after: Course)
    requires Within(text, at) && ReadArray(text, at.p, acc).Good?
    ensures var run := RunArray(text, cuts, at, acc);
            Fits(text, cuts, ArrayCourse(text, at.p, after), at.b) <==> run.Done? && Fits(text, cuts, after, run.at.b)
    decreases |text| - at.p
  {
    hide ParseValue, Loaded, ReadArrayTurn, ArrayTurnAt, Skip, Peek, Skips, ArrayCourse, ReadArray;
    var q, here := SkipSpace(text, at.p), Peek(text, cuts, at);
    PeekIsTwoSkips(text, cuts, at);
    ArrayTurnExact(text, cuts, here, acc);
    ReadArrayBegins(text, at.p, acc);
    ArrayCourseBegins(text, at.p, acc, after);
    var run := ArrayTurnAt(text, cuts, here, acc);
    if run.Again? { ArrayExact(text, cuts, run.from, run.acc, after); }
  }

  // ----- objects -----

  lemma SkipsAdd(text: string, cuts: set<nat>, at: At, m: nat, n: nat)
    requires Within(text, at)
    ensures Skips(text, cuts, at, m + n) == Skips(text, cuts, Skips(text, cuts, at, m), n)
    decreases m
  {
    hide Skip;
    if m > 0 { SkipsAdd(text, cuts, Skip(text, cuts, at), m - 1, n); }
  }

  /** Once at a token, skipping stays there. */
  lemma {:induction false} StayAtToken(text: string, cuts: set<nat>, here: At, n: nat)
    requires Within(text, here) && here.p < here.b && SkipSpace(text, here.p) == here.p
    ensures Skips(text, cuts, here, n) == here
  {
    if n > 0 { StayAtToken(text, cuts, here, n - 1); }
  }

  /** The turn, and all turns after it, end in success. */
  ghost predicate Succeeds(text: string, cuts: set<nat>, turn: Turn<seq<Value>, At>)
    requires turn.Again? ==> Within(text, turn.from)
  {
    match turn
    case Fail => false
    case Finish(_, _) => true
    case Again(acc, from) => RunObject(text, cuts, from, acc).Done?
  }

  lemma RunObjectTurns(text: string, cuts: set<nat>, at: At, acc: seq<Value>)
    requires Within(text, at)
    ensures RunObject(text, cuts, at, acc).Done?
      <==> Succeeds(text, cuts, ObjectTurnAt(text, cuts, Peek(text, cuts, at), acc))
  {
    hide ObjectTurnAt, Peek;
  }

  /** A key is decoded wherever the reader stands before it, and its colon is found if three skips reach it. */
  lemma KeyExact(text: string, cuts: set<nat>, here: At)
    requires Stands(text, here) && ReadKey(text, SkipSpace(text, here.p)).Good?
    ensures var q := SkipSpace(text, here.p);
            var key := ReadKey(text, q);
            var end := ParseValue(text, q).end;
            var l := Loaded(text, cuts, Skip(text, cuts, here), q, end);
            && end <= l && end < key.end
            && var colon := Skips(text, cuts, At(end, l), 3);
               RunKey(text, cuts, here) ==
               if colon.p == key.end - 1 then StreamingReader.Done(key.value, At(key.end, colon.b)) else Failed
  {
    hide ParseValue, Loaded, Skip, Decode, Skips, Peek, ColonAt;
    var q := SkipSpace(text, here.p);
    var end := ParseValue(text, q).end;
    NoNumberIsObject(text, q);
    DecodeExact(text, cuts, here);
    SkipSpaceFrom(text, here.p, Skip(text, cuts, here).p);
    LoadedEnough(text, cuts, Skip(text, cuts, here), q, end);
    var l := Loaded(text, cuts, Skip(text, cuts, here), q, end);
    PeekIsTwoSkips(text, cuts, At(end, l));
    var colon := Skips(text, cuts, At(end, l), 3);
    assert colon.p < SkipSpace(text, end) ==> IsSpace(text[colon.p]);
  }

  /** Short of a closing brace, the object loop fails. */
  lemma ShortOfBrace(text: string, cuts: set<nat>, here: At, acc: seq<Value>)
    requires Within(text, here) && here.p < SkipSpace(text, here.p) < |text| && text[SkipSpace(text, here.p)] == '}'
    ensures ObjectTurnAt(text, cuts, here, acc).Fail?
  {
    hide RunAfterKey;
    assert IsSpace(text[here.p]);
    NothingDecodes(text, cuts, here);
  }

  lemma BraceExact(text: string, cuts: set<nat>, at: At, acc: seq<Value>)
    requires Within(text, at) && SkipSpace(text, at.p) < |text| && text[SkipSpace(text, at.p)] == '}'
    ensures RunObject(text, cuts, at, acc).Done? <==> Peek(text, cuts, at).p == SkipSpace(text, at.p)
  {
    var here := Peek(text, cuts, at);
    PeekIsTwoSkips(text, cuts, at);
    hide Peek, RunKey, RunAfterKey;
    if here.p < SkipSpace(text, at.p) { ShortOfBrace(text, cuts, here, acc); }
  }

  /** The object loop succeeds exactly when its course fits. */
  lemma {:induction false} ObjectExact(text: string, cuts: set<nat>, start: At, more: nat, acc: seq<Value>)
    requires Within(text, start) && ReadObject(text, start.p, acc).Good?
    ensures Fits(text, cuts, ObjectCourse(text, start.p, more), start.b)
      <==> RunObject(text, cuts, Skips(text, cuts, start, more), acc).Done?
    decreases |text| - start.p, 0
  {
    hide ParseValue, Skip, Peek, Skips, Fits, ObjectCourse, RunObject, ReadObject, ReadKey, ReadAfterKey;
    var at := Skips(text, cuts, start, more);
    var q, here := SkipSpace(text, start.p), Peek(text, cuts, at);
    SkipSpaceFrom(text, start.p, at.p);
    SkipsAdd(text, cuts, start, more, 2);
    SkipsAdd(text, cuts, start, more, 3);
    PeekIsTwoSkips(text, cuts, at);
    RunObjectTurns(text, cuts, at, acc);
    NextToken(text, start.p, acc);
    if text[q] == '}' {
      BraceExact(text, cuts, at, acc);
      BraceCourse(text, cuts, start, more);
    } else {
      KeyTurn(text, cuts, here, acc);
      KeyExact(text, cuts, here);
      ReadObjectByKey(text, start.p, ReadKey(text, q).value, ReadKey(text, q).end, acc);
      KeyCourse(text, cuts, start, more);
      var run := RunKey(text, cuts, here);
      if run.Done? { MemberExact(text, cuts, run.at, run.value, acc); } else { NothingSucceeds(text, cuts); }
    }
  }

  lemma NextToken(text: string, i: nat, acc: seq<Value>)
    requires i <= |text| && ReadObject(text, i, acc).Good?
    ensures var q := SkipSpace(text, i); q < |text| && (text[q] != '}' ==> ReadKey(text, q).Good?)
  {
    hide ReadKey, ReadAfterKey;
  }

  lemma BraceCourse(text: string, cuts: set<nat>, start: At, more: nat)
    requires Within(text, start) && SkipSpace(text, start.p) < |text| && text[SkipSpace(text, start.p)] == '}'
    ensures Fits(text, cuts, ObjectCourse(text, start.p, more), start.b)
      <==> Skips(text, cuts, start, more + 2).p == SkipSpace(text, start.p)
  {
    hide Skips;
  }

  lemma KeyCourse(text: string, cuts: set<nat>, start: At, more: nat)
    requires Within(text, start)
    requires var q := SkipSpace(text, start.p); q < |text| && text[q] != '}' && ReadKey(text, q).Good?
    ensures var q := SkipSpace(text, start.p);
            var key, end := ReadKey(text, q), ParseValue(text, q).end;
            var l := Loaded(text, cuts, Skips(text, cuts, start, more + 3), q, end);
            end <= |text| && (end <= l ==>
              (Fits(text, cuts, ObjectCourse(text, start.p, more), start.b) <==>
               var colon := Skips(text, cuts, At(end, l), 3);
               colon.p == key.end - 1 && Fits(text, cuts, MemberCourse(text, key.end, key.value), colon.b)))
  {
    hide Skips, Loaded, MemberCourse, ParseValue;
  }

  /** A turn that does not see a closing brace goes by its key. */
  lemma KeyTurn(text: string, cuts: set<nat>, here: At, acc: seq<Value>)
    requires Stands(text, here) && ReadKey(text, SkipSpace(text, here.p)).Good?
    ensures ObjectTurnAt(text, cuts, here, acc) ==
            var run := RunKey(text, cuts, here);
            if run.Failed? then Fail else RunAfterKey(text, cuts, run.at, run.value, acc)
  {
    hide RunKey, RunAfterKey;
    KeyIsQuoted(text, SkipSpace(text, here.p));
    hide ReadKey;
    assert here.p < SkipSpace(text, here.p) ==> IsSpace(text[here.p]);
  }

  /** What follows a member, comma and all. */
  lemma TailExact(text: string, cuts: set<nat>, at: At, acc: seq<Value>)
    requires Within(text, at) && Resume(text, ReadTail(text, at.p, acc)).Good?
    ensures Fits(text, cuts, TailCourse(text, at.p), at.b)
      <==> Succeeds(text, cuts, RunTail(text, Peek(text, cuts, at), acc))
    decreases |text| - at.p, 1
  {
    hide ParseValue, Loaded, Skip, Peek, Skips, ObjectCourse, RunObject, ReadObject;
    var j, here := SkipSpace(text, at.p), Peek(text, cuts, at);
    PeekIsTwoSkips(text, cuts, at);
    assert here.p < j ==> IsSpace(text[here.p]);
    if j < |text| && text[j] == ',' {
      if here.p == j {
        ObjectExact(text, cuts, Past(here), 0, acc);
        NoSkips(text, cuts, Past(here));
      } else {
        AtCommaFails(text, cuts, here, acc);
      }
    } else {
      NoCommaNoTail(text, at.p, acc);
      ObjectExact(text, cuts, at, 2, acc);
      if here.p < |text| && text[here.p] == '}' { BraceSeen(text, cuts, here, acc); }
    }
  }

  lemma NoSkips(text: string, cuts: set<nat>, at: At)
    requires Within(text, at)
    ensures Skips(text, cuts, at, 0) == at
  {
  }

  lemma BraceSeen(text: string, cuts: set<nat>, here: At, acc: seq<Value>)
    requires Within(text, here) && here.p < here.b && text[here.p] == '}'
    ensures RunObject(text, cuts, here, acc).Done?
  {
    hide RunKey, RunAfterKey;
    assert SkipSpace(text, here.p) == here.p;
    assert Peek(text, cuts, here) == here;
  }

  /** Inside a number neither a comma nor a key can be found. */
  lemma CutNumberStops(text: string, cuts: set<nat>, at: At, acc: seq<Value>)
    requires Within(text, at) && at.p < |text| && MidNumber(text[at.p])
    ensures RunObject(text, cuts, at, acc).Failed?
    ensures !Succeeds(text, cuts, RunTail(text, Peek(text, cuts, at), acc))
  {
    hide RunObject;
    var here := Peek(text, cuts, at);
    assert here.p == at.p;
    InsideNumberFails(text, cuts, at, acc);
    InsideNumberFails(text, cuts, here, acc);
  }

  /** A member value decoded in one go: in full, or cut inside a number. */
  lemma ValueExact(text: string, cuts: set<nat>, at: At) returns (v: Parsed<Value>, l: nat)
    requires Within(text, at) && ParseValue(text, SkipSpace(text, at.p)).Good?
    ensures var q := SkipSpace(text, at.p);
            && v == ParseValue(text, q) && v.Good? && q < |text|
            && l == Loaded(text, cuts, Skip(text, cuts, at), q, Enough(text, q, v.end))
    ensures v.end <= l ==> Decode(text, cuts, at) == Decoded(v.value, At(v.end, l))
    ensures l < v.end ==>
      var r := Decode(text, cuts, at); r.Decoded? ==> !r.value.Arr? && r.at.p < |text| && MidNumber(text[r.at.p])
  {
    hide ParseValue, Loaded, Skip;
    DecodeExact(text, cuts, at);
    DecodeSound(text, cuts, at);
    v := ParseValue(text, SkipSpace(text, at.p));
    ValueStart(text, SkipSpace(text, at.p));
    l := Loaded(text, cuts, Skip(text, cuts, at), SkipSpace(text, at.p), Enough(text, SkipSpace(text, at.p), v.end));
  }

  lemma PlainExact(text: string, cuts: set<nat>, at: At, key: seq<nat>, acc: seq<Value>)
    requires Within(text, at) && key != SKILLS_KEY && Resume(text, ReadAfterKey(text, at.p, key, acc)).Good?
    ensures Fits(text, cuts, MemberCourse(text, at.p, key), at.b)
      <==> Succeeds(text, cuts, RunAfterKey(text, cuts, at, key, acc))
    decreases |text| - at.p, 2
  {
    hide ParseValue, Loaded, Skip, Peek, Decode, TailCourse, RunTail, ReadTail, ReadArray, RunArray, ReadSkills,
         RunSkills, Succeeds, Enough;
    var v, l := ValueExact(text, cuts, at);
    PeekIsTwoSkips(text, cuts, at);
    var r := Decode(text, cuts, at);
    if v.end <= l {
      TailExact(text, cuts, At(v.end, l), acc);
    } else if r.Decoded? {
      CutNumberStops(text, cuts, r.at, acc);
    } else {
      NothingSucceeds(text, cuts);
    }
  }

  lemma OtherCourse(text: string, cuts: set<nat>, at: At, k: nat)
    requires Within(text, at) && k == SkipSpace(text, at.p) && k < |text| && text[k] != '[' && ParseValue(text, k).Good?
    ensures var end := ParseValue(text, k).end;
            var l := Loaded(text, cuts, Skips(text, cuts, at, 3), k, Enough(text, k, end));
            Fits(text, cuts, MemberCourse(text, at.p, SKILLS_KEY), at.b) <==>
            end <= l && Fits(text, cuts, ObjectCourse(text, end, 0), l)
  {
    hide ParseValue, Loaded, Skip, Skips, ObjectCourse, Enough, ReadArray;
  }

  lemma OtherRun(text: string, cuts: set<nat>, at: At, k: nat, acc: seq<Value>)
    requires Within(text, at) && k == SkipSpace(text, at.p) && k < |text| && text[k] != '['
    ensures Succeeds(text, cuts, RunAfterKey(text, cuts, at, SKILLS_KEY, acc))
      <==> MissedSucceeds(text, cuts, Peek(text, cuts, at), acc)
  {
    hide Peek, RunTail, RunArray, RunObject, RunUnseenSkills, Decode, Resume, ParseValue;
    var here := Peek(text, cuts, at);
    assert here.p < k ==> IsSpace(text[here.p]);
    MissedIsBeforeKey(text, cuts, here, acc);
  }

  lemma OtherRead(text: string, at: At, k: nat, acc: seq<Value>)
    requires Within(text, at) && k == SkipSpace(text, at.p) && (k < |text| ==> text[k] != '[')
    requires Resume(text, ReadAfterKey(text, at.p, SKILLS_KEY, acc)).Good?
    ensures k < |text| && ParseValue(text, k).Good? && !ParseValue(text, k).value.Arr?
    ensures ReadObject(text, ParseValue(text, k).end, acc).Good?
  {
    if ParseValue(text, k).Good? {
      ValueStart(text, k);
      if ParseValue(text, k).value.Arr? { ArrayBracket(text, k); }
    }
    hide ReadTail, ReadObject, ReadArray, ParseValue;
  }

  /** A `skills` value that is no array is decoded, seen or not. */
  lemma OtherSkillsExact(text: string, cuts: set<nat>, at: At, acc: seq<Value>)
    requires Within(text, at) && Resume(text, ReadAfterKey(text, at.p, SKILLS_KEY, acc)).Good?
    requires SkipSpace(text, at.p) < |text| ==> text[SkipSpace(text, at.p)] != '['
    ensures Fits(text, cuts, MemberCourse(text, at.p, SKILLS_KEY), at.b)
      <==> Succeeds(text, cuts, RunAfterKey(text, cuts, at, SKILLS_KEY, acc))
    decreases |text| - at.p, 2
  {
    hide ParseValue, Loaded, Skip, Skips, Peek, Decode, ObjectCourse, MemberCourse, RunAfterKey, ReadAfterKey,
         RunObject, ReadObject, Enough, Fits, Succeeds, Resume;
    var k, here := SkipSpace(text, at.p), Peek(text, cuts, at);
    PeekIsTwoSkips(text, cuts, at);
    OtherRead(text, at, k, acc);
    OtherRun(text, cuts, at, k, acc);
    OtherCourse(text, cuts, at, k);
    var v, l := ValueExact(text, cuts, here);
    var r := Decode(text, cuts, here);
    if v.end <= l {
      ObjectExact(text, cuts, At(v.end, l), 0, acc);
      NoSkips(text, cuts, At(v.end, l));
    } else if r.Decoded? {
      CutNumberStops(text, cuts, r.at, acc);
    }
  }

  lemma ArrayBracket(text: string, i: nat)
    requires i <= |text| && ParseValue(text, i).Good? && ParseValue(text, i).value.Arr?
    ensures i < |text| && text[i] == '['
  {
    if text[i] == '{' { OpenBraceIsObject(text, i); }
  }

  /** The read of the whole text goes on to a good end behind the array whose entries start at `i`. */
  ghost predicate GoodAfterArray(text: string, i: nat, acc: seq<Value>)
    requires i <= |text|
  {
    var whole := ReadArray(text, i, acc);
    whole.Good? && Resume(text, ReadTail(text, whole.end, whole.value)).Good?
  }

  ghost predicate SeenSucceeds(text: string, cuts: set<nat>, here: At, acc: seq<Value>)
    requires Within(text, here) && here.p < here.b
  {
    var run := RunArray(text, cuts, Past(here), acc);
    run.Done? && Succeeds(text, cuts, RunTail(text, Peek(text, cuts, run.at), run.value))
  }

  ghost predicate MissedSucceeds(text: string, cuts: set<nat>, here: At, acc: seq<Value>)
    requires Within(text, here)
  {
    var run := RunUnseenSkills(text, cuts, here, acc);
    run.BeforeKey? && RunObject(text, cuts, run.at, run.acc).Done?
  }

  /** A `skills` array whose bracket the reader sees. */
  lemma SeenArrayExact(text: string, cuts: set<nat>, here: At, acc: seq<Value>)
    requires Within(text, here) && here.p < here.b && text[here.p] == '[' && GoodAfterArray(text, here.p + 1, acc)
    ensures var after := TailCourse(text, ReadArray(text, here.p + 1, acc).end);
      Fits(text, cuts, ArrayCourse(text, here.p + 1, after), here.b)
      <==> SeenSucceeds(text, cuts, here, acc)
    decreases |text| - here.p, 2
  {
    hide RunArray, ReadArray, Peek, TailCourse, RunTail, ReadTail, Succeeds, ArrayCourse;
    var whole, run := ReadArray(text, here.p + 1, acc), RunArray(text, cuts, Past(here), acc);
    ArrayExact(text, cuts, Past(here), acc, TailCourse(text, whole.end));
    ArraySound(text, cuts, Past(here), acc);
    if run.Done? { TailExact(text, cuts, run.at, run.value); }
  }

  /** A `skills` array whose bracket the reader misses: only a strict array of objects without a comma behind it
      gets through. */
  lemma MissedArrayExact(text: string, cuts: set<nat>, here: At, k: nat, acc: seq<Value>)
    requires Stands(text, here) && here.p < k < |text| && k == SkipSpace(text, here.p) && text[k] == '['
    requires GoodAfterArray(text, k + 1, acc)
    ensures IsObjectArray(text, k) && Fits(text, cuts, ObjectCourse(text, ReadArray(text, k + 1, acc).end, 0),
                Loaded(text, cuts, Skip(text, cuts, here), k, ReadArray(text, k + 1, acc).end))
      <==> MissedSucceeds(text, cuts, here, acc)
    decreases |text| - here.p, 2
  {
    hide ParseValue, Loaded, Skip, Decode, ObjectCourse, ReadTail, RunObject, ReadObject, ReadArray;
    OpenBracketIsArray(text, k);
    if ParseValue(text, k).Bad? {
      NothingDecodes(text, cuts, here);
    } else {
      var v, l := ValueExact(text, cuts, here);
      SkipSpaceFrom(text, here.p, Skip(text, cuts, here).p);
      LoadedEnough(text, cuts, Skip(text, cuts, here), k, v.end);
      if AllObjects(v.value.items) {
        DecodedArrayRead(text, k, acc);
        AfterMissedArray(text, cuts, At(v.end, l), acc + v.value.items);
      }
    }
  }

  /** The reader that missed a bracket looks for a key at once. */
  lemma AfterMissedArray(text: string, cuts: set<nat>, at: At, acc: seq<Value>)
    requires Within(text, at) && Resume(text, ReadTail(text, at.p, acc)).Good?
    ensures Fits(text, cuts, ObjectCourse(text, at.p, 0), at.b) <==> RunObject(text, cuts, at, acc).Done?
    decreases |text| - at.p, 1
  {
    hide ParseValue, RunObject, ReadObject;
    var j := SkipSpace(text, at.p);
    if j < |text| && text[j] == ',' {
      AtCommaFails(text, cuts, at, acc);
      NoKeyAtComma(text, at.p);
    } else {
      NoCommaNoTail(text, at.p, acc);
      ObjectExact(text, cuts, at, 0, acc);
      NoSkips(text, cuts, at);
    }
  }

  lemma NoKeyAtComma(text: string, i: nat)
    requires i <= |text| && SkipSpace(text, i) < |text| && text[SkipSpace(text, i)] == ','
    ensures ObjectCourse(text, i, 0).Stuck?
  {
    if ReadKey(text, SkipSpace(text, i)).Good? { KeyIsQuoted(text, SkipSpace(text, i)); }
  }

  lemma BracketCourse(text: string, cuts: set<nat>, at: At, k: nat)
    requires Within(text, at) && k == SkipSpace(text, at.p) && k < |text| && text[k] == '['
    requires ReadArray(text, k + 1, []).Good?
    ensures var end := ReadArray(text, k + 1, []).end;
            var r := Skips(text, cuts, at, 2);
            && (r.p == k ==> (Fits(text, cuts, MemberCourse(text, at.p, SKILLS_KEY), at.b) <==>
                              Fits(text, cuts, ArrayCourse(text, k + 1, TailCourse(text, end)), r.b)))
            && (r.p != k ==> (Fits(text, cuts, MemberCourse(text, at.p, SKILLS_KEY), at.b) <==>
                              IsObjectArray(text, k) &&
                              Fits(text, cuts, ObjectCourse(text, end, 0),
                                   Loaded(text, cuts, Skip(text, cuts, r), k, end))))
  {
    hide Loaded, Skip, Skips, ArrayCourse, ObjectCourse, TailCourse, ReadArray, IsObjectArray;
  }

  lemma BracketRun(text: string, cuts: set<nat>, at: At, k: nat, acc: seq<Value>)
    requires Within(text, at) && k == SkipSpace(text, at.p) && k < |text| && text[k] == '['
    ensures var here := Peek(text, cuts, at);
            Succeeds(text, cuts, RunAfterKey(text, cuts, at, SKILLS_KEY, acc)) <==>
            if here.p == k then SeenSucceeds(text, cuts, here, acc) else MissedSucceeds(text, cuts, here, acc)
  {
    hide Peek, RunTail, RunArray, RunObject, RunUnseenSkills, Decode, Resume, ParseValue;
    var here := Peek(text, cuts, at);
    assert here.p < k ==> IsSpace(text[here.p]);
    MissedIsBeforeKey(text, cuts, here, acc);
  }

  lemma MissedIsBeforeKey(text: string, cuts: set<nat>, here: At, acc: seq<Value>)
    requires Within(text, here)
    ensures !RunUnseenSkills(text, cuts, here, acc).BeforeComma?
  {
    hide Decode;
  }

  lemma BracketRead(text: string, at: At, k: nat, acc: seq<Value>)
    requires Within(text, at) && k == SkipSpace(text, at.p) && k < |text| && text[k] == '['
    requires Resume(text, ReadAfterKey(text, at.p, SKILLS_KEY, acc)).Good?
    ensures GoodAfterArray(text, k + 1, acc)
  {
    hide ReadTail, ReadObject, ReadArray;
  }

  lemma SkillsArrayExact(text: string, cuts: set<nat>, at: At, acc: seq<Value>)
    requires Within(text, at) && Resume(text, ReadAfterKey(text, at.p, SKILLS_KEY, acc)).Good?
    requires SkipSpace(text, at.p) < |text| && text[SkipSpace(text, at.p)] == '['
    ensures Fits(text, cuts, MemberCourse(text, at.p, SKILLS_KEY), at.b)
      <==> Succeeds(text, cuts, RunAfterKey(text, cuts, at, SKILLS_KEY, acc))
    decreases |text| - at.p, 3
  {
    hide Fits, MemberCourse, ArrayCourse, ObjectCourse, TailCourse, RunAfterKey, ReadAfterKey, Resume, ReadTail,
         ReadArray, Succeeds, SeenSucceeds, MissedSucceeds, Peek, Skip, Skips, Loaded, IsObjectArray;
    var k, here := SkipSpace(text, at.p), Peek(text, cuts, at);
    BracketRead(text, at, k, acc);
    PeekIsTwoSkips(text, cuts, at);
    ArrayEndIgnores(text, k + 1, acc, []);
    BracketCourse(text, cuts, at, k);
    BracketRun(text, cuts, at, k, acc);
    if here.p == k {
      SeenArrayExact(text, cuts, here, acc);
    } else {
      MissedArrayExact(text, cuts, here, k, acc);
    }
  }

  lemma {:induction false} ArrayEndIgnores(text: string, i: nat, acc: seq<Value>, other: seq<Value>)
    requires i <= |text|
    ensures var r, bare := ReadArray(text, i, acc), ReadArray(text, i, other);
      (r.Good? <==> bare.Good?) && (r.Good? ==> r.end == bare.end)
    decreases |text| - i
  {
    hide ParseValue;
    var turn, plain := ReadArrayTurn(text, SkipSpace(text, i), acc), ReadArrayTurn(text, SkipSpace(text, i), other);
    if turn.Again? { ArrayEndIgnores(text, turn.from, turn.acc, plain.acc); }
  }

  lemma MemberExact(text: string, cuts: set<nat>, at: At, key: seq<nat>, acc: seq<Value>)
    requires Within(text, at) && Resume(text, ReadAfterKey(text, at.p, key, acc)).Good?
    ensures Fits(text, cuts, MemberCourse(text, at.p, key), at.b)
      <==> Succeeds(text, cuts, RunAfterKey(text, cuts, at, key, acc))
    decreases |text| - at.p, 4
  {
    hide Fits, MemberCourse, RunAfterKey, ReadAfterKey, Resume, Succeeds;
    if key != SKILLS_KEY {
      PlainExact(text, cuts, at, key, acc);
    } else if SkipSpace(text, at.p) < |text| && text[SkipSpace(text, at.p)] == '[' {
      SkillsArrayExact(text, cuts, at, acc);
    } else {
      OtherSkillsExact(text, cuts, at, acc);
    }
  }

  // ----- the whole read -----

  /** For every text and every way of cutting it, the chunked read of a text that reads succeeds if and only if
      the course of the text fits the chunks. */
  lemma RunsExactlyWhenFits(text: string, cuts: set<nat>)
    requires ReadWhole(text).Good?
    ensures RunTopLevel(text, cuts).Done? <==> Fits(text, cuts, WholeCourse(text), NextBoundary(text, cuts, 0))
  {
    hide RunArray, RunObject, ReadArray, ReadObject, ArrayCourse, ObjectCourse, Peek, Skips;
    var start := At(0, NextBoundary(text, cuts, 0));
    var i, here := SkipSpace(text, 0), Peek(text, cuts, start);
    PeekIsTwoSkips(text, cuts, start);
    assert here.p < i ==> IsSpace(text[here.p]);
    if here.p == i {
      if text[i] == '[' {
        ArrayExact(text, cuts, Past(here), [], Over);
      } else {
        ObjectExact(text, cuts, Past(here), 0, []);
        NoSkips(text, cuts, Past(here));
      }
    }
  }

  lemma NothingSucceeds(text: string, cuts: set<nat>)
    ensures !Succeeds(text, cuts, Fail)
  {
  }
}
