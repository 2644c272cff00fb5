/** The incremental reader of skill index files: the reader itself, and the pure functions it computes. */
module StreamingReader {
  import opened Wrappers
  import opened PythonText
  import opened Json

  // ----- the simple form: one pass over the whole text -----

  const SKILLS_KEY: seq<nat> := [0x73, 0x6B, 0x69, 0x6C, 0x6C, 0x73]

  /** What one turn of a reading loop does: fail, finish, or go round again. */
  datatype Turn<+T, +P> = Fail | Finish(result: T, end: P) | Again(acc: T, from: P)

  function ReadArrayTurn(text: string, j: nat, acc: seq<Value>): (r: Turn<seq<Value>, nat>)
    requires j <= |text|
    ensures r.Finish? ==> j < r.end <= |text|
    ensures r.Again? ==> j < r.from <= |text|
  {
    if j == |text| then Fail
    else if text[j] == ']' then Finish(acc, j + 1)
    else if text[j] == ',' then Again(acc, j + 1)
    else
      match ParseValue(text, j)
      case Good(Obj(fields), end) => Again(acc + [Obj(fields)], end)
      case _ => Fail
  }

  /** Array entries up to the closing bracket. Commas are skipped wherever they stand. */
  function ReadArray(text: string, i: nat, acc: seq<Value>): (r: Parsed<seq<Value>>)
    requires i <= |text|
    ensures r.Good? ==> i < r.end <= |text|
    decreases |text| - i
  {
    match ReadArrayTurn(text, SkipSpace(text, i), acc)
    case Fail => Bad
    case Finish(entries, end) => Good(entries, end)
    case Again(entries, next) => ReadArray(text, next, entries)
  }

  /** The key and colon of a member of the top-level object. */
  function ReadKey(text: string, i: nat): (r: Parsed<seq<nat>>)
    requires i <= |text|
    ensures r.Good? ==> i < r.end <= |text|
  {
    match ParseValue(text, i)
    case Good(Str(key), end) =>
      var j := SkipSpace(text, end);
      if j < |text| && text[j] == ':' then Good(key, j + 1) else Bad
    case _ => Bad
  }

  /** A member value, and whether the loop looks for a comma behind it: it does not behind a `skills`
      value that is not an array. */
  datatype Member<+T, +P> = NoValue | BeforeComma(acc: T, at: P) | BeforeKey(acc: T, at: P)

  function ReadSkills(text: string, k: nat, acc: seq<Value>): (r: Member<seq<Value>, nat>)
    requires k <= |text|
    ensures !r.NoValue? ==> k < r.at <= |text|
  {
    if k < |text| && text[k] == '[' then
      match ReadArray(text, k + 1, acc)
      case Bad => NoValue
      case Good(entries, end) => BeforeComma(entries, end)
    else
      match ParseValue(text, k)
      case Bad => NoValue
      case Good(_, end) => BeforeKey(acc, end)
  }

  function ReadMember(text: string, i: nat, key: seq<nat>, acc: seq<Value>): (r: Member<seq<Value>, nat>)
    requires i <= |text|
    ensures !r.NoValue? ==> i < r.at <= |text|
  {
    var k := SkipSpace(text, i);
    if key == SKILLS_KEY then ReadSkills(text, k, acc)
    else
      match ParseValue(text, k)
      case Bad => NoValue
      case Good(_, end) => BeforeComma(acc, end)
  }

  function ReadTail(text: string, i: nat, acc: seq<Value>): (r: Turn<seq<Value>, nat>)
    requires i <= |text|
    ensures r.Finish? ==> i < r.end <= |text|
    ensures r.Again? ==> i <= r.from <= |text|
  {
    var j := SkipSpace(text, i);
    if j < |text| && text[j] == ',' then Again(acc, j + 1)
    else if j < |text| && text[j] == '}' then Finish(acc, j + 1)
    else Again(acc, j)
  }

  function ObjectTurn(text: string, i: nat, acc: seq<Value>): (r: Turn<seq<Value>, nat>)
    requires i <= |text|
    ensures r.Finish? ==> i < r.end <= |text|
    ensures r.Again? ==> i < r.from <= |text|
  {
    var j := SkipSpace(text, i);
    if j == |text| then Fail
    else if text[j] == '}' then Finish(acc, j + 1)
    else
      match ReadKey(text, j)
      case Bad => Fail
      case Good(key, end) => ReadAfterKey(text, end, key, acc)
  }

  function ReadAfterKey(text: string, i: nat, key: seq<nat>, acc: seq<Value>): (r: Turn<seq<Value>, nat>)
    requires i <= |text|
    ensures r.Finish? ==> i < r.end <= |text|
    ensures r.Again? ==> i < r.from <= |text|
  {
    match ReadMember(text, i, key, acc)
    case NoValue => Fail
    case BeforeComma(passed, next) => ReadTail(text, next, passed)
    case BeforeKey(passed, next) => Again(passed, next)
  }

  /** The entries of the `skills` members of an object, in the reader's lenient grammar. */
  function ReadObject(text: string, i: nat, acc: seq<Value>): (r: Parsed<seq<Value>>)
    requires i <= |text|
    ensures r.Good? ==> i < r.end <= |text|
    decreases |text| - i
  {
    match ObjectTurn(text, i, acc)
    case Fail => Bad
    case Finish(result, end) => Good(result, end)
    case Again(passed, next) => ReadObject(text, next, passed)
  }

  /** The whole text read in one piece. */
  function ReadWhole(text: string): Parsed<seq<Value>> {
    var i := SkipSpace(text, 0);
    if i == |text| then Bad
    else if text[i] == '[' then ReadArray(text, i + 1, [])
    else if text[i] == '{' then ReadObject(text, i + 1, [])
    else Bad
  }

  // ----- the chunked form: a position and the end of what has been read -----

  /** The reader's position and the length of its buffer. */
  datatype At = At(p: nat, b: nat)

  ghost predicate Within(text: string, at: At) {
    at.p <= at.b <= |text|
  }

  /** The end of the buffer after one more chunk. */
  function NextBoundary(text: string, cuts: set<nat>, b: nat): (r: nat)
    requires b <= |text|
    ensures b <= r <= |text| && (b < |text| ==> b < r)
    ensures r == |text| || r in cuts
    ensures forall c <- cuts :: !(b < c < r)
    decreases |text| - b
  {
    if b + 1 >= |text| then |text|
    else if b + 1 in cuts then b + 1
    else NextBoundary(text, cuts, b + 1)
  }

  /** `_skip_whitespace`: stops at the start of a chunk it had to read, whatever that chunk holds. */
  function Skip(text: string, cuts: set<nat>, at: At): (r: At)
    requires Within(text, at)
    ensures Within(text, r) && at.p <= r.p <= SkipSpace(text, at.p) && at.b <= r.b
    ensures r.p == r.b ==> r.p == |text|
  {
    var j := SkipSpace(text, at.p);
    if j < at.b then At(j, at.b) else At(at.b, NextBoundary(text, cuts, at.b))
  }

  datatype Decoded = Lost | Decoded(value: Value, at: At)

  /** `_decode_value`: decode what is in the buffer, reading on and skipping space after each failure. */
  function Decode(text: string, cuts: set<nat>, at: At): (r: Decoded)
    requires Within(text, at)
    ensures r.Decoded? ==> Within(text, r.at) && at.p < r.at.p && at.b <= r.at.b
  {
    DecodeLoop(text, cuts, Skip(text, cuts, at))
  }

  function DecodeLoop(text: string, cuts: set<nat>, at: At): (r: Decoded)
    requires Within(text, at)
    ensures r.Decoded? ==> Within(text, r.at) && at.p < r.at.p && at.b <= r.at.b
    decreases |text| - at.b, |text| - at.p
  {
    match ParseValue(text[..at.b], at.p)
    case Good(value, end) => Decoded(value, At(end, at.b))
    case Bad =>
      var next := Skip(text, cuts, At(at.p, NextBoundary(text, cuts, at.b)));
      if next == at then Lost else DecodeLoop(text, cuts, next)
  }

  /** `_skip_whitespace` followed by `_peek`, which skips white space a second time. */
  function Peek(text: string, cuts: set<nat>, at: At): (r: At)
    requires Within(text, at)
    ensures Within(text, r) && at.p <= r.p <= SkipSpace(text, at.p) && at.b <= r.b
    ensures r.p == r.b ==> r.p == |text|
  {
    Skip(text, cuts, Skip(text, cuts, at))
  }

  predicate Sees(text: string, at: At, c: char) {
    at.p < |text| && text[at.p] == c
  }

  function Past(at: At): At {
    At(at.p + 1, at.b)
  }

  datatype Run<+T> = Failed | Done(value: T, at: At)

  function ArrayTurnAt(text: string, cuts: set<nat>, here: At, acc: seq<Value>): (r: Turn<seq<Value>, At>)
    requires Within(text, here)
    ensures r.Finish? ==> Within(text, r.end) && here.p < r.end.p
    ensures r.Again? ==> Within(text, r.from) && here.p < r.from.p
  {
    if here.p == here.b then Fail
    else if text[here.p] == ']' then Finish(acc, Past(here))
    else if text[here.p] == ',' then Again(acc, Past(here))
    else
      match Decode(text, cuts, here)
      case Decoded(Obj(fields), next) => Again(acc + [Obj(fields)], next)
      case _ => Fail
  }

  function RunArray(text: string, cuts: set<nat>, at: At, acc: seq<Value>): (r: Run<seq<Value>>)
    requires Within(text, at)
    ensures r.Done? ==> Within(text, r.at) && at.p < r.at.p
    decreases |text| - at.p
  {
    match ArrayTurnAt(text, cuts, Peek(text, cuts, at), acc)
    case Fail => Failed
    case Finish(entries, end) => Done(entries, end)
    case Again(entries, next) => RunArray(text, cuts, next, entries)
  }

  /** Where the reader looks for a colon: it skips white space three times. */
  function ColonAt(text: string, cuts: set<nat>, at: At): (r: At)
    requires Within(text, at)
    ensures Within(text, r) && at.p <= r.p <= SkipSpace(text, at.p) && at.b <= r.b
  {
    Skip(text, cuts, Peek(text, cuts, at))
  }

  function RunKey(text: string, cuts: set<nat>, at: At): (r: Run<seq<nat>>)
    requires Within(text, at)
    ensures r.Done? ==> Within(text, r.at) && at.p < r.at.p
  {
    match Decode(text, cuts, at)
    case Decoded(Str(key), next) =>
      var here := ColonAt(text, cuts, next);
      if Sees(text, here, ':') then Done(key, Past(here)) else Failed
    case _ => Failed
  }

  predicate AllObjects(items: seq<Value>) {
    forall k :: 0 <= k < |items| ==> items[k].Obj?
  }

  /** A `skills` value whose opening bracket the reader did not see, decoded in one go. */
  function RunUnseenSkills(text: string, cuts: set<nat>, here: At, acc: seq<Value>): (r: Member<seq<Value>, At>)
    requires Within(text, here)
    ensures !r.NoValue? ==> Within(text, r.at) && here.p < r.at.p
  {
    match Decode(text, cuts, here)
    case Lost => NoValue
    case Decoded(value, next) =>
      if !value.Arr? then BeforeKey(acc, next)
      else if AllObjects(value.items) then BeforeKey(acc + value.items, next)
      else NoValue
  }

  function RunSkills(text: string, cuts: set<nat>, here: At, acc: seq<Value>): (r: Member<seq<Value>, At>)
    requires Within(text, here)
    ensures !r.NoValue? ==> Within(text, r.at) && here.p < r.at.p
  {
    if here.p == here.b then NoValue
    else if text[here.p] != '[' then RunUnseenSkills(text, cuts, here, acc)
    else
      match RunArray(text, cuts, Past(here), acc)
      case Failed => NoValue
      case Done(entries, next) => BeforeComma(entries, next)
  }

  function RunMember(text: string, cuts: set<nat>, at: At, key: seq<nat>, acc: seq<Value>):
    (r: Member<seq<Value>, At>)
    requires Within(text, at)
    ensures !r.NoValue? ==> Within(text, r.at) && at.p < r.at.p
  {
    if key == SKILLS_KEY then RunSkills(text, cuts, Peek(text, cuts, at), acc)
    else
      match Decode(text, cuts, at)
      case Lost => NoValue
      case Decoded(_, next) => BeforeComma(acc, next)
  }

  function RunTail(text: string, here: At, acc: seq<Value>): (r: Turn<seq<Value>, At>)
    requires Within(text, here)
    ensures r.Finish? ==> Within(text, r.end) && here.p < r.end.p
    ensures r.Again? ==> Within(text, r.from) && here.p <= r.from.p
  {
    if here.p == here.b then Again(acc, here)
    else if text[here.p] == ',' then Again(acc, Past(here))
    else if text[here.p] == '}' then Finish(acc, Past(here))
    else Again(acc, here)
  }

  function ObjectTurnAt(text: string, cuts: set<nat>, here: At, acc: seq<Value>): (r: Turn<seq<Value>, At>)
    requires Within(text, here)
    ensures r.Finish? ==> Within(text, r.end) && here.p < r.end.p
    ensures r.Again? ==> Within(text, r.from) && here.p < r.from.p
  {
    if here.p == here.b then Fail
    else if text[here.p] == '}' then Finish(acc, Past(here))
    else
      match RunKey(text, cuts, here)
      case Failed => Fail
      case Done(key, after) => RunAfterKey(text, cuts, after, key, acc)
  }

  function RunAfterKey(text: string, cuts: set<nat>, at: At, key: seq<nat>, acc: seq<Value>):
    (r: Turn<seq<Value>, At>)
    requires Within(text, at)
    ensures r.Finish? ==> Within(text, r.end) && at.p < r.end.p
    ensures r.Again? ==> Within(text, r.from) && at.p < r.from.p
  {
    match RunMember(text, cuts, at, key, acc)
    case NoValue => Fail
    case BeforeComma(entries, next) => RunTail(text, Peek(text, cuts, next), entries)
    case BeforeKey(entries, next) => Again(entries, next)
  }

  function RunObject(text: string, cuts: set<nat>, at: At, acc: seq<Value>): (r: Run<seq<Value>>)
    requires Within(text, at)
    ensures r.Done? ==> Within(text, r.at) && at.p < r.at.p
    decreases |text| - at.p
  {
    match ObjectTurnAt(text, cuts, Peek(text, cuts, at), acc)
    case Fail => Failed
    case Finish(entries, end) => Done(entries, end)
    case Again(entries, next) => RunObject(text, cuts, next, entries)
  }

  function RunAt(text: string, cuts: set<nat>, here: At): Run<seq<Value>>
    requires Within(text, here)
  {
    if here.p == here.b then Failed
    else if text[here.p] == '[' then RunArray(text, cuts, Past(here), [])
    else if text[here.p] == '{' then RunObject(text, cuts, Past(here), [])
    else Failed
  }

  /** `read_top_level_entries` on a text whose chunks end at `cuts`. */
  function RunTopLevel(text: string, cuts: set<nat>): Run<seq<Value>> {
    RunAt(text, cuts, Peek(text, cuts, At(0, NextBoundary(text, cuts, 0))))
  }

  function Answer(r: Run<seq<Value>>): Option<seq<Value>> {
    match r
    case Failed => None
    case Done(entries, _) => Some(entries)
  }

  // ----- the reader -----

  function Flatten(chunks: seq<string>): string {
    if chunks == [] then "" else chunks[0] + Flatten(chunks[1..])
  }

  ghost predicate NonEmpty(chunks: seq<string>) {
    forall k :: 0 <= k < |chunks| ==> chunks[k] != ""
  }

  /** The positions between two chunks, when the first chunk starts at `start`. */
  function CutsOf(start: nat, chunks: seq<string>): set<nat>
    decreases |chunks|
  {
    if |chunks| <= 1 then {}
    else
      var next := start + |chunks[0]|;
      {next} + CutsOf(next, chunks[1..])
  }

  lemma {:induction false} CutsAreInside(start: nat, chunks: seq<string>)
    requires NonEmpty(chunks)
    ensures forall c <- CutsOf(start, chunks) :: start < c < start + |Flatten(chunks)|
    decreases |chunks|
  {
    if |chunks| > 1 {
      CutsAreInside(start + |chunks[0]|, chunks[1..]);
      assert chunks[1..][0] == chunks[1] != "";
    }
  }

  /** The text file the reader was given: `read` hands out one chunk after the other. */
  class TextFile {
    var pending: seq<string>

    constructor (chunks: seq<string>)
      ensures pending == chunks
    {
      pending := chunks;
    }

    method Read() returns (chunk: string)
      modifies this
      ensures old(pending) == [] ==> chunk == "" && pending == []
      ensures old(pending) != [] ==> chunk == old(pending)[0] && pending == old(pending)[1..]
    {
      if pending == [] {
        chunk := "";
      } else {
        chunk := pending[0];
        pending := pending[1..];
      }
    }
  }

  /** The reader. Where the original raises, a method returns `None` or `Failed`. */
  class StreamingJsonReader {
    const file: TextFile
    var buffer: string
    var position: nat
    var eof: bool
    ghost const text: string
    ghost const cuts: set<nat>

    /** The buffer is the text read so far, and the boundaries still to come are those of the file. */
    ghost predicate Valid()
      reads this, file
    {
      && buffer + Flatten(file.pending) == text
      && NonEmpty(file.pending)
      && position <= |buffer|
      && (eof ==> file.pending == [])
      && (forall c :: c in cuts && c > |buffer| <==> c in CutsOf(|buffer|, file.pending))
    }

    ghost function Here(): At
      reads this
    {
      At(position, |buffer|)
    }

    ghost function Remaining(): nat
      reads this, file
    {
      |file.pending| + if eof then 0 else 1
    }

    constructor (file: TextFile)
      requires NonEmpty(file.pending)
      ensures Valid() && Here() == At(0, 0) && this.file == file
      ensures text == Flatten(file.pending) && cuts == CutsOf(0, file.pending)
    {
      this.file := file;
      buffer := "";
      position := 0;
      eof := false;
      text := Flatten(file.pending);
      cuts := CutsOf(0, file.pending);
      CutsAreInside(0, file.pending);
    }

    method FillBuffer()
      requires Valid()
      modifies this, file
      ensures Valid() && position == old(position)
      ensures |buffer| == NextBoundary(text, cuts, |old(buffer)|)
      ensures Remaining() <= old(Remaining()) && (!old(eof) ==> Remaining() < old(Remaining()))
      ensures old(eof) ==> eof
      ensures eof ==> buffer == old(buffer)
    {
      if eof {
        assert |buffer| == |text|;
        return;
      }
      ghost var before := file.pending;
      var chunk := file.Read();
      if chunk == "" {
        eof := true;
        assert |buffer| == |text|;
        return;
      }
      assert before[0] == chunk && before[1..] == file.pending;
      assert (buffer + chunk) + Flatten(file.pending) == buffer + Flatten(before);
      CutsAreInside(|buffer|, before);
      CutsAreInside(|buffer| + |chunk|, file.pending);
      if |before| == 1 { assert Flatten(file.pending) == ""; }
      buffer := buffer + chunk;
    }

    /** One round of the original's outer loop: after reading a chunk it returns, because the position
        then stands in the chunk or the file has ended. */
    method SkipWhitespace()
      requires Valid()
      modifies this, file
      ensures Valid() && Here() == Skip(text, cuts, old(Here()))
      ensures Remaining() <= old(Remaining())
      ensures eof ==> SkipSpace(text, position) == position
    {
      while position < |buffer| && IsSpace(buffer[position])
        invariant Valid() && Remaining() <= old(Remaining())
        invariant Skip(text, cuts, Here()) == Skip(text, cuts, old(Here()))
      {
        assert buffer[position] == text[position];
        position := position + 1;
      }
      if position < |buffer| {
        assert buffer[position] == text[position];
        return;
      }
      FillBuffer();
    }

    /** The character at the position, unless the file has ended. */
    method PeekChar() returns (c: Option<char>)
      requires Valid()
      modifies this, file
      ensures Valid() && Here() == Skip(text, cuts, old(Here()))
      ensures Remaining() <= old(Remaining())
      ensures c == if position < |buffer| then Some(text[position]) else None
    {
      SkipWhitespace();
      if position >= |buffer| {
        return None;
      }
      assert buffer[position] == text[position];
      return Some(buffer[position]);
    }

    /** `_skip_whitespace` and `_peek`, as every loop calls them. */
    method SkipAndPeek() returns (c: Option<char>)
      requires Valid()
      modifies this, file
      ensures Valid() && Here() == Peek(text, cuts, old(Here()))
      ensures c == if position < |buffer| then Some(text[position]) else None
    {
      SkipWhitespace();
      c := PeekChar();
    }

    method DecodeValue() returns (value: Option<Value>)
      requires Valid()
      modifies this, file
      ensures Valid()
      ensures match Decode(text, cuts, old(Here()))
              case Lost => value == None
              case Decoded(v, at) => value == Some(v) && Here() == at
    {
      SkipWhitespace();
      while true
        invariant Valid()
        invariant DecodeLoop(text, cuts, Here()) == Decode(text, cuts, old(Here()))
        invariant eof ==> SkipSpace(text, position) == position
        decreases Remaining()
      {
        assert buffer == text[..|buffer|];
        var parsed := ParseValue(buffer, position);
        if parsed.Good? {
          position := parsed.end;
          return Some(parsed.value);
        }
        if eof {
          return None;
        }
        FillBuffer();
        SkipWhitespace();
        if position >= |buffer| {
          if eof {
            return None;
          }
        }
      }
    }

    method ConsumeChar(expected: char) returns (ok: bool)
      requires Valid()
      modifies this, file
      ensures Valid()
      ensures var here := Skip(text, cuts, old(Here()));
              ok == Sees(text, here, expected) && (ok ==> Here() == Past(here))
    {
      SkipWhitespace();
      if position >= |buffer| {
        FillBuffer();
        SkipWhitespace();
      }
      if position >= |buffer| {
        return false;
      }
      assert buffer[position] == text[position];
      if buffer[position] != expected {
        return false;
      }
      position := position + 1;
      return true;
    }

    /** One turn of the array loop, from the character it peeked at. */
    method TakeArrayTurn(current: Option<char>, acc: seq<Value>) returns (turn: Turn<seq<Value>, ()>)
      requires Valid()
      requires current == if position < |buffer| then Some(text[position]) else None
      modifies this, file
      ensures Valid()
      ensures Matches(turn, ArrayTurnAt(text, cuts, old(Here()), acc))
    {
      if current == None {
        return Fail;
      }
      if current == Some(']') {
        position := position + 1;
        return Finish(acc, ());
      }
      if current == Some(',') {
        position := position + 1;
        return Again(acc, ());
      }
      var entry := DecodeValue();
      if entry.Some? && entry.value.Obj? {
        return Again(acc + [entry.value], ());
      }
      return Fail;
    }

    /** A turn taken agrees with the turn computed, and the reader stands where it ends. */
    ghost predicate Matches(turn: Turn<seq<Value>, ()>, expected: Turn<seq<Value>, At>)
      reads this
    {
      match expected
      case Fail => turn == Fail
      case Finish(entries, at) => turn == Finish(entries, ()) && Here() == at
      case Again(entries, at) => turn == Again(entries, ()) && Here() == at
    }

    method ReadArrayValues(acc: seq<Value>) returns (r: Option<seq<Value>>)
      requires Valid()
      modifies this, file
      ensures Valid()
      ensures var run := RunArray(text, cuts, old(Here()), acc);
              r == Answer(run) && (run.Done? ==> Here() == run.at)
    {
      var entries := acc;
      while true
        invariant Valid()
        invariant RunArray(text, cuts, Here(), entries) == RunArray(text, cuts, old(Here()), acc)
        decreases |text| - position
      {
        var current := SkipAndPeek();
        var turn := TakeArrayTurn(current, entries);
        match turn
        case Fail => return None;
        case Finish(result, _) => return Some(result);
        case Again(result, _) => entries := result;
      }
    }

    method ReadColon() returns (ok: bool)
      requires Valid()
      modifies this, file
      ensures Valid()
      ensures var here := ColonAt(text, cuts, old(Here()));
              ok == Sees(text, here, ':') && (ok ==> Here() == Past(here))
    {
      var current := SkipAndPeek();
      if current == Some(':') {
        position := position + 1;
        return true;
      }
      ok := ConsumeChar(':');
    }

    method ReadKeyAndColon() returns (key: Option<seq<nat>>)
      requires Valid()
      modifies this, file
      ensures Valid()
      ensures match RunKey(text, cuts, old(Here()))
              case Failed => key == None
              case Done(k, at) => key == Some(k) && Here() == at
    {
      var value := DecodeValue();
      if value == None || !value.value.Str? {
        return None;
      }
      var ok := ReadColon();
      return if ok then Some(value.value.points) else None;
    }

    /** A member value read agrees with the one computed, and the reader stands behind it. */
    ghost predicate Read(member: Member<seq<Value>, ()>, expected: Member<seq<Value>, At>)
      reads this
    {
      match expected
      case NoValue => member == NoValue
      case BeforeComma(entries, at) => member == BeforeComma(entries, ()) && Here() == at
      case BeforeKey(entries, at) => member == BeforeKey(entries, ()) && Here() == at
    }

    method ReadSkillsValue(current: Option<char>, acc: seq<Value>) returns (member: Member<seq<Value>, ()>)
      requires Valid()
      requires current == if position < |buffer| then Some(text[position]) else None
      modifies this, file
      ensures Valid()
      ensures Read(member, RunSkills(text, cuts, old(Here()), acc))
    {
      hide RunArray, RunUnseenSkills;
      if current == None {
        return NoValue;
      }
      if current != Some('[') {
        member := ReadUnseenSkills(acc);
      } else {
        position := position + 1;
        var entries := ReadArrayValues(acc);
        return if entries.Some? then BeforeComma(entries.value, ()) else NoValue;
      }
    }

    method ReadUnseenSkills(acc: seq<Value>) returns (member: Member<seq<Value>, ()>)
      requires Valid()
      modifies this, file
      ensures Valid()
      ensures Read(member, RunUnseenSkills(text, cuts, old(Here()), acc))
    {
      var value := DecodeValue();
      if value == None {
        return NoValue;
      }
      if value.value.Arr? {
        if !AllObjects(value.value.items) {
          return NoValue;
        }
        return BeforeKey(acc + value.value.items, ());
      }
      return BeforeKey(acc, ());
    }

    method ReadMemberValue(key: seq<nat>, acc: seq<Value>) returns (member: Member<seq<Value>, ()>)
      requires Valid()
      modifies this, file
      ensures Valid()
      ensures Read(member, RunMember(text, cuts, old(Here()), key, acc))
    {
      if key == SKILLS_KEY {
        var current := SkipAndPeek();
        member := ReadSkillsValue(current, acc);
      } else {
        var ignored := DecodeValue();
        return if ignored.Some? then BeforeComma(acc, ()) else NoValue;
      }
    }

    method TakeTail(current: Option<char>, acc: seq<Value>) returns (turn: Turn<seq<Value>, ()>)
      requires Valid()
      requires current == if position < |buffer| then Some(text[position]) else None
      modifies this`position
      ensures Valid()
      ensures Matches(turn, RunTail(text, old(Here()), acc))
    {
      if current == Some(',') {
        position := position + 1;
        return Again(acc, ());
      }
      if current == Some('}') {
        position := position + 1;
        return Finish(acc, ());
      }
      return Again(acc, ());
    }

    /** One turn of the object loop, from the character it peeked at. */
    method TakeObjectTurn(current: Option<char>, acc: seq<Value>) returns (turn: Turn<seq<Value>, ()>)
      requires Valid()
      requires current == if position < |buffer| then Some(text[position]) else None
      modifies this, file
      ensures Valid()
      ensures Matches(turn, ObjectTurnAt(text, cuts, old(Here()), acc))
    {
      hide RunKey, RunMember;
      if current == None {
        return Fail;
      }
      if current == Some('}') {
        position := position + 1;
        return Finish(acc, ());
      }
      var key := ReadKeyAndColon();
      if key == None {
        return Fail;
      }
      var member := ReadMemberValue(key.value, acc);
      match member
      case NoValue => return Fail;
      case BeforeKey(entries, _) => return Again(entries, ());
      case BeforeComma(entries, _) =>
        var next := SkipAndPeek();
        turn := TakeTail(next, entries);
    }

    method ReadSkillsFromObject() returns (r: Option<seq<Value>>)
      requires Valid()
      modifies this, file
      ensures Valid()
      ensures r == Answer(RunObject(text, cuts, old(Here()), []))
    {
      var entries: seq<Value> := [];
      while true
        invariant Valid()
        invariant RunObject(text, cuts, Here(), entries) == RunObject(text, cuts, old(Here()), [])
        decreases |text| - position
      {
        var current := SkipAndPeek();
        var turn := TakeObjectTurn(current, entries);
        match turn
        case Fail => return None;
        case Finish(result, _) => return Some(result);
        case Again(result, _) => entries := result;
      }
    }

    method ReadFrom(first: Option<char>) returns (r: Option<seq<Value>>)
      requires Valid()
      requires first == if position < |buffer| then Some(text[position]) else None
      modifies this, file
      ensures r == Answer(RunAt(text, cuts, old(Here())))
    {
      hide RunArray, RunObject;
      ghost var here := Here();
      if first == Some('[') {
        assert RunAt(text, cuts, here) == RunArray(text, cuts, Past(here), []);
        position := position + 1;
        r := ReadArrayValues([]);
      } else if first == Some('{') {
        assert RunAt(text, cuts, here) == RunObject(text, cuts, Past(here), []);
        position := position + 1;
        r := ReadSkillsFromObject();
      } else {
        assert RunAt(text, cuts, here) == Failed;
        r := None;
      }
    }

    /** The entries of the file, or `None` where the original raises "not valid JSON". */
    method ReadTopLevelEntries() returns (r: Option<seq<Value>>)
      requires Valid() && Here() == At(0, 0)
      modifies this, file
      ensures r == Answer(RunTopLevel(text, cuts))
    {
      FillBuffer();
      var first := SkipAndPeek();
      r := ReadFrom(first);
    }
  }
}
