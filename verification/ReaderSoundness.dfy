/** However a text is cut into chunks, the streaming reader gives the entries the whole text has, or
    it fails: a cut never adds, drops or changes an entry. */
module ReaderSoundness {
  import opened Wrappers
  import opened PythonText
  import opened Json
  import opened JsonPrefix
  import opened StreamingReader

  lemma {:induction false} SkipSpaceFrom(text: string, i: nat, j: nat)
    requires i <= j <= |text| && j <= SkipSpace(text, i)
    ensures SkipSpace(text, j) == SkipSpace(text, i)
    decreases j - i
  {
    if i < j { SkipSpaceFrom(text, i + 1, j); }
  }

  /** No value starts with white space. */
  lemma ValueStart(text: string, i: nat)
    requires i <= |text| && ParseValue(text, i).Good?
    ensures i < |text| && SkipSpace(text, i) == i
  {
  }

  /** A number decoded from a buffer that ends inside it: what is left starts in the middle of it. */
  ghost predicate CutNumber(text: string, i: nat, value: Value, end: nat)
    requires i <= |text|
  {
    i < |text| && value.Num? && NumberEnd(text, i).Some? && end < NumberEnd(text, i).value && MidNumber(text[end])
  }

  lemma BufferValue(text: string, b: nat, i: nat)
    requires i <= b <= |text| && ParseValue(text[..b], i).Good?
    ensures var q := ParseValue(text[..b], i);
            ParseValue(text, i) == q || CutNumber(text, i, q.value, q.end)
  {
    if i < b && NumberEnd(text, i).Some? {
      NumberPrefix(text, b, i);
      NumberIsDecoded(text, i);
      ConstantPrefix(text, b, i);
      if NumberEnd(text[..b], i).Some? {
        NumberIsDecoded(text[..b], i);
        var end := NumberEnd(text, i).value;
        if end <= b { assert text[..b][i..end] == text[i..end]; }
      }
    } else {
      ValuePrefix(text, b, i);
    }
  }

  /** A decoded value is the one the whole text has behind the white space, or a cut number. */
  lemma {:induction false} DecodeLoopSound(text: string, cuts: set<nat>, at: At)
    requires Within(text, at)
    ensures match DecodeLoop(text, cuts, at)
            case Lost => true
            case Decoded(value, next) =>
              var i := SkipSpace(text, at.p);
              ParseValue(text, i) == Good(value, next.p) || CutNumber(text, i, value, next.p)
    decreases |text| - at.b, |text| - at.p
  {
    var q := ParseValue(text[..at.b], at.p);
    if q.Good? {
      ValueStart(text[..at.b], at.p);
      BufferValue(text, at.b, at.p);
    } else {
      var next := Skip(text, cuts, At(at.p, NextBoundary(text, cuts, at.b)));
      if next != at {
        DecodeLoopSound(text, cuts, next);
        SkipSpaceFrom(text, at.p, next.p);
      }
    }
  }

  lemma DecodeSound(text: string, cuts: set<nat>, at: At)
    requires Within(text, at)
    ensures match Decode(text, cuts, at)
            case Lost => true
            case Decoded(value, next) =>
              var i := SkipSpace(text, at.p);
              ParseValue(text, i) == Good(value, next.p) || CutNumber(text, i, value, next.p)
  {
    var start := Skip(text, cuts, at);
    DecodeLoopSound(text, cuts, start);
    SkipSpaceFrom(text, at.p, start.p);
  }

  // ----- arrays -----

  /** A turn taken at white space in front of a token does what the token calls for, or fails. */
  lemma ArrayTurnSound(text: string, cuts: set<nat>, here: At, acc: seq<Value>)
    requires Within(text, here)
    ensures var run := ArrayTurnAt(text, cuts, here, acc);
            var whole := ReadArrayTurn(text, SkipSpace(text, here.p), acc);
            && (run.Finish? ==> whole == Finish(run.result, run.end.p))
            && (run.Again? ==> whole == Again(run.acc, run.from.p))
  {
    DecodeSound(text, cuts, here);
  }

  lemma {:induction false} ArraySound(text: string, cuts: set<nat>, at: At, acc: seq<Value>)
    requires Within(text, at)
    ensures var run := RunArray(text, cuts, at, acc);
            run.Done? ==> ReadArray(text, at.p, acc) == Good(run.value, run.at.p)
    decreases |text| - at.p
  {
    var here := Peek(text, cuts, at);
    SkipSpaceFrom(text, at.p, here.p);
    ArrayTurnSound(text, cuts, here, acc);
    var turn := ArrayTurnAt(text, cuts, here, acc);
    if turn.Again? {
      ArraySound(text, cuts, turn.from, turn.acc);
    }
  }

  lemma {:induction false} WsIsSpace(text: string, i: nat)
    requires i <= |text|
    ensures SkipWs(text, i) <= SkipSpace(text, i)
    ensures SkipSpace(text, SkipWs(text, i)) == SkipSpace(text, i)
    decreases |text| - i
  {
    if i < |text| && IsWs(text[i]) { WsIsSpace(text, i + 1); }
  }

  lemma ReadArrayEntry(text: string, i: nat, acc: seq<Value>)
    requires i <= |text| && ParseValue(text, i).Good? && ParseValue(text, i).value.Obj?
    ensures ReadArray(text, i, acc) == ReadArray(text, ParseValue(text, i).end, acc + [ParseValue(text, i).value])
  {
    ValueStart(text, i);
  }

  lemma ReadArrayAtComma(text: string, i: nat, j: nat, acc: seq<Value>)
    requires i <= |text| && j <= |text| && SkipSpace(text, i) < |text| && text[SkipSpace(text, i)] == ','
    requires SkipSpace(text, j) == SkipSpace(text, SkipSpace(text, i) + 1)
    ensures ReadArray(text, i, acc) == ReadArray(text, j, acc)
  {
    hide ParseValue;
    assert ReadArray(text, i, acc) == ReadArray(text, SkipSpace(text, i) + 1, acc);
  }

  lemma ReadArrayAtClose(text: string, i: nat, acc: seq<Value>)
    requires i <= |text| && SkipSpace(text, i) < |text| && text[SkipSpace(text, i)] == ']'
    ensures ReadArray(text, i, acc) == Good(acc, SkipSpace(text, i) + 1)
  {
    hide ParseValue;
  }

  /** The separator behind an array element sends both readers the same way. */
  lemma ReadArrayAfter(text: string, i: nat, acc: seq<Value>)
    requires i <= |text|
    ensures var after := AfterValue(text, i, ']');
            && (after.Close? ==> ReadArray(text, i, acc) == Good(acc, after.end))
            && (after.Continue? ==> ReadArray(text, i, acc) == ReadArray(text, after.next, acc))
  {
    hide ReadArray;
    WsIsSpace(text, i);
    var m := SkipWs(text, i);
    if m < |text| && text[m] == ',' {
      WsIsSpace(text, m + 1);
      ReadArrayAtComma(text, i, SkipWs(text, m + 1), acc);
    } else if m < |text| && text[m] == ']' {
      ReadArrayAtClose(text, i, acc);
    }
  }

  /** A well-formed array of objects, decoded as one value, has the entries the lenient loop finds. */
  lemma {:induction false} ElementsRead(text: string, i: nat, acc: seq<Value>, before: seq<Value>)
    requires i <= |text| && ParseElements(text, i, acc).Good?
    ensures var r := ParseElements(text, i, acc);
            r.value.Arr? && acc <= r.value.items &&
            (AllObjects(r.value.items[|acc|..]) ==>
               ReadArray(text, i, before) == Good(before + r.value.items[|acc|..], r.end))
    decreases |text| - i
  {
    var r := ParseElements(text, i, acc);
    var v := ParseValue(text, i);
    var items := acc + [v.value];
    var after := AfterValue(text, v.end, ']');
    if after.Continue? {
      ElementsRead(text, after.next, items, before + [v.value]);
    }
    var rest := r.value.items[|acc|..];
    assert rest == [v.value] + r.value.items[|items|..];
    if AllObjects(rest) {
      assert rest[0].Obj?;
      assert AllObjects(r.value.items[|items|..]) by {
        forall k | 0 <= k < |r.value.items[|items|..]| ensures r.value.items[|items|..][k].Obj? {
          assert rest[k + 1].Obj?;
        }
      }
      ReadArrayEntry(text, i, before);
      ReadArrayAfter(text, v.end, before + [v.value]);
      assert before + [v.value] + r.value.items[|items|..] == before + rest;
    }
  }

  lemma DecodedArrayRead(text: string, i: nat, acc: seq<Value>)
    requires i <= |text| && ParseValue(text, i).Good? && ParseValue(text, i).value.Arr?
    requires AllObjects(ParseValue(text, i).value.items)
    ensures text[i] == '['
    ensures var r := ParseValue(text, i); ReadArray(text, i + 1, acc) == Good(acc + r.value.items, r.end)
  {
    var r := ParseValue(text, i);
    if text[i] == '{' { OpenBraceIsObject(text, i); }
    var j := SkipWs(text, i + 1);
    WsIsSpace(text, i + 1);
    if j < |text| && text[j] == ']' {
      assert acc + [] == acc;
    } else {
      ElementsRead(text, j, [], acc);
      assert r.value.items[0..] == r.value.items;
      assert ReadArray(text, i + 1, acc) == ReadArray(text, j, acc);
    }
  }

  lemma {:induction false} MembersAreObject(text: string, i: nat, acc: seq<Field>)
    requires i <= |text| && ParseMembers(text, i, acc).Good?
    ensures ParseMembers(text, i, acc).value.Obj?
    decreases |text| - i
  {
    var key := MemberKey(text, i);
    var v := ParseValue(text, SkipWs(text, key.end));
    var after := AfterValue(text, v.end, '}');
    if after.Continue? { MembersAreObject(text, after.next, Put(acc, key.value, v.value)); }
  }

  lemma OpenBraceIsObject(text: string, i: nat)
    requires i < |text| && text[i] == '{' && ParseValue(text, i).Good?
    ensures ParseValue(text, i).value.Obj?
  {
    var j := SkipWs(text, i + 1);
    if j == |text| || text[j] != '}' { MembersAreObject(text, j, []); }
  }

  // ----- objects -----

  lemma KeySound(text: string, cuts: set<nat>, at: At)
    requires Within(text, at)
    ensures var run := RunKey(text, cuts, at);
            run.Done? ==> ReadKey(text, SkipSpace(text, at.p)) == Good(run.value, run.at.p)
  {
    hide ParseValue, Decode, ColonAt;
    DecodeSound(text, cuts, at);
    var key := Decode(text, cuts, at);
    if key.Decoded? { SkipSpaceFrom(text, key.at.p, ColonAt(text, cuts, key.at).p); }
  }

  /** The member value of a chunked read is the one of the whole text; a value that the chunked
      reader decoded as a whole may be followed by a key where the other looks for a comma first;
      and a cut number leaves the position inside the number. */
  ghost predicate SameMember(text: string, run: Member<seq<Value>, At>, whole: Member<seq<Value>, nat>) {
    match run
    case NoValue => true
    case BeforeComma(entries, at) =>
      || (whole.BeforeComma? && whole.acc == entries && whole.at == at.p)
      || (at.p < |text| && MidNumber(text[at.p]))
    case BeforeKey(entries, at) =>
      || (!whole.NoValue? && whole.acc == entries && whole.at == at.p)
      || (at.p < |text| && MidNumber(text[at.p]))
  }

  lemma SkillsValueSound(text: string, cuts: set<nat>, here: At, acc: seq<Value>)
    requires Within(text, here) && here.p < here.b && text[here.p] != '['
    ensures SameMember(text, RunSkills(text, cuts, here, acc), ReadSkills(text, SkipSpace(text, here.p), acc))
  {
    hide ReadArray, ParseValue, Decode;
    var k := SkipSpace(text, here.p);
    DecodeSound(text, cuts, here);
    var v := Decode(text, cuts, here);
    if v.Decoded? {
      if k < |text| && text[k] == '[' {
        OpenBracketIsArray(text, k);
        if AllObjects(v.value.items) { DecodedArrayRead(text, k, acc); }
      } else if v.value.Arr? && AllObjects(v.value.items) {
        DecodedArrayRead(text, k, acc);
      }
    }
  }

  lemma SkillsSound(text: string, cuts: set<nat>, here: At, acc: seq<Value>)
    requires Within(text, here)
    ensures SameMember(text, RunSkills(text, cuts, here, acc), ReadSkills(text, SkipSpace(text, here.p), acc))
  {
    hide RunArray, ReadArray, RunUnseenSkills;
    if here.p < here.b && text[here.p] == '[' {
      ArraySound(text, cuts, Past(here), acc);
    } else if here.p < here.b {
      SkillsValueSound(text, cuts, here, acc);
    }
  }

  lemma OpenBracketIsArray(text: string, i: nat)
    requires i < |text| && text[i] == '['
    ensures NumberEnd(text, i).None? && (ParseValue(text, i).Good? ==> ParseValue(text, i).value.Arr?)
  {
    hide ReadArray, ScanString, ParseMembers;
    var j := SkipWs(text, i + 1);
    if ParseElements(text, j, []).Good? { ElementsRead(text, j, [], []); }
  }

  lemma PlainMemberSound(text: string, cuts: set<nat>, at: At, key: seq<nat>, acc: seq<Value>)
    requires Within(text, at) && key != SKILLS_KEY
    ensures SameMember(text, RunMember(text, cuts, at, key, acc), ReadMember(text, at.p, key, acc))
  {
    DecodeSound(text, cuts, at);
  }

  lemma MemberSound(text: string, cuts: set<nat>, at: At, key: seq<nat>, acc: seq<Value>)
    requires Within(text, at)
    ensures SameMember(text, RunMember(text, cuts, at, key, acc), ReadMember(text, at.p, key, acc))
  {
    if key == SKILLS_KEY {
      var here := Peek(text, cuts, at);
      SkipSpaceFrom(text, at.p, here.p);
      SkillsSound(text, cuts, here, acc);
    } else {
      PlainMemberSound(text, cuts, at, key, acc);
    }
  }

  /** Where no key can be read, the object loop fails unless it finds the closing brace. */
  lemma NeedsKey(text: string, cuts: set<nat>, at: At, acc: seq<Value>)
    requires Within(text, at) && RunObject(text, cuts, at, acc).Done?
    ensures var j := SkipSpace(text, at.p); j < |text| && (text[j] == '}' || ReadKey(text, j).Good?)
  {
    var here := Peek(text, cuts, at);
    SkipSpaceFrom(text, at.p, here.p);
    KeySound(text, cuts, here);
  }

  lemma KeyIsQuoted(text: string, i: nat)
    requires i <= |text| && ReadKey(text, i).Good?
    ensures i < |text| && text[i] == '"'
  {
    if text[i] == '{' { OpenBraceIsObject(text, i); }
    if text[i] == '[' { OpenBracketIsArray(text, i); }
  }

  lemma InsideNumberFails(text: string, cuts: set<nat>, at: At, acc: seq<Value>)
    requires Within(text, at) && at.p < |text| && MidNumber(text[at.p])
    ensures RunObject(text, cuts, at, acc).Failed?
  {
    hide ReadKey, RunObject, ParseValue;
    if RunObject(text, cuts, at, acc).Done? {
      NeedsKey(text, cuts, at, acc);
      KeyIsQuoted(text, at.p);
    }
  }

  lemma AtCommaFails(text: string, cuts: set<nat>, at: At, acc: seq<Value>)
    requires Within(text, at) && SkipSpace(text, at.p) < |text| && text[SkipSpace(text, at.p)] == ','
    ensures RunObject(text, cuts, at, acc).Failed?
  {
    if RunObject(text, cuts, at, acc).Done? {
      NeedsKey(text, cuts, at, acc);
      KeyIsQuoted(text, SkipSpace(text, at.p));
    }
  }

  /** The rest of an object after a turn of its loop. */
  ghost function Resume(text: string, turn: Turn<seq<Value>, nat>): Parsed<seq<Value>>
    requires turn.Again? ==> turn.from <= |text|
  {
    match turn
    case Fail => Bad
    case Finish(result, end) => Good(result, end)
    case Again(passed, next) => ReadObject(text, next, passed)
  }

  lemma ReadObjectFrom(text: string, i: nat, j: nat, acc: seq<Value>)
    requires i <= |text| && j <= |text| && SkipSpace(text, i) == SkipSpace(text, j)
    ensures ReadObject(text, i, acc) == ReadObject(text, j, acc)
  {
  }

  /** Without a comma in sight, looking for one and not looking for one come to the same. */
  lemma NoCommaNoTail(text: string, i: nat, acc: seq<Value>)
    requires i <= |text|
    requires SkipSpace(text, i) < |text| ==> text[SkipSpace(text, i)] != ','
    ensures Resume(text, ReadTail(text, i, acc)) == ReadObject(text, i, acc)
  {
    var j := SkipSpace(text, i);
    SkipSpaceFrom(text, i, j);
    if j == |text| || text[j] != '}' { ReadObjectFrom(text, i, j, acc); }
  }

  /** A turn of the chunked loop that can still lead to success leaves the entries, and the rest of
      the object, as the turn on the whole text does. */
  ghost predicate SameTurn(text: string, cuts: set<nat>, run: Turn<seq<Value>, At>, rest: Parsed<seq<Value>>)
    requires run.Again? ==> Within(text, run.from)
  {
    match run
    case Fail => true
    case Finish(entries, end) => rest.Good? && rest.value == entries && rest.end == end.p
    case Again(entries, at) =>
      RunObject(text, cuts, at, entries).Done? ==> rest == ReadObject(text, at.p, entries)
  }

  lemma HeadSound(text: string, cuts: set<nat>, at: At, acc: seq<Value>)
    requires Within(text, at)
    ensures SameTurn(text, cuts, Again(acc, at), Resume(text, ReadTail(text, at.p, acc)))
  {
    var j := SkipSpace(text, at.p);
    if j < |text| && text[j] == ',' {
      AtCommaFails(text, cuts, at, acc);
    } else {
      NoCommaNoTail(text, at.p, acc);
    }
  }

  lemma ReadTailFrom(text: string, i: nat, j: nat, acc: seq<Value>)
    requires i <= |text| && j <= |text| && SkipSpace(text, i) == SkipSpace(text, j)
    ensures ReadTail(text, i, acc) == ReadTail(text, j, acc)
  {
  }

  lemma TailSound(text: string, cuts: set<nat>, at: At, acc: seq<Value>)
    requires Within(text, at)
    ensures SameTurn(text, cuts, RunTail(text, Peek(text, cuts, at), acc),
                     Resume(text, ReadTail(text, at.p, acc)))
  {
    var here := Peek(text, cuts, at);
    SkipSpaceFrom(text, at.p, here.p);
    ReadTailFrom(text, at.p, here.p, acc);
    SeparatorSound(text, cuts, here, acc);
  }

  lemma CommaSound(text: string, cuts: set<nat>, here: At, acc: seq<Value>)
    requires Within(text, here) && here.p < here.b && text[here.p] == ','
    ensures SameTurn(text, cuts, RunTail(text, here, acc), Resume(text, ReadTail(text, here.p, acc)))
  {
    assert SkipSpace(text, here.p) == here.p;
    assert ReadTail(text, here.p, acc) == Again(acc, here.p + 1);
    assert Resume(text, ReadTail(text, here.p, acc)) == ReadObject(text, Past(here).p, acc);
  }

  lemma SeparatorSound(text: string, cuts: set<nat>, here: At, acc: seq<Value>)
    requires Within(text, here)
    ensures SameTurn(text, cuts, RunTail(text, here, acc), Resume(text, ReadTail(text, here.p, acc)))
  {
    if here.p == here.b || (text[here.p] != ',' && text[here.p] != '}') {
      HeadSound(text, cuts, here, acc);
    } else if text[here.p] == ',' {
      CommaSound(text, cuts, here, acc);
    }
  }

  lemma ReadObjectByKey(text: string, i: nat, key: seq<nat>, end: nat, acc: seq<Value>)
    requires i <= |text| && end <= |text|
    requires ReadKey(text, SkipSpace(text, i)) == Good(key, end)
    ensures ReadObject(text, i, acc) == Resume(text, ReadAfterKey(text, end, key, acc))
  {
    KeyIsQuoted(text, SkipSpace(text, i));
  }

  lemma MemberTurnSound(text: string, cuts: set<nat>, at: At, key: seq<nat>, acc: seq<Value>)
    requires Within(text, at)
    ensures SameTurn(text, cuts, RunAfterKey(text, cuts, at, key, acc),
                     Resume(text, ReadAfterKey(text, at.p, key, acc)))
  {
    MemberSound(text, cuts, at, key, acc);
    var run := RunMember(text, cuts, at, key, acc);
    if run.NoValue? {
    } else if run.at.p < |text| && MidNumber(text[run.at.p]) {
      var here := Peek(text, cuts, run.at);
      assert here.p == run.at.p;
      InsideNumberFails(text, cuts, run.at, run.acc);
      InsideNumberFails(text, cuts, here, run.acc);
    } else {
      var whole := ReadMember(text, at.p, key, acc);
      if run.BeforeComma? {
        TailSound(text, cuts, run.at, whole.acc);
      } else if whole.BeforeComma? {
        HeadSound(text, cuts, run.at, whole.acc);
      }
    }
  }

  lemma TurnSound(text: string, cuts: set<nat>, here: At, acc: seq<Value>)
    requires Within(text, here)
    ensures SameTurn(text, cuts, ObjectTurnAt(text, cuts, here, acc), ReadObject(text, here.p, acc))
  {
    if here.p < here.b && text[here.p] != '}' {
      KeySound(text, cuts, here);
      var key := RunKey(text, cuts, here);
      if key.Done? {
        MemberTurnSound(text, cuts, key.at, key.value, acc);
        ReadObjectByKey(text, here.p, key.value, key.at.p, acc);
      }
    }
  }

  lemma {:induction false} ObjectSound(text: string, cuts: set<nat>, at: At, acc: seq<Value>)
    requires Within(text, at)
    ensures var run := RunObject(text, cuts, at, acc);
            var whole := ReadObject(text, at.p, acc);
            run.Done? ==> whole.Good? && whole.value == run.value && whole.end == run.at.p
    decreases |text| - at.p
  {
    var here := Peek(text, cuts, at);
    SkipSpaceFrom(text, at.p, here.p);
    ReadObjectFrom(text, at.p, here.p, acc);
    TurnSound(text, cuts, here, acc);
    var turn := ObjectTurnAt(text, cuts, here, acc);
    if turn.Again? && RunObject(text, cuts, turn.from, turn.acc).Done? {
      ObjectSound(text, cuts, turn.from, turn.acc);
    }
  }

  /** The chunked answer, when there is one, is the whole text's answer. */
  ghost predicate SameAnswer(run: Run<seq<Value>>, whole: Parsed<seq<Value>>) {
    run.Done? ==> whole.Good? && whole.value == run.value && whole.end == run.at.p
  }

  lemma TopLevelSound(text: string, cuts: set<nat>, here: At)
    requires Within(text, here) && SkipSpace(text, 0) == SkipSpace(text, here.p)
    ensures SameAnswer(RunAt(text, cuts, here), ReadWhole(text))
  {
    hide RunArray, RunObject, ReadArray, ReadObject;
    if here.p < here.b && text[here.p] == '[' {
      ArraySound(text, cuts, Past(here), []);
    } else if here.p < here.b && text[here.p] == '{' {
      ObjectSound(text, cuts, Past(here), []);
    }
  }

  /** For every text and every way of cutting it: the chunked read fails, or it succeeds with exactly
      the entries of the whole text, having read it to the same place. */
  lemma CutsOnlyLose(text: string, cuts: set<nat>)
    ensures SameAnswer(RunTopLevel(text, cuts), ReadWhole(text))
  {
    var here := Peek(text, cuts, At(0, NextBoundary(text, cuts, 0)));
    SkipSpaceFrom(text, 0, here.p);
    TopLevelSound(text, cuts, here);
  }
}
