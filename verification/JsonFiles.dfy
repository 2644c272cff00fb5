/** Which JSON files the reader takes, and what it makes of them: for every text of a value, in whatever layout and
    spelling, and whatever stands around it. */
module JsonFiles {
  import opened Wrappers
  import opened PythonText
  import opened Json
  import opened JsonText
  import opened JsonRoundTrip
  import opened StreamingReader
  import opened ReaderSoundness
  import opened ReaderCutting
  import opened LooseFiles

  // ----- which files -----

  predicate AreObjects(items: seq<Element>) {
    forall k :: 0 <= k < |items| ==> items[k].text.TObject?
  }

  predicate UnderTheKey(m: JsonText.Member) {
    PointsOf(m.key) == Spelled("skills")
  }

  /** A `skills` value is a list of objects, or no list and the last of the members. */
  predicate IsFine(m: JsonText.Member, isLast: bool) {
    UnderTheKey(m) ==> if m.text.TArray? then AreObjects(m.text.items) else isLast
  }

  predicate AllFine(members: seq<JsonText.Member>) {
    forall k :: 0 <= k < |members| ==> IsFine(members[k], k == |members| - 1)
  }

  /** A list of objects, or an object all of whose `skills` values are fine. */
  predicate IsIndex(t: Text) {
    match t
    case TArray(_, items) => AreObjects(items)
    case TObject(_, members) => AllFine(members)
    case _ => false
  }

  function EntriesUnderKey(m: JsonText.Member): seq<Value> {
    if UnderTheKey(m) && m.text.TArray? then Meanings(m.text.items) else []
  }

  function AllEntries(members: seq<JsonText.Member>): seq<Value> {
    if members == [] then [] else EntriesUnderKey(members[0]) + AllEntries(members[1..])
  }

  /** The elements of the list, or those of all `skills` lists in order. */
  function IndexEntries(t: Text): seq<Value> {
    match t
    case TArray(_, items) => Meanings(items)
    case TObject(_, members) => AllEntries(members)
    case _ => []
  }

  // ----- texts in the reader's terms -----

  lemma LayoutIsSpacing(space: string)
    requires IsLayout(space)
    ensures IsSpacing(space)
  {
  }

  /** What a text starts with. */
  lemma OpensAs(s: string, i: nat, t: Text)
    requires WellWritten(t) && Holds(s, i, Write(t))
    ensures i < |s| && SkipSpace(s, i) == i && s[i] != ']' && s[i] != ','
    ensures (s[i] == '{' <==> t.TObject?) && (s[i] == '[' <==> t.TArray?)
  {
    hide DigitsEnd, FractionEnd, ExponentEnd, IsNumeral, NumeralParts;
    if t.TNumber? { NumeralExactly(t.literal); }
    HoldsAt(s, i, Write(t), 0);
  }

  // ----- lists -----

  /** White space between tokens, as the reader skips it. */
  lemma LayoutPassed(s: string, i: nat, space: string)
    requires IsLayout(space) && Holds(s, i, space)
    ensures i + |space| <= |s| && SkipSpace(s, i) == SkipSpace(s, i + |space|)
  {
    hide SkipSpace;
    LayoutIsSpacing(space);
    SpacingSkips(s, i, space);
  }

  /** A list is read to its bracket when its elements are objects, and refused otherwise. */
  lemma {:induction false} ItemsRead(s: string, i: nat, items: seq<Element>, acc: seq<Value>)
    requires ItemsWellWritten(items) && Holds(s, i, WriteItems(items))
    ensures ReadArray(s, i, acc)
         == if AreObjects(items) then Good(acc + Meanings(items), i + |WriteItems(items)|) else Bad
    decreases |items|
  {
    hide ReadArray, WriteItems, ItemsWellWritten, Holds, Meanings, AreObjects;
    if items == [] {
      NoMoreItems(s, i, acc);
    } else {
      FirstRead(s, i, items, acc);
      MeaningsStep(items, acc);
      ObjectsStep(items);
      if items[0].text.TObject? && |items| > 1 {
        var next := i + |WriteItems(items)| - |WriteItems(items[1..])|;
        ItemsRead(s, next, items[1..], acc + [Meaning(items[0].text)]);
      }
    }
  }

  lemma NoMoreItems(s: string, i: nat, acc: seq<Value>)
    requires Holds(s, i, WriteItems([]))
    ensures AreObjects([]) && ReadArray(s, i, acc) == Good(acc + Meanings([]), i + |WriteItems([])|)
  {
    NoItems(s, i);
    NoSpaceHere(s, i);
    ListEnds(s, i, acc);
    assert acc + [] == acc;
  }

  lemma ObjectsStep(items: seq<Element>)
    requires items != []
    ensures AreObjects(items) <==> items[0].text.TObject? && AreObjects(items[1..])
    ensures |items| == 1 ==> AreObjects(items[1..])
  {
    if items[0].text.TObject? && AreObjects(items[1..]) {
      forall k | 0 <= k < |items| ensures items[k].text.TObject? {
        if k > 0 { assert items[k] == items[1..][k - 1]; }
      }
    }
  }

  /** The first element, and what stands behind it. */
  lemma FirstRead(s: string, i: nat, items: seq<Element>, acc: seq<Value>)
    requires items != [] && ItemsWellWritten(items) && Holds(s, i, WriteItems(items))
    ensures ItemsWellWritten(items[1..])
    ensures var next := i + |WriteItems(items)| - |WriteItems(items[1..])|;
      var read := acc + [Meaning(items[0].text)];
      && (!items[0].text.TObject? ==> ReadArray(s, i, acc).Bad?)
      && (items[0].text.TObject? && |items| == 1 ==> ReadArray(s, i, acc) == Good(read, i + |WriteItems(items)|))
      && (items[0].text.TObject? && |items| > 1 ==>
            i <= next && Holds(s, next, WriteItems(items[1..])) && ReadArray(s, i, acc) == ReadArray(s, next, read))
  {
    hide Write, WellWritten, WriteItems, Holds, IsLayout, ItemsWellWritten, ReadArray, SkipSpace, Meaning;
    var item := items[0];
    ItemsWellWrittenHead(items);
    ItemsSplit(s, i, items);
    OpensAs(s, i, item.text);
    if !item.text.TObject? {
      ListEnds(s, i, acc);
    } else {
      ObjectItem(s, i, item.text, item.after, acc);
      BehindObject(s, i, items, acc + [Meaning(item.text)]);
    }
  }

  lemma ObjectItem(s: string, i: nat, text: Text, after: string, acc: seq<Value>)
    requires text.TObject? && WellWritten(text) && IsLayout(after) && Holds(s, i, Write(text))
    requires Holds(s, i + |Write(text)|, after)
    ensures i + |Write(text)| + |after| <= |s|
    ensures ReadArray(s, i, acc) == ReadArray(s, i + |Write(text)| + |after|, acc + [Meaning(text)])
  {
    hide ParseValue, Write, WellWritten, Meaning, IsLayout, ReadArray, SkipSpace, Holds;
    var end := i + |Write(text)|;
    ObjectText(s, i, text);
    ObjectRead(s, i, Meaning(text), end, acc);
    LayoutPassed(s, end, after);
    ArrayFrom(s, end, end + |after|, acc + [Meaning(text)]);
  }

  lemma BehindObject(s: string, i: nat, items: seq<Element>, read: seq<Value>)
    requires items != [] && ItemsWellWritten(items) && ItemsWellWritten(items[1..]) && Holds(s, i, WriteItems(items))
    requires i + |Write(items[0].text)| + |items[0].after| <= |s|
    ensures var mark := i + |Write(items[0].text)| + |items[0].after|;
      var next := i + |WriteItems(items)| - |WriteItems(items[1..])|;
      && (|items| == 1 ==> ReadArray(s, mark, read) == Good(read, i + |WriteItems(items)|))
      && (|items| > 1 ==>
            i <= next && Holds(s, next, WriteItems(items[1..])) && ReadArray(s, mark, read) == ReadArray(s, next, read))
  {
    hide Write, WellWritten, WriteItems, Holds, IsLayout, ItemsWellWritten, ReadArray, SkipSpace;
    ItemsWellWrittenHead(items);
    var item := items[0];
    var mark := i + |Write(item.text)| + |item.after|;
    ItemsSplit(s, i, items);
    NoSpaceHere(s, mark);
    if |items| == 1 {
      ListEnds(s, mark, read);
    } else {
      CommaPassed(s, mark, item.gap, WriteItems(items[1..]), read);
    }
  }

  lemma CommaPassed(s: string, mark: nat, gap: string, rest: string, read: seq<Value>)
    requires mark < |s| && s[mark] == ',' && IsLayout(gap) && Holds(s, mark + 1, gap + rest)
    ensures var next := mark + 1 + |gap|;
      next <= |s| && Holds(s, next, rest) && ReadArray(s, mark, read) == ReadArray(s, next, read)
  {
    hide ReadArray, Holds, IsLayout, SkipSpace;
    HoldsBoth(s, mark + 1, gap, rest);
    LayoutPassed(s, mark + 1, gap);
    CommaRead(s, mark, read);
    ArrayFrom(s, mark + 1, mark + 1 + |gap|, read);
  }

  // ----- objects -----

  /** What the reader makes of a member's value, from behind its colon. */
  function ValueRead(m: JsonText.Member, acc: seq<Value>, end: nat): StreamingReader.Member<seq<Value>, nat> {
    if !UnderTheKey(m) then BeforeComma(acc, end)
    else if !m.text.TArray? then BeforeKey(acc, end)
    else if AreObjects(m.text.items) then BeforeComma(acc + Meanings(m.text.items), end)
    else NoValue
  }

  lemma MemberValueRead(s: string, i: nat, k: nat, m: JsonText.Member, acc: seq<Value>)
    requires WellWritten(m.text) && i <= k <= |s| && SkipSpace(s, i) == SkipSpace(s, k)
    requires Holds(s, k, Write(m.text)) && NoDigitAt(s, k + |Write(m.text)|)
    ensures ReadMember(s, i, PointsOf(m.key), acc) == ValueRead(m, acc, k + |Write(m.text)|)
  {
    hide ParseValue, Write, WellWritten, ReadArray, Holds, SkipSpace, Meaning, Meanings, NoDigitAt, AreObjects;
    SkillsSpelled();
    OpensAs(s, k, m.text);
    if UnderTheKey(m) && m.text.TArray? {
      ArrayText(s, k, m.text, acc);
    } else {
      OtherParses(s, k, m.text);
    }
  }

  lemma ArrayText(s: string, k: nat, t: Text, acc: seq<Value>)
    requires WellWritten(t) && t.TArray? && Holds(s, k, Write(t))
    ensures k < |s|
    ensures ReadArray(s, k + 1, acc)
         == if AreObjects(t.items) then Good(acc + Meanings(t.items), k + |Write(t)|) else Bad
  {
    hide WriteItems, ReadArray, SkipSpace, Meanings, ItemsWellWritten, IsLayout, Holds, AreObjects;
    MarkFirst(s, k, '[', t.open + WriteItems(t.items));
    HoldsBoth(s, k + 1, t.open, WriteItems(t.items));
    LayoutPassed(s, k + 1, t.open);
    ArrayFrom(s, k + 1, k + 1 + |t.open|, acc);
    ItemsRead(s, k + 1 + |t.open|, t.items, acc);
  }

  /** A member's key and value, and what the reader does behind them. */
  lemma MemberRead(s: string, i: nat, m: JsonText.Member, acc: seq<Value>)
    requires Writable(m.key) && WellWritten(m.text) && IsLayout(m.beforeColon) && IsLayout(m.afterColon)
    requires Holds(s, i, WriteMember(m)) && NoDigitAt(s, i + |WriteMember(m)|)
    ensures var end := i + |WriteMember(m)|;
      && i < |s| && s[i] == '"' && end <= |s|
      && ReadObject(s, i, acc) == match ValueRead(m, acc, end)
                                  case NoValue => Bad
                                  case BeforeComma(passed, next) => Resume(s, ReadTail(s, end, passed))
                                  case BeforeKey(passed, next) => ReadObject(s, end, passed)
  {
    hide ParseValue, WriteString, Write, WriteMember, ReadObject, ReadMember, ReadTail, ReadKey, SkipSpace, Holds,
         IsLayout, WellWritten, NoDigitAt, PointsOf, Writable, UnderTheKey, AreObjects, Meanings;
    MemberSplit(s, i, m);
    LayoutIsSpacing(m.beforeColon);
    QuoteBefore(s, i, WriteString(m.key));
    KeyRead(s, i, m.key, m.beforeColon);
    var colon := i + 1 + |WriteString(m.key)| + |m.beforeColon|;
    LayoutPassed(s, colon + 1, m.afterColon);
    NoSpaceHere(s, i);
    ReadObjectByKey(s, i, PointsOf(m.key), colon + 1, acc);
    MemberValueRead(s, colon + 1, colon + 1 + |m.afterColon|, m, acc);
    HoldsInside(s, colon + 1 + |m.afterColon|, Write(m.text));
  }

  lemma QuoteBefore(s: string, i: nat, rest: string)
    requires i < |s| && s[i] == '"' && Holds(s, i + 1, rest)
    ensures Holds(s, i, "\"" + rest)
  {
    assert s[i..i + 1 + |rest|] == [s[i]] + s[i + 1..i + 1 + |rest|];
  }

  /** Behind a member stands the brace, or a comma before the others; only where the reader looks for a comma does it
      get past one. */
  lemma BehindMemberRead(s: string, i: nat, members: seq<JsonText.Member>, passed: seq<Value>)
    requires members != [] && MembersWellWritten(members) && MembersWellWritten(members[1..])
    requires Holds(s, i, WriteMembers(members)) && i + |WriteMember(members[0])| <= |s|
    ensures var end := i + |WriteMember(members[0])|;
      var next := i + |WriteMembers(members)| - |WriteMembers(members[1..])|;
      && (|members| == 1 ==>
            Resume(s, ReadTail(s, end, passed)) == ReadObject(s, end, passed)
            && ReadObject(s, end, passed) == Good(passed, i + |WriteMembers(members)|))
      && (|members| > 1 ==>
            i <= next && Holds(s, next, WriteMembers(members[1..])) && ReadObject(s, end, passed).Bad?
            && Resume(s, ReadTail(s, end, passed)) == ReadObject(s, next, passed))
  {
    hide WriteMember, WellWritten, WriteMembers, Holds, IsLayout, Writable, MembersWellWritten, ReadObject, ReadTail,
         SkipSpace;
    MembersWellWrittenHead(members);
    var m := members[0];
    var end := i + |WriteMember(m)|;
    var mark := end + |m.after|;
    MembersSplit(s, i, members);
    LayoutPassed(s, end, m.after);
    NoSpaceHere(s, mark);
    ObjectEnds(s, end, passed);
    if |members| == 1 {
      NoCommaNoTail(s, end, passed);
    } else {
      HoldsBoth(s, mark + 1, m.gap, WriteMembers(members[1..]));
      CommaThen(s, end, mark, m.gap, passed);
    }
  }

  lemma CommaThen(s: string, end: nat, mark: nat, gap: string, passed: seq<Value>)
    requires end <= mark < |s| && s[mark] == ',' && SkipSpace(s, end) == mark
    requires IsLayout(gap) && Holds(s, mark + 1, gap)
    ensures mark + 1 + |gap| <= |s|
    ensures Resume(s, ReadTail(s, end, passed)) == ReadObject(s, mark + 1 + |gap|, passed)
  {
    hide ReadObject, Holds, IsLayout, SkipSpace;
    LayoutPassed(s, mark + 1, gap);
    ReadObjectFrom(s, mark + 1, mark + 1 + |gap|, passed);
  }

  /** The first member read, and then the brace or the others. */
  lemma FirstMemberRead(s: string, i: nat, members: seq<JsonText.Member>, acc: seq<Value>)
    requires members != [] && MembersWellWritten(members) && Holds(s, i, WriteMembers(members))
    ensures MembersWellWritten(members[1..])
    ensures var next := i + |WriteMembers(members)| - |WriteMembers(members[1..])|;
      var passed := acc + EntriesUnderKey(members[0]);
      && (!IsFine(members[0], |members| == 1) ==> ReadObject(s, i, acc).Bad?)
      && (IsFine(members[0], |members| == 1) && |members| == 1 ==>
            ReadObject(s, i, acc) == Good(passed, i + |WriteMembers(members)|))
      && (IsFine(members[0], |members| == 1) && |members| > 1 ==>
            i <= next && Holds(s, next, WriteMembers(members[1..]))
            && ReadObject(s, i, acc) == ReadObject(s, next, passed))
  {
    hide WriteMember, WellWritten, WriteMembers, Holds, IsLayout, Writable, MembersWellWritten, ReadObject, ReadTail,
         UnderTheKey, AreObjects, Meanings, NoDigitAt;
    MembersWellWrittenHead(members);
    AfterMember(s, i, members);
    MembersSplit(s, i, members);
    MemberRead(s, i, members[0], acc);
    assert acc + [] == acc;
    BehindMemberRead(s, i, members, acc);
    BehindMemberRead(s, i, members, acc + EntriesUnderKey(members[0]));
  }

  lemma FineStep(members: seq<JsonText.Member>)
    requires members != []
    ensures AllFine(members) <==> IsFine(members[0], |members| == 1) && AllFine(members[1..])
    ensures |members| == 1 ==> AllFine(members[1..]) && AllEntries(members) == EntriesUnderKey(members[0])
  {
    hide IsFine, EntriesUnderKey;
    if IsFine(members[0], |members| == 1) && AllFine(members[1..]) {
      forall k | 0 <= k < |members| ensures IsFine(members[k], k == |members| - 1) {
        if k > 0 { assert members[k] == members[1..][k - 1]; }
      }
    }
    if AllFine(members) {
      forall k | 0 <= k < |members[1..]| ensures IsFine(members[1..][k], k == |members[1..]| - 1) {
        assert members[1..][k] == members[k + 1];
      }
    }
    if |members| == 1 { assert members[1..] == [] && EntriesUnderKey(members[0]) + [] == EntriesUnderKey(members[0]); }
  }

  /** An object is read to its brace when its members are fine, and refused otherwise. */
  lemma {:induction false} JsonMembersRead(s: string, i: nat, members: seq<JsonText.Member>, acc: seq<Value>)
    requires members != [] && MembersWellWritten(members) && Holds(s, i, WriteMembers(members))
    ensures ReadObject(s, i, acc)
         == if AllFine(members) then Good(acc + AllEntries(members), i + |WriteMembers(members)|) else Bad
    decreases |members|
  {
    hide WriteMembers, MembersWellWritten, Holds, ReadObject, AllFine, IsFine, EntriesUnderKey;
    FirstMemberRead(s, i, members, acc);
    FineStep(members);
    if IsFine(members[0], |members| == 1) && |members| > 1 {
      var next := i + |WriteMembers(members)| - |WriteMembers(members[1..])|;
      var passed := acc + EntriesUnderKey(members[0]);
      JsonMembersRead(s, next, members[1..], passed);
      assert passed + AllEntries(members[1..]) == acc + AllEntries(members);
    }
  }

  // ----- files -----

  lemma NoMembersRead(s: string, i: nat, acc: seq<Value>)
    requires Holds(s, i, WriteMembers([]))
    ensures ReadObject(s, i, acc) == Good(acc + AllEntries([]), i + |WriteMembers([])|) && AllFine([])
  {
    NoMembers(s, i);
    NoSpaceHere(s, i);
    ObjectEnds(s, i, acc);
    assert acc + [] == acc;
  }

  lemma ObjectTextRead(s: string, k: nat, t: Text)
    requires WellWritten(t) && t.TObject? && Holds(s, k, Write(t))
    ensures k < |s|
    ensures ReadObject(s, k + 1, []) == if AllFine(t.members) then Good(AllEntries(t.members), k + |Write(t)|) else Bad
  {
    hide WriteMembers, ReadObject, SkipSpace, MembersWellWritten, IsLayout, Holds, AllFine, AllEntries;
    var start := k + 1 + |t.open|;
    MarkFirst(s, k, '{', t.open + WriteMembers(t.members));
    HoldsBoth(s, k + 1, t.open, WriteMembers(t.members));
    LayoutPassed(s, k + 1, t.open);
    ReadObjectFrom(s, k + 1, start, []);
    if t.members == [] { NoMembersRead(s, start, []); } else { JsonMembersRead(s, start, t.members, []); }
    assert [] + AllEntries(t.members) == AllEntries(t.members);
  }

  /** A file that holds a JSON text, with white space before it and anything behind it, is read from one piece if and
      only if it is a list of objects, or an object whose `skills` values are lists of objects, or no list and the last
      of its members; and then the entries are the elements of those lists, in order. */
  lemma JsonFileRead(lead: string, t: Text, rest: string)
    requires IsSpacing(lead) && WellWritten(t)
    ensures Answer(RunTopLevel(lead + (Write(t) + rest), {})) == if IsIndex(t) then Some(IndexEntries(t)) else None
  {
    hide RunTopLevel, Write, WellWritten, ReadArray, ReadObject, AreObjects, AllFine, Meanings, AllEntries, IsSpacing,
         SkipSpace;
    var s := lead + (Write(t) + rest);
    WholeText(s);
    HoldsBoth(s, 0, lead, Write(t) + rest);
    HoldsBoth(s, |lead|, Write(t), rest);
    SpacingSkips(s, 0, lead);
    OpensAs(s, |lead|, t);
    OneChunk(s);
    if t.TArray? {
      ArrayText(s, |lead|, t, []);
      assert [] + Meanings(t.items) == Meanings(t.items);
    } else if t.TObject? {
      ObjectTextRead(s, |lead|, t);
    }
  }
}
