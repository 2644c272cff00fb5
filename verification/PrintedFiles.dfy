/** Printed index files read back: a printed list of objects, alone or as the `skills` member of an object, is
    returned in full. A list is however the text is cut; an object is exactly when none of its other members is a
    number that goes on behind its first digit. */
module PrintedFiles {
  import opened Wrappers
  import opened PythonText
  import opened Json
  import opened JsonPrefix
  import opened JsonRoundTrip
  import opened JsonText
  import opened StreamingReader
  import opened ReaderSoundness
  import opened ReaderCourse
  import opened ReaderCounting
  import opened ReaderCutting

  // ----- lists -----

  /** The course of an array up to its next bracket or comma. */
  lemma MarkCourse(s: string, i: nat, after: Course)
    requires i <= |s| && SkipSpace(s, i) < |s|
    ensures var j := SkipSpace(s, i);
      && (s[j] == ']' ==> ArrayCourse(s, i, after) == Mark(i, j, 2, after))
      && (s[j] == ',' ==> ArrayCourse(s, i, after) == Mark(i, j, 2, ArrayCourse(s, j + 1, after)))
  {
    hide ParseValue;
  }

  lemma EntryCourse(s: string, i: nat, after: Course)
    requires i <= |s| && ParseValue(s, SkipSpace(s, i)).Good? && ParseValue(s, SkipSpace(s, i)).value.Obj?
    ensures var j := SkipSpace(s, i);
      var end := ParseValue(s, j).end;
      j < |s| && s[j] == '{' && ArrayCourse(s, i, after) == Item(i, j, 3, end, end, ArrayCourse(s, end, after))
  {
    ObjectIsBraced(s, SkipSpace(s, i));
    hide ParseValue;
  }

  /** Two courses that every cutting treats alike. */
  predicate AsAiry(course: Course, after: Course) {
    Airless(course) <==> Airless(after)
  }

  /** Printed entries have no air in them. */
  lemma {:induction false} ItemsAirless(s: string, i: nat, j: nat, items: seq<Value>, after: Course)
    requires AllWellFormed(items) && AllObjects(items) && Holds(s, j, PrintItems(items))
    requires 0 < i <= j <= i + 1 && SkipSpace(s, i) == j
    ensures AsAiry(ArrayCourse(s, i, after), after)
    decreases |items|
  {
    hide Print, PrintItems, WellFormed, Holds, ArrayCourse, ParseValue;
    if items == [] {
      EmptyItems(s, j);
      MarkCourse(s, i, after);
    } else {
      PrintedItemsSplit(s, j, items);
      var end := j + |Print(items[0])|;
      SeparatorAt(s, end, |items| > 1, ']');
      PrintedParses(s, j, items[0]);
      EntryCourse(s, i, after);
      MarkCourse(s, end, after);
      if |items| > 1 {
        NextItem(s, end, items[1..]);
        ItemsAirless(s, end + 1, end + 2, items[1..], after);
      }
      assert AsAiry(ArrayCourse(s, end, after), after);
    }
  }

  lemma EmptyItems(s: string, j: nat)
    requires Holds(s, j, PrintItems([]))
    ensures j < |s| && s[j] == ']'
  {
    HoldsAt(s, j, "]", 0);
  }

  /** What stands behind an element or a member: a comma and a blank, or the end of the container. */
  lemma SeparatorAt(s: string, end: nat, more: bool, closer: char)
    requires if more then Holds(s, end, ", ") else Holds(s, end, [closer])
    requires closer == ']' || closer == '}'
    ensures end < |s| && SkipSpace(s, end) == end && NoDigitAt(s, end)
    ensures s[end] == if more then ',' else closer
    ensures more ==> end + 1 < |s| && s[end + 1] == ' '
  {
    if more {
      HoldsAt(s, end, ", ", 0);
      HoldsAt(s, end, ", ", 1);
    } else {
      HoldsAt(s, end, [closer], 0);
    }
  }

  /** The blank behind a comma is all that stands before the next entry. */
  lemma NextItem(s: string, end: nat, items: seq<Value>)
    requires AllWellFormed(items) && AllObjects(items) && items != [] && Holds(s, end + 2, PrintItems(items))
    requires end + 1 < |s| && s[end + 1] == ' '
    ensures end + 2 < |s| && SkipSpace(s, end + 1) == end + 2
  {
    hide PrintItems, Holds;
    PrintedItemsSplit(s, end + 2, items);
    EntryStart(s, end + 2, items[0]);
  }

  lemma EntryStart(s: string, i: nat, v: Value)
    requires WellFormed(v) && v.Obj? && Holds(s, i, Print(v))
    ensures i < |s| && s[i] == '{'
  {
    HoldsAt(s, i, Print(v), 0);
  }

  /** A printed list of objects is read back in full, however the text is cut. */
  lemma PrintedListReads(entries: seq<Value>, cuts: set<nat>)
    requires AllWellFormed(entries) && AllObjects(entries)
    ensures Answer(RunTopLevel(Print(Arr(entries)), cuts)) == Some(entries)
  {
    hide ParseValue, ReadArray, RunTopLevel, PrintItems, ArrayCourse;
    var text := Print(Arr(entries));
    WholeText(text);
    PrintedParses(text, 0, Arr(entries));
    DecodedArrayRead(text, 0, []);
    assert [] + entries == entries;
    ListStart(text, 0, entries);
    ItemsAirless(text, 1, 1, entries, Over);
    OneChunk(text);
    IndependentOfCuts(text, cuts);
  }

  lemma ListStart(s: string, i: nat, entries: seq<Value>)
    requires AllWellFormed(entries) && AllObjects(entries) && Holds(s, i, Print(Arr(entries)))
    ensures i + 1 < |s| && s[i] == '[' && SkipSpace(s, i) == i && SkipSpace(s, i + 1) == i + 1
    ensures Holds(s, i + 1, PrintItems(entries))
  {
    hide PrintItems;
    HoldsBoth(s, i, "[", PrintItems(entries));
    HoldsAt(s, i, "[", 0);
    if entries == [] {
      EmptyItems(s, i + 1);
    } else {
      PrintedItemsSplit(s, i + 1, entries);
      EntryStart(s, i + 1, entries[0]);
    }
  }

  // ----- objects -----

  /** The member is called `skills`. */
  predicate IsSkills(name: seq<nat>) {
    name == Spelled("skills")
  }

  lemma TheKey(name: seq<nat>)
    ensures IsSkills(name) <==> name == SKILLS_KEY
  {
    assert Spelled("skills") == SKILLS_KEY;
  }

  /** Every `skills` member is a list of objects. */
  predicate SkillsAreLists(fields: seq<Field>) {
    forall k :: 0 <= k < |fields| && IsSkills(fields[k].name) ==>
      fields[k].value.Arr? && AllObjects(fields[k].value.items)
  }

  /** The entries of the `skills` member, none when there is none; of a repeated one, all in order. */
  function SkillsOf(fields: seq<Field>): seq<Value> {
    if fields == [] then []
    else
      (if IsSkills(fields[0].name) && fields[0].value.Arr? then fields[0].value.items else [])
      + SkillsOf(fields[1..])
  }

  /** A number that goes on behind its first digit. */
  predicate GoesOn(v: Value) {
    v.Num? && v.literal != "" && FirstDigit(v.literal, 0) + 1 < |v.literal|
  }

  predicate NoneGoesOn(fields: seq<Field>) {
    forall k :: 0 <= k < |fields| ==> !GoesOn(fields[k].value)
  }

  /** A printed member: its key up to the quote, the colon, one blank and the value. */
  lemma MemberParts(s: string, j: nat, field: Field)
    requires Scalars(field.name) && WellFormed(field.value)
    requires Holds(s, j, PrintField(field)) && NoDigitAt(s, j + |PrintField(field)|)
    ensures var q := j + 1 + |Quoted(field.name)|;
      && ReadKey(s, j) == Good(field.name, q + 1) && ParseValue(s, j) == Good(Str(field.name), q)
      && SkipSpace(s, q) == q && q + 2 <= |s| && SkipSpace(s, q + 1) == q + 2
      && ParseValue(s, q + 2) == Good(field.value, j + |PrintField(field)|)
      && Holds(s, q + 2, Print(field.value))
  {
    hide Print, Quoted, ParseValue, WellFormed, Holds;
    var q := j + 1 + |Quoted(field.name)|;
    var head := "\"" + Quoted(field.name);
    assert head + ": " == "\"" + Quoted(field.name) + ": ";
    HoldsBoth(s, j, head + ": ", Print(field.value));
    HoldsBoth(s, j, head, ": ");
    ColonAndBlank(s, q);
    QuotedParses(s, j, field.name);
    PrintedParses(s, q + 2, field.value);
    ValueStart(s, q + 2);
  }

  lemma ColonAndBlank(s: string, q: nat)
    requires Holds(s, q, ": ")
    ensures q + 1 < |s| && s[q] == ':' && s[q + 1] == ' ' && SkipSpace(s, q) == q
    ensures SkipSpace(s, q + 1) == SkipSpace(s, q + 2)
  {
    HoldsAt(s, q, ": ", 0);
    HoldsAt(s, q, ": ", 1);
  }

  lemma PrintedKeyCourse(s: string, i: nat, more: nat, key: seq<nat>, q: nat)
    requires i <= |s| && q < |s| && ReadKey(s, SkipSpace(s, i)) == Good(key, q + 1)
    requires ParseValue(s, SkipSpace(s, i)).end == q
    ensures var j := SkipSpace(s, i);
      ObjectCourse(s, i, more) == Item(i, j, more + 3, q, q, Mark(q, q, 3, MemberCourse(s, q + 1, key)))
  {
    hide ParseValue, ReadKey, MemberCourse;
    KeyIsQuoted(s, SkipSpace(s, i));
  }

  /** How much of a printed number has to be there. */
  lemma EnoughOfPrinted(s: string, k: nat, v: Value)
    requires WellFormed(v) && Holds(s, k, Print(v)) && ParseValue(s, k) == Good(v, k + |Print(v)|)
    ensures Enough(s, k, k + |Print(v)|) == k + |Print(v)| <==> !GoesOn(v)
  {
    hide ParseValue, PrintItems, PrintFields, DigitsEnd, FractionEnd, ExponentEnd;
    ValueStart(s, k);
    if NumberEnd(s, k).Some? {
      NumberIsDecoded(s, k);
      HoldsAt(s, k, v.literal, 0);
    } else if v.Num? {
      NoNumberHere(s, k, v.literal);
    }
  }

  lemma NoNumberHere(s: string, k: nat, literal: string)
    requires k < |s| && NumberEnd(s, k).None? && literal != "" && NumberEnd(literal, 0).Some?
    ensures !Holds(s, k, literal)
  {
    hide DigitsEnd, FractionEnd, ExponentEnd;
    if Holds(s, k, literal) {
      HoldsAt(s, k, literal, 0);
      HoldsAt(s, k, literal, FirstDigit(literal, 0));
    }
  }

  /** The airlessness of a member's course is its value's and that of what follows. */
  predicate AiryMember(course: Course, v: Value, after: Course) {
    Airless(course) <==> !GoesOn(v) && Airless(after)
  }

  lemma SkillsMember(s: string, i: nat, items: seq<Value>, end: nat, acc: seq<Value>)
    requires 0 < i < |s| && SkipSpace(s, i) == i + 1 && AllWellFormed(items) && AllObjects(items)
    requires ParseValue(s, i + 1) == Good(Arr(items), end) && Holds(s, i + 1, Print(Arr(items)))
    ensures AiryMember(MemberCourse(s, i, SKILLS_KEY), Arr(items), TailCourse(s, end))
    ensures ReadAfterKey(s, i, SKILLS_KEY, acc) == ReadTail(s, end, acc + items)
  {
    hide ParseValue, Print, PrintItems, ArrayCourse, TailCourse, ObjectCourse, ReadArray, ReadTail, Holds;
    ListStart(s, i + 1, items);
    DecodedArrayRead(s, i + 1, acc);
    DecodedArrayRead(s, i + 1, []);
    ItemsAirless(s, i + 2, i + 2, items, TailCourse(s, end));
  }

  lemma OtherMember(s: string, i: nat, field: Field, end: nat, acc: seq<Value>)
    requires i < |s| && SkipSpace(s, i) == i + 1 && WellFormed(field.value) && field.name != SKILLS_KEY
    requires ParseValue(s, i + 1) == Good(field.value, end) && Holds(s, i + 1, Print(field.value))
    requires end == i + 1 + |Print(field.value)|
    ensures AiryMember(MemberCourse(s, i, field.name), field.value, TailCourse(s, end))
    ensures ReadAfterKey(s, i, field.name, acc) == ReadTail(s, end, acc)
  {
    hide ParseValue, Print, TailCourse, ObjectCourse, ReadTail, Enough, GoesOn, Holds, WellFormed;
    EnoughOfPrinted(s, i + 1, field.value);
  }

  /** One member, in the reader's terms. */
  lemma MemberReads(s: string, j: nat, field: Field, acc: seq<Value>)
    requires Scalars(field.name) && WellFormed(field.value) && SkillsAreLists([field])
    requires Holds(s, j, PrintField(field)) && NoDigitAt(s, j + |PrintField(field)|)
    ensures var q := j + 1 + |Quoted(field.name)|;
      var end := j + |PrintField(field)|;
      && q + 1 <= |s| && end <= |s|
      && AiryMember(MemberCourse(s, q + 1, field.name), field.value, TailCourse(s, end))
      && ReadAfterKey(s, q + 1, field.name, acc) == ReadTail(s, end, acc + SkillsOf([field]))
  {
    hide ParseValue, Print, Quoted, MemberCourse, TailCourse, ReadAfterKey, ReadTail, ReadKey, Holds, PrintField;
    var q, end := j + 1 + |Quoted(field.name)|, j + |PrintField(field)|;
    MemberParts(s, j, field);
    TheKey(field.name);
    assert [field][0] == field;
    if field.name == SKILLS_KEY {
      SkillsMember(s, q + 1, field.value.items, end, acc);
      assert SkillsOf([field]) == field.value.items;
    } else {
      ValueLength(s, j, field);
      OtherMember(s, q + 1, field, end, acc);
      assert acc + SkillsOf([field]) == acc;
    }
  }

  lemma ValueLength(s: string, j: nat, field: Field)
    requires Scalars(field.name) && WellFormed(field.value)
    ensures |PrintField(field)| == 3 + |Quoted(field.name)| + |Print(field.value)|
  {
    hide Print, Quoted;
  }

  /** Behind a member. */
  lemma TailReads(s: string, end: nat, acc: seq<Value>)
    requires end < |s| && SkipSpace(s, end) == end
    ensures s[end] == ',' ==> TailCourse(s, end) == Mark(end, end, 2, ObjectCourse(s, end + 1, 0))
    ensures s[end] == ',' ==> ReadTail(s, end, acc) == Again(acc, end + 1)
    ensures s[end] == '}' ==> Airless(TailCourse(s, end))
    ensures s[end] == '}' ==> ReadTail(s, end, acc) == Finish(acc, end + 1)
  {
    hide ReadKey, ParseValue;
    assert s[end] == '}' ==> TailCourse(s, end) == Mark(end, end, 4, Over);
    assert Airless(Over);
  }

  lemma NextField(s: string, end: nat, fields: seq<Field>)
    requires AllFieldsWellFormed(fields) && fields != [] && Holds(s, end + 2, PrintFields(fields))
    requires end + 1 < |s| && s[end + 1] == ' '
    ensures end + 2 < |s| && SkipSpace(s, end + 1) == end + 2
  {
    FieldsStart(s, end + 2, fields);
  }

  lemma SplitFields(fields: seq<Field>)
    requires fields != []
    ensures SkillsOf(fields) == SkillsOf([fields[0]]) + SkillsOf(fields[1..])
    ensures SkillsAreLists(fields) ==> SkillsAreLists([fields[0]]) && SkillsAreLists(fields[1..])
    ensures NoneGoesOn(fields) <==> !GoesOn(fields[0].value) && NoneGoesOn(fields[1..])
  {
    assert SkillsOf(fields) == SkillsOf([fields[0]]) + SkillsOf(fields[1..]) by {
      assert [fields[0]][1..] == [] && SkillsOf([]) == [];
    }
    hide SkillsOf, SkillsAreLists, NoneGoesOn, GoesOn;
    if SkillsAreLists(fields) { SplitLists(fields); }
    SplitGoing(fields);
  }

  lemma SplitLists(fields: seq<Field>)
    requires fields != [] && SkillsAreLists(fields)
    ensures SkillsAreLists([fields[0]]) && SkillsAreLists(fields[1..])
  {
    hide AllObjects, IsSkills;
  }

  lemma SplitGoing(fields: seq<Field>)
    requires fields != []
    ensures NoneGoesOn(fields) <==> !GoesOn(fields[0].value) && NoneGoesOn(fields[1..])
  {
    hide GoesOn;
    if !GoesOn(fields[0].value) && NoneGoesOn(fields[1..]) {
      forall k | 0 <= k < |fields| ensures !GoesOn(fields[k].value) {
        if k > 0 { assert fields[k] == fields[1..][k - 1]; }
      }
    }
  }

  /** The first of the printed members, read up to what follows it. */
  lemma FirstField(s: string, i: nat, j: nat, more: nat, field: Field, acc: seq<Value>)
    requires Scalars(field.name) && WellFormed(field.value) && SkillsAreLists([field])
    requires Holds(s, j, PrintField(field)) && NoDigitAt(s, j + |PrintField(field)|)
    requires 0 < i <= j <= i + 1 && j <= |s| && SkipSpace(s, i) == j
    ensures j + |PrintField(field)| <= |s|
    ensures var end := j + |PrintField(field)|;
      && ReadObject(s, i, acc) == Resume(s, ReadTail(s, end, acc + SkillsOf([field])))
      && AiryMember(ObjectCourse(s, i, more), field.value, TailCourse(s, end))
  {
    hide PrintField, WellFormed, Scalars, Holds, ObjectCourse, MemberCourse, TailCourse, ParseValue, ReadObject,
         ReadAfterKey, ReadTail, GoesOn, SkillsOf, SkillsAreLists, Quoted, ReadKey, Resume;
    var q := j + 1 + |Quoted(field.name)|;
    MemberParts(s, j, field);
    MemberReads(s, j, field, acc);
    PrintedKeyCourse(s, i, more, field.name, q);
    ReadObjectByKey(s, i, field.name, q + 1, acc);
    var colon := Mark(q, q, 3, MemberCourse(s, q + 1, field.name));
    assert AiryMember(colon, field.value, TailCourse(s, j + |PrintField(field)|));
  }

  /** Printed members are read in full from one piece, and have no air in them unless a number goes on. */
  lemma {:induction false} FieldsRead(s: string, i: nat, j: nat, more: nat, fields: seq<Field>, acc: seq<Value>)
    requires AllFieldsWellFormed(fields) && SkillsAreLists(fields) && Holds(s, j, PrintFields(fields))
    requires 0 < i <= j <= i + 1 && j <= |s| && SkipSpace(s, i) == j
    ensures ReadObject(s, i, acc) == Good(acc + SkillsOf(fields), j + |PrintFields(fields)|)
    ensures Airless(ObjectCourse(s, i, more)) <==> NoneGoesOn(fields)
    decreases |fields|
  {
    hide PrintField, PrintFields, WellFormed, Scalars, Holds, ObjectCourse, TailCourse, ReadObject, ReadTail, GoesOn,
         NoneGoesOn, SkillsOf, SkillsAreLists;
    if fields == [] {
      NoFields(s, i, j, more, acc);
    } else {
      FieldsSplit(s, j, fields);
      SplitFields(fields);
      var end, passed := j + |PrintField(fields[0])|, acc + SkillsOf([fields[0]]);
      SeparatorAt(s, end, |fields| > 1, '}');
      FirstField(s, i, j, more, fields[0], acc);
      TailReads(s, end, passed);
      assert acc + SkillsOf(fields) == passed + SkillsOf(fields[1..]);
      if |fields| > 1 {
        NextField(s, end, fields[1..]);
        FieldsRead(s, end + 1, end + 2, 0, fields[1..], passed);
      } else {
        NoneLeft(fields[1..], passed);
      }
    }
  }

  lemma NoneLeft(fields: seq<Field>, acc: seq<Value>)
    requires fields == []
    ensures NoneGoesOn(fields) && acc + SkillsOf(fields) == acc
  {
  }

  lemma NoFields(s: string, i: nat, j: nat, more: nat, acc: seq<Value>)
    requires i <= j <= |s| && j == SkipSpace(s, i) && Holds(s, j, PrintFields([]))
    ensures ReadObject(s, i, acc) == Good(acc + SkillsOf([]), j + |PrintFields([])|)
    ensures ObjectCourse(s, i, more) == Mark(i, j, more + 2, Over)
    ensures NoneGoesOn([])
  {
    HoldsAt(s, j, "}", 0);
    assert acc + [] == acc;
  }

  /** A printed object is read back in full from one piece, and however it is cut if and only if none of its numbers
      goes on behind its first digit. */
  lemma PrintedObjectReads(fields: seq<Field>)
    requires WellFormed(Obj(fields)) && SkillsAreLists(fields)
    ensures Answer(RunTopLevel(Print(Obj(fields)), {})) == Some(SkillsOf(fields))
    ensures (forall cuts: set<nat> :: Answer(RunTopLevel(Print(Obj(fields)), cuts)) == Some(SkillsOf(fields)))
      <==> NoneGoesOn(fields)
  {
    hide ParseValue, ReadObject, RunTopLevel, PrintFields, ObjectCourse, Airless, NoneGoesOn, SkillsOf;
    var text := Print(Obj(fields));
    ObjectStart(text, fields);
    FieldsRead(text, 1, 1, 0, fields, []);
    assert [] + SkillsOf(fields) == SkillsOf(fields);
    OneChunk(text);
    var course := ObjectCourse(text, 1, 0);
    MarkedAirless(course);
    IndependentOfEveryCutting(text);
  }

  lemma ObjectStart(text: string, fields: seq<Field>)
    requires WellFormed(Obj(fields)) && text == Print(Obj(fields))
    ensures 1 < |text| && text[0] == '{' && SkipSpace(text, 0) == 0 && SkipSpace(text, 1) == 1
    ensures Holds(text, 1, PrintFields(fields)) && |text| == 1 + |PrintFields(fields)|
  {
    WholeText(text);
    HoldsBoth(text, 0, "{", PrintFields(fields));
    hide PrintField;
    if fields == [] { HoldsAt(text, 1, "}", 0); } else { FieldsStart(text, 1, fields); }
  }

  lemma MarkedAirless(course: Course)
    ensures Airless(Mark(0, 0, 2, course)) <==> Airless(course)
  {
  }

  /** A printed object without a member called `skills` yields nothing. */
  lemma NoSkillsNoEntries(fields: seq<Field>)
    requires WellFormed(Obj(fields)) && forall k :: 0 <= k < |fields| ==> fields[k].name != Spelled("skills")
    ensures Answer(RunTopLevel(Print(Obj(fields)), {})) == Some([])
  {
    hide RunTopLevel, Print;
    PrintedObjectReads(fields);
    NoneOf(fields);
  }

  lemma {:induction false} NoneOf(fields: seq<Field>)
    requires forall k :: 0 <= k < |fields| ==> !IsSkills(fields[k].name)
    ensures SkillsOf(fields) == []
  {
    if fields != [] { NoneOf(fields[1..]); }
  }

  /** The key is the word `skills`, in quotes. */
  lemma KeyAsText()
    ensures Scalars(Spelled("skills")) && Quoted(Spelled("skills")) == "skills\""
  {
    hide FourDigits;
    var k := Spelled("skills");
    forall i | 0 <= i < 6 ensures Spell(k[i], SpellingFor(k[i])) == ["skills"[i]] {
      assert k[i] == "skills"[i] as nat;
    }
    assert Quoted(k[6..]) == "\"";
    assert Quoted(k[5..]) == "s" + Quoted(k[6..]) by { assert k[5..][1..] == k[6..]; }
    assert Quoted(k[4..]) == "l" + Quoted(k[5..]) by { assert k[4..][1..] == k[5..]; }
    assert Quoted(k[3..]) == "l" + Quoted(k[4..]) by { assert k[3..][1..] == k[4..]; }
    assert Quoted(k[2..]) == "i" + Quoted(k[3..]) by { assert k[2..][1..] == k[3..]; }
    assert Quoted(k[1..]) == "k" + Quoted(k[2..]) by { assert k[1..][1..] == k[2..]; }
    assert Quoted(k) == "s" + Quoted(k[1..]);
  }

  lemma SkillsAsText(entries: seq<Value>)
    requires AllWellFormed(entries)
    ensures WellFormed(Obj([Field(Spelled("skills"), Arr(entries))]))
    ensures Print(Obj([Field(Spelled("skills"), Arr(entries))])) == "{\"skills\": " + Print(Arr(entries)) + "}"
  {
    hide Quoted;
    var field := Field(Spelled("skills"), Arr(entries));
    KeyAsText();
    assert WellFormed(field.value);
    assert AllFieldsWellFormed([field]) && DistinctNames([field]);
    assert PrintFields([field]) == PrintField(field) + "}";
    assert "\"" + ("skills\"") + ": " == "\"skills\": ";
    assert "{" + ("\"skills\": " + Print(field.value) + "}") == "{\"skills\": " + Print(field.value) + "}";
  }

  /** The text `{"skills": ` followed by a printed list of objects and `}` is read back as exactly that list, for every
      way of cutting it. */
  lemma PrintedSkillsRead(entries: seq<Value>, cuts: set<nat>)
    requires AllWellFormed(entries) && AllObjects(entries)
    ensures Answer(RunTopLevel("{\"skills\": " + Print(Arr(entries)) + "}", cuts)) == Some(entries)
  {
    hide RunTopLevel, Print;
    var fields := [Field(Spelled("skills"), Arr(entries))];
    SkillsAsText(entries);
    PrintedObjectReads(fields);
    assert SkillsOf(fields[1..]) == [];
    assert SkillsOf(fields) == entries + [] == entries;
  }
}
