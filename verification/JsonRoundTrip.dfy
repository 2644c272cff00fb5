/** Printing and decoding: every printed value decodes to itself. */
module JsonRoundTrip {
  import opened Json
  import opened JsonText

  // ----- the printer (sections 3, 4, 5 and 7 of RFC 8259) -----

  predicate Scalars(points: seq<nat>) {
    forall k :: 0 <= k < |points| ==> IsScalar(points[k])
  }

  /** The code points of a text without surrogate pairs. */
  function Spelled(s: string): (points: seq<nat>)
    ensures |points| == |s| && forall k :: 0 <= k < |s| ==> points[k] == s[k] as nat
  {
    if s == "" then [] else Spelled(s[..|s| - 1]) + [s[|s| - 1] as nat]
  }

  /** A printed string escapes what it must and nothing else. */
  function SpellingFor(p: nat): (how: Spelling)
    requires IsScalar(p)
    ensures CanSpell(p, how)
  {
    if p == 0x22 || p == 0x5C then Letter else if p < 0x20 then Group(false) else AsItIs
  }

  function Quoted(points: seq<nat>): string
    requires Scalars(points)
  {
    if points == [] then "\"" else Spell(points[0], SpellingFor(points[0])) + Quoted(points[1..])
  }

  /** Values a JSON text can denote without loss: numbers are number literals, strings hold Unicode
      scalar values, and an object's keys are distinct. */
  ghost predicate WellFormed(v: Value) {
    match v
    case Constant(name) => name in CONSTANTS
    case Num(literal) => IsNumeral(literal)
    case Str(points) => Scalars(points)
    case Arr(items) => AllWellFormed(items)
    case Obj(fields) => AllFieldsWellFormed(fields) && DistinctNames(fields)
  }

  ghost predicate AllWellFormed(items: seq<Value>) {
    forall k :: 0 <= k < |items| ==> WellFormed(items[k])
  }

  ghost predicate AllFieldsWellFormed(fields: seq<Field>) {
    forall k :: 0 <= k < |fields| ==> Scalars(fields[k].name) && WellFormed(fields[k].value)
  }

  predicate DistinctNames(fields: seq<Field>) {
    forall j, k :: 0 <= j < k < |fields| ==> fields[j].name != fields[k].name
  }

  function Print(v: Value): (text: string)
    requires WellFormed(v)
    ensures text != ""
    decreases v, 1
  {
    match v
    case Constant(name) => name
    case Num(literal) => literal
    case Str(points) => "\"" + Quoted(points)
    case Arr(items) => "[" + PrintItems(items)
    case Obj(fields) => "{" + PrintFields(fields)
  }

  /** The elements and the closing bracket. */
  function PrintItems(items: seq<Value>): string
    requires AllWellFormed(items)
    decreases items, 0
  {
    if items == [] then "]"
    else Print(items[0]) + (if |items| == 1 then "]" else ", " + PrintItems(items[1..]))
  }

  function PrintField(field: Field): string
    requires Scalars(field.name) && WellFormed(field.value)
    decreases field, 2
  {
    "\"" + Quoted(field.name) + ": " + Print(field.value)
  }

  function PrintFields(fields: seq<Field>): string
    requires AllFieldsWellFormed(fields)
    decreases fields, 0
  {
    if fields == [] then "}"
    else PrintField(fields[0]) + (if |fields| == 1 then "}" else ", " + PrintFields(fields[1..]))
  }

  // ----- the printed text as a text -----

  function Glyphs(points: seq<nat>): (glyphs: seq<Glyph>)
    requires Scalars(points)
    ensures Writable(glyphs) && PointsOf(glyphs) == points
  {
    if points == [] then [] else [Glyph(points[0], SpellingFor(points[0]))] + Glyphs(points[1..])
  }

  /** A value with the spelling and the layout of its print. */
  function Plain(v: Value): Text
    requires WellFormed(v)
    decreases v, 1
  {
    match v
    case Constant(name) => TConstant(name)
    case Num(literal) => TNumber(literal)
    case Str(points) => TString(Glyphs(points))
    case Arr(items) => TArray("", PlainItems(items))
    case Obj(fields) => TObject("", PlainFields(fields))
  }

  function PlainItems(items: seq<Value>): (plain: seq<Element>)
    requires AllWellFormed(items)
    ensures |plain| == |items|
    decreases items, 0
  {
    if items == [] then [] else [Element(Plain(items[0]), "", " ")] + PlainItems(items[1..])
  }

  function PlainField(field: Field): Member
    requires Scalars(field.name) && WellFormed(field.value)
    decreases field, 2
  {
    Member(Glyphs(field.name), "", " ", Plain(field.value), "", " ")
  }

  function PlainFields(fields: seq<Field>): (plain: seq<Member>)
    requires AllFieldsWellFormed(fields)
    ensures |plain| == |fields|
    decreases fields, 0
  {
    if fields == [] then [] else [PlainField(fields[0])] + PlainFields(fields[1..])
  }

  lemma {:induction false} QuotedIsWritten(points: seq<nat>)
    requires Scalars(points)
    ensures WriteString(Glyphs(points)) == Quoted(points)
  {
    hide Spell, SpellingFor;
    if points != [] { QuotedIsWritten(points[1..]); }
  }

  /** The print of a value is a text that denotes it. */
  lemma {:induction false} PrintIsWritten(v: Value)
    requires WellFormed(v)
    ensures WellWritten(Plain(v)) && Write(Plain(v)) == Print(v) && Meaning(Plain(v)) == v
    decreases v, 1
  {
    hide IsNumeral, Glyphs, Quoted, PlainItems, PlainFields, PrintItems, PrintFields;
    match v
    case Constant(_) =>
    case Num(_) =>
    case Str(points) => QuotedIsWritten(points);
    case Arr(items) =>
      ItemsAreWritten(items);
      assert "" + PrintItems(items) == PrintItems(items);
    case Obj(fields) =>
      FieldsAreWritten(fields);
      AssignedNew([], fields);
      assert [] + fields == fields;
      assert "" + PrintFields(fields) == PrintFields(fields);
  }

  lemma {:induction false} ItemsAreWritten(items: seq<Value>)
    requires AllWellFormed(items)
    ensures ItemsWellWritten(PlainItems(items)) && WriteItems(PlainItems(items)) == PrintItems(items)
    ensures Meanings(PlainItems(items)) == items
    decreases items, 0
  {
    hide Write, Print, Plain, WellWritten, Meaning, WellFormed;
    if items != [] {
      PrintIsWritten(items[0]);
      ItemsAreWritten(items[1..]);
      var plain := PlainItems(items);
      assert plain[1..] == PlainItems(items[1..]);
      assert "," + (" " + PrintItems(items[1..])) == ", " + PrintItems(items[1..]);
    }
  }

  lemma FieldIsWritten(field: Field)
    requires Scalars(field.name) && WellFormed(field.value)
    ensures WellWritten(Plain(field.value)) && WriteMember(PlainField(field)) == PrintField(field)
    ensures Meaning(Plain(field.value)) == field.value
    decreases field, 2
  {
    hide Write, Print, Plain, WellWritten, Meaning, WellFormed, Quoted, WriteString, Glyphs;
    PrintIsWritten(field.value);
    QuotedIsWritten(field.name);
    var value := Print(field.value);
    assert "\"" + (Quoted(field.name) + ("" + (":" + (" " + value)))) == "\"" + Quoted(field.name) + ": " + value;
  }

  lemma {:induction false} FieldsAreWritten(fields: seq<Field>)
    requires AllFieldsWellFormed(fields)
    ensures MembersWellWritten(PlainFields(fields)) && WriteMembers(PlainFields(fields)) == PrintFields(fields)
    decreases fields, 0
  {
    hide WriteMember, PrintField, Plain, WellWritten, WellFormed, Glyphs, Writable;
    if fields != [] {
      FieldIsWritten(fields[0]);
      FieldsAreWritten(fields[1..]);
      var plain := PlainFields(fields);
      assert plain[1..] == PlainFields(fields[1..]);
      assert "," + (" " + PrintFields(fields[1..])) == ", " + PrintFields(fields[1..]);
    }
  }

  lemma {:induction false} AssignedNew(acc: seq<Field>, fields: seq<Field>)
    requires AllFieldsWellFormed(fields) && DistinctNames(acc + fields)
    ensures Assigned(acc, PlainFields(fields)) == acc + fields
    decreases fields, 0
  {
    hide Plain, Meaning, WellFormed, DistinctNames, Scalars, Glyphs, PointsOf;
    if fields == [] {
      assert acc + fields == acc;
    } else {
      NameIsNew(acc, fields);
      assert acc + [fields[0]] + fields[1..] == acc + fields;
      assert PlainFields(fields)[1..] == PlainFields(fields[1..]);
      AssignedFirst(acc, fields[0]);
      AssignedNew(acc + [fields[0]], fields[1..]);
    }
  }

  lemma AssignedFirst(acc: seq<Field>, field: Field)
    requires Scalars(field.name) && WellFormed(field.value)
    requires forall k :: 0 <= k < |acc| ==> acc[k].name != field.name
    ensures Put(acc, PointsOf(PlainField(field).key), Meaning(PlainField(field).text)) == acc + [field]
    decreases field, 3
  {
    hide Put, Plain, Meaning, WellFormed, Scalars;
    FieldIsWritten(field);
    PutAssigns(acc, field.name, field.value, |acc|);
  }

  lemma NameIsNew(acc: seq<Field>, fields: seq<Field>)
    requires fields != [] && DistinctNames(acc + fields)
    ensures forall k :: 0 <= k < |acc| ==> acc[k].name != fields[0].name
  {
    var all := acc + fields;
    forall k | 0 <= k < |acc| ensures acc[k].name != fields[0].name {
      assert all[k] == acc[k] && all[|acc|] == fields[0];
    }
  }

  // ----- reading it back -----

  /** A printed value decodes to itself wherever it stands, unless a number runs into more digits. */
  lemma PrintedParses(s: string, i: nat, v: Value)
    requires WellFormed(v) && Holds(s, i, Print(v)) && (v.Num? ==> NoDigitAt(s, i + |Print(v)|))
    ensures ParseValue(s, i) == Good(v, i + |Print(v)|)
  {
    hide ParseValue, Print, WellFormed, WellWritten, Write, Meaning;
    PrintIsWritten(v);
    TextParses(s, i, Plain(v));
  }

  lemma QuotedParses(s: string, i: nat, points: seq<nat>)
    requires Scalars(points) && Holds(s, i, "\"" + Quoted(points))
    ensures ParseValue(s, i) == Good(Str(points), i + 1 + |Quoted(points)|)
  {
    hide ParseValue;
    QuotedIsWritten(points);
    StringParses(s, i, Glyphs(points));
  }

  /** The pieces of printed elements: the first, and either the bracket or a comma and the others. */
  lemma PrintedItemsSplit(s: string, i: nat, items: seq<Value>)
    requires items != [] && AllWellFormed(items) && Holds(s, i, PrintItems(items))
    ensures Holds(s, i, Print(items[0]))
    ensures |items| == 1 ==> Holds(s, i + |Print(items[0])|, "]") && |Print(items[0])| + 1 == |PrintItems(items)|
    ensures |items| > 1 ==> Holds(s, i + |Print(items[0])|, ", ")
    ensures |items| > 1 ==> Holds(s, i + |Print(items[0])| + 2, PrintItems(items[1..]))
    ensures |items| > 1 ==> |Print(items[0])| + 2 + |PrintItems(items[1..])| == |PrintItems(items)|
  {
    hide Print, Holds, WellFormed;
    if |items| == 1 {
      HoldsBoth(s, i, Print(items[0]), "]");
    } else {
      HoldsBoth(s, i, Print(items[0]), ", " + PrintItems(items[1..]));
      HoldsBoth(s, i + |Print(items[0])|, ", ", PrintItems(items[1..]));
    }
  }

  lemma FieldsStart(s: string, i: nat, fields: seq<Field>)
    requires fields != [] && AllFieldsWellFormed(fields) && Holds(s, i, PrintFields(fields))
    ensures i < |s| && s[i] == '"' && SkipWs(s, i) == i
  {
    hide Print, Quoted;
    assert PrintFields(fields)[0] == '"';
    HoldsAt(s, i, PrintFields(fields), 0);
  }

  /** The pieces of printed members: the first, and either the brace or a comma and the others. */
  lemma FieldsSplit(s: string, i: nat, fields: seq<Field>)
    requires fields != [] && AllFieldsWellFormed(fields) && Holds(s, i, PrintFields(fields))
    ensures Holds(s, i, PrintField(fields[0]))
    ensures |fields| == 1 ==> Holds(s, i + |PrintField(fields[0])|, "}")
    ensures |fields| == 1 ==> |PrintField(fields[0])| + 1 == |PrintFields(fields)|
    ensures |fields| > 1 ==> Holds(s, i + |PrintField(fields[0])|, ", ")
    ensures |fields| > 1 ==> Holds(s, i + |PrintField(fields[0])| + 2, PrintFields(fields[1..]))
    ensures |fields| > 1 ==> |PrintField(fields[0])| + 2 + |PrintFields(fields[1..])| == |PrintFields(fields)|
  {
    hide PrintField, Holds, WellFormed, Scalars;
    if |fields| == 1 {
      HoldsBoth(s, i, PrintField(fields[0]), "}");
    } else {
      HoldsBoth(s, i, PrintField(fields[0]), ", " + PrintFields(fields[1..]));
      HoldsBoth(s, i + |PrintField(fields[0])|, ", ", PrintFields(fields[1..]));
    }
  }
}
