/** What the reader takes beside printed files: commas wherever they stand or fail to stand, white space of any kind
    between the tokens, and anything behind the last bracket. */
module LooseFiles {
  import opened Wrappers
  import opened PythonText
  import opened Json
  import opened JsonText
  import opened JsonRoundTrip
  import opened StreamingReader
  import opened ReaderSoundness
  import opened ReaderCutting

  lemma MarkFirst(s: string, i: nat, mark: char, rest: string)
    requires Holds(s, i, [mark] + rest)
    ensures i < |s| && s[i] == mark && Holds(s, i + 1, rest)
  {
    HoldsBoth(s, i, [mark], rest);
    HoldsAt(s, i, [mark], 0);
  }

  // ----- white space -----

  predicate IsSpacing(space: string) {
    forall k :: 0 <= k < |space| ==> IsSpace(space[k])
  }

  lemma {:induction false} SpacingSkips(s: string, i: nat, space: string)
    requires IsSpacing(space) && Holds(s, i, space)
    ensures SkipSpace(s, i) == SkipSpace(s, i + |space|)
    decreases |space|
  {
    if space != "" {
      HoldsAt(s, i, space, 0);
      assert [space[0]] + space[1..] == space;
      HoldsBoth(s, i, [space[0]], space[1..]);
      SpacingSkips(s, i + 1, space[1..]);
    }
  }

  // ----- lists -----

  /** What may stand in a list: commas, as many as there are, and objects. */
  datatype Piece = Comma(after: string) | Entry(text: Text, after: string)

  ghost predicate IsPiece(piece: Piece) {
    IsSpacing(piece.after) && (piece.Entry? ==> piece.text.TObject? && WellWritten(piece.text))
  }

  ghost predicate ArePieces(pieces: seq<Piece>) {
    forall k :: 0 <= k < |pieces| ==> IsPiece(pieces[k])
  }

  function WritePiece(piece: Piece): (text: string)
    requires IsPiece(piece)
    ensures text != ""
  {
    match piece
    case Comma(after) => "," + after
    case Entry(text, after) => Write(text) + after
  }

  function WritePieces(pieces: seq<Piece>): string
    requires ArePieces(pieces)
  {
    if pieces == [] then "" else WritePiece(pieces[0]) + WritePieces(pieces[1..])
  }

  /** The entry a piece is, if it is one. */
  function EntryOf(piece: Piece): seq<Value> {
    if piece.Entry? then [Meaning(piece.text)] else []
  }

  function EntriesIn(pieces: seq<Piece>): seq<Value> {
    if pieces == [] then []
    else EntryOf(pieces[0]) + EntriesIn(pieces[1..])
  }

  lemma ArrayFrom(s: string, i: nat, j: nat, acc: seq<Value>)
    requires i <= |s| && j <= |s| && SkipSpace(s, i) == SkipSpace(s, j)
    ensures ReadArray(s, i, acc) == ReadArray(s, j, acc)
  {
    hide ReadArrayTurn, SkipSpace;
  }

  lemma CommaRead(s: string, i: nat, acc: seq<Value>)
    requires i < |s| && s[i] == ','
    ensures ReadArray(s, i, acc) == ReadArray(s, i + 1, acc)
  {
    hide ParseValue;
  }

  lemma ObjectRead(s: string, i: nat, value: Value, end: nat, acc: seq<Value>)
    requires i < |s| && s[i] == '{' && ParseValue(s, i) == Good(value, end) && value.Obj?
    ensures ReadArray(s, i, acc) == ReadArray(s, end, acc + [value])
  {
    hide ParseValue;
  }

  /** A comma is passed over, an object is an entry. */
  lemma PieceRead(s: string, i: nat, piece: Piece, acc: seq<Value>)
    requires IsPiece(piece) && Holds(s, i, WritePiece(piece))
    ensures ReadArray(s, i, acc) == ReadArray(s, i + |WritePiece(piece)|, acc + EntryOf(piece))
  {
    hide Write, WellWritten, Meaning, IsSpacing, ReadArray, Holds;
    match piece
    case Comma(after) =>
      CommaPieceRead(s, i, after, acc);
      assert acc + [] == acc;
    case Entry(text, after) => EntryPieceRead(s, i, text, after, acc);
  }

  lemma CommaPieceRead(s: string, i: nat, after: string, acc: seq<Value>)
    requires IsSpacing(after) && Holds(s, i, "," + after)
    ensures ReadArray(s, i, acc) == ReadArray(s, i + 1 + |after|, acc)
  {
    hide ReadArray, SkipSpace, IsSpacing, Holds;
    MarkFirst(s, i, ',', after);
    CommaRead(s, i, acc);
    SpacingSkips(s, i + 1, after);
    HoldsInside(s, i + 1, after);
    ArrayFrom(s, i + 1, i + 1 + |after|, acc);
  }

  lemma EntryPieceRead(s: string, i: nat, text: Text, after: string, acc: seq<Value>)
    requires text.TObject? && WellWritten(text) && IsSpacing(after) && Holds(s, i, Write(text) + after)
    ensures ReadArray(s, i, acc) == ReadArray(s, i + |Write(text)| + |after|, acc + [Meaning(text)])
  {
    hide ParseValue, Write, WellWritten, Meaning, IsSpacing, ReadArray, SkipSpace, Holds;
    var end := i + |Write(text)|;
    HoldsBoth(s, i, Write(text), after);
    ObjectText(s, i, text);
    ObjectRead(s, i, Meaning(text), end, acc);
    SpacingSkips(s, end, after);
    HoldsInside(s, end, after);
    ArrayFrom(s, end, end + |after|, acc + [Meaning(text)]);
  }

  lemma HoldsInside(s: string, i: nat, w: string)
    requires Holds(s, i, w)
    ensures i + |w| <= |s|
  {
  }

  lemma ObjectText(s: string, i: nat, text: Text)
    requires text.TObject? && WellWritten(text) && Holds(s, i, Write(text))
    ensures ParseValue(s, i) == Good(Meaning(text), i + |Write(text)|) && Meaning(text).Obj?
    ensures i < |s| && s[i] == '{' && SkipSpace(s, i) == i
  {
    TextParses(s, i, text);
    HoldsAt(s, i, Write(text), 0);
    hide ParseValue, Write, Meaning, WellWritten;
  }

  /** A list is read up to any piece, whatever comes behind. */
  lemma {:induction false} PiecesRead(s: string, i: nat, pieces: seq<Piece>, acc: seq<Value>)
    requires ArePieces(pieces) && Holds(s, i, WritePieces(pieces))
    ensures ReadArray(s, i, acc) == ReadArray(s, i + |WritePieces(pieces)|, acc + EntriesIn(pieces))
    decreases |pieces|
  {
    hide WritePiece, IsPiece, ReadArray, EntryOf, Holds;
    if pieces == [] {
      assert acc + [] == acc;
    } else {
      HoldsBoth(s, i, WritePiece(pieces[0]), WritePieces(pieces[1..]));
      PieceRead(s, i, pieces[0], acc);
      var read := acc + EntryOf(pieces[0]);
      PiecesRead(s, i + |WritePiece(pieces[0])|, pieces[1..], read);
      assert read + EntriesIn(pieces[1..]) == acc + EntriesIn(pieces);
    }
  }

  /** The next piece decides: the bracket ends the list; the end of the file, a value that is no object and anything
      else are refused. */
  lemma ListEnds(s: string, i: nat, acc: seq<Value>)
    requires i <= |s|
    ensures var j := SkipSpace(s, i);
      && (j < |s| && s[j] == ']' ==> ReadArray(s, i, acc) == Good(acc, j + 1))
      && (j == |s| || s[j] !in {']', ',', '{'} ==> ReadArray(s, i, acc).Bad?)
      && (j < |s| && s[j] == '{' && ParseValue(s, j).Bad? ==> ReadArray(s, i, acc).Bad?)
  {
    var j := SkipSpace(s, i);
    if ParseValue(s, j).Good? && ParseValue(s, j).value.Obj? { Braced(s, j); }
    hide ParseValue;
  }

  lemma Braced(s: string, j: nat)
    requires j <= |s| && ParseValue(s, j).Good? && ParseValue(s, j).value.Obj?
    ensures j < |s| && s[j] == '{'
  {
    if s[j] == '[' { OpenBracketIsArray(s, j); }
  }

  // ----- objects -----

  /** A value under a key: a list read piece by piece when the key is `skills`, and any text otherwise. Behind the
      value at most one comma may stand; behind a `skills` value that is no list, none. */
  datatype Content = Listed(open: string, pieces: seq<Piece>) | Other(text: Text)

  datatype LooseMember =
    LooseMember(key: seq<Glyph>, beforeColon: string, afterColon: string, content: Content, after: string,
                comma: Option<string>)

  ghost predicate IsContent(content: Content) {
    match content
    case Listed(open, pieces) => IsSpacing(open) && ArePieces(pieces)
    case Other(text) => WellWritten(text)
  }

  predicate UnderSkills(m: LooseMember) {
    PointsOf(m.key) == Spelled("skills")
  }

  ghost predicate IsMember(m: LooseMember) {
    && Writable(m.key) && IsSpacing(m.beforeColon) && IsSpacing(m.afterColon) && IsContent(m.content)
    && IsSpacing(m.after) && (m.comma.Some? ==> IsSpacing(m.comma.value))
    && (m.content.Listed? ==> UnderSkills(m))
    && (m.content.Other? && UnderSkills(m) ==> !m.content.text.TArray? && m.comma.None?)
  }

  ghost predicate AreMembers(members: seq<LooseMember>) {
    forall k :: 0 <= k < |members| ==> IsMember(members[k])
  }

  function WriteContent(content: Content): (text: string)
    requires IsContent(content)
    ensures text != ""
  {
    match content
    case Listed(open, pieces) => "[" + (open + (WritePieces(pieces) + "]"))
    case Other(text) => Write(text)
  }

  function WriteComma(comma: Option<string>): string {
    if comma.Some? then "," + comma.value else ""
  }

  function WriteLoose(m: LooseMember): string
    requires IsMember(m)
  {
    "\"" + (WriteString(m.key) + (m.beforeColon + (":" + (m.afterColon + (WriteContent(m.content)
      + (m.after + WriteComma(m.comma)))))))
  }

  function WriteMembersLoosely(members: seq<LooseMember>): string
    requires AreMembers(members)
  {
    if members == [] then "" else WriteLoose(members[0]) + WriteMembersLoosely(members[1..])
  }

  /** The entries of all `skills` lists, in order. */
  function EntriesUnder(members: seq<LooseMember>): seq<Value> {
    if members == [] then []
    else
      (if members[0].content.Listed? then EntriesIn(members[0].content.pieces) else []) + EntriesUnder(members[1..])
  }

  /** Where the pieces of a written member stand. */
  lemma LooseSplit(s: string, i: nat, m: LooseMember)
    requires IsMember(m) && Holds(s, i, WriteLoose(m))
    ensures var q := i + 1 + |WriteString(m.key)|;
      var colon := q + |m.beforeColon|;
      var k := colon + 1 + |m.afterColon|;
      && i < |s| && s[i] == '"' && Holds(s, i, "\"" + WriteString(m.key)) && Holds(s, q, m.beforeColon)
      && colon < |s| && s[colon] == ':' && Holds(s, colon + 1, m.afterColon) && Holds(s, k, WriteContent(m.content))
      && Holds(s, k + |WriteContent(m.content)|, m.after + WriteComma(m.comma))
      && k + |WriteContent(m.content)| + |m.after| + |WriteComma(m.comma)| == i + |WriteLoose(m)|
  {
    hide WriteString, WriteContent, WriteComma, Holds, IsSpacing, IsContent, Writable, UnderSkills;
    var behind := m.after + WriteComma(m.comma);
    var value := m.afterColon + (WriteContent(m.content) + behind);
    var key := "\"" + WriteString(m.key);
    assert WriteLoose(m) == key + (m.beforeColon + ([':'] + value));
    hide WriteLoose;
    HoldsPieces(s, i, key, m.beforeColon, ':', value);
    var colon := i + |key| + |m.beforeColon|;
    HoldsBoth(s, colon + 1, m.afterColon, WriteContent(m.content) + behind);
    HoldsBoth(s, colon + 1 + |m.afterColon|, WriteContent(m.content), behind);
    MarkFirst(s, i, '"', WriteString(m.key));
  }

  lemma KeyRead(s: string, i: nat, key: seq<Glyph>, space: string)
    requires Writable(key) && IsSpacing(space) && Holds(s, i, "\"" + WriteString(key))
    requires var q := i + 1 + |WriteString(key)|; Holds(s, q, space) && q + |space| < |s| && s[q + |space|] == ':'
    ensures ReadKey(s, i) == Good(PointsOf(key), i + 1 + |WriteString(key)| + |space| + 1)
  {
    hide ParseValue, WriteString;
    StringParses(s, i, key);
    SpacingSkips(s, i + 1 + |WriteString(key)|, space);
  }

  /** A list under `skills` is read into the entries; any other value is passed over. */
  function Passed(m: LooseMember, acc: seq<Value>): seq<Value> {
    if m.content.Listed? then acc + EntriesIn(m.content.pieces) else acc
  }

  lemma ListedRead(s: string, k: nat, open: string, pieces: seq<Piece>, acc: seq<Value>)
    requires IsSpacing(open) && ArePieces(pieces) && Holds(s, k, WriteContent(Listed(open, pieces)))
    ensures k < |s| && s[k] == '['
    ensures ReadArray(s, k + 1, acc) == Good(acc + EntriesIn(pieces), k + |WriteContent(Listed(open, pieces))|)
  {
    hide WritePieces, ReadArray, SkipSpace, EntriesIn, ArePieces, IsSpacing, Holds;
    var all := WritePieces(pieces);
    MarkFirst(s, k, '[', open + (all + "]"));
    HoldsBoth(s, k + 1, open, all + "]");
    SpacingSkips(s, k + 1, open);
    ArrayFrom(s, k + 1, k + 1 + |open|, acc);
    ClosedRead(s, k + 1 + |open|, pieces, acc);
  }

  lemma ClosedRead(s: string, i: nat, pieces: seq<Piece>, acc: seq<Value>)
    requires ArePieces(pieces) && Holds(s, i, WritePieces(pieces) + "]")
    ensures ReadArray(s, i, acc) == Good(acc + EntriesIn(pieces), i + |WritePieces(pieces)| + 1)
  {
    hide WritePieces, ReadArray, EntriesIn, ArePieces, SkipSpace;
    var end := i + |WritePieces(pieces)|;
    HoldsBoth(s, i, WritePieces(pieces), "]");
    PiecesRead(s, i, pieces, acc);
    HoldsAt(s, end, "]", 0);
    NoSpaceHere(s, end);
    ListEnds(s, end, acc + EntriesIn(pieces));
  }

  lemma NoSpaceHere(s: string, i: nat)
    requires i < |s| && s[i] in {']', '}', '[', '{', ',', '"'}
    ensures SkipSpace(s, i) == i
  {
  }

  lemma OtherParses(s: string, k: nat, text: Text)
    requires WellWritten(text) && Holds(s, k, Write(text)) && NoDigitAt(s, k + |Write(text)|)
    ensures ParseValue(s, k) == Good(Meaning(text), k + |Write(text)|)
    ensures k < |s| && SkipSpace(s, k) == k && (s[k] == '[' <==> text.TArray?)
  {
    TextParses(s, k, text);
    if s[k] == '[' { OpenBracketIsArray(s, k); }
    ValueStart(s, k);
    if text.TArray? { HoldsAt(s, k, Write(text), 0); }
    hide ParseValue, Write, WellWritten;
  }

  lemma ContentRead(s: string, i: nat, k: nat, m: LooseMember, acc: seq<Value>)
    requires IsMember(m) && i <= k <= |s| && SkipSpace(s, i) == SkipSpace(s, k)
    requires Holds(s, k, WriteContent(m.content)) && NoDigitAt(s, k + |WriteContent(m.content)|)
    ensures var end := k + |WriteContent(m.content)|;
      ReadMember(s, i, PointsOf(m.key), acc)
      == if m.content.Other? && UnderSkills(m) then BeforeKey(acc, end) else BeforeComma(Passed(m, acc), end)
  {
    hide ParseValue, Write, WellWritten, ReadArray, WritePieces, Holds, SkipSpace, EntriesIn, ArePieces, Meaning,
         NoDigitAt;
    SkillsSpelled();
    match m.content
    case Listed(open, pieces) =>
      ListedRead(s, k, open, pieces, acc);
      NoSpaceHere(s, k);
    case Other(text) => OtherParses(s, k, text);
  }

  lemma SkillsSpelled()
    ensures Spelled("skills") == SKILLS_KEY
  {
  }

  /** The next token is no comma. */
  predicate NoCommaAt(s: string, i: nat)
    requires i <= |s|
  {
    SkipSpace(s, i) < |s| ==> s[SkipSpace(s, i)] != ','
  }

  lemma GapTaken(s: string, j: nat, gap: string, acc: seq<Value>)
    requires IsSpacing(gap) && Holds(s, j, "," + gap)
    ensures Resume(s, ReadTail(s, j, acc)) == ReadObject(s, j + 1 + |gap|, acc)
  {
    hide ReadObject, SkipSpace, IsSpacing;
    HoldsBoth(s, j, ",", gap);
    HoldsAt(s, j, ",", 0);
    NoSpaceHere(s, j);
    SpacingSkips(s, j + 1, gap);
    ReadObjectFrom(s, j + 1, j + 1 + |gap|, acc);
  }

  lemma CommaTaken(s: string, e: nat, after: string, comma: Option<string>, acc: seq<Value>)
    requires IsSpacing(after) && (comma.Some? ==> IsSpacing(comma.value)) && Holds(s, e, after + WriteComma(comma))
    requires comma.None? ==> NoCommaAt(s, e + |after|)
    ensures Resume(s, ReadTail(s, e, acc)) == ReadObject(s, e + |after| + |WriteComma(comma)|, acc)
  {
    hide ReadObject, ReadTail, SkipSpace, IsSpacing;
    HoldsBoth(s, e, after, WriteComma(comma));
    SpacingSkips(s, e, after);
    var j := e + |after|;
    ReadTailFrom(s, e, j, acc);
    if comma.Some? {
      GapTaken(s, j, comma.value, acc);
    } else {
      NoCommaNoTail(s, j, acc);
    }
  }

  /** A member is read, whatever comes behind that is no digit and no comma the member does not have. */
  lemma LooseRead(s: string, i: nat, m: LooseMember, acc: seq<Value>)
    requires IsMember(m) && Holds(s, i, WriteLoose(m)) && NoDigitAt(s, i + |WriteLoose(m)|)
    requires m.comma.None? && !(m.content.Other? && UnderSkills(m)) ==> NoCommaAt(s, i + |WriteLoose(m)|)
    ensures ReadObject(s, i, acc) == ReadObject(s, i + |WriteLoose(m)|, Passed(m, acc))
  {
    hide ParseValue, WriteString, WriteContent, WriteLoose, ReadObject, ReadMember, ReadTail, ReadKey, SkipSpace, Holds,
         IsSpacing, IsContent, NoDigitAt, PointsOf, Writable, UnderSkills, NoCommaAt, WriteComma, EntriesIn;
    LooseSplit(s, i, m);
    KeyRead(s, i, m.key, m.beforeColon);
    var colon := i + 1 + |WriteString(m.key)| + |m.beforeColon|;
    var k := colon + 1 + |m.afterColon|;
    var end := k + |WriteContent(m.content)|;
    SpacingSkips(s, colon + 1, m.afterColon);
    NoSpaceHere(s, i);
    ReadObjectByKey(s, i, PointsOf(m.key), colon + 1, acc);
    BehindContent(s, end, m);
    ContentRead(s, colon + 1, k, m, acc);
    AfterContent(s, end, m, Passed(m, acc));
  }

  /** What stands behind a value does not go on with a number. */
  lemma BehindContent(s: string, end: nat, m: LooseMember)
    requires IsMember(m) && Holds(s, end, m.after + WriteComma(m.comma))
    requires NoDigitAt(s, end + |m.after| + |WriteComma(m.comma)|)
    ensures NoDigitAt(s, end)
  {
    if m.after + WriteComma(m.comma) != "" { HoldsAt(s, end, m.after + WriteComma(m.comma), 0); }
  }

  lemma AfterContent(s: string, end: nat, m: LooseMember, acc: seq<Value>)
    requires IsMember(m) && Holds(s, end, m.after + WriteComma(m.comma))
    requires var past := end + |m.after| + |WriteComma(m.comma)|;
      m.comma.None? && !(m.content.Other? && UnderSkills(m)) ==> NoCommaAt(s, past)
    ensures var past := end + |m.after| + |WriteComma(m.comma)|;
      Resume(s, if m.content.Other? && UnderSkills(m) then Again(acc, end) else ReadTail(s, end, acc))
      == ReadObject(s, past, acc)
  {
    hide ReadObject, SkipSpace, IsSpacing, IsContent, UnderSkills, ReadTail, Writable;
    if m.content.Other? && UnderSkills(m) {
      HoldsBoth(s, end, m.after, "");
      SpacingSkips(s, end, m.after);
      ReadObjectFrom(s, end, end + |m.after|, acc);
    } else {
      CommaTaken(s, end, m.after, m.comma, acc);
    }
  }

  lemma MemberStart(s: string, i: nat, m: LooseMember)
    requires IsMember(m) && Holds(s, i, WriteLoose(m))
    ensures i < |s| && s[i] == '"' && NoDigitAt(s, i) && NoCommaAt(s, i)
  {
    hide WriteLoose, IsMember;
    LooseSplit(s, i, m);
    NoSpaceHere(s, i);
  }

  lemma Headed(s: string, i: nat, members: seq<LooseMember>)
    requires AreMembers(members) && members != [] && Holds(s, i, WriteMembersLoosely(members))
    ensures i < |s| && s[i] == '"' && NoDigitAt(s, i) && NoCommaAt(s, i)
  {
    hide WriteLoose, IsMember;
    HoldsBoth(s, i, WriteLoose(members[0]), WriteMembersLoosely(members[1..]));
    MemberStart(s, i, members[0]);
  }

  /** The members are read, whatever comes behind that is no digit and no comma. */
  lemma {:induction false} MembersRead(s: string, i: nat, members: seq<LooseMember>, acc: seq<Value>)
    requires AreMembers(members) && Holds(s, i, WriteMembersLoosely(members))
    requires var end := i + |WriteMembersLoosely(members)|; NoDigitAt(s, end) && NoCommaAt(s, end)
    ensures ReadObject(s, i, acc) == ReadObject(s, i + |WriteMembersLoosely(members)|, acc + EntriesUnder(members))
    decreases |members|
  {
    hide WriteLoose, IsMember, ReadObject, Holds, NoDigitAt, NoCommaAt, EntriesIn;
    if members == [] {
      assert acc + [] == acc;
    } else {
      var m, next := members[0], i + |WriteLoose(members[0])|;
      HoldsBoth(s, i, WriteLoose(m), WriteMembersLoosely(members[1..]));
      if members[1..] != [] { Headed(s, next, members[1..]); }
      LooseRead(s, i, m, acc);
      MembersRead(s, next, members[1..], Passed(m, acc));
      assert Passed(m, acc) + EntriesUnder(members[1..]) == acc + EntriesUnder(members);
    }
  }

  /** The next token decides: the brace ends the object; the end of the file and everything but a quote are refused,
      a comma among them. */
  lemma ObjectEnds(s: string, i: nat, acc: seq<Value>)
    requires i <= |s|
    ensures var j := SkipSpace(s, i);
      && (j < |s| && s[j] == '}' ==> ReadObject(s, i, acc) == Good(acc, j + 1))
      && (j == |s| || s[j] !in {'}', '"'} ==> ReadObject(s, i, acc).Bad?)
  {
    var j := SkipSpace(s, i);
    if ReadKey(s, j).Good? { KeyIsQuoted(s, j); }
    hide ReadKey;
  }

  // ----- files -----

  /** A file that is a list: every object in it is an entry, commas or not, and what stands behind the bracket is not
      looked at. */
  lemma LooseListReads(lead: string, open: string, pieces: seq<Piece>, rest: string)
    requires IsSpacing(lead) && IsSpacing(open) && ArePieces(pieces)
    ensures Answer(RunTopLevel(lead + (WriteContent(Listed(open, pieces)) + rest), {})) == Some(EntriesIn(pieces))
  {
    hide RunTopLevel, WriteContent, EntriesIn, ReadArray, ArePieces, IsSpacing, SkipSpace;
    var list := WriteContent(Listed(open, pieces));
    var s := lead + (list + rest);
    WholeText(s);
    HoldsBoth(s, 0, lead, list + rest);
    HoldsBoth(s, |lead|, list, rest);
    SpacingSkips(s, 0, lead);
    ListedRead(s, |lead|, open, pieces, []);
    NoSpaceHere(s, |lead|);
    assert [] + EntriesIn(pieces) == EntriesIn(pieces);
    OneChunk(s);
  }

  /** A file that is an object: the entries of all its `skills` lists, in order. */
  lemma LooseObjectReads(lead: string, open: string, members: seq<LooseMember>, rest: string)
    requires IsSpacing(lead) && IsSpacing(open) && AreMembers(members)
    ensures Answer(RunTopLevel(lead + ("{" + (open + (WriteMembersLoosely(members) + ("}" + rest)))), {}))
         == Some(EntriesUnder(members))
  {
    hide RunTopLevel, WriteMembersLoosely, EntriesUnder, ReadObject, AreMembers, IsSpacing, SkipSpace;
    var inner := WriteMembersLoosely(members) + ("}" + rest);
    var s := lead + ("{" + (open + inner));
    WholeText(s);
    HoldsBoth(s, 0, lead, "{" + (open + inner));
    HoldsBoth(s, |lead|, "{", open + inner);
    HoldsAt(s, |lead|, "{", 0);
    HoldsBoth(s, |lead| + 1, open, inner);
    SpacingSkips(s, 0, lead);
    SpacingSkips(s, |lead| + 1, open);
    NoSpaceHere(s, |lead|);
    ReadObjectFrom(s, |lead| + 1, |lead| + 1 + |open|, []);
    ClosedObject(s, |lead| + 1 + |open|, members, rest, []);
    assert [] + EntriesUnder(members) == EntriesUnder(members);
    OneChunk(s);
  }

  lemma ClosedObject(s: string, i: nat, members: seq<LooseMember>, rest: string, acc: seq<Value>)
    requires AreMembers(members) && Holds(s, i, WriteMembersLoosely(members) + ("}" + rest))
    ensures ReadObject(s, i, acc) == Good(acc + EntriesUnder(members), i + |WriteMembersLoosely(members)| + 1)
  {
    hide WriteMembersLoosely, EntriesUnder, ReadObject, AreMembers;
    var end := i + |WriteMembersLoosely(members)|;
    HoldsBoth(s, i, WriteMembersLoosely(members), "}" + rest);
    HoldsAt(s, end, "}" + rest, 0);
    NoSpaceHere(s, end);
    MembersRead(s, i, members, acc);
    ObjectEnds(s, end, acc + EntriesUnder(members));
  }

  /** A comma behind a `skills` value that is no list is not taken: such a file is refused, although it may be JSON. */
  lemma CommaBehindOddSkills(lead: string, open: string, members: seq<LooseMember>, odd: LooseMember, rest: string)
    requires IsSpacing(lead) && IsSpacing(open) && AreMembers(members)
    requires IsMember(odd) && UnderSkills(odd) && odd.content.Other?
    ensures var inner := WriteMembersLoosely(members) + (WriteLoose(odd) + ("," + rest));
      Answer(RunTopLevel(lead + ("{" + (open + inner)), {})).None?
  {
    hide RunTopLevel, WriteMembersLoosely, WriteLoose, EntriesUnder, ReadObject, AreMembers, IsMember, IsSpacing,
         SkipSpace;
    var inner := WriteMembersLoosely(members) + (WriteLoose(odd) + ("," + rest));
    var s := lead + ("{" + (open + inner));
    WholeText(s);
    HoldsBoth(s, 0, lead, "{" + (open + inner));
    HoldsBoth(s, |lead|, "{", open + inner);
    HoldsAt(s, |lead|, "{", 0);
    HoldsBoth(s, |lead| + 1, open, inner);
    SpacingSkips(s, 0, lead);
    SpacingSkips(s, |lead| + 1, open);
    NoSpaceHere(s, |lead|);
    ReadObjectFrom(s, |lead| + 1, |lead| + 1 + |open|, []);
    OddRefused(s, |lead| + 1 + |open|, members, odd, rest, []);
    OneChunk(s);
  }

  lemma OddRefused(s: string, i: nat, members: seq<LooseMember>, odd: LooseMember, rest: string, acc: seq<Value>)
    requires AreMembers(members) && IsMember(odd) && UnderSkills(odd) && odd.content.Other?
    requires Holds(s, i, WriteMembersLoosely(members) + (WriteLoose(odd) + ("," + rest)))
    ensures ReadObject(s, i, acc).Bad?
  {
    hide WriteMembersLoosely, WriteLoose, EntriesUnder, ReadObject, AreMembers, IsMember, UnderSkills, Holds, NoDigitAt,
         NoCommaAt;
    var next := i + |WriteMembersLoosely(members)|;
    HoldsBoth(s, i, WriteMembersLoosely(members), WriteLoose(odd) + ("," + rest));
    OddThenComma(s, next, odd, rest, acc + EntriesUnder(members));
    MembersRead(s, i, members, acc);
  }

  lemma OddThenComma(s: string, i: nat, odd: LooseMember, rest: string, acc: seq<Value>)
    requires IsMember(odd) && UnderSkills(odd) && odd.content.Other? && Holds(s, i, WriteLoose(odd) + ("," + rest))
    ensures NoDigitAt(s, i) && NoCommaAt(s, i) && ReadObject(s, i, acc).Bad?
  {
    hide WriteLoose, ReadObject, IsMember, UnderSkills, SkipSpace;
    var end := i + |WriteLoose(odd)|;
    HoldsBoth(s, i, WriteLoose(odd), "," + rest);
    HoldsAt(s, end, "," + rest, 0);
    NoSpaceHere(s, end);
    MemberStart(s, i, odd);
    LooseRead(s, i, odd, acc);
    ObjectEnds(s, end, Passed(odd, acc));
  }
}
