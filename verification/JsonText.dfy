/** Decoding every JSON text: whatever white space stands between its tokens, however its strings are escaped and its
    numbers written, a text decodes to the value it denotes (sections 2 to 8 of RFC 8259). */
module JsonText {
  import opened Wrappers
  import opened Json
  import opened JsonPrefix

  // ----- texts in texts -----

  predicate Holds(s: string, i: nat, w: string) {
    i + |w| <= |s| && s[i..i + |w|] == w
  }

  lemma HoldsBoth(s: string, i: nat, u: string, w: string)
    requires Holds(s, i, u + w)
    ensures Holds(s, i, u) && Holds(s, i + |u|, w)
  {
    assert (u + w)[..|u|] == u && (u + w)[|u|..] == w;
    assert s[i..i + |u + w|][..|u|] == s[i..i + |u|];
    assert s[i..i + |u + w|][|u|..] == s[i + |u|..i + |u| + |w|];
  }

  lemma HoldsAt(s: string, i: nat, w: string, k: nat)
    requires Holds(s, i, w) && k < |w|
    ensures s[i + k] == w[k]
  {
    assert s[i..i + |w|][k] == s[i + k];
  }

  lemma WholeText(s: string)
    ensures Holds(s, 0, s)
  {
  }

  /** Where the pieces of a text stand: two parts, a mark, and the rest. */
  lemma HoldsPieces(s: string, i: nat, u: string, v: string, mark: char, w: string)
    requires Holds(s, i, u + (v + ([mark] + w)))
    ensures var m := i + |u| + |v|;
      Holds(s, i, u) && Holds(s, i + |u|, v) && m < |s| && s[m] == mark && Holds(s, m + 1, w)
  {
    HoldsBoth(s, i, u, v + ([mark] + w));
    HoldsBoth(s, i + |u|, v, [mark] + w);
    HoldsAt(s, i + |u| + |v|, [mark] + w, 0);
    HoldsBoth(s, i + |u| + |v|, [mark], w);
  }

  // ----- strings -----

  predicate IsScalar(p: nat) {
    p < 0xD800 || 0xE000 <= p < 0x110000
  }

  /** How a character of a string is written: as it is, with a letter, or with one or two groups of four hexadecimal
      digits. */
  datatype Spelling = AsItIs | Letter | Group(upper: bool) | Groups(upper: bool)

  /** The characters with a letter of their own, and the letter. */
  const LETTERS: map<nat, char> :=
    map['"' as nat := '"', '\\' as nat := '\\', '/' as nat := '/', '\n' as nat := 'n', '\t' as nat := 't',
        '\r' as nat := 'r', 0x08 := 'b', 0x0C := 'f']

  predicate CanSpell(p: nat, how: Spelling) {
    match how
    case AsItIs => IsScalar(p) && p >= 0x20 && p != '"' as nat && p != '\\' as nat
    case Letter => p in LETTERS
    case Group(_) => p < 0x10000 && IsScalar(p)
    case Groups(_) => 0x10000 <= p < 0x110000
  }

  function HexChar(d: nat, upper: bool): char
    requires d < 16
  {
    if d < 10 then '0' + d as char else (if upper then 'A' else 'a') + (d - 10) as char
  }

  /** Four hexadecimal digits, the most significant first. */
  function FourDigits(p: nat, upper: bool): (r: string)
    requires p < 0x10000
    ensures |r| == 4
  {
    [HexChar(p / 4096, upper), HexChar(p / 256 % 16, upper), HexChar(p / 16 % 16, upper), HexChar(p % 16, upper)]
  }

  function Spell(p: nat, how: Spelling): (r: string)
    requires CanSpell(p, how)
    ensures r != ""
  {
    match how
    case AsItIs => [p as char]
    case Letter => ['\\', LETTERS[p]]
    case Group(upper) => "\\u" + FourDigits(p, upper)
    case Groups(upper) =>
      "\\u" + FourDigits(0xD800 + (p - 0x10000) / 1024, upper)
        + ("\\u" + FourDigits(0xDC00 + (p - 0x10000) % 1024, upper))
  }

  /** The characters of a string, each in its spelling, and the closing quote. */
  datatype Glyph = Glyph(point: nat, how: Spelling)

  predicate Writable(glyphs: seq<Glyph>) {
    forall k :: 0 <= k < |glyphs| ==> CanSpell(glyphs[k].point, glyphs[k].how)
  }

  function WriteString(glyphs: seq<Glyph>): string
    requires Writable(glyphs)
  {
    if glyphs == [] then "\"" else Spell(glyphs[0].point, glyphs[0].how) + WriteString(glyphs[1..])
  }

  function PointsOf(glyphs: seq<Glyph>): (points: seq<nat>)
    ensures |points| == |glyphs| && forall k :: 0 <= k < |glyphs| ==> points[k] == glyphs[k].point
  {
    if glyphs == [] then [] else [glyphs[0].point] + PointsOf(glyphs[1..])
  }

  lemma DigitMeans(d: nat, upper: bool)
    requires d < 16
    ensures HexDigit(HexChar(d, upper)) == Some(d)
  {
  }

  lemma Positional(p: nat)
    requires p < 0x10000
    ensures p / 4096 < 16 && ((p / 4096 * 16 + p / 256 % 16) * 16 + p / 16 % 16) * 16 + p % 16 == p
  {
    assert p / 16 == p / 256 * 16 + p / 16 % 16;
    assert p / 256 == p / 4096 * 16 + p / 256 % 16;
  }

  lemma FourMean(s: string, i: nat, p: nat, upper: bool)
    requires p < 0x10000 && Holds(s, i, FourDigits(p, upper))
    ensures Hex4(s, i) == Some(p)
  {
    hide HexDigit, HexChar;
    var w := FourDigits(p, upper);
    Positional(p);
    HoldsAt(s, i, w, 0);
    HoldsAt(s, i, w, 1);
    HoldsAt(s, i, w, 2);
    HoldsAt(s, i, w, 3);
    DigitMeans(p / 4096, upper);
    DigitMeans(p / 256 % 16, upper);
    DigitMeans(p / 16 % 16, upper);
    DigitMeans(p % 16, upper);
  }

  lemma GroupMeans(s: string, i: nat, p: nat, upper: bool)
    requires p < 0x10000 && Holds(s, i, "\\u" + FourDigits(p, upper))
    ensures i + 6 <= |s| && s[i] == '\\' && s[i + 1] == 'u' && Hex4(s, i + 2) == Some(p)
    ensures UnicodeEscape(s, i) == Some(p)
  {
    hide Hex4, FourDigits;
    HoldsBoth(s, i, "\\u", FourDigits(p, upper));
    HoldsAt(s, i, "\\u", 0);
    HoldsAt(s, i, "\\u", 1);
    FourMean(s, i + 2, p, upper);
  }

  lemma PairMeans(s: string, i: nat, p: nat, upper: bool)
    requires 0x10000 <= p < 0x110000 && Holds(s, i, Spell(p, Groups(upper)))
    ensures i < |s| && s[i] == '\\' && EscapeAt(s, i) == Good(p, i + 12)
  {
    hide Hex4, FourDigits, UnicodeEscape;
    var high, low := 0xD800 + (p - 0x10000) / 1024, 0xDC00 + (p - 0x10000) % 1024;
    HoldsBoth(s, i, "\\u" + FourDigits(high, upper), "\\u" + FourDigits(low, upper));
    GroupMeans(s, i, high, upper);
    GroupMeans(s, i + 6, low, upper);
  }

  lemma LetterMeans(s: string, i: nat, p: nat)
    requires p in LETTERS && Holds(s, i, ['\\', LETTERS[p]])
    ensures i < |s| && s[i] == '\\' && EscapeAt(s, i) == Good(p, i + 2)
  {
    hide Hex4;
    HoldsAt(s, i, ['\\', LETTERS[p]], 0);
    HoldsAt(s, i, ['\\', LETTERS[p]], 1);
  }

  lemma GroupEscapes(s: string, i: nat, p: nat, upper: bool)
    requires CanSpell(p, Group(upper)) && Holds(s, i, Spell(p, Group(upper)))
    ensures i < |s| && s[i] == '\\' && EscapeAt(s, i) == Good(p, i + 6)
  {
    hide Hex4, FourDigits, UnicodeEscape;
    GroupMeans(s, i, p, upper);
  }

  lemma SpellingScans(s: string, i: nat, g: Glyph, acc: seq<nat>)
    requires CanSpell(g.point, g.how) && Holds(s, i, Spell(g.point, g.how))
    ensures ScanString(s, i, acc) == ScanString(s, i + |Spell(g.point, g.how)|, acc + [g.point])
  {
    hide EscapeAt, FourDigits;
    match g.how
    case AsItIs => HoldsAt(s, i, Spell(g.point, g.how), 0);
    case Letter => LetterMeans(s, i, g.point);
    case Group(upper) => GroupEscapes(s, i, g.point, upper);
    case Groups(upper) => PairMeans(s, i, g.point, upper);
  }

  lemma {:induction false} StringScans(s: string, i: nat, glyphs: seq<Glyph>, acc: seq<nat>)
    requires Writable(glyphs) && Holds(s, i, WriteString(glyphs))
    ensures ScanString(s, i, acc) == Good(acc + PointsOf(glyphs), i + |WriteString(glyphs)|)
    decreases |glyphs|
  {
    hide EscapeAt, Spell;
    if glyphs == [] {
      HoldsAt(s, i, "\"", 0);
      assert acc + [] == acc;
    } else {
      hide ScanString;
      var g := glyphs[0];
      HoldsBoth(s, i, Spell(g.point, g.how), WriteString(glyphs[1..]));
      SpellingScans(s, i, g, acc);
      StringScans(s, i + |Spell(g.point, g.how)|, glyphs[1..], acc + [g.point]);
      assert acc + [g.point] + PointsOf(glyphs[1..]) == acc + PointsOf(glyphs);
    }
  }

  predicate IsHexDigit(c: char) {
    '0' <= c <= '9' || 'a' <= c <= 'f' || 'A' <= c <= 'F'
  }

  predicate FourHexDigits(s: string, i: nat) {
    i + 4 <= |s| && forall k :: i <= k < i + 4 ==> IsHexDigit(s[k])
  }

  /** Nothing else is taken for a string: a control character, a backslash before another letter or before fewer than
      four hexadecimal digits, and a missing quote are refused. */
  lemma StringsAreStrict(s: string, i: nat, acc: seq<nat>)
    requires i <= |s|
    requires i < |s| ==>
      s[i] as int < 0x20
      || (s[i] == '\\'
          && (i + 1 < |s| ==> s[i + 1] !in LETTERS.Values && (s[i + 1] == 'u' ==> !FourHexDigits(s, i + 2))))
    ensures ScanString(s, i, acc).Bad?
  {
    if i + 1 < |s| && s[i] == '\\' {
      UnknownLetter(s[i + 1]);
      if s[i + 1] == 'u' { NoGroup(s, i + 2); }
    }
    hide Hex4, FourHexDigits;
  }

  lemma NoGroup(s: string, i: nat)
    requires !FourHexDigits(s, i)
    ensures Hex4(s, i).None?
  {
    if i + 4 <= |s| {
      assert IsHexDigit(s[i]) && IsHexDigit(s[i + 1]) && IsHexDigit(s[i + 2]) && IsHexDigit(s[i + 3]) ==>
        forall k :: i <= k < i + 4 ==> IsHexDigit(s[k]);
      assert forall c :: HexDigit(c).Some? ==> IsHexDigit(c);
    }
  }

  /** A surrogate that is not one of a pair is kept as it is. */
  lemma LoneSurrogateIsKept(s: string, i: nat, p: nat, upper: bool)
    requires IsHighSurrogate(p) || IsLowSurrogate(p)
    requires Holds(s, i, "\\u" + FourDigits(p, upper))
    requires IsHighSurrogate(p) && i + 6 < |s| ==> s[i + 6] != '\\'
    ensures i < |s| && EscapeAt(s, i) == Good(p, i + 6)
  {
    hide Hex4, FourDigits;
    GroupMeans(s, i, p, upper);
  }

  lemma UnknownLetter(c: char)
    requires c !in LETTERS.Values
    ensures SimpleEscape(c).None?
  {
    assert LETTERS['"' as nat] == '"' && LETTERS['\\' as nat] == '\\' && LETTERS['/' as nat] == '/';
    assert LETTERS['\n' as nat] == 'n' && LETTERS['\t' as nat] == 't' && LETTERS['\r' as nat] == 'r';
    assert LETTERS[0x08] == 'b' && LETTERS[0x0C] == 'f';
  }

  // ----- numbers -----

  predicate Digits(l: string, a: nat, b: nat) {
    a <= b <= |l| && forall i :: a <= i < b ==> '0' <= l[i] <= '9'
  }

  predicate IsExponent(l: string, f: nat) {
    f < |l| && l[f] in {'e', 'E'}
    && (var k := if f + 1 < |l| && l[f + 1] in {'+', '-'} then f + 2 else f + 1;
        k < |l| && Digits(l, k, |l|))
  }

  /** The digits begin at `d`, the fraction at `w`, the exponent at `f`. */
  predicate NumeralParts(l: string, d: nat, w: nat, f: nat) {
    l != "" && d == (if l[0] == '-' then 1 else 0) && d < w <= f <= |l|
    && Digits(l, d, w) && (w == d + 1 || l[d] != '0')
    && (w == f || (l[w] == '.' && w + 1 < f && Digits(l, w + 1, f)))
    && (f == |l| || IsExponent(l, f))
  }

  /** A number: perhaps a minus, digits without a needless zero, perhaps a fraction, perhaps an exponent. */
  ghost predicate IsNumeral(l: string) {
    exists d, w, f :: NumeralParts(l, d, w, f)
  }

  lemma {:induction false} DigitsEndAt(s: string, i: nat, b: nat)
    requires Digits(s, i, b) && (b < |s| ==> !IsDigit(s[b]))
    ensures DigitsEnd(s, i) == b
    decreases b - i
  {
    if i < b { DigitsEndAt(s, i + 1, b); }
  }

  lemma {:induction false} DigitsEndIs(s: string, i: nat)
    requires i <= |s|
    ensures Digits(s, i, DigitsEnd(s, i))
    decreases |s| - i
  {
    if i < |s| && IsDigit(s[i]) { DigitsEndIs(s, i + 1); }
  }

  /** The scanner takes a whole text for a number exactly when it is one. */
  lemma NumeralExactly(l: string)
    ensures IsNumeral(l) <==> l != "" && NumberEnd(l, 0) == Some(|l|)
  {
    if d, w, f :| NumeralParts(l, d, w, f) { NumeralEnds(l, d, w, f); }
    if l != "" && NumberEnd(l, 0) == Some(|l|) { EndsAsNumeral(l); }
  }

  lemma NumeralEnds(l: string, d: nat, w: nat, f: nat)
    requires NumeralParts(l, d, w, f)
    ensures NumberEnd(l, 0) == Some(|l|)
  {
    hide DigitsEnd;
    if l[d] != '0' { DigitsEndAt(l, d + 1, w); }
    assert IntegerEnd(l, d) == w;
    if w < f { DigitsEndAt(l, w + 2, f); }
    assert FractionEnd(l, w) == f;
    if f < |l| { DigitsEndAt(l, (if f + 1 < |l| && l[f + 1] in {'+', '-'} then f + 2 else f + 1) + 1, |l|); }
  }

  lemma EndsAsNumeral(l: string)
    requires l != "" && NumberEnd(l, 0) == Some(|l|)
    ensures IsNumeral(l)
  {
    hide DigitsEnd, FractionEnd, ExponentEnd, IntegerEnd, Digits, IsExponent;
    var d := FirstDigit(l, 0);
    var w := IntegerEnd(l, d);
    var f := FractionEnd(l, w);
    IntegerPart(l, d);
    FractionPart(l, w);
    ExponentPart(l, f);
    assert NumeralParts(l, d, w, f);
  }

  lemma IntegerPart(l: string, d: nat)
    requires d < |l| && IsDigit(l[d])
    ensures var w := IntegerEnd(l, d); Digits(l, d, w) && (w == d + 1 || l[d] != '0')
  {
    hide DigitsEnd;
    DigitsEndIs(l, d + 1);
  }

  lemma FractionPart(l: string, w: nat)
    requires w <= |l|
    ensures var f := FractionEnd(l, w); w == f || (l[w] == '.' && w + 1 < f && Digits(l, w + 1, f))
  {
    hide DigitsEnd;
    if w + 2 <= |l| { DigitsEndIs(l, w + 2); }
  }

  lemma ExponentPart(l: string, f: nat)
    requires f <= |l| && ExponentEnd(l, f) == |l|
    ensures f == |l| || IsExponent(l, f)
  {
    hide DigitsEnd;
    if f + 2 <= |l| { DigitsEndIs(l, f + 2); }
    if f + 3 <= |l| { DigitsEndIs(l, f + 3); }
  }

  lemma {:induction false} DigitsEndShift(pre: string, l: string, j: nat)
    requires j <= |l|
    ensures DigitsEnd(pre + l, |pre| + j) == |pre| + DigitsEnd(l, j)
    decreases |l| - j
  {
    if j < |l| && IsDigit(l[j]) { DigitsEndShift(pre, l, j + 1); }
  }

  lemma FractionEndShift(pre: string, l: string, j: nat)
    requires j <= |l|
    ensures FractionEnd(pre + l, |pre| + j) == |pre| + FractionEnd(l, j)
  {
    hide DigitsEnd;
    if j + 2 <= |l| { DigitsEndShift(pre, l, j + 2); }
  }

  lemma ExponentEndShift(pre: string, l: string, j: nat)
    requires j <= |l|
    ensures ExponentEnd(pre + l, |pre| + j) == |pre| + ExponentEnd(l, j)
  {
    hide DigitsEnd;
    if j + 2 <= |l| { DigitsEndShift(pre, l, j + 2); }
    if j + 3 <= |l| { DigitsEndShift(pre, l, j + 3); }
  }

  lemma NumberEndShift(pre: string, l: string)
    requires l != "" && NumberEnd(l, 0) == Some(|l|)
    ensures NumberEnd(pre + l, |pre|) == Some(|pre| + |l|)
  {
    hide DigitsEnd, FractionEnd, ExponentEnd;
    var d := FirstDigit(l, 0);
    DigitsEndShift(pre, l, d + 1);
    FractionEndShift(pre, l, IntegerEnd(l, d));
    ExponentEndShift(pre, l, FractionEnd(l, IntegerEnd(l, d)));
  }

  lemma NumberParses(s: string, i: nat, l: string)
    requires IsNumeral(l) && Holds(s, i, l)
    requires i + |l| < |s| ==> !MidNumber(s[i + |l|])
    ensures ParseValue(s, i) == Good(Num(l), i + |l|)
  {
    hide NumberEnd, ParseValue, IsNumeral;
    NumeralExactly(l);
    var b := i + |l|;
    assert s[..b] == s[..i] + l;
    NumberEndShift(s[..i], l);
    NumberPrefix(s, b, i);
    NumberIsDecoded(s, i);
  }

  /** Nothing at `i` goes on with a number. */
  predicate NoDigitAt(s: string, i: nat) {
    i < |s| ==> !MidNumber(s[i])
  }

  const CONSTANTS: set<string> := {"null", "true", "false", "NaN", "Infinity", "-Infinity"}

  lemma ConstantParses(s: string, i: nat, name: string)
    requires name in CONSTANTS && Holds(s, i, name)
    ensures ParseValue(s, i) == Good(Constant(name), i + |name|)
  {
    hide NumberEnd, ScanString;
    forall k | 0 <= k < |name| ensures s[i + k] == name[k] { HoldsAt(s, i, name, k); }
    assert s[i] == name[0];
    assert ConstantFor(s[i]) == name;
    assert StartsAt(s, i, name);
  }

  // ----- texts of values -----

  /** White space, as much as there is. */
  predicate IsLayout(space: string) {
    forall k :: 0 <= k < |space| ==> space[k] in {' ', '\t', '\n', '\r'}
  }

  /** A JSON text: a value with the way it is written. */
  datatype Text =
    | TConstant(name: string)
    | TNumber(literal: string)
    | TString(glyphs: seq<Glyph>)
    | TArray(open: string, items: seq<Element>)
    | TObject(open: string, members: seq<Member>)

  /** An element, the white space behind it and, before the next one, behind the comma. */
  datatype Element = Element(text: Text, after: string, gap: string)

  /** A member: its key, the white space around the colon, its value, and the white space behind it and behind the
      comma. */
  datatype Member =
    Member(key: seq<Glyph>, beforeColon: string, afterColon: string, text: Text, after: string, gap: string)

  ghost predicate WellWritten(t: Text)
    decreases t, 1
  {
    match t
    case TConstant(name) => name in CONSTANTS
    case TNumber(literal) => IsNumeral(literal)
    case TString(glyphs) => Writable(glyphs)
    case TArray(open, items) => IsLayout(open) && ItemsWellWritten(items)
    case TObject(open, members) => IsLayout(open) && MembersWellWritten(members)
  }

  ghost predicate ItemsWellWritten(items: seq<Element>)
    decreases items, 0
  {
    forall k :: 0 <= k < |items| ==>
      WellWritten(items[k].text) && IsLayout(items[k].after) && IsLayout(items[k].gap)
  }

  ghost predicate MembersWellWritten(members: seq<Member>)
    decreases members, 0
  {
    forall k :: 0 <= k < |members| ==>
      Writable(members[k].key) && WellWritten(members[k].text) && IsLayout(members[k].beforeColon)
      && IsLayout(members[k].afterColon) && IsLayout(members[k].after) && IsLayout(members[k].gap)
  }

  function Write(t: Text): (s: string)
    requires WellWritten(t)
    ensures s != ""
    decreases t, 1
  {
    match t
    case TConstant(name) => name
    case TNumber(literal) => literal
    case TString(glyphs) => "\"" + WriteString(glyphs)
    case TArray(open, items) => "[" + (open + WriteItems(items))
    case TObject(open, members) => "{" + (open + WriteMembers(members))
  }

  /** The elements and the closing bracket. */
  function WriteItems(items: seq<Element>): string
    requires ItemsWellWritten(items)
    decreases items, 0
  {
    if items == [] then "]"
    else
      Write(items[0].text) + (items[0].after
        + if |items| == 1 then "]" else "," + (items[0].gap + WriteItems(items[1..])))
  }

  /** The key, the colon and the value of a member. */
  function WriteMember(m: Member): string
    requires Writable(m.key) && WellWritten(m.text)
    decreases m, 2
  {
    "\"" + (WriteString(m.key) + (m.beforeColon + (":" + (m.afterColon + Write(m.text)))))
  }

  function WriteMembers(members: seq<Member>): string
    requires MembersWellWritten(members)
    decreases members, 0
  {
    if members == [] then "}"
    else
      WriteMember(members[0]) + (members[0].after
        + if |members| == 1 then "}" else "," + (members[0].gap + WriteMembers(members[1..])))
  }

  /** The value a text denotes. A repeated key keeps its first place and takes the last value. */
  function Meaning(t: Text): Value
    decreases t, 1
  {
    match t
    case TConstant(name) => Constant(name)
    case TNumber(literal) => Num(literal)
    case TString(glyphs) => Str(PointsOf(glyphs))
    case TArray(_, items) => Arr(Meanings(items))
    case TObject(_, members) => Obj(Assigned([], members))
  }

  function Meanings(items: seq<Element>): seq<Value>
    decreases items, 0
  {
    if items == [] then [] else [Meaning(items[0].text)] + Meanings(items[1..])
  }

  function Assigned(fields: seq<Field>, members: seq<Member>): seq<Field>
    decreases members, 0
  {
    if members == [] then fields
    else Assigned(Put(fields, PointsOf(members[0].key), Meaning(members[0].text)), members[1..])
  }

  /** An assignment replaces the value of a known key where it stands, or appends. */
  lemma {:induction false} PutAssigns(fields: seq<Field>, name: seq<nat>, value: Value, k: nat)
    requires k <= |fields| && (forall j :: 0 <= j < k ==> fields[j].name != name)
    requires k < |fields| ==> fields[k].name == name
    ensures Put(fields, name, value)
      == if k < |fields| then fields[k := Field(name, value)] else fields + [Field(name, value)]
    decreases k
  {
    if k > 0 {
      PutAssigns(fields[1..], name, value, k - 1);
    }
  }

  // ----- layout -----

  lemma {:induction false} LayoutSkips(s: string, i: nat, space: string)
    requires IsLayout(space) && Holds(s, i, space)
    ensures SkipWs(s, i) == SkipWs(s, i + |space|)
    decreases |space|
  {
    if space != "" {
      HoldsAt(s, i, space, 0);
      assert [space[0]] + space[1..] == space;
      HoldsBoth(s, i, [space[0]], space[1..]);
      LayoutSkips(s, i + 1, space[1..]);
    }
  }

  /** A text starts with a character that is neither white space nor the end of a container. */
  lemma TextStart(s: string, i: nat, t: Text)
    requires WellWritten(t) && Holds(s, i, Write(t))
    ensures i < |s| && SkipWs(s, i) == i && s[i] != ']' && s[i] != '}'
  {
    hide DigitsEnd, FractionEnd, ExponentEnd, IsNumeral, NumeralParts;
    if t.TNumber? { NumeralExactly(t.literal); }
    HoldsAt(s, i, Write(t), 0);
  }

  /** White space and then a mark: what a container makes of it. */
  lemma MarkStep(s: string, i: nat, space: string, closer: char)
    requires IsLayout(space) && Holds(s, i, space) && i + |space| < |s| && (closer == ']' || closer == '}')
    ensures var c := s[i + |space|];
      && (c == closer ==> AfterValue(s, i, closer) == Close(i + |space| + 1))
      && (c == ',' ==> AfterValue(s, i, closer) == Continue(SkipWs(s, i + |space| + 1)))
      && (c == closer || c == ',' ==> NoDigitAt(s, i))
  {
    LayoutSkips(s, i, space);
    if space != "" { HoldsAt(s, i, space, 0); }
  }

  /** White space before a piece that starts with none. */
  lemma GapSkips(s: string, i: nat, gap: string, rest: string)
    requires IsLayout(gap) && Holds(s, i, gap + rest)
    ensures Holds(s, i + |gap|, rest) && SkipWs(s, i) == SkipWs(s, i + |gap|)
  {
    hide SkipWs, Holds, IsLayout;
    HoldsBoth(s, i, gap, rest);
    LayoutSkips(s, i, gap);
  }

  /** One element read, and what follows it. */
  lemma ElementsStep(s: string, i: nat, acc: seq<Value>, value: Value, end: nat)
    requires i <= |s| && end <= |s| && ParseValue(s, i) == Good(value, end)
    ensures var step := AfterValue(s, end, ']');
      && (step.Close? ==> ParseElements(s, i, acc) == Good(Arr(acc + [value]), step.end))
      && (step.Continue? ==> ParseElements(s, i, acc) == ParseElements(s, step.next, acc + [value]))
  {
    hide ParseValue, AfterValue, SkipWs;
  }

  /** One member read, and what follows it. */
  lemma MembersStep(s: string, i: nat, acc: seq<Field>, name: seq<nat>, value: Value, end: nat)
    requires i <= |s| && MemberKey(s, i).Good? && MemberKey(s, i).value == name && end <= |s|
    requires ParseValue(s, SkipWs(s, MemberKey(s, i).end)) == Good(value, end)
    ensures var step := AfterValue(s, end, '}');
      && (step.Close? ==> ParseMembers(s, i, acc) == Good(Obj(Put(acc, name, value)), step.end))
      && (step.Continue? ==> ParseMembers(s, i, acc) == ParseMembers(s, step.next, Put(acc, name, value)))
  {
    hide ParseValue, MemberKey, Put, AfterValue, SkipWs;
  }


  // ----- decoding a text -----

  lemma StringParses(s: string, i: nat, glyphs: seq<Glyph>)
    requires Writable(glyphs) && Holds(s, i, "\"" + WriteString(glyphs))
    ensures ParseValue(s, i) == Good(Str(PointsOf(glyphs)), i + 1 + |WriteString(glyphs)|)
  {
    hide ScanString, WriteString;
    HoldsBoth(s, i, "\"", WriteString(glyphs));
    HoldsAt(s, i, "\"", 0);
    StringScans(s, i + 1, glyphs, []);
    assert [] + PointsOf(glyphs) == PointsOf(glyphs);
  }

  /** Every text decodes to the value it denotes, wherever it stands, unless a number runs into more digits. */
  lemma {:induction false} TextParses(s: string, i: nat, t: Text)
    requires WellWritten(t) && Holds(s, i, Write(t)) && (t.TNumber? ==> NoDigitAt(s, i + |Write(t)|))
    ensures ParseValue(s, i) == Good(Meaning(t), i + |Write(t)|)
    decreases t, 1
  {
    hide ParseValue, WriteItems, WriteMembers, WriteString, IsNumeral;
    match t
    case TConstant(name) => ConstantParses(s, i, name);
    case TNumber(literal) => NumberParses(s, i, literal);
    case TString(glyphs) => StringParses(s, i, glyphs);
    case TArray(open, items) => ArrayParses(s, i, open, items);
    case TObject(open, members) => ObjectParses(s, i, open, members);
  }

  lemma ArrayParses(s: string, i: nat, open: string, items: seq<Element>)
    requires IsLayout(open) && ItemsWellWritten(items) && Holds(s, i, "[" + (open + WriteItems(items)))
    ensures ParseValue(s, i) == Good(Arr(Meanings(items)), i + 1 + |open| + |WriteItems(items)|)
    decreases items, 2
  {
    hide ParseElements, WriteItems, ItemsWellWritten, SkipWs, Meanings, IsLayout;
    var j := i + 1 + |open|;
    HoldsBoth(s, i, "[", open + WriteItems(items));
    HoldsAt(s, i, "[", 0);
    HoldsBoth(s, i + 1, open, WriteItems(items));
    LayoutSkips(s, i + 1, open);
    if items == [] {
      NoItems(s, j);
    } else {
      ItemsStart(s, j, items);
      ItemsParse(s, j, items, []);
      assert [] + Meanings(items) == Meanings(items);
    }
  }

  lemma NoItems(s: string, i: nat)
    requires Holds(s, i, WriteItems([]))
    ensures |WriteItems([])| == 1 && i < |s| && s[i] == ']' && SkipWs(s, i) == i && Meanings([]) == []
  {
    HoldsAt(s, i, "]", 0);
  }

  /** Elements begin with the first one. */
  lemma ItemsStart(s: string, i: nat, items: seq<Element>)
    requires items != [] && ItemsWellWritten(items) && Holds(s, i, WriteItems(items))
    ensures i < |s| && SkipWs(s, i) == i && s[i] != ']'
  {
    hide Write, Holds, SkipWs;
    ItemsSplit(s, i, items);
    TextStart(s, i, items[0].text);
  }

  /** What stands behind the mark that follows the first element. */
  function BehindItem(items: seq<Element>): string
    requires items != [] && ItemsWellWritten(items)
  {
    if |items| == 1 then "" else items[0].gap + WriteItems(items[1..])
  }

  /** Where the pieces of written elements stand. */
  lemma ItemsSplit(s: string, i: nat, items: seq<Element>)
    requires items != [] && ItemsWellWritten(items) && Holds(s, i, WriteItems(items))
    ensures var end := i + |Write(items[0].text)|;
      var mark := end + |items[0].after|;
      && Holds(s, i, Write(items[0].text)) && Holds(s, end, items[0].after) && mark < |s|
      && s[mark] == (if |items| == 1 then ']' else ',')
      && Holds(s, mark + 1, BehindItem(items)) && mark + 1 + |BehindItem(items)| == i + |WriteItems(items)|
  {
    hide Write, Holds, WellWritten, IsLayout;
    var mark := if |items| == 1 then ']' else ',';
    assert WriteItems(items) == Write(items[0].text) + (items[0].after + ([mark] + BehindItem(items)));
    hide WriteItems, BehindItem;
    HoldsPieces(s, i, Write(items[0].text), items[0].after, mark, BehindItem(items));
  }

  lemma MeaningsStep(items: seq<Element>, acc: seq<Value>)
    requires items != []
    ensures acc + Meanings(items) == acc + [Meaning(items[0].text)] + Meanings(items[1..])
    ensures |items| == 1 ==> acc + Meanings(items) == acc + [Meaning(items[0].text)]
  {
    hide Meaning;
    if |items| == 1 { assert items[1..] == []; }
  }

  lemma ItemsWellWrittenHead(items: seq<Element>)
    requires items != [] && ItemsWellWritten(items)
    ensures WellWritten(items[0].text) && IsLayout(items[0].after) && IsLayout(items[0].gap)
    ensures ItemsWellWritten(items[1..])
  {
    hide WellWritten, IsLayout;
  }

  /** Behind the first element stands the bracket, or a comma before the others. */
  lemma AfterItem(s: string, i: nat, items: seq<Element>)
    requires items != [] && ItemsWellWritten(items) && ItemsWellWritten(items[1..]) && Holds(s, i, WriteItems(items))
    ensures var end := i + |Write(items[0].text)|;
      var next := i + |WriteItems(items)| - |WriteItems(items[1..])|;
      && end <= |s| && NoDigitAt(s, end)
      && (|items| == 1 ==> AfterValue(s, end, ']') == Close(i + |WriteItems(items)|))
      && (|items| > 1 ==>
            i <= next <= |s| && Holds(s, next, WriteItems(items[1..])) && AfterValue(s, end, ']') == Continue(next))
  {
    hide Write, WellWritten, AfterValue, SkipWs, WriteItems, Holds, IsLayout, NoDigitAt, ItemsWellWritten;
    ItemsWellWrittenHead(items);
    ItemsSplit(s, i, items);
    var item := items[0];
    var mark := i + |Write(item.text)| + |item.after|;
    MarkStep(s, i + |Write(item.text)|, item.after, ']');
    if |items| > 1 {
      GapSkips(s, mark + 1, item.gap, WriteItems(items[1..]));
      ItemsStart(s, mark + 1 + |item.gap|, items[1..]);
    }
  }

  /** The first element is read, and then the bracket or the others. */
  lemma FirstItem(s: string, i: nat, items: seq<Element>, acc: seq<Value>)
    requires items != [] && ItemsWellWritten(items) && Holds(s, i, WriteItems(items))
    ensures ItemsWellWritten(items[1..])
    ensures var next := i + |WriteItems(items)| - |WriteItems(items[1..])|;
      var read := acc + [Meaning(items[0].text)];
      if |items| == 1 then ParseElements(s, i, acc) == Good(Arr(read), i + |WriteItems(items)|)
      else
        i <= next <= |s| && Holds(s, next, WriteItems(items[1..]))
        && ParseElements(s, i, acc) == ParseElements(s, next, read)
    decreases items, 0
  {
    hide Write, ParseValue, WellWritten, AfterValue, WriteItems, ParseElements, Holds, Meaning, IsLayout, NoDigitAt,
         ItemsWellWritten;
    ItemsWellWrittenHead(items);
    AfterItem(s, i, items);
    ItemsSplit(s, i, items);
    TextParses(s, i, items[0].text);
    ElementsStep(s, i, acc, Meaning(items[0].text), i + |Write(items[0].text)|);
  }

  lemma {:induction false} ItemsParse(s: string, i: nat, items: seq<Element>, acc: seq<Value>)
    requires items != [] && ItemsWellWritten(items) && Holds(s, i, WriteItems(items))
    ensures ParseElements(s, i, acc) == Good(Arr(acc + Meanings(items)), i + |WriteItems(items)|)
    decreases items, 1
  {
    hide ParseElements, WriteItems, Holds, Meaning, Meanings, ItemsWellWritten;
    FirstItem(s, i, items, acc);
    MeaningsStep(items, acc);
    if |items| > 1 {
      var next := i + |WriteItems(items)| - |WriteItems(items[1..])|;
      ItemsParse(s, next, items[1..], acc + [Meaning(items[0].text)]);
    }
  }

  lemma ObjectParses(s: string, i: nat, open: string, members: seq<Member>)
    requires IsLayout(open) && MembersWellWritten(members) && Holds(s, i, "{" + (open + WriteMembers(members)))
    ensures ParseValue(s, i) == Good(Obj(Assigned([], members)), i + 1 + |open| + |WriteMembers(members)|)
    decreases members, 2
  {
    hide ParseMembers, WriteMembers, MembersWellWritten, Holds, SkipWs, Assigned, IsLayout;
    var j := i + 1 + |open|;
    HoldsBoth(s, i, "{", open + WriteMembers(members));
    HoldsAt(s, i, "{", 0);
    HoldsBoth(s, i + 1, open, WriteMembers(members));
    LayoutSkips(s, i + 1, open);
    if members == [] {
      NoMembers(s, j);
    } else {
      MembersStart(s, j, members);
      MembersParse(s, j, members, []);
    }
  }

  lemma NoMembers(s: string, i: nat)
    requires Holds(s, i, WriteMembers([]))
    ensures |WriteMembers([])| == 1 && i < |s| && s[i] == '}' && SkipWs(s, i) == i && Assigned([], []) == []
  {
    HoldsAt(s, i, "}", 0);
  }

  lemma MembersStart(s: string, i: nat, members: seq<Member>)
    requires members != [] && MembersWellWritten(members) && Holds(s, i, WriteMembers(members))
    ensures i < |s| && s[i] == '"' && SkipWs(s, i) == i
  {
    hide Write, WriteString;
    assert WriteMembers(members)[0] == '"';
    HoldsAt(s, i, WriteMembers(members), 0);
  }

  /** Where the pieces of a written member stand. */
  lemma MemberSplit(s: string, i: nat, m: Member)
    requires Writable(m.key) && WellWritten(m.text) && Holds(s, i, WriteMember(m))
    ensures var q := i + 1 + |WriteString(m.key)|;
      var start := q + |m.beforeColon| + 1 + |m.afterColon|;
      && i < |s| && s[i] == '"' && Holds(s, i + 1, WriteString(m.key)) && Holds(s, q, m.beforeColon)
      && q + |m.beforeColon| < |s| && s[q + |m.beforeColon|] == ':' && Holds(s, q + |m.beforeColon| + 1, m.afterColon)
      && Holds(s, start, Write(m.text)) && start + |Write(m.text)| == i + |WriteMember(m)|
  {
    hide Write, Holds, WellWritten, Writable, WriteString;
    var behind := m.afterColon + Write(m.text);
    var tail := WriteString(m.key) + (m.beforeColon + ([':'] + behind));
    assert WriteMember(m) == "" + ("" + (['"'] + tail));
    hide WriteMember;
    HoldsPieces(s, i, "", "", '"', tail);
    HoldsPieces(s, i + 1, WriteString(m.key), m.beforeColon, ':', behind);
    HoldsBoth(s, i + 1 + |WriteString(m.key)| + |m.beforeColon| + 1, m.afterColon, Write(m.text));
  }

  /** A written member parses: its key up to the colon, and its value. */
  lemma MemberParses(s: string, i: nat, m: Member)
    requires Writable(m.key) && WellWritten(m.text) && IsLayout(m.beforeColon) && IsLayout(m.afterColon)
    requires Holds(s, i, WriteMember(m)) && (m.text.TNumber? ==> NoDigitAt(s, i + |WriteMember(m)|))
    ensures MemberKey(s, i).Good? && MemberKey(s, i).value == PointsOf(m.key)
    ensures ParseValue(s, SkipWs(s, MemberKey(s, i).end)) == Good(Meaning(m.text), i + |WriteMember(m)|)
    decreases m, 2
  {
    hide Write, WriteString, WriteMember, ParseValue, MemberKey, IsLayout, SkipWs, Holds, WellWritten, Writable,
         Meaning;
    MemberSplit(s, i, m);
    KeyParses(s, i, m.key, m.beforeColon);
    var colon := i + 1 + |WriteString(m.key)| + |m.beforeColon|;
    LayoutSkips(s, colon + 1, m.afterColon);
    TextStart(s, colon + 1 + |m.afterColon|, m.text);
    TextParses(s, colon + 1 + |m.afterColon|, m.text);
  }

  lemma KeyParses(s: string, i: nat, key: seq<Glyph>, space: string)
    requires Writable(key) && IsLayout(space) && i < |s| && s[i] == '"' && Holds(s, i + 1, WriteString(key))
    requires var q := i + 1 + |WriteString(key)|; Holds(s, q, space) && q + |space| < |s| && s[q + |space|] == ':'
    ensures MemberKey(s, i) == Good(PointsOf(key), i + 1 + |WriteString(key)| + |space| + 1)
  {
    hide ScanString, WriteString;
    StringScans(s, i + 1, key, []);
    LayoutSkips(s, i + 1 + |WriteString(key)|, space);
    assert [] + PointsOf(key) == PointsOf(key);
  }

  /** What stands behind the mark that follows the first member. */
  function BehindMember(members: seq<Member>): string
    requires members != [] && MembersWellWritten(members)
  {
    if |members| == 1 then "" else members[0].gap + WriteMembers(members[1..])
  }

  /** Where the pieces of written members stand. */
  lemma MembersSplit(s: string, i: nat, members: seq<Member>)
    requires members != [] && MembersWellWritten(members) && Holds(s, i, WriteMembers(members))
    ensures var end := i + |WriteMember(members[0])|;
      var mark := end + |members[0].after|;
      && Holds(s, i, WriteMember(members[0])) && Holds(s, end, members[0].after) && mark < |s|
      && s[mark] == (if |members| == 1 then '}' else ',') && Holds(s, mark + 1, BehindMember(members))
      && mark + 1 + |BehindMember(members)| == i + |WriteMembers(members)|
  {
    hide WriteMember, Holds, WellWritten, IsLayout, Writable;
    var mark := if |members| == 1 then '}' else ',';
    assert WriteMembers(members) == WriteMember(members[0]) + (members[0].after + ([mark] + BehindMember(members)));
    hide WriteMembers, BehindMember;
    HoldsPieces(s, i, WriteMember(members[0]), members[0].after, mark, BehindMember(members));
  }

  lemma MembersWellWrittenHead(members: seq<Member>)
    requires members != [] && MembersWellWritten(members)
    ensures Writable(members[0].key) && WellWritten(members[0].text) && IsLayout(members[0].beforeColon)
    ensures IsLayout(members[0].afterColon) && IsLayout(members[0].after) && IsLayout(members[0].gap)
    ensures MembersWellWritten(members[1..])
  {
    hide WellWritten, IsLayout, Writable;
  }

  /** Behind the first member stands the brace, or a comma before the others. */
  lemma AfterMember(s: string, i: nat, members: seq<Member>)
    requires members != [] && MembersWellWritten(members) && MembersWellWritten(members[1..])
    requires Holds(s, i, WriteMembers(members))
    ensures var end := i + |WriteMember(members[0])|;
      var next := i + |WriteMembers(members)| - |WriteMembers(members[1..])|;
      && end <= |s| && NoDigitAt(s, end)
      && (|members| == 1 ==> AfterValue(s, end, '}') == Close(i + |WriteMembers(members)|))
      && (|members| > 1 ==>
            i <= next <= |s| && Holds(s, next, WriteMembers(members[1..])) && AfterValue(s, end, '}') == Continue(next))
  {
    hide WriteMember, WellWritten, AfterValue, SkipWs, WriteMembers, Holds, IsLayout, Writable, NoDigitAt,
         MembersWellWritten;
    MembersWellWrittenHead(members);
    MembersSplit(s, i, members);
    var m := members[0];
    var mark := i + |WriteMember(m)| + |m.after|;
    MarkStep(s, i + |WriteMember(m)|, m.after, '}');
    if |members| > 1 {
      GapSkips(s, mark + 1, m.gap, WriteMembers(members[1..]));
      MembersStart(s, mark + 1 + |m.gap|, members[1..]);
    }
  }

  /** The first member is read, and then the brace or the others. */
  lemma FirstMember(s: string, i: nat, members: seq<Member>, acc: seq<Field>)
    requires members != [] && MembersWellWritten(members) && Holds(s, i, WriteMembers(members))
    ensures MembersWellWritten(members[1..])
    ensures var next := i + |WriteMembers(members)| - |WriteMembers(members[1..])|;
      var read := Put(acc, PointsOf(members[0].key), Meaning(members[0].text));
      if |members| == 1 then ParseMembers(s, i, acc) == Good(Obj(read), i + |WriteMembers(members)|)
      else
        i <= next <= |s| && Holds(s, next, WriteMembers(members[1..]))
        && ParseMembers(s, i, acc) == ParseMembers(s, next, read)
    decreases members, 0
  {
    hide WriteMember, WriteMembers, ParseValue, MemberKey, WellWritten, AfterValue, Put, SkipWs, ParseMembers, Holds,
         Meaning, IsLayout, Writable, MembersWellWritten, PointsOf, NoDigitAt;
    MembersWellWrittenHead(members);
    AfterMember(s, i, members);
    MembersSplit(s, i, members);
    MemberParses(s, i, members[0]);
    var m := members[0];
    MembersStep(s, i, acc, PointsOf(m.key), Meaning(m.text), i + |WriteMember(m)|);
  }

  lemma {:induction false} MembersParse(s: string, i: nat, members: seq<Member>, acc: seq<Field>)
    requires members != [] && MembersWellWritten(members) && Holds(s, i, WriteMembers(members))
    ensures ParseMembers(s, i, acc) == Good(Obj(Assigned(acc, members)), i + |WriteMembers(members)|)
    decreases members, 1
  {
    hide ParseMembers, WriteMembers, Holds, Meaning, Put, PointsOf, MembersWellWritten;
    FirstMember(s, i, members, acc);
    if |members| == 1 {
      assert members[1..] == [];
    } else {
      var next := i + |WriteMembers(members)| - |WriteMembers(members[1..])|;
      MembersParse(s, next, members[1..], Put(acc, PointsOf(members[0].key), Meaning(members[0].text)));
    }
  }
}
