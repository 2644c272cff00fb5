/** The value decoder the streaming reader calls: one JSON value read from a position of a string,
    as `json.JSONDecoder().raw_decode` reads it (strict strings, `NaN` and the infinities accepted,
    a repeated object key overwriting the earlier value in place). */
module Json {
  import opened Wrappers

  /** A decoded value. A number is kept as the characters it was written with; a decoded string is a
      sequence of code points, so that an unpaired surrogate escape has a value too. */
  datatype Value =
    | Constant(name: string)
    | Num(literal: string)
    | Str(points: seq<nat>)
    | Arr(items: seq<Value>)
    | Obj(fields: seq<Field>)

  datatype Field = Field(name: seq<nat>, value: Value)

  /** A failed decode, or a value with the position just after it. */
  datatype Parsed<+T> = Bad | Good(value: T, end: nat)

  // ----- lexical pieces -----

  predicate IsWs(c: char) {
    c == ' ' || c == '\t' || c == '\n' || c == '\r'
  }

  predicate IsDigit(c: char) {
    '0' <= c <= '9'
  }

  function SkipWs(s: string, i: nat): (j: nat)
    requires i <= |s|
    ensures i <= j <= |s|
    decreases |s| - i
  {
    if i < |s| && IsWs(s[i]) then SkipWs(s, i + 1) else i
  }

  function DigitsEnd(s: string, i: nat): (j: nat)
    requires i <= |s|
    ensures i <= j <= |s|
    decreases |s| - i
  {
    if i < |s| && IsDigit(s[i]) then DigitsEnd(s, i + 1) else i
  }

  /** Where the first digit of a number starting at `i` must stand. */
  function FirstDigit(s: string, i: nat): nat
    requires i < |s|
  {
    if s[i] == '-' then i + 1 else i
  }

  function FractionEnd(s: string, i: nat): (j: nat)
    requires i <= |s|
    ensures i <= j <= |s|
  {
    if i + 1 < |s| && s[i] == '.' && IsDigit(s[i + 1]) then DigitsEnd(s, i + 2) else i
  }

  function ExponentEnd(s: string, i: nat): (j: nat)
    requires i <= |s|
    ensures i <= j <= |s|
  {
    if i < |s| && (s[i] == 'e' || s[i] == 'E') then
      var k := if i + 1 < |s| && (s[i + 1] == '+' || s[i + 1] == '-') then i + 2 else i + 1;
      if k < |s| && IsDigit(s[k]) then DigitsEnd(s, k + 1) else i
    else i
  }

  function IntegerEnd(s: string, i: nat): (j: nat)
    requires i < |s| && IsDigit(s[i])
    ensures i < j <= |s|
  {
    if s[i] == '0' then i + 1 else DigitsEnd(s, i + 1)
  }

  /** The end of the longest number literal at `i`, if a number starts there. */
  function NumberEnd(s: string, i: nat): (end: Option<nat>)
    requires i < |s|
    ensures end.Some? ==> FirstDigit(s, i) < end.value <= |s|
  {
    var d := FirstDigit(s, i);
    if d < |s| && IsDigit(s[d]) then
      Some(ExponentEnd(s, FractionEnd(s, IntegerEnd(s, d))))
    else None
  }

  predicate StartsAt(s: string, i: nat, word: string) {
    i + |word| <= |s| && forall k :: 0 <= k < |word| ==> s[i + k] == word[k]
  }

  /** The only constant that can start with a character, as the scanner switches on it. */
  function ConstantFor(c: char): (name: string)
    ensures |name| > 0 ==> name[0] == c && |name| > 1
  {
    match c
    case 'n' => "null"
    case 't' => "true"
    case 'f' => "false"
    case 'N' => "NaN"
    case 'I' => "Infinity"
    case '-' => "-Infinity"
    case _ => ""
  }

  function ConstantAt(s: string, i: nat): Option<string>
    requires i < |s|
  {
    var name := ConstantFor(s[i]);
    if name != "" && StartsAt(s, i, name) then Some(name) else None
  }

  // ----- strings -----

  function HexDigit(c: char): Option<nat> {
    if '0' <= c <= '9' then Some((c - '0') as nat)
    else if 'a' <= c <= 'f' then Some((c - 'a') as nat + 10)
    else if 'A' <= c <= 'F' then Some((c - 'A') as nat + 10)
    else None
  }

  function Hex4(s: string, i: nat): Option<nat> {
    if i + 4 > |s| then None
    else
      match (HexDigit(s[i]), HexDigit(s[i + 1]), HexDigit(s[i + 2]), HexDigit(s[i + 3]))
      case (Some(a), Some(b), Some(c), Some(d)) => Some(((a * 16 + b) * 16 + c) * 16 + d)
      case _ => None
  }

  function UnicodeEscape(s: string, i: nat): Option<nat> {
    if i + 1 < |s| && s[i] == '\\' && s[i + 1] == 'u' then Hex4(s, i + 2) else None
  }

  predicate IsHighSurrogate(p: nat) { 0xD800 <= p <= 0xDBFF }

  predicate IsLowSurrogate(p: nat) { 0xDC00 <= p <= 0xDFFF }

  function SimpleEscape(c: char): Option<nat> {
    match c
    case '"' => Some(0x22)
    case '\\' => Some(0x5C)
    case '/' => Some(0x2F)
    case 'b' => Some(8)
    case 'f' => Some(12)
    case 'n' => Some(10)
    case 'r' => Some(13)
    case 't' => Some(9)
    case _ => None
  }

  /** The low surrogate escaped at `i`, when there is one. */
  function LowAt(s: string, i: nat): (low: Option<nat>)
    ensures low.Some? ==> IsLowSurrogate(low.value) && i + 6 <= |s|
  {
    match UnicodeEscape(s, i)
    case Some(p) => if IsLowSurrogate(p) then Some(p) else None
    case None => None
  }

  /** The code point of an escape sequence whose backslash stands at `i`. A high surrogate escape
      takes the low surrogate escape behind it along. */
  function EscapeAt(s: string, i: nat): (r: Parsed<nat>)
    requires i < |s|
    ensures r.Good? ==> i < r.end <= |s|
  {
    if i + 1 == |s| then Bad
    else if s[i + 1] != 'u' then
      match SimpleEscape(s[i + 1])
      case None => Bad
      case Some(p) => Good(p, i + 2)
    else
      match Hex4(s, i + 2)
      case None => Bad
      case Some(p) =>
        if IsHighSurrogate(p) && LowAt(s, i + 6).Some? then
          Good(0x10000 + (p - 0xD800) * 0x400 + (LowAt(s, i + 6).value - 0xDC00), i + 12)
        else Good(p, i + 6)
  }

  /** The rest of a string literal whose opening quote has been read. */
  function ScanString(s: string, i: nat, acc: seq<nat>): (r: Parsed<seq<nat>>)
    requires i <= |s|
    ensures r.Good? ==> i < r.end <= |s|
    decreases |s| - i
  {
    if i == |s| || s[i] as int <= 0x1F then Bad
    else if s[i] == '"' then Good(acc, i + 1)
    else if s[i] != '\\' then ScanString(s, i + 1, acc + [s[i] as nat])
    else
      match EscapeAt(s, i)
      case Bad => Bad
      case Good(p, end) => ScanString(s, end, acc + [p])
  }

  // ----- values -----

  /** A dictionary assignment: a known key keeps its place and takes the new value. */
  function Put(fields: seq<Field>, name: seq<nat>, value: Value): seq<Field> {
    if fields == [] then [Field(name, value)]
    else if fields[0].name == name then [Field(name, value)] + fields[1..]
    else [fields[0]] + Put(fields[1..], name, value)
  }

  /** `raw_decode(s, i)`: no white space is skipped before the value. */
  function ParseValue(s: string, i: nat): (r: Parsed<Value>)
    requires i <= |s|
    ensures r.Good? ==> i < r.end <= |s|
    decreases |s| - i, 0
  {
    if i == |s| then Bad
    else if s[i] == '"' then
      match ScanString(s, i + 1, [])
      case Bad => Bad
      case Good(points, end) => Good(Str(points), end)
    else if s[i] == '{' then
      var j := SkipWs(s, i + 1);
      if j < |s| && s[j] == '}' then Good(Obj([]), j + 1) else ParseMembers(s, j, [])
    else if s[i] == '[' then
      var j := SkipWs(s, i + 1);
      if j < |s| && s[j] == ']' then Good(Arr([]), j + 1) else ParseElements(s, j, [])
    else
      match ConstantAt(s, i)
      case Some(name) => Good(Constant(name), i + |name|)
      case None =>
        match NumberEnd(s, i)
        case Some(end) => Good(Num(s[i..end]), end)
        case None => Bad
  }

  /** A member's key up to and including the colon after it. */
  function MemberKey(s: string, i: nat): (r: Parsed<seq<nat>>)
    requires i <= |s|
    ensures r.Good? ==> i < r.end <= |s|
  {
    if i == |s| || s[i] != '"' then Bad
    else
      var key := ScanString(s, i + 1, []);
      if key.Bad? then Bad
      else
        var j := SkipWs(s, key.end);
        if j == |s| || s[j] != ':' then Bad else Good(key.value, j + 1)
  }

  /** What a container does after one of its values: fail, close, or go on behind the comma. */
  datatype Step = Stop | Close(end: nat) | Continue(next: nat)

  function AfterValue(s: string, i: nat, closer: char): (r: Step)
    requires i <= |s|
    ensures r.Close? ==> i < r.end <= |s|
    ensures r.Continue? ==> i < r.next <= |s|
  {
    var m := SkipWs(s, i);
    if m == |s| then Stop
    else if s[m] == closer then Close(m + 1)
    else if s[m] == ',' then Continue(SkipWs(s, m + 1))
    else Stop
  }

  function ParseMembers(s: string, i: nat, acc: seq<Field>): (r: Parsed<Value>)
    requires i <= |s|
    ensures r.Good? ==> i < r.end <= |s|
    decreases |s| - i, 1
  {
    var key := MemberKey(s, i);
    if key.Bad? then Bad
    else
      var v := ParseValue(s, SkipWs(s, key.end));
      if v.Bad? then Bad
      else
        var fields := Put(acc, key.value, v.value);
        match AfterValue(s, v.end, '}')
        case Stop => Bad
        case Close(end) => Good(Obj(fields), end)
        case Continue(next) => ParseMembers(s, next, fields)
  }

  function ParseElements(s: string, i: nat, acc: seq<Value>): (r: Parsed<Value>)
    requires i <= |s|
    ensures r.Good? ==> i < r.end <= |s|
    decreases |s| - i, 1
  {
    var v := ParseValue(s, i);
    if v.Bad? then Bad
    else
      match AfterValue(s, v.end, ']')
      case Stop => Bad
      case Close(end) => Good(Arr(acc + [v.value]), end)
      case Continue(next) => ParseElements(s, next, acc + [v.value])
  }
}
