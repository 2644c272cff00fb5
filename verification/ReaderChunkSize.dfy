/** Reading a fixed number of characters at a time, as the reader does with 16 KiB: what is harmless at every size,
    and at every size two texts that are refused although they read in one piece. */
module ReaderChunkSize {
  import opened Wrappers
  import opened PythonText
  import opened Json
  import opened JsonPrefix
  import opened StreamingReader
  import opened ReaderSoundness
  import opened ReaderCourse
  import opened ReaderCounting
  import opened ReaderCutting
  import Sets

  /** The boundaries inside a text of the given length that is read `n` characters at a time. */
  function Every(n: nat, length: nat): set<nat>
    requires n > 0
  {
    set k | 0 < k < length && k % n == 0
  }

  lemma Remainder(q: nat, r: nat, n: nat)
    requires r < n
    ensures (q * n + r) % n == r
  {
    var x := q * n + r;
    var d := x / n - q;
    assert x == n * (x / n) + x % n;
    assert d * n == r - x % n;
    if d >= 1 { TimesAtLeast(d, n); } else if d <= -1 { TimesAtLeast(-d, n); }
  }

  lemma TimesAtLeast(d: int, n: nat)
    requires d >= 1
    ensures d * n >= n && n + (-d) * n <= 0
  {
    assert d * n == (d - 1) * n + n;
  }

  lemma NoMultipleBetween(n: nat, q: nat, k: nat)
    requires q * n < k < q * n + n
    ensures k % n != 0
  {
    Remainder(q, k - q * n, n);
  }

  /** Behind a multiple of `n` the next boundary is the next multiple, or the end. */
  lemma NextMultiple(text: string, n: nat, q: nat)
    requires n > 0 && q * n < |text|
    ensures var next := NextBoundary(text, Every(n, |text|), q * n);
      next == if q * n + n < |text| then q * n + n else |text|
  {
    var cuts, b := Every(n, |text|), q * n;
    var next := NextBoundary(text, cuts, b);
    if next < b + n && next < |text| { NoMultipleBetween(n, q, next); }
    if b + n < |text| {
      assert b + n == (q + 1) * n;
      Remainder(q + 1, 0, n);
      assert b + n in cuts;
    }
  }

  // ----- harmless at every size -----

  /** Every chunk but the last holds at least `n` characters. */
  ghost predicate LongChunks(text: string, cuts: set<nat>, n: nat) {
    forall b: nat :: b < |text| && (b == 0 || b in cuts) ==>
      NextBoundary(text, cuts, b) == |text| || NextBoundary(text, cuts, b) - b >= n
  }

  lemma Quotient(b: nat, n: nat)
    requires n > 0 && b % n == 0
    ensures b == (b / n) * n
  {
  }

  lemma FixedChunksAreLong(text: string, n: nat)
    requires n > 0
    ensures LongChunks(text, Every(n, |text|), n)
  {
    var cuts := Every(n, |text|);
    forall b: nat | b < |text| && (b == 0 || b in cuts)
      ensures NextBoundary(text, cuts, b) == |text| || NextBoundary(text, cuts, b) - b >= n
    {
      assert b % n == 0;
      Quotient(b, n);
      ChunkIsLong(text, n, b, b / n);
    }
  }

  lemma ChunkIsLong(text: string, n: nat, b: nat, q: nat)
    requires n > 0 && b == q * n && b < |text|
    ensures var next := NextBoundary(text, Every(n, |text|), b); next == |text| || next - b >= n
  {
    hide NextBoundary, Every;
    NextMultiple(text, n, q);
  }

  /** No more than `n` characters of white space stand before a single-character token. */
  predicate ShortRuns(course: Course, n: nat) {
    match course
    case Over => true
    case Stuck => true
    case Mark(from, to, _, rest) => to <= from + n && ShortRuns(rest, n)
    case Item(_, _, _, _, _, rest) => ShortRuns(rest, n)
    case Bracket(from, to, _, seen, _) => to <= from + n && ShortRuns(seen, n)
  }

  predicate NumbersUncut(cuts: set<nat>, course: Course) {
    match course
    case Over => true
    case Stuck => true
    case Mark(_, _, _, rest) => NumbersUncut(cuts, rest)
    case Item(_, _, _, need, end, rest) => Uncut(cuts, need, end) && NumbersUncut(cuts, rest)
    case Bracket(_, _, _, seen, _) => NumbersUncut(cuts, seen)
  }

  /** Two boundaries are at least a chunk apart. */
  lemma FarApart(text: string, cuts: set<nat>, n: nat, near: nat, far: nat)
    requires LongChunks(text, cuts, n) && near in cuts && far in cuts && near < far < |text|
    ensures near + n <= far
  {
    assert NextBoundary(text, cuts, near) <= far;
  }

  lemma ShortRunReached(text: string, cuts: set<nat>, from: nat, to: nat, skips: nat, n: nat)
    requires LongChunks(text, cuts, n) && to < |text| && skips >= 2 && to <= from + n
    ensures Reached(cuts, from, to, skips)
  {
    hide LongChunks;
    if c :| c in Inside(cuts, from, to) {
      forall d | d in Inside(cuts, from, to) ensures d == c {
        if d < c { FarApart(text, cuts, n, d, c); } else if c < d { FarApart(text, cuts, n, c, d); }
      }
      assert Inside(cuts, from, to) == {c};
    }
  }

  /** Chunks no shorter than the white space before single-character tokens lose nothing to it: what is left of
      clearness is that no number is cut. */
  lemma {:induction false} LongChunksFit(text: string, cuts: set<nat>, n: nat, i: nat, course: Course)
    requires LongChunks(text, cuts, n) && Laid(text, i, course) && Unstuck(course) && ShortRuns(course, n)
    ensures Clear(cuts, course) <==> NumbersUncut(cuts, course)
    decreases course
  {
    hide Reached, LongChunks, Uncut;
    match course
    case Over =>
    case Stuck =>
    case Mark(from, to, skips, rest) =>
      ShortRunReached(text, cuts, from, to, skips, n);
      LongChunksFit(text, cuts, n, to + 1, rest);
    case Item(_, _, _, _, end, rest) => LongChunksFit(text, cuts, n, end, rest);
    case Bracket(from, to, _, seen, _) =>
      ShortRunReached(text, cuts, from, to, 2, n);
      LongChunksFit(text, cuts, n, to + 1, seen);
  }

  /** Read `n` characters at a time, a text with no longer run of white space before a single-character token and
      no multiple of `n` inside a number reads as in one piece. */
  lemma FixedChunksHarmless(text: string, n: nat)
    requires n > 0
    requires ReadWhole(text).Good? ==>
      ShortRuns(WholeCourse(text), n) && NumbersUncut(Every(n, |text|), WholeCourse(text))
    ensures Answer(RunTopLevel(text, Every(n, |text|))) == Answer(RunTopLevel(text, {}))
  {
    hide ReadWhole, WholeCourse, RunTopLevel, Laid, Unstuck, Clear, ShortRuns, NumbersUncut, Every, LongChunks;
    var cuts := Every(n, |text|);
    OneChunk(text);
    if ReadWhole(text).Good? {
      WholeLaid(text);
      WholeUnstuck(text);
      FixedChunksAreLong(text, n);
      LongChunksFit(text, cuts, n, 0, WholeCourse(text));
    }
    HarmlessCuts(text, cuts);
  }

  // ----- white space that is read in chunks of its own -----

  function Repeated(c: char, n: nat): (r: string)
    ensures |r| == n && forall i :: 0 <= i < n ==> r[i] == c
  {
    if n == 0 then "" else Repeated(c, n - 1) + [c]
  }

  function BlankArray(n: nat): (text: string)
    ensures |text| == 2 * n + 2
  {
    "[" + Repeated(' ', 2 * n) + "]"
  }

  lemma BlankArrayIs(n: nat)
    ensures var text := BlankArray(n);
      text[0] == '[' && text[2 * n + 1] == ']' && (forall i :: 0 < i < 2 * n + 1 ==> text[i] == ' ')
      && SkipSpace(text, 0) == 0 && SkipSpace(text, 1) == 2 * n + 1
  {
    var text := BlankArray(n);
    forall i | 0 < i < 2 * n + 1 ensures text[i] == ' ' { assert text[i] == Repeated(' ', 2 * n)[i - 1]; }
    assert text[2 * n + 1] == ']';
    assert !IsSpace(text[2 * n + 1]) && forall i :: 0 < i < 2 * n + 1 ==> IsSpace(text[i]);
  }

  lemma BlankArrayReads(n: nat)
    ensures var text := BlankArray(n);
      ReadWhole(text) == Good([], |text|) && WholeCourse(text) == Mark(0, 0, 2, Mark(1, 2 * n + 1, 2, Over))
  {
    hide BlankArray;
    BlankArrayIs(n);
    var text := BlankArray(n);
    assert ReadArrayTurn(text, 2 * n + 1, []) == Finish([], 2 * n + 2);
  }

  /** At every chunk size n, an empty array holding 2n blanks is refused, though it reads in one piece. */
  lemma BlankChunksLose(n: nat)
    requires n > 0
    ensures Answer(RunTopLevel(BlankArray(n), Every(n, |BlankArray(n)|))) == None
    ensures Answer(RunTopLevel(BlankArray(n), {})) == Some([])
  {
    hide BlankArray, RunTopLevel, ReadWhole, WholeCourse;
    var text := BlankArray(n);
    var cuts := Every(n, |text|);
    BlankArrayReads(n);
    OneChunk(text);
    Remainder(1, 0, n);
    Remainder(2, 0, n);
    var bracket := Mark(1, 2 * n + 1, 2, Over);
    assert {n, 2 * n} <= Inside(cuts, 1, 2 * n + 1);
    Sets.SubsetSize({n, 2 * n}, Inside(cuts, 1, 2 * n + 1));
    assert ValuesReached(cuts, bracket) && !Clear(cuts, bracket);
    IndependentExactlyWhenClear(text, cuts);
    CutsOnlyLose(text, cuts);
  }

  // ----- numbers that are cut -----

  /** An object with one member, whose key is `k` letters long and whose value is 12. */
  function TwelveMember(k: nat): (text: string)
    ensures |text| == k + 7
  {
    "{\"" + Repeated('a', k) + "\":12}"
  }

  /** The key read from such a member. */
  function Letters(k: nat): (r: seq<nat>)
    ensures |r| == k && forall i :: 0 <= i < k ==> r[i] == 'a' as nat
  {
    if k == 0 then [] else Letters(k - 1) + ['a' as nat]
  }

  lemma TwelveMemberIs(k: nat)
    ensures var text := TwelveMember(k);
      && text[0] == '{' && text[1] == '"' && (forall i :: 2 <= i < k + 2 ==> text[i] == 'a')
      && text[k + 2] == '"' && text[k + 3] == ':' && text[k + 4] == '1' && text[k + 5] == '2' && text[k + 6] == '}'
  {
    var text := TwelveMember(k);
    forall i | 2 <= i < k + 2 ensures text[i] == 'a' { assert text[i] == Repeated('a', k)[i - 2]; }
    assert text[k + 2..] == "\":12}";
    assert text[k + 2..][0] == '"' && text[k + 2..][1] == ':' && text[k + 2..][2] == '1';
    assert text[k + 2..][3] == '2' && text[k + 2..][4] == '}';
  }

  lemma {:induction false} LettersScan(text: string, i: nat, k: nat, acc: seq<nat>)
    requires i + k < |text| && text[i + k] == '"' && forall j :: i <= j < i + k ==> text[j] == 'a'
    ensures ScanString(text, i, acc) == Good(acc + Letters(k), i + k + 1)
    decreases k
  {
    hide EscapeAt;
    if k == 0 {
      assert acc + [] == acc;
    } else {
      LettersScan(text, i + 1, k - 1, acc + ['a' as nat]);
      LettersShift(k);
      assert acc + ['a' as nat] + Letters(k - 1) == acc + Letters(k);
    }
  }

  lemma LettersShift(k: nat)
    requires k > 0
    ensures Letters(k) == ['a' as nat] + Letters(k - 1)
  {
  }

  lemma TwelveKey(k: nat)
    ensures ParseValue(TwelveMember(k), 1) == Good(Str(Letters(k)), k + 3)
    ensures ReadKey(TwelveMember(k), 1) == Good(Letters(k), k + 4)
  {
    hide TwelveMember, ParseMembers, ParseElements, ScanString, NumberEnd, ConstantAt;
    TwelveMemberIs(k);
    LettersScan(TwelveMember(k), 2, k, []);
    assert [] + Letters(k) == Letters(k);
  }

  lemma TwelveValue(k: nat)
    ensures var text := TwelveMember(k);
      && NumberEnd(text, k + 4) == Some(k + 6) && FirstDigit(text, k + 4) == k + 4
      && ParseValue(text, k + 4) == Good(Num(text[k + 4..k + 6]), k + 6)
  {
    hide TwelveMember, ParseValue;
    TwelveMemberIs(k);
    var text := TwelveMember(k);
    assert DigitsEnd(text, k + 6) == k + 6 && DigitsEnd(text, k + 5) == k + 6;
    NumberIsDecoded(text, k + 4);
  }

  lemma NotSkills(k: nat)
    ensures Letters(k) != SKILLS_KEY
  {
    assert SKILLS_KEY[0] != 'a' as nat;
  }

  lemma TwelveReads(k: nat)
    ensures var text := TwelveMember(k);
      && ReadWhole(text) == Good([], k + 7)
      && WholeCourse(text) ==
         Mark(0, 0, 2, Item(1, 1, 3, k + 3, k + 3, Mark(k + 3, k + 3, 3,
              Item(k + 4, k + 4, 1, k + 5, k + 6, Mark(k + 6, k + 6, 4, Over)))))
  {
    hide TwelveMember, ParseValue, ReadKey, ReadArray, NumberEnd, FirstDigit;
    TwelveMemberIs(k);
    TwelveKey(k);
    TwelveValue(k);
    NotSkills(k);
    var text := TwelveMember(k);
    assert ReadMember(text, k + 4, Letters(k), []) == BeforeComma([], k + 6);
    assert ReadTail(text, k + 6, []) == Finish([], k + 7);
    assert ReadObject(text, 1, []) == Good([], k + 7);
    assert TailCourse(text, k + 6) == Mark(k + 6, k + 6, 4, Over);
    assert MemberCourse(text, k + 4, Letters(k)) == Item(k + 4, k + 4, 1, k + 5, k + 6, Mark(k + 6, k + 6, 4, Over));
  }

  /** With no white space in the text, every value is reached; a boundary between the digits is what is not clear. */
  lemma TwelveNotClear(k: nat, cuts: set<nat>)
    requires k + 5 in cuts
    ensures ValuesReached(cuts, WholeCourse(TwelveMember(k)))
    ensures !Clear(cuts, WholeCourse(TwelveMember(k)))
  {
    hide TwelveMember, WholeCourse, ReadWhole;
    var text := TwelveMember(k);
    TwelveReads(k);
    assert Inside(cuts, 1, 1) == {} == Inside(cuts, k + 4, k + 4);
    assert !Uncut(cuts, k + 5, k + 6);
    var brace := Mark(k + 6, k + 6, 4, Over);
    assert ValuesReached(cuts, Over);
    assert ValuesReached(cuts, brace);
    var value := Item(k + 4, k + 4, 1, k + 5, k + 6, brace);
    assert ValuesReached(cuts, value) && !Clear(cuts, value);
    var colon := Mark(k + 3, k + 3, 3, value);
    assert ValuesReached(cuts, colon) && !Clear(cuts, colon);
  }

  /** At every chunk size n, an object is refused whose only member is a number with a multiple of n between its
      digits, though it reads in one piece. */
  lemma CutNumberLoses(n: nat)
    requires n > 0
    ensures var text := TwelveMember(5 * n - 5);
      && Answer(RunTopLevel(text, Every(n, |text|))) == None
      && Answer(RunTopLevel(text, {})) == Some([])
  {
    hide TwelveMember, RunTopLevel, ReadWhole, WholeCourse, Clear, ValuesReached;
    var k := 5 * n - 5;
    var text := TwelveMember(k);
    var cuts := Every(n, |text|);
    TwelveReads(k);
    OneChunk(text);
    Remainder(5, 0, n);
    assert k + 5 in cuts;
    TwelveNotClear(k, cuts);
    IndependentExactlyWhenClear(text, cuts);
    CutsOnlyLose(text, cuts);
  }
}
