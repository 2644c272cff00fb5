/** Tree URLs of skills: how they are printed from a repository URL and how the repository is read back. */
module TreeUrl {
  import opened PythonText
  import opened Wrappers

  // ----- strings -----

  function StripRight(s: string): (r: string)
    ensures r <= s
    ensures r != "" ==> !IsSpace(r[|r| - 1])
  {
    if s != "" && IsSpace(s[|s| - 1]) then StripRight(s[..|s| - 1]) else s
  }

  function Strip(s: string): string {
    StripRight(s[SkipSpace(s, 0)..])
  }

  function StripSlashes(s: string): (r: string)
    ensures r <= s
    ensures r != "" ==> r[|r| - 1] != '/'
  {
    if s != "" && s[|s| - 1] == '/' then StripSlashes(s[..|s| - 1]) else s
  }

  function DropSlashes(s: string): string {
    if s != "" && s[0] == '/' then DropSlashes(s[1..]) else s
  }

  predicate EndsWith(s: string, end: string) {
    |end| <= |s| && s[|s| - |end|..] == end
  }

  predicate At(s: string, part: string, k: nat) {
    k + |part| <= |s| && s[k..k + |part|] == part
  }

  /** Where a part first occurs at or after `from`, or the length of the text. */
  function Find(s: string, part: string, from: nat): (k: nat)
    requires from <= |s|
    ensures from <= k <= |s|
    ensures k < |s| ==> At(s, part, k)
    ensures forall j :: from <= j < k ==> !At(s, part, j)
    decreases |s| - from
  {
    if from == |s| || At(s, part, from) then from else Find(s, part, from + 1)
  }

  function FindAny(s: string, chars: set<char>, from: nat): (k: nat)
    requires from <= |s|
    ensures from <= k <= |s|
    ensures k < |s| ==> s[k] in chars
    ensures forall j :: from <= j < k ==> s[j] !in chars
    decreases |s| - from
  {
    if from == |s| || s[from] in chars then from else FindAny(s, chars, from + 1)
  }

  function Without(s: string, chars: set<char>): string {
    if s == "" then "" else (if s[0] in chars then "" else [s[0]]) + Without(s[1..], chars)
  }

  // ----- splitting a URL -----

  const TREE := "/tree/"

  predicate IsLowerAlpha(c: char) {
    'a' <= c <= 'z'
  }

  function LowerChar(c: char): char {
    if 'A' <= c <= 'Z' then c - 'A' + 'a' else c
  }

  function Lower(s: string): (r: string)
    ensures |r| == |s| && forall i :: 0 <= i < |s| ==> r[i] == LowerChar(s[i])
  {
    if s == "" then "" else [LowerChar(s[0])] + Lower(s[1..])
  }

  predicate IsSchemeChar(c: char) {
    IsLowerAlpha(LowerChar(c)) || '0' <= c <= '9' || c in {'+', '-', '.'}
  }

  datatype Split = Split(scheme: string, netloc: string, path: string)

  /** Characters a URL is rid of before it is split, and those dropped at its start. */
  const REMOVED: set<char> := {'\t', '\r', '\n'}

  function DropControls(s: string): string {
    if s != "" && s[0] <= ' ' then DropControls(s[1..]) else s
  }

  /** The path without the parameters of its last segment. */
  function WithoutParams(p: string): string {
    p[..FindAny(p, {';'}, LastSlash(p))]
  }

  function LastSlash(p: string): (k: nat)
    ensures k <= |p|
    ensures forall j :: 0 <= j < |p| && p[j] == '/' ==> j <= k
  {
    if p == "" then 0 else if p[|p| - 1] == '/' then |p| - 1 else LastSlash(p[..|p| - 1])
  }

  /** Schemes whose last path segment may carry parameters. */
  predicate HasParams(scheme: string) {
    scheme in {"", "ftp", "hdl", "prospero", "http", "https", "shttp", "rtsp", "rtsps", "rtspu", "sip", "sips", "mms",
               "sftp", "tel"}
  }

  function SplitUrl(url: string): Split {
    var s := Without(DropControls(url), REMOVED);
    var colon := FindAny(s, {':'}, 0);
    var hasScheme :=
      0 < colon < |s| && IsLowerAlpha(LowerChar(s[0])) && forall i :: 0 <= i < colon ==> IsSchemeChar(s[i]);
    var scheme := if hasScheme then Lower(s[..colon]) else "";
    var rest := if hasScheme then s[colon + 1..] else s;
    var hasNetloc := "//" <= rest;
    var end := if hasNetloc then FindAny(rest, {'/', '?', '#'}, 2) else 0;
    var netloc := if hasNetloc then rest[2..end] else "";
    var path := rest[end..][..FindAny(rest[end..], {'?', '#'}, 0)];
    Split(scheme, netloc, if HasParams(scheme) then WithoutParams(path) else path)
  }

  // ----- printing and reading -----

  function Normalize(url: string): string {
    var s := StripSlashes(Strip(url));
    if EndsWith(s, ".git") then s[..|s| - 4] else s
  }

  function ToTree(repo: string, branch: string, relPath: string): string {
    var safeBranch := if Strip(branch) == "" then "main" else Strip(branch);
    var rel := DropSlashes(Strip(relPath));
    Normalize(repo) + TREE + safeBranch + if rel == "" then "" else "/" + rel
  }

  function RepoBase(url: string): Option<string> {
    var parts := SplitUrl(url);
    var k := Find(parts.path, TREE, 0);
    if k == 0 || k == |parts.path| then None
    else Some(Normalize(parts.scheme + "://" + parts.netloc + parts.path[..k]))
  }

  // ----- which repositories are read back -----

  predicate IsLetter(c: char) {
    'a' <= c <= 'z' || 'A' <= c <= 'Z'
  }

  /** A URL of the usual shape: a scheme, an ASCII host, and a path without query or fragment. */
  predicate IsPlain(scheme: string, netloc: string, path: string) {
    && scheme != "" && IsLetter(scheme[0])
    && (forall i :: 0 <= i < |scheme| ==>
          IsLetter(scheme[i]) || '0' <= scheme[i] <= '9' || scheme[i] in {'+', '-', '.'})
    && (forall i :: 0 <= i < |netloc| ==>
          netloc[i] as int < 128 && netloc[i] !in {'/', '?', '#', '[', ']', '\t', '\r', '\n'})
    && (path != "" ==> path[0] == '/')
    && (forall i :: 0 <= i < |path| ==> path[i] !in {'?', '#', '\t', '\r', '\n'})
  }

  predicate IsLowerCase(s: string) {
    forall i :: 0 <= i < |s| ==> !('A' <= s[i] <= 'Z')
  }

  lemma LowerCase(s: string)
    ensures Lower(s) == s <==> IsLowerCase(s)
  {
  }

  lemma PlainScheme(scheme: string, netloc: string, path: string)
    requires IsPlain(scheme, netloc, path)
    ensures scheme != "" && IsLowerAlpha(LowerChar(scheme[0]))
    ensures forall i :: 0 <= i < |scheme| ==> IsSchemeChar(scheme[i])
  {
  }

  function Whole(scheme: string, netloc: string, path: string): string {
    scheme + "://" + netloc + path
  }

  /** One of the path's segments is `tree`. */
  predicate HasTreeSegment(path: string) {
    exists k :: 0 <= k < |path| && At(path + "/", "/tree/", k)
  }

  // ----- splitting a printed URL -----

  lemma {:induction false} WithoutNothing(s: string, t: string, chars: set<char>)
    requires forall i :: 0 <= i < |s| ==> s[i] !in chars
    ensures Without(s + t, chars) == s + Without(t, chars)
  {
    if s == "" {
      assert s + t == t;
    } else {
      assert (s + t)[1..] == s[1..] + t;
      WithoutNothing(s[1..], t, chars);
    }
  }

  /** A scan finds what a given position holds when nothing before it matches. */
  lemma FoundAt(s: string, chars: set<char>, from: nat, k: nat)
    requires from <= k <= |s| && (k < |s| ==> s[k] in chars) && forall j :: from <= j < k ==> s[j] !in chars
    ensures FindAny(s, chars, from) == k
  {
  }

  lemma SchemeFirst(scheme: string, rest: string)
    requires scheme != "" && IsLowerAlpha(LowerChar(scheme[0]))
    requires forall i :: 0 <= i < |scheme| ==> IsSchemeChar(scheme[i])
    ensures FindAny(scheme + ":" + rest, {':'}, 0) == |scheme|
    ensures (scheme + ":" + rest)[|scheme| + 1..] == rest && (scheme + ":" + rest)[..|scheme|] == scheme
  {
    var s := scheme + ":" + rest;
    FoundAt(s, {':'}, 0, |scheme|);
    assert s[..|scheme|] == scheme;
  }

  /** The last segment begins after the marker, so cutting parameters leaves the marker and all before it. */
  lemma MarkerSurvives(path: string, tail: string)
    ensures path + TREE <= WithoutParams(path + TREE + tail)
  {
    var p := path + TREE + tail;
    assert p[|path| + 5] == '/';
    assert p[..|path| + 6] == path + TREE;
  }

  /** What ends a host: the marker, or the first character of a query or a fragment. */
  predicate IsMark(mark: string) {
    mark == TREE || mark == "?" || mark == "#"
  }

  /** What is left after the scheme of a URL whose tail is clean. */
  function AfterScheme(netloc: string, path: string, mark: string, clean: string): string {
    "//" + netloc + (path + mark + clean)
  }

  lemma CleanPrinted(scheme: string, netloc: string, path: string, mark: string, tail: string)
    requires IsPlain(scheme, netloc, path) && IsMark(mark)
    ensures Without(DropControls(Whole(scheme, netloc, path) + mark + tail), REMOVED)
         == scheme + ":" + AfterScheme(netloc, path, mark, Without(tail, REMOVED))
  {
    hide IsSchemeChar, IsLowerAlpha, Without;
    PlainScheme(scheme, netloc, path);
    var before := Whole(scheme, netloc, path) + mark;
    var url := Whole(scheme, netloc, path) + mark + tail;
    assert before + tail == url;
    LettersAreVisible(scheme[0]);
    assert url[0] == scheme[0];
    PlainIsClean(scheme, netloc, path, mark);
    WithoutNothing(before, tail, REMOVED);
    Regroup(scheme, netloc, path, mark, Without(tail, REMOVED));
  }

  lemma Regroup(scheme: string, netloc: string, path: string, mark: string, clean: string)
    ensures Whole(scheme, netloc, path) + mark + clean == scheme + ":" + AfterScheme(netloc, path, mark, clean)
  {
    assert "://" == ":" + "//";
  }

  /** A URL is split at its host's end, and its path at the query or the fragment. */
  lemma SplitParts(scheme: string, netloc: string, path: string, mark: string, tail: string)
    requires IsPlain(scheme, netloc, path) && IsMark(mark)
    ensures var parts := SplitUrl(Whole(scheme, netloc, path) + mark + tail);
      var after := path + mark + Without(tail, REMOVED);
      var p := after[..FindAny(after, {'?', '#'}, 0)];
      && parts.scheme == Lower(scheme) && parts.netloc == netloc
      && parts.path == if HasParams(Lower(scheme)) then WithoutParams(p) else p
  {
    hide IsSchemeChar, IsLowerAlpha, HasParams, WithoutParams, Without, Lower, FindAny, Whole, DropControls,
         AfterScheme;
    var clean := Without(tail, REMOVED);
    CleanPrinted(scheme, netloc, path, mark, tail);
    PlainScheme(scheme, netloc, path);
    SchemeFirst(scheme, AfterScheme(netloc, path, mark, clean));
    NetlocFirst(netloc, path, mark, clean);
  }

  lemma SplitPrinted(scheme: string, netloc: string, path: string, tail: string)
    requires IsPlain(scheme, netloc, path)
    ensures var parts := SplitUrl(Whole(scheme, netloc, path) + TREE + tail);
      parts.scheme == Lower(scheme) && parts.netloc == netloc && path + TREE <= parts.path
  {
    hide IsSchemeChar, IsLowerAlpha, HasParams, WithoutParams, Without, Lower, FindAny, Whole, SplitUrl;
    SplitParts(scheme, netloc, path, TREE, tail);
    PathFirst(path, Without(tail, REMOVED));
  }

  lemma LettersAreVisible(c: char)
    requires IsLowerAlpha(LowerChar(c))
    ensures c > ' '
  {
  }

  lemma PlainIsClean(scheme: string, netloc: string, path: string, mark: string)
    requires IsPlain(scheme, netloc, path) && IsMark(mark)
    ensures var before := Whole(scheme, netloc, path) + mark; forall i :: 0 <= i < |before| ==> before[i] !in REMOVED
  {
  }

  lemma NetlocFirst(netloc: string, path: string, mark: string, clean: string)
    requires (forall i :: 0 <= i < |netloc| ==> netloc[i] !in {'/', '?', '#'}) && IsMark(mark)
    requires path != "" ==> path[0] == '/'
    ensures var rest := AfterScheme(netloc, path, mark, clean);
      "//" <= rest && FindAny(rest, {'/', '?', '#'}, 2) == 2 + |netloc|
      && rest[2..2 + |netloc|] == netloc && rest[2 + |netloc|..] == path + mark + clean
  {
    var rest := AfterScheme(netloc, path, mark, clean);
    var after := path + mark + clean;
    assert after[0] in {'/', '?', '#'};
    assert rest[2..2 + |netloc|] == netloc && rest[2 + |netloc|..] == after;
    forall j | 2 <= j < 2 + |netloc| ensures rest[j] !in {'/', '?', '#'} {
      assert rest[j] == netloc[j - 2];
    }
    assert rest[2 + |netloc|] == after[0];
    FoundAt(rest, {'/', '?', '#'}, 2, 2 + |netloc|);
  }

  lemma PathFirst(path: string, clean: string)
    requires forall i :: 0 <= i < |path| ==> path[i] !in {'?', '#'}
    ensures var after := path + TREE + clean;
      var p := after[..FindAny(after, {'?', '#'}, 0)];
      path + TREE <= p && path + TREE <= WithoutParams(p)
  {
    hide WithoutParams;
    var after := path + TREE + clean;
    var q := FindAny(after, {'?', '#'}, 0);
    assert forall j :: 0 <= j < |path| + 6 ==> after[j] == (path + TREE)[j];
    var p := after[..q];
    assert p == path + TREE + p[|path| + 6..];
    MarkerSurvives(path, p[|path| + 6..]);
  }

  /** The marker is first found after the path exactly when no segment of the path is `tree`. */
  lemma MarkerFirst(path: string, p: string)
    requires path + TREE <= p
    ensures Find(p, TREE, 0) == |path| <==> !HasTreeSegment(path)
    ensures Find(p, TREE, 0) <= |path|
  {
    assert At(p, TREE, |path|) by { assert p[|path|..|path| + 6] == (path + TREE)[|path|..]; }
    forall k | 0 <= k < |path| ensures At(p, TREE, k) <==> At(path + "/", TREE, k) {
      SameAt(path, p, k);
    }
  }

  /** Before the end of the path, the marker occurs in the printed path where it occurs in the path with a
      final slash. */
  lemma SameAt(path: string, p: string, k: nat)
    requires path + TREE <= p && k < |path|
    ensures At(p, TREE, k) <==> At(path + "/", TREE, k)
  {
    if k + 6 <= |path| + 1 {
      assert p[k..k + 6] == (path + "/")[k..k + 6];
    } else {
      // The marker's slashes are five apart, so it cannot overlap its own beginning.
      assert p[|path|] == '/' && TREE[|path| - k] != '/';
      assert k + 6 <= |p| ==> p[k..k + 6][|path| - k] == '/';
    }
  }

  lemma FoundPath(path: string, p: string)
    requires path + TREE <= p && Find(p, TREE, 0) == |path|
    ensures p[..Find(p, TREE, 0)] == path
  {
  }

  /** Reading a tree URL gives back the repository it was printed from if and only if the repository has a path and
      neither query nor fragment, no segment of the path is `tree`, the scheme is in lower case, and nothing is left to
      normalize. */
  lemma ReadBackExactlyWhen(scheme: string, netloc: string, path: string, query: string, repo: string, branch: string,
                            relPath: string)
    requires IsPlain(scheme, netloc, path) && (query != "" ==> query[0] == '?' || query[0] == '#')
    requires Normalize(repo) == Whole(scheme, netloc, path) + query
    ensures RepoBase(ToTree(repo, branch, relPath)) == Some(Normalize(repo))
      <==>
      (path != "" && query == "" && !HasTreeSegment(path) && IsLowerCase(scheme)
       && Normalize(Normalize(repo)) == Normalize(repo))
  {
    hide SplitUrl, IsPlain, HasTreeSegment, Normalize, Strip, DropSlashes, Lower, IsLowerCase;
    var safeBranch := if Strip(branch) == "" then "main" else Strip(branch);
    var rel := DropSlashes(Strip(relPath));
    var tail := safeBranch + if rel == "" then "" else "/" + rel;
    var whole := Whole(scheme, netloc, path);
    assert ToTree(repo, branch, relPath) == whole + query + TREE + tail;
    if query == "" {
      assert whole + query == whole;
      SplitPrinted(scheme, netloc, path, tail);
      PlainReadBack(scheme, netloc, path, whole + TREE + tail);
    } else {
      assert whole + query + TREE + tail == whole + query[..1] + (query[1..] + TREE + tail);
      QueryHidesMarker(scheme, netloc, path, query[..1], query[1..] + TREE + tail, whole + query);
    }
  }

  lemma PlainReadBack(scheme: string, netloc: string, path: string, url: string)
    requires SplitUrl(url).scheme == Lower(scheme) && SplitUrl(url).netloc == netloc
    requires path + TREE <= SplitUrl(url).path
    ensures var repo := Whole(scheme, netloc, path);
      RepoBase(url) == Some(repo)
      <==>
      (path != "" && !HasTreeSegment(path) && IsLowerCase(scheme) && Normalize(repo) == repo)
  {
    hide SplitUrl, HasTreeSegment, Normalize, Lower, IsLowerCase;
    LowerCase(scheme);
    var p := SplitUrl(url).path;
    MarkerFirst(path, p);
    var k := Find(p, TREE, 0);
    if k == |path| {
      FoundPath(path, p);
      if Lower(scheme) != scheme { CaseDiffers(scheme, netloc, path); }
    } else {
      ShorterDiffers(scheme, netloc, path, p, k);
    }
  }

  /** Behind a query or a fragment the marker is not seen, and what is read is shorter than the repository. */
  lemma QueryHidesMarker(scheme: string, netloc: string, path: string, mark: string, tail: string, repo: string)
    requires IsPlain(scheme, netloc, path) && (mark == "?" || mark == "#") && |repo| > |Whole(scheme, netloc, path)|
    ensures RepoBase(Whole(scheme, netloc, path) + mark + tail) != Some(repo)
  {
    hide IsPlain, SplitUrl, Without, Normalize, HasParams, Find;
    var url := Whole(scheme, netloc, path) + mark + tail;
    SplitParts(scheme, netloc, path, mark, tail);
    PathEnds(path, mark, Without(tail, REMOVED));
    var parts := SplitUrl(url);
    var k := Find(parts.path, TREE, 0);
    NormalizeShortens(parts.scheme + "://" + parts.netloc + parts.path[..k]);
  }

  lemma PathEnds(path: string, mark: string, clean: string)
    requires (mark == "?" || mark == "#")
    ensures FindAny(path + mark + clean, {'?', '#'}, 0) <= |path|
  {
    assert (path + mark + clean)[|path|] == mark[0];
  }

  /** Cut at an earlier marker, the text is shorter than the repository, and normalizing does not lengthen it. */
  lemma ShorterDiffers(scheme: string, netloc: string, path: string, p: string, k: nat)
    requires path + TREE <= p && k < |path|
    ensures Normalize(Lower(scheme) + "://" + netloc + p[..k]) != Whole(scheme, netloc, path)
  {
    NormalizeShortens(Lower(scheme) + "://" + netloc + p[..k]);
  }

  /** With a scheme in lower case the text is another one, of the same length, and normalizing does not lengthen it. */
  lemma CaseDiffers(scheme: string, netloc: string, path: string)
    requires Lower(scheme) != scheme
    ensures Normalize(Lower(scheme) + "://" + netloc + path) != Whole(scheme, netloc, path)
  {
    var url := Lower(scheme) + "://" + netloc + path;
    var i :| 0 <= i < |scheme| && Lower(scheme)[i] != scheme[i];
    assert url[i] == Lower(scheme)[i] && Whole(scheme, netloc, path)[i] == scheme[i];
    NormalizeShortens(url);
  }

  lemma NormalizeShortens(url: string)
    ensures |Normalize(url)| <= |url| && (|Normalize(url)| == |url| ==> Normalize(url) == url)
  {
    var k := SkipSpace(url, 0);
    if k == 0 { assert url[0..] == url; }
  }

  // ----- what normalizing forgets -----

  predicate Blank(s: string) {
    forall i :: 0 <= i < |s| ==> IsSpace(s[i])
  }

  function Slashes(n: nat): (r: string)
    ensures |r| == n && forall i :: 0 <= i < n ==> r[i] == '/'
  {
    if n == 0 then "" else Slashes(n - 1) + "/"
  }

  /** Nothing at either end that normalizing would take. */
  predicate IsCore(url: string) {
    url != "" && !IsSpace(url[0]) && !IsSpace(url[|url| - 1]) && url[|url| - 1] != '/' && !EndsWith(url, ".git")
  }

  lemma {:induction false} StripsBlanks(s: string, blanks: string)
    requires Blank(blanks) && (s != "" ==> !IsSpace(s[|s| - 1]))
    ensures StripRight(s + blanks) == s
  {
    if blanks == "" {
      assert s + blanks == s;
    } else {
      assert (s + blanks)[..|s + blanks| - 1] == s + blanks[..|blanks| - 1];
      StripsBlanks(s, blanks[..|blanks| - 1]);
    }
  }

  lemma SkipsBlanks(blanks: string, s: string)
    requires Blank(blanks) && s != "" && !IsSpace(s[0])
    ensures SkipSpace(blanks + s, 0) == |blanks|
  {
    assert (blanks + s)[|blanks|] == s[0];
    assert forall i :: 0 <= i < |blanks| ==> (blanks + s)[i] == blanks[i];
  }

  lemma {:induction false} StripsSlashes(s: string, n: nat)
    requires s != "" ==> s[|s| - 1] != '/'
    ensures StripSlashes(s + Slashes(n)) == s
  {
    if n == 0 {
      assert s + Slashes(0) == s;
    } else {
      assert (s + Slashes(n))[..|s + Slashes(n)| - 1] == s + Slashes(n - 1);
      StripsSlashes(s, n - 1);
    }
  }

  /** White space around a URL, slashes at its end and `.git` before them are forgotten, and nothing else is. */
  lemma NormalizeForgets(before: string, core: string, git: bool, n: nat, after: string)
    requires Blank(before) && Blank(after) && IsCore(core)
    ensures Normalize(before + core + (if git then ".git" else "") + Slashes(n) + after) == core
  {
    hide StripRight, StripSlashes, SkipSpace;
    var named := core + if git then ".git" else "";
    var url := named + Slashes(n);
    var whole := before + core + (if git then ".git" else "") + Slashes(n) + after;
    assert whole == before + (url + after);
    assert url[0] == core[0] && !IsSpace(url[|url| - 1]);
    SkipsBlanks(before, url + after);
    assert whole[|before|..] == url + after;
    StripsBlanks(url, after);
    StripsSlashes(named, n);
    if git { assert named[..|named| - 4] == core && named[|named| - 4..] == ".git"; } else { assert named == core; }
  }

  // ----- what splitting forgets -----

  lemma {:induction false} WithoutTwice(s: string, chars: set<char>)
    ensures Without(Without(s, chars), chars) == Without(s, chars)
  {
    if s != "" {
      WithoutTwice(s[1..], chars);
      var rest := Without(s[1..], chars);
      assert if s[0] in chars then Without(s, chars) == rest else ([s[0]] + rest)[1..] == rest;
    }
  }

  /** Tabs and line breaks are taken out first or last, whatever is dropped at the start. */
  lemma {:induction false} BreaksAnyTime(s: string)
    ensures Without(DropControls(Without(s, REMOVED)), REMOVED) == Without(DropControls(s), REMOVED)
  {
    if s != "" {
      var rest := Without(s[1..], REMOVED);
      if s[0] in REMOVED {
        assert Without(s, REMOVED) == rest;
        BreaksAnyTime(s[1..]);
      } else if s[0] <= ' ' {
        assert ([s[0]] + rest)[1..] == rest;
        BreaksAnyTime(s[1..]);
      } else {
        assert Without(s, REMOVED) == [s[0]] + rest;
        WithoutTwice(s, REMOVED);
      }
    }
  }

  lemma {:induction false} ControlsDrop(lead: string, url: string)
    requires forall i :: 0 <= i < |lead| ==> lead[i] as int <= 0x20
    ensures DropControls(lead + url) == DropControls(url)
  {
    if lead == "" {
      assert lead + url == url;
    } else {
      assert (lead + url)[1..] == lead[1..] + url;
      ControlsDrop(lead[1..], url);
    }
  }

  /** Control characters and blanks before a URL, and tabs and line breaks anywhere in it, make no difference. */
  lemma SplitForgets(lead: string, url: string)
    requires forall i :: 0 <= i < |lead| ==> lead[i] as int <= 0x20
    ensures SplitUrl(lead + url) == SplitUrl(url) == SplitUrl(Without(url, {'\t', '\r', '\n'}))
  {
    hide Without, DropControls, Lower, HasParams, WithoutParams, FindAny, IsSchemeChar;
    ControlsDrop(lead, url);
    BreaksAnyTime(url);
  }

  // ----- a tree URL tells its parts -----

  /** The branch a tree URL is printed for. */
  function BranchOf(branch: string): string {
    if Strip(branch) == "" then "main" else Strip(branch)
  }

  /** Two texts that go on with a slash or end, after parts without one. */
  lemma SameParts(a: string, b: string, x: string, y: string)
    requires (forall i :: 0 <= i < |a| ==> a[i] != '/') && forall i :: 0 <= i < |b| ==> b[i] != '/'
    requires (x != "" ==> x[0] == '/') && (y != "" ==> y[0] == '/') && a + x == b + y
    ensures a == b && x == y
  {
    FoundAt(a + x, {'/'}, 0, |a|);
    FoundAt(b + y, {'/'}, 0, |b|);
    assert (a + x)[..|a|] == a && (b + y)[..|b|] == b;
    assert (a + x)[|a|..] == x && (b + y)[|b|..] == y;
  }

  /** Tree URLs of one repository are equal only for the same branch and the same path in it, when branches hold no
      slash; a blank branch is `main`. */
  lemma TreeUrlTells(repo: string, branch: string, relPath: string, other: string, otherPath: string)
    requires (forall i :: 0 <= i < |BranchOf(branch)| ==> BranchOf(branch)[i] != '/')
    requires (forall i :: 0 <= i < |BranchOf(other)| ==> BranchOf(other)[i] != '/')
    ensures ToTree(repo, branch, relPath) == ToTree(repo, other, otherPath)
      <==> BranchOf(branch) == BranchOf(other) && DropSlashes(Strip(relPath)) == DropSlashes(Strip(otherPath))
  {
    hide Normalize, Strip, DropSlashes;
    var rel, otherRel := DropSlashes(Strip(relPath)), DropSlashes(Strip(otherPath));
    var x, y := if rel == "" then "" else "/" + rel, if otherRel == "" then "" else "/" + otherRel;
    var front := Normalize(repo) + TREE;
    assert ToTree(repo, branch, relPath) == front + (BranchOf(branch) + x);
    assert ToTree(repo, other, otherPath) == front + (BranchOf(other) + y);
    assert (front + (BranchOf(branch) + x))[|front|..] == BranchOf(branch) + x;
    assert (front + (BranchOf(other) + y))[|front|..] == BranchOf(other) + y;
    if BranchOf(branch) + x == BranchOf(other) + y {
      SameParts(BranchOf(branch), BranchOf(other), x, y);
      if rel != "" && otherRel != "" { assert x[1..] == rel && y[1..] == otherRel; }
    }
  }

  // ----- counting a pack's skills -----

  /** How many of the URLs are read as a repository's. */
  function CountFor(urls: seq<string>, repo: string): nat {
    if urls == [] then 0
    else CountFor(urls[..|urls| - 1], repo) + if RepoBase(urls[|urls| - 1]) == Some(repo) then 1 else 0
  }

  function CountIn(counts: map<string, nat>, repo: string): nat {
    if repo in counts then counts[repo] else 0
  }

  method BuildSkillCountByRepo(urls: seq<string>) returns (counts: map<string, nat>)
    ensures forall repo :: CountIn(counts, repo) == CountFor(urls, repo)
  {
    hide RepoBase;
    counts := map[];
    for k := 0 to |urls|
      invariant forall repo :: CountIn(counts, repo) == CountFor(urls[..k], repo)
    {
      assert urls[..k + 1][..k] == urls[..k];
      var base := RepoBase(urls[k]);
      if base.None? { continue; }
      counts := counts[base.value := CountIn(counts, base.value) + 1];
    }
    assert urls[..|urls|] == urls;
  }

  /** What a skill's URL was built from. */
  datatype Origin = Origin(repo: string, branch: string, relPath: string)

  function Url(o: Origin): string {
    ToTree(o.repo, o.branch, o.relPath)
  }

  /** The repository is one whose tree URLs are read back. */
  predicate ReadsBack(repo: string, scheme: string, netloc: string, path: string) {
    && IsPlain(scheme, netloc, path) && Normalize(repo) == Whole(scheme, netloc, path)
    && path != "" && !HasTreeSegment(path) && IsLowerCase(scheme) && Normalize(Normalize(repo)) == Normalize(repo)
  }

  ghost predicate Readable(repo: string) {
    exists scheme, netloc, path :: ReadsBack(repo, scheme, netloc, path)
  }

  function Urls(origins: seq<Origin>): (r: seq<string>)
    ensures |r| == |origins|
  {
    if origins == [] then [] else Urls(origins[..|origins| - 1]) + [Url(origins[|origins| - 1])]
  }

  /** How many skills were built for a repository. */
  function BuiltFor(origins: seq<Origin>, repo: string): nat {
    if origins == [] then 0
    else BuiltFor(origins[..|origins| - 1], repo) + if Normalize(origins[|origins| - 1].repo) == repo then 1 else 0
  }

  /** A pack's skill count is the number of skills built for its repository, when every skill was built for a
      repository whose tree URLs are read back. */
  lemma {:induction false} SkillCountIsExact(origins: seq<Origin>, packUrl: string)
    requires forall o <- origins :: Readable(o.repo)
    ensures CountFor(Urls(origins), Normalize(packUrl)) == BuiltFor(origins, Normalize(packUrl))
  {
    hide Normalize, RepoBase, ToTree, ReadsBack, Readable, Url;
    if origins != [] {
      var front, o := origins[..|origins| - 1], origins[|origins| - 1];
      SkillCountIsExact(front, packUrl);
      assert Urls(origins)[..|origins| - 1] == Urls(front);
      OriginReadBack(o);
    }
  }

  lemma OriginReadBack(o: Origin)
    requires Readable(o.repo)
    ensures RepoBase(Url(o)) == Some(Normalize(o.repo))
  {
    hide Normalize, RepoBase, ToTree;
    var scheme, netloc, path :| ReadsBack(o.repo, scheme, netloc, path);
    assert Normalize(o.repo) == Whole(scheme, netloc, path) + "";
    ReadBackExactlyWhen(scheme, netloc, path, "", o.repo, o.branch, o.relPath);
  }

  /** The catalogue entries whose URL is read as a repository's. */
  function ReadAs(urls: seq<string>, repo: string): set<nat> {
    set k | 0 <= k < |urls| && RepoBase(urls[k]) == Some(repo)
  }

  lemma {:induction false} CountsEntries(urls: seq<string>, repo: string)
    ensures CountFor(urls, repo) == |ReadAs(urls, repo)|
  {
    hide RepoBase;
    if urls != [] {
      var front, last := urls[..|urls| - 1], |urls| - 1;
      CountsEntries(front, repo);
      assert ReadAs(front, repo) == ReadAs(urls, repo) - {last};
    }
  }

  /** With the counts built from the catalogue, a pack's count is the number of entries read as its repository's,
      and so the number of skills built for it when all of them can be read back. */
  method PackSkillCount(packUrl: string, counts: map<string, nat>, ghost urls: seq<string>) returns (count: nat)
    requires forall repo :: CountIn(counts, repo) == CountFor(urls, repo)
    ensures count == |ReadAs(urls, Normalize(packUrl))|
    ensures forall origins: seq<Origin> :: urls == Urls(origins) && (forall o <- origins :: Readable(o.repo)) ==>
              count == BuiltFor(origins, Normalize(packUrl))
  {
    hide Normalize, RepoBase, Readable, CountFor, BuiltFor, Urls, ReadAs;
    var base := Normalize(packUrl);
    count := if base in counts then counts[base] else 0;
    assert count == CountIn(counts, base);
    CountsEntries(urls, base);
    forall origins: seq<Origin> | urls == Urls(origins) && forall o <- origins :: Readable(o.repo)
      ensures count == BuiltFor(origins, base)
    {
      SkillCountIsExact(origins, packUrl);
    }
  }
}
