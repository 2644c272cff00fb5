/** Python's notion of white space, shared by the JSON reader and the URL normalizers. */
module PythonText {

  /** `str.isspace()` of one character. */
  predicate IsSpace(c: char) {
    var p := c as int;
    || 0x09 <= p <= 0x0D || 0x1C <= p <= 0x20 || p == 0x85 || p == 0xA0 || p == 0x1680
    || 0x2000 <= p <= 0x200A || p == 0x2028 || p == 0x2029 || p == 0x202F || p == 0x205F || p == 0x3000
  }

  /** The twenty-nine characters Python calls space, by their code points. */
  const SPACES: set<int> := {
    9, 10, 11, 12, 13, 28, 29, 30, 31, 32, 133, 160, 5760, 8192, 8193, 8194, 8195, 8196, 8197, 8198, 8199, 8200, 8201,
    8202, 8232, 8233, 8239, 8287, 12288
  }

  lemma SpacesListed(c: char)
    ensures IsSpace(c) <==> c as int in SPACES
  {
  }

  /** The first position from `i` on that does not hold white space. */
  function SkipSpace(s: string, i: nat): (j: nat)
    requires i <= |s|
    ensures i <= j <= |s|
    ensures j < |s| ==> !IsSpace(s[j])
    ensures forall k :: i <= k < j ==> IsSpace(s[k])
    decreases |s| - i
  {
    if i < |s| && IsSpace(s[i]) then SkipSpace(s, i + 1) else i
  }
}
