/** What decoding a prefix of a text says about decoding the whole text. Everything but a bare number
    decodes on a prefix exactly when its end lies inside the prefix, with the same value; a bare
    number decodes as soon as its first digit is there, and may come out shorter. */
module JsonPrefix {
  import opened Wrappers
  import opened Json

  /** A parse cut off at `b`: kept when it ends inside the first `b` characters, lost otherwise. */
  function Clip<T>(r: Parsed<T>, b: nat): Parsed<T> {
    if r.Good? && r.end <= b then r else Bad
  }

  /** The characters a number literal can go on with after one of its complete prefixes. */
  predicate MidNumber(c: char) {
    IsDigit(c) || c == '.' || c == 'e' || c == 'E'
  }

  lemma {:induction false} SkipWsPrefix(s: string, b: nat, i: nat)
    requires i <= b <= |s|
    ensures SkipWs(s[..b], i) == if SkipWs(s, i) <= b then SkipWs(s, i) else b
    decreases b - i
  {
    if i < b && IsWs(s[i]) { SkipWsPrefix(s, b, i + 1); }
  }

  lemma {:induction false} DigitsEndPrefix(s: string, b: nat, i: nat)
    requires i <= b <= |s|
    ensures DigitsEnd(s[..b], i) == if DigitsEnd(s, i) <= b then DigitsEnd(s, i) else b
    ensures forall k :: i <= k < DigitsEnd(s, i) ==> IsDigit(s[k])
    decreases |s| - i
  {
    if i < b && IsDigit(s[i]) {
      DigitsEndPrefix(s, b, i + 1);
    } else if i < |s| && IsDigit(s[i]) {
      DigitsEndPrefix(s, |s|, i + 1);
      assert s[..|s|] == s;
    }
  }

  /** A number literal cut after its first digit still decodes, to one of its prefixes; what is left
      of it then starts with a digit, a point or an exponent letter. */
  lemma NumberPrefix(s: string, b: nat, i: nat)
    requires i < b <= |s|
    ensures NumberEnd(s, i).None? || b <= FirstDigit(s, i) ==> NumberEnd(s[..b], i).None?
    ensures NumberEnd(s, i).Some? && NumberEnd(s, i).value <= b ==> NumberEnd(s[..b], i) == NumberEnd(s, i)
    ensures NumberEnd(s, i).Some? && FirstDigit(s, i) < b < NumberEnd(s, i).value ==>
              NumberEnd(s[..b], i).Some? && NumberEnd(s[..b], i).value <= b &&
              MidNumber(s[NumberEnd(s[..b], i).value])
  {
    hide DigitsEnd, FractionEnd, ExponentEnd;
    var d := FirstDigit(s, i);
    if d < b && IsDigit(s[d]) {
      DigitsEndPrefix(s, b, d + 1);
      var n := IntegerEnd(s, d);
      if n <= b {
        FractionPrefix(s, b, n);
        var f := FractionEnd(s, n);
        if f <= b { ExponentPrefix(s, b, f); }
      }
    }
  }

  lemma FractionPrefix(s: string, b: nat, i: nat)
    requires i <= b <= |s|
    ensures var e := FractionEnd(s, i); var q := FractionEnd(s[..b], i);
            if e <= b then q == e else q <= b && MidNumber(s[q]) && ExponentEnd(s[..b], q) == q
  {
    if i + 1 < b { DigitsEndPrefix(s, b, i + 2); }
    if i + 1 < |s| { DigitsEndPrefix(s, |s|, i + 2); }
  }

  lemma ExponentPrefix(s: string, b: nat, i: nat)
    requires i <= b <= |s|
    ensures var e := ExponentEnd(s, i); var q := ExponentEnd(s[..b], i);
            if e <= b then q == e else q <= b && MidNumber(s[q])
  {
    if i < |s| && (s[i] == 'e' || s[i] == 'E') {
      var k := if i + 1 < |s| && (s[i + 1] == '+' || s[i + 1] == '-') then i + 2 else i + 1;
      if k < b { DigitsEndPrefix(s, b, k + 1); }
    }
  }

  lemma ConstantPrefix(s: string, b: nat, i: nat)
    requires i < b <= |s|
    ensures ConstantAt(s[..b], i) ==
            if i + |ConstantFor(s[i])| <= b then ConstantAt(s, i) else None
  {
  }

  lemma Hex4Prefix(s: string, b: nat, i: nat)
    requires b <= |s|
    ensures Hex4(s[..b], i) == if i + 4 <= b then Hex4(s, i) else None
  {
    hide HexDigit;
  }

  /** An escape cut by the prefix decodes to nothing; only a surrogate pair can be cut in two, and
      then the rest of the pair is an unfinished escape. */
  lemma EscapePrefix(s: string, b: nat, i: nat)
    requires i < b <= |s|
    ensures var w := EscapeAt(s, i); var q := EscapeAt(s[..b], i);
            q == Clip(w, b) ||
            (w.Good? && w.end > b && q.Good? && q.end <= b &&
             (q.end == b || (s[q.end] == '\\' && EscapeAt(s[..b], q.end).Bad?)))
  {
    hide Hex4, SimpleEscape;
    Hex4Prefix(s, b, i + 2);
    Hex4Prefix(s, b, i + 8);
  }

  lemma {:induction false} ScanStringPrefix(s: string, b: nat, i: nat, acc: seq<nat>)
    requires i <= b <= |s|
    ensures ScanString(s[..b], i, acc) == Clip(ScanString(s, i, acc), b)
    decreases |s| - i
  {
    if i == b || s[i] as int <= 0x1F || s[i] == '"' {
    } else if s[i] != '\\' {
      ScanStringPrefix(s, b, i + 1, acc + [s[i] as nat]);
    } else {
      EscapePrefix(s, b, i);
      var w := EscapeAt(s, i);
      if w.Good? && w.end <= b { ScanStringPrefix(s, b, w.end, acc + [w.value]); }
    }
  }

  /** A value that is not a bare number decodes on a prefix exactly when it ends inside it. */
  lemma {:induction false} ValuePrefix(s: string, b: nat, i: nat)
    requires i <= b <= |s|
    requires i < b ==> NumberEnd(s, i).None?
    ensures ParseValue(s[..b], i) == Clip(ParseValue(s, i), b)
    decreases |s| - i, 0
  {
    hide ScanString, ParseMembers, ParseElements;
    if i < b {
      NumberPrefix(s, b, i);
      ConstantPrefix(s, b, i);
      ScanStringPrefix(s, b, i + 1, []);
      SkipWsPrefix(s, b, i + 1);
      var j := SkipWs(s, i + 1);
      if j <= b && s[i] == '{' { MembersPrefix(s, b, j, []); }
      if j <= b && s[i] == '[' { ElementsPrefix(s, b, j, []); }
    }
  }

  /** Where a number starts, the decoder finds that number and nothing else. */
  lemma NumberIsDecoded(s: string, i: nat)
    requires i < |s| && NumberEnd(s, i).Some?
    ensures ParseValue(s, i) == Good(Num(s[i..NumberEnd(s, i).value]), NumberEnd(s, i).value)
  {
    if s[i] == '-' {
      assert "-Infinity"[1] == 'I';
      assert ConstantAt(s, i).None?;
    }
  }

  /** The value inside an array or object: on a prefix that cuts it, it is lost, or it is a shortened
      number that ends at the cut or in front of the rest of the number. */
  lemma {:induction false} InnerValuePrefix(s: string, b: nat, i: nat)
    requires i <= b <= |s|
    ensures var v := ParseValue(s, i); var q := ParseValue(s[..b], i);
            if v.Good? && v.end <= b then q == v
            else q.Good? ==> q.end == b || MidNumber(s[q.end])
    decreases |s| - i, 1
  {
    if i == b || NumberEnd(s, i).None? {
      ValuePrefix(s, b, i);
    } else {
      var end := NumberEnd(s, i).value;
      NumberPrefix(s, b, i);
      NumberIsDecoded(s, i);
      if NumberEnd(s[..b], i).Some? {
        NumberIsDecoded(s[..b], i);
        if end <= b { assert s[..b][i..end] == s[i..end]; }
      }
    }
  }

  lemma MemberKeyPrefix(s: string, b: nat, i: nat)
    requires i <= b <= |s|
    ensures MemberKey(s[..b], i) == Clip(MemberKey(s, i), b)
  {
    if i < b && s[i] == '"' {
      ScanStringPrefix(s, b, i + 1, []);
      var key := ScanString(s, i + 1, []);
      if key.Good? && key.end <= b { SkipWsPrefix(s, b, key.end); }
    }
  }

  /** The step after a value on a prefix: the same step if it fits, and none if the value was lost. */
  lemma AfterValuePrefix(s: string, b: nat, i: nat, closer: char)
    requires i <= b <= |s|
    ensures var w := AfterValue(s, i, closer); var q := AfterValue(s[..b], i, closer);
            match w
            case Stop => q == Stop
            case Close(end) => q == if end <= b then w else Stop
            case Continue(next) =>
              if next <= b then q == w else q == Stop || q == Continue(b)
  {
    SkipWsPrefix(s, b, i);
    var m := SkipWs(s, i);
    if m < b { SkipWsPrefix(s, b, m + 1); }
  }

  lemma NothingAfterCutNumber(s: string, b: nat, i: nat, closer: char)
    requires i <= b <= |s| && (i == b || MidNumber(s[i])) && (closer == '}' || closer == ']')
    ensures AfterValue(s[..b], i, closer) == Stop
  {
  }

  lemma {:induction false} MembersPrefix(s: string, b: nat, i: nat, acc: seq<Field>)
    requires i <= b <= |s|
    ensures ParseMembers(s[..b], i, acc) == Clip(ParseMembers(s, i, acc), b)
    decreases |s| - i, 2
  {
    MemberKeyPrefix(s, b, i);
    var key := MemberKey(s, i);
    if key.Good? && key.end <= b {
      SkipWsPrefix(s, b, key.end);
      var k := SkipWs(s, key.end);
      if k <= b {
        InnerValuePrefix(s, b, k);
        var v, q := ParseValue(s, k), ParseValue(s[..b], k);
        if v.Good? && v.end <= b {
          AfterValuePrefix(s, b, v.end, '}');
          var after := AfterValue(s, v.end, '}');
          if after.Continue? && after.next <= b {
            MembersPrefix(s, b, after.next, Put(acc, key.value, v.value));
          }
        } else if q.Good? {
          NothingAfterCutNumber(s, b, q.end, '}');
        }
      }
    }
  }

  lemma {:induction false} ElementsPrefix(s: string, b: nat, i: nat, acc: seq<Value>)
    requires i <= b <= |s|
    ensures ParseElements(s[..b], i, acc) == Clip(ParseElements(s, i, acc), b)
    decreases |s| - i, 2
  {
    InnerValuePrefix(s, b, i);
    var v, q := ParseValue(s, i), ParseValue(s[..b], i);
    if v.Good? && v.end <= b {
      AfterValuePrefix(s, b, v.end, ']');
      var after := AfterValue(s, v.end, ']');
      if after.Continue? && after.next <= b {
        ElementsPrefix(s, b, after.next, acc + [v.value]);
      }
    } else if q.Good? {
      NothingAfterCutNumber(s, b, q.end, ']');
    }
  }
}
