/** Previews of payloads: the streaming truncation stops early and yet gives what truncating the whole text would. */
module Preview {

  function Truncate(raw: string, limit: nat): string {
    if |raw| <= limit then raw
    else if limit <= 3 then raw[..limit]
    else raw[..limit - 3] + "..."
  }

  function Joined(chunks: seq<string>): string {
    if chunks == [] then "" else Joined(chunks[..|chunks| - 1]) + chunks[|chunks| - 1]
  }

  lemma JoinedSteps(chunks: seq<string>, k: nat)
    requires k < |chunks|
    ensures Joined(chunks[..k + 1]) == Joined(chunks[..k]) + chunks[k]
  {
    assert chunks[..k + 1][..k] == chunks[..k];
  }

  /** A text of several chunks begins with the text of the first of them. */
  lemma {:induction false} JoinedPrefix(chunks: seq<string>, k: nat)
    requires k <= |chunks|
    ensures Joined(chunks[..k]) <= Joined(chunks)
    decreases |chunks|
  {
    if k < |chunks| {
      var front := chunks[..|chunks| - 1];
      assert front[..k] == chunks[..k];
      JoinedPrefix(front, k);
    } else {
      assert chunks[..k] == chunks;
    }
  }

  /** The loop over the encoder's chunks. It keeps at most one character more than the limit. */
  method PreviewWithLimit(chunks: seq<string>, limit: nat) returns (preview: string, truncated: bool)
    ensures preview == Truncate(Joined(chunks), limit)
    ensures truncated <==> |Joined(chunks)| > limit
    ensures |preview| <= limit
  {
    var parts: seq<string> := [];
    var currentLen := 0;
    truncated := false;
    var k := 0;
    while k < |chunks|
      invariant 0 <= k <= |chunks|
      invariant !truncated && Joined(parts) == Joined(chunks[..k]) && currentLen == |Joined(parts)| <= limit + 1
    {
      JoinedSteps(chunks, k);
      JoinedPrefix(chunks, k + 1);
      var chunk := chunks[k];
      var remaining := limit + 1 - currentLen;
      if remaining <= 0 {
        truncated := true;
        break;
      }
      if |chunk| <= remaining {
        PartsGrow(parts, chunk);
        parts := parts + [chunk];
        currentLen := currentLen + |chunk|;
        k := k + 1;
        continue;
      }
      PartsGrow(parts, chunk[..remaining]);
      parts := parts + [chunk[..remaining]];
      currentLen := currentLen + remaining;
      truncated := true;
      break;
    }
    var raw := Join(parts);
    assert chunks[..|chunks|] == chunks;
    JoinedPrefix(chunks, k);
    if |raw| > limit {
      truncated := true;
    }
    if !truncated {
      return raw, false;
    }
    SamePrefix(raw, Joined(chunks), limit);
    preview := Truncate(raw, limit);
    truncated := true;
  }

  method Join(parts: seq<string>) returns (raw: string)
    ensures raw == Joined(parts)
  {
    raw := "";
    for k := 0 to |parts|
      invariant raw == Joined(parts[..k])
    {
      JoinedSteps(parts, k);
      raw := raw + parts[k];
    }
    assert parts[..|parts|] == parts;
  }

  lemma PartsGrow(parts: seq<string>, more: string)
    ensures Joined(parts + [more]) == Joined(parts) + more
  {
    assert (parts + [more])[..|parts|] == parts;
  }

  /** Two texts longer than the limit that begin alike are truncated alike. */
  lemma SamePrefix(raw: string, whole: string, limit: nat)
    requires raw <= whole && |raw| > limit
    ensures Truncate(raw, limit) == Truncate(whole, limit)
  {
    assert whole[..limit] == raw[..limit];
    if limit > 3 { assert whole[..limit - 3] == raw[..limit - 3]; }
  }

  /** A text within the limit is shown whole. */
  lemma ShortIsWhole(raw: string, limit: nat)
    ensures Truncate(raw, limit) == raw <==> |raw| <= limit
  {
  }

  /** A preview that is shortened shows the beginning of the text, and says so with dots when there is room. */
  lemma ShortenedShowsBeginning(raw: string, limit: nat)
    requires |raw| > limit
    ensures |Truncate(raw, limit)| == limit
    ensures limit <= 3 ==> Truncate(raw, limit) <= raw
    ensures limit > 3 ==> Truncate(raw, limit)[..limit - 3] <= raw && Truncate(raw, limit)[limit - 3..] == "..."
  {
  }
}
