/** Synchronising a skill pack: an upsert of the discovered skills into the organization's catalogue. */
module PackSync {
  import opened Wrappers

  /** The fields a candidate carries; `metadata` is empty when it has none. */
  datatype Fields = Fields(name: string, description: Option<string>, category: Option<string>, risk: Option<string>,
                           source: Option<string>, metadata: map<string, string>)

  datatype Candidate = Candidate(url: string, fields: Fields)

  /** A catalogue row, with the instant of its last change. */
  datatype Skill = Skill(url: string, fields: Fields, updatedAt: int)

  predicate DistinctUrls(skills: seq<Skill>) {
    forall i, j :: 0 <= i < j < |skills| ==> skills[i].url != skills[j].url
  }

  /** The index of the row with a URL, or the number of rows. */
  function FindSkill(skills: seq<Skill>, url: string): (k: nat)
    ensures k <= |skills|
    ensures k < |skills| ==> skills[k].url == url
    ensures forall j :: 0 <= j < k ==> skills[j].url != url
  {
    if skills == [] || skills[0].url == url then 0 else 1 + FindSkill(skills[1..], url)
  }

  datatype Outcome = Outcome(skills: seq<Skill>, created: nat, updated: nat)

  /** One candidate against the rows there were before the loop began. */
  function Upsert(o: Outcome, before: seq<Skill>, c: Candidate, now: int): Outcome
    requires |before| <= |o.skills|
  {
    var k := FindSkill(before, c.url);
    if k == |before| then o.(skills := o.skills + [Skill(c.url, c.fields, now)], created := o.created + 1)
    else if o.skills[k].fields == c.fields then o
    else o.(skills := o.skills[k := o.skills[k].(fields := c.fields, updatedAt := now)], updated := o.updated + 1)
  }

  function UpsertAll(before: seq<Skill>, found: seq<Candidate>, now: int): (o: Outcome)
    ensures |before| <= |o.skills|
  {
    if found == [] then Outcome(before, 0, 0)
    else Upsert(UpsertAll(before, found[..|found| - 1], now), before, found[|found| - 1], now)
  }

  /** Two rows may not share a URL: a discovery that names a new URL twice cannot be committed. */
  function Sync(before: seq<Skill>, found: seq<Candidate>, now: int): Option<Outcome> {
    var o := UpsertAll(before, found, now);
    if DistinctUrls(o.skills) then Some(o) else None
  }

  class Catalogue {
    var skills: seq<Skill>

    constructor (skills: seq<Skill>)
      ensures this.skills == skills
    {
      this.skills := skills;
    }

    method ApplyCandidateUpdates(k: nat, c: Candidate) returns (changed: bool)
      requires k < |skills|
      modifies this
      ensures changed <==> old(skills)[k].fields != c.fields
      ensures skills == old(skills)[k := old(skills)[k].(fields := c.fields)]
    {
      changed := false;
      var row := skills[k].fields;
      if row.name != c.fields.name { row := row.(name := c.fields.name); changed := true; }
      if row.description != c.fields.description { row := row.(description := c.fields.description); changed := true; }
      if row.category != c.fields.category { row := row.(category := c.fields.category); changed := true; }
      if row.risk != c.fields.risk { row := row.(risk := c.fields.risk); changed := true; }
      if row.source != c.fields.source { row := row.(source := c.fields.source); changed := true; }
      if row.metadata != c.fields.metadata { row := row.(metadata := c.fields.metadata); changed := true; }
      skills := skills[k := skills[k].(fields := row)];
    }

    method SyncPack(found: seq<Candidate>, now: int) returns (result: Option<(nat, nat)>)
      modifies this
      ensures var sync := Sync(old(skills), found, now);
        if sync.Some? then skills == sync.value.skills && result == Some((sync.value.created, sync.value.updated))
        else result.None? && skills == old(skills)
    {
      var before := skills;
      var created, updated := 0, 0;
      for i := 0 to |found|
        invariant |before| <= |skills|
        invariant Outcome(skills, created, updated) == UpsertAll(before, found[..i], now)
      {
        assert found[..i + 1][..i] == found[..i];
        var c := found[i];
        var k := FindSkill(before, c.url);
        if k == |before| {
          skills := skills + [Skill(c.url, c.fields, now)];
          created := created + 1;
          continue;
        }
        ghost var rows := skills;
        var changed := ApplyCandidateUpdates(k, c);
        if changed {
          skills := skills[k := skills[k].(updatedAt := now)];
          updated := updated + 1;
        } else {
          assert skills == rows;
        }
      }
      assert found[..|found|] == found;
      if !DistinctUrls(skills) {
        skills := before;
        return None;
      }
      return Some((created, updated));
    }
  }

  // ----- what a sync leaves -----

  predicate DistinctFound(found: seq<Candidate>) {
    forall i, j :: 0 <= i < j < |found| ==> found[i].url != found[j].url
  }

  predicate Names(found: seq<Candidate>, url: string) {
    exists c <- found :: c.url == url
  }

  predicate Lists(skills: seq<Skill>, url: string) {
    exists s <- skills :: s.url == url
  }

  /** The old rows stand in place, each with its candidate's fields if it has one. */
  predicate OldRows(before: seq<Skill>, found: seq<Candidate>, after: seq<Skill>, now: int)
    requires |before| <= |after|
  {
    && (forall k :: 0 <= k < |before| ==> after[k].url == before[k].url)
    && (forall k :: 0 <= k < |before| && !Names(found, before[k].url) ==> after[k] == before[k])
    && (forall k, c :: 0 <= k < |before| && c in found && c.url == before[k].url ==>
          after[k].fields == c.fields
          && after[k].updatedAt == if before[k].fields == c.fields then before[k].updatedAt else now)
  }

  /** The other rows are those of the new URLs discovered, one for each. */
  predicate NewRows(before: seq<Skill>, found: seq<Candidate>, rows: seq<Skill>, now: int) {
    && (forall c <- found :: !Lists(before, c.url) ==> Skill(c.url, c.fields, now) in rows)
    && (forall s <- rows :: !Lists(before, s.url) && Candidate(s.url, s.fields) in found && s.updatedAt == now)
    && DistinctUrls(rows)
  }

  predicate Upserted(before: seq<Skill>, found: seq<Candidate>, after: seq<Skill>, now: int) {
    |before| <= |after| && OldRows(before, found, after, now) && NewRows(before, found, after[|before|..], now)
  }

  /** The candidates before position `i` are upserted, each URL once. */
  lemma {:induction false} UpsertingLeaves(before: seq<Skill>, found: seq<Candidate>, now: int)
    requires DistinctUrls(before) && DistinctFound(found)
    ensures Upserted(before, found, UpsertAll(before, found, now).skills, now)
  {
    if found == [] {
      NothingFound(before, now);
    } else {
      var front, c := found[..|found| - 1], found[|found| - 1];
      assert front + [c] == found && forall x <- front :: x.url != c.url;
      hide Upserted;
      UpsertingLeaves(before, front, now);
      OneMore(UpsertAll(before, front, now), before, front, c, now);
    }
  }

  lemma NothingFound(before: seq<Skill>, now: int)
    ensures Upserted(before, [], before, now)
  {
  }

  lemma OneMore(o: Outcome, before: seq<Skill>, front: seq<Candidate>, c: Candidate, now: int)
    requires DistinctUrls(before) && Upserted(before, front, o.skills, now) && forall x <- front :: x.url != c.url
    ensures Upserted(before, front + [c], Upsert(o, before, c, now).skills, now)
  {
    hide Upserted;
    if FindSkill(before, c.url) == |before| {
      OneMoreRow(o.skills, before, front, c, now);
    } else {
      OneMoreEdit(o.skills, before, front, c, FindSkill(before, c.url), now);
    }
  }

  lemma OneMoreRow(rows: seq<Skill>, before: seq<Skill>, front: seq<Candidate>, c: Candidate, now: int)
    requires Upserted(before, front, rows, now) && (forall x <- front :: x.url != c.url) && !Lists(before, c.url)
    ensures Upserted(before, front + [c], rows + [Skill(c.url, c.fields, now)], now)
  {
    hide OldRows, NewRows, Lists;
    var after := rows + [Skill(c.url, c.fields, now)];
    assert after[|before|..] == rows[|before|..] + [Skill(c.url, c.fields, now)];
    NewRowAdded(rows[|before|..], before, front, c, now);
    OldRowsStay(rows, after, before, front, c, now);
  }

  lemma NewRowAdded(rows: seq<Skill>, before: seq<Skill>, front: seq<Candidate>, c: Candidate, now: int)
    requires NewRows(before, front, rows, now) && (forall x <- front :: x.url != c.url) && !Lists(before, c.url)
    ensures NewRows(before, front + [c], rows + [Skill(c.url, c.fields, now)], now)
  {
    assert forall x :: x in front + [c] <==> x in front || x == c;
    hide Lists;
    assert forall s <- rows :: s.url != c.url;
  }

  lemma OldRowsStay(rows: seq<Skill>, after: seq<Skill>, before: seq<Skill>, front: seq<Candidate>, c: Candidate,
                    now: int)
    requires |before| <= |rows| <= |after| && OldRows(before, front, rows, now) && !Lists(before, c.url)
    requires forall k :: 0 <= k < |before| ==> after[k] == rows[k]
    ensures OldRows(before, front + [c], after, now)
  {
    NamesMore(front, c);
    assert forall x :: x in front + [c] <==> x in front || x == c;
    assert forall k :: 0 <= k < |before| ==> before[k] in before && before[k].url != c.url;
    hide Names, Lists;
  }

  lemma NamesMore(front: seq<Candidate>, c: Candidate)
    ensures forall url :: Names(front + [c], url) <==> Names(front, url) || url == c.url
  {
    assert forall x :: x in front + [c] <==> x in front || x == c;
    assert c in front + [c];
  }

  lemma OneMoreEdit(rows: seq<Skill>, before: seq<Skill>, front: seq<Candidate>, c: Candidate, k: nat, now: int)
    requires DistinctUrls(before) && Upserted(before, front, rows, now) && forall x <- front :: x.url != c.url
    requires k < |before| && before[k].url == c.url
    ensures Upserted(before, front + [c], Edited(rows, k, c, now), now)
  {
    hide OldRows, NewRows, Edited;
    OldRowEdited(rows, before, front, c, k, now);
    NoRowAdded(rows[|before|..], before, front, c, k, now);
    SameTail(rows, before, front, c, k, now);
  }

  function Edited(rows: seq<Skill>, k: nat, c: Candidate, now: int): seq<Skill>
    requires k < |rows|
  {
    if rows[k].fields == c.fields then rows else rows[k := rows[k].(fields := c.fields, updatedAt := now)]
  }

  lemma SameTail(rows: seq<Skill>, before: seq<Skill>, front: seq<Candidate>, c: Candidate, k: nat, now: int)
    requires k < |before| <= |rows|
    ensures |Edited(rows, k, c, now)| == |rows| && Edited(rows, k, c, now)[|before|..] == rows[|before|..]
  {
  }

  lemma NoRowAdded(rows: seq<Skill>, before: seq<Skill>, front: seq<Candidate>, c: Candidate, k: nat, now: int)
    requires NewRows(before, front, rows, now) && k < |before| && before[k].url == c.url
    ensures NewRows(before, front + [c], rows, now)
  {
    assert forall x :: x in front + [c] <==> x in front || x == c;
    assert before[k] in before && Lists(before, c.url);
    hide Lists;
  }

  lemma OldRowEdited(rows: seq<Skill>, before: seq<Skill>, front: seq<Candidate>, c: Candidate, k: nat, now: int)
    requires |before| <= |rows| && DistinctUrls(before) && OldRows(before, front, rows, now)
    requires forall x <- front :: x.url != c.url
    requires k < |before| && before[k].url == c.url
    ensures |Edited(rows, k, c, now)| == |rows|
    ensures OldRows(before, front + [c], Edited(rows, k, c, now), now)
  {
    assert !Names(front, c.url);
    NamesMore(front, c);
    assert forall x :: x in front + [c] <==> x in front || x == c;
    hide Names;
    assert rows[k] == before[k];
    assert forall j :: 0 <= j < |before| && j != k ==> before[j].url != c.url && Edited(rows, k, c, now)[j] == rows[j];
  }

  /** A discovery without repeated URLs is always committed: each of its URLs then occurs exactly once, with its
      candidate's fields, and rows with other URLs are as they were. */
  lemma SyncIsUpsert(before: seq<Skill>, found: seq<Candidate>, now: int)
    requires DistinctUrls(before) && DistinctFound(found)
    ensures Sync(before, found, now).Some?
    ensures var after := Sync(before, found, now).value.skills;
      Upserted(before, found, after, now) && DistinctUrls(after)
      && forall c <- found :: Lists(after, c.url) && forall s <- after :: s.url == c.url ==> s.fields == c.fields
  {
    UpsertingLeaves(before, found, now);
    hide UpsertAll;
    var after := UpsertAll(before, found, now).skills;
    UpsertedIsDistinct(before, found, after, now);
    forall c | c in found ensures Lists(after, c.url) && forall s <- after :: s.url == c.url ==> s.fields == c.fields {
      UpsertedHolds(before, found, after, now, c);
    }
  }

  lemma UpsertedIsDistinct(before: seq<Skill>, found: seq<Candidate>, after: seq<Skill>, now: int)
    requires DistinctUrls(before) && Upserted(before, found, after, now)
    ensures DistinctUrls(after)
  {
    forall i, j | 0 <= i < j < |after| ensures after[i].url != after[j].url {
      if i < |before| <= j {
        assert after[j] == after[|before|..][j - |before|];
        assert before[i] in before;
      }
    }
  }

  lemma UpsertedHolds(before: seq<Skill>, found: seq<Candidate>, after: seq<Skill>, now: int, c: Candidate)
    requires DistinctUrls(before) && DistinctFound(found) && Upserted(before, found, after, now) && c in found
    ensures Lists(after, c.url) && forall s <- after :: s.url == c.url ==> s.fields == c.fields
  {
    if Lists(before, c.url) {
      var k :| 0 <= k < |before| && before[k].url == c.url;
      assert after[k] in after;
    } else {
      assert Skill(c.url, c.fields, now) in after;
    }
    forall s | s in after && s.url == c.url ensures s.fields == c.fields {
      var i :| 0 <= i < |after| && after[i] == s;
      if i < |before| {
        assert before[i].url == c.url;
      } else {
        assert s == after[|before|..][i - |before|];
        assert Candidate(s.url, s.fields) in found;
      }
    }
  }

  /** Every candidate already has a row with its fields. */
  predicate UpToDate(skills: seq<Skill>, found: seq<Candidate>) {
    forall c <- found :: FindSkill(skills, c.url) < |skills| && skills[FindSkill(skills, c.url)].fields == c.fields
  }

  lemma {:induction false} NothingToDo(skills: seq<Skill>, found: seq<Candidate>, now: int)
    requires UpToDate(skills, found)
    ensures UpsertAll(skills, found, now) == Outcome(skills, 0, 0)
  {
    if found != [] { NothingToDo(skills, found[..|found| - 1], now); }
  }

  /** Syncing the same discovery again creates and updates nothing. */
  lemma SyncIsIdempotent(before: seq<Skill>, found: seq<Candidate>, now: int, later: int)
    requires DistinctUrls(before) && DistinctFound(found)
    ensures var first := Sync(before, found, now);
      first.Some? && Sync(first.value.skills, found, later) == Some(Outcome(first.value.skills, 0, 0))
  {
    SyncIsUpsert(before, found, now);
    var after := Sync(before, found, now).value.skills;
    hide Sync, UpsertAll, Upserted;
    forall c | c in found
      ensures FindSkill(after, c.url) < |after| && after[FindSkill(after, c.url)].fields == c.fields
    {
      var s :| s in after && s.url == c.url;
      assert after[FindSkill(after, c.url)] in after;
    }
    NothingToDo(after, found, later);
    CommittedWhenDistinct(after, found, later);
  }

  lemma CommittedWhenDistinct(before: seq<Skill>, found: seq<Candidate>, now: int)
    requires DistinctUrls(UpsertAll(before, found, now).skills)
    ensures Sync(before, found, now) == Some(UpsertAll(before, found, now))
  {
  }

  // ----- a URL found twice -----

  /** The fields of the last candidate with a URL, if there is one. */
  function LastFound(found: seq<Candidate>, url: string): Option<Fields> {
    if found == [] then None
    else if found[|found| - 1].url == url then Some(found[|found| - 1].fields)
    else LastFound(found[..|found| - 1], url)
  }

  /** Whatever a discovery repeats, each old row stays in place and ends with its last candidate's fields. */
  lemma {:induction false} LastCandidateWins(before: seq<Skill>, found: seq<Candidate>, now: int, k: nat)
    requires DistinctUrls(before) && k < |before|
    ensures var row := UpsertAll(before, found, now).skills[k];
      var last := LastFound(found, before[k].url);
      row.url == before[k].url && row.fields == if last.Some? then last.value else before[k].fields
  {
    if found != [] {
      var front, c := found[..|found| - 1], found[|found| - 1];
      LastCandidateWins(before, front, now, k);
      assert FindSkill(before, c.url) == k <==> c.url == before[k].url;
    }
  }

  // ----- the counts -----

  function HowManyNew(before: seq<Skill>, found: seq<Candidate>): nat {
    if found == [] then 0
    else
      var last := found[|found| - 1];
      HowManyNew(before, found[..|found| - 1]) + if FindSkill(before, last.url) == |before| then 1 else 0
  }

  function HowManyDiffer(before: seq<Skill>, found: seq<Candidate>): nat {
    if found == [] then 0
    else
      var last := found[|found| - 1];
      var k := FindSkill(before, last.url);
      HowManyDiffer(before, found[..|found| - 1]) + if k < |before| && before[k].fields != last.fields then 1 else 0
  }

  /** The counts reported are those of new URLs, and of rows whose fields differ from their candidate's. */
  lemma {:induction false} CountsAreExact(before: seq<Skill>, found: seq<Candidate>, now: int)
    requires DistinctUrls(before) && DistinctFound(found)
    ensures UpsertAll(before, found, now).created == HowManyNew(before, found)
    ensures UpsertAll(before, found, now).updated == HowManyDiffer(before, found)
  {
    if found != [] {
      var front, c := found[..|found| - 1], found[|found| - 1];
      CountsAreExact(before, front, now);
      UpsertingLeaves(before, front, now);
      var o := UpsertAll(before, front, now);
      var k := FindSkill(before, c.url);
      assert forall x <- front :: x.url != c.url;
      if k < |before| { assert o.skills[k] == before[k]; }
    }
  }

  // ----- repeated URLs -----

  /** The rows a discovery adds, one for each candidate with a new URL, repeated or not. */
  function Added(before: seq<Skill>, found: seq<Candidate>, now: int): seq<Skill> {
    if found == [] then []
    else
      var rest, c := Added(before, found[..|found| - 1], now), found[|found| - 1];
      if FindSkill(before, c.url) == |before| then rest + [Skill(c.url, c.fields, now)] else rest
  }

  lemma {:induction false} OldRowsThenAdded(before: seq<Skill>, found: seq<Candidate>, now: int)
    ensures var after := UpsertAll(before, found, now).skills;
      (forall k :: 0 <= k < |before| ==> after[k].url == before[k].url)
      && after[|before|..] == Added(before, found, now)
  {
    hide FindSkill;
    if found != [] {
      var front, c := found[..|found| - 1], found[|found| - 1];
      OldRowsThenAdded(before, front, now);
      var o := UpsertAll(before, front, now);
      var after := UpsertAll(before, found, now).skills;
      if FindSkill(before, c.url) == |before| {
        assert after[|before|..] == o.skills[|before|..] + [Skill(c.url, c.fields, now)];
      } else {
        assert after[|before|..] == o.skills[|before|..];
      }
    }
  }

  /** A new URL is discovered twice. */
  predicate RepeatsNew(before: seq<Skill>, found: seq<Candidate>) {
    exists i, j :: 0 <= i < j < |found| && found[i].url == found[j].url && FindSkill(before, found[i].url) == |before|
  }

  /** The rows added have exactly the new URLs among those discovered. */
  ghost predicate AddsNewUrls(before: seq<Skill>, found: seq<Candidate>, added: seq<Skill>) {
    forall url :: Lists(added, url) <==> FindSkill(before, url) == |before| && Names(found, url)
  }

  lemma DistinctStep(added: seq<Skill>, row: Skill)
    ensures DistinctUrls(added + [row]) <==> DistinctUrls(added) && !Lists(added, row.url)
    ensures forall url :: Lists(added + [row], url) <==> Lists(added, url) || url == row.url
  {
    var after := added + [row];
    assert forall i :: 0 <= i < |added| ==> after[i] == added[i];
    assert forall s :: s in after <==> s in added || s == row;
    if DistinctUrls(after) {
      assert after[|added|] == row;
    }
    assert row in after;
  }

  lemma RepeatsStep(before: seq<Skill>, front: seq<Candidate>, c: Candidate)
    ensures RepeatsNew(before, front + [c])
      <==> RepeatsNew(before, front) || (FindSkill(before, c.url) == |before| && Names(front, c.url))
  {
    hide FindSkill;
    var found := front + [c];
    assert forall i :: 0 <= i < |front| ==> found[i] == front[i];
    assert found[|front|] == c;
    if RepeatsNew(before, front) {
      var i, j :| 0 <= i < j < |front| && front[i].url == front[j].url && FindSkill(before, front[i].url) == |before|;
      assert found[i].url == found[j].url;
    }
    if FindSkill(before, c.url) == |before| && Names(front, c.url) {
      var i :| 0 <= i < |front| && front[i].url == c.url;
      assert found[i].url == found[|front|].url;
    }
  }

  lemma {:induction false} AddedDistinct(before: seq<Skill>, found: seq<Candidate>, now: int)
    ensures DistinctUrls(Added(before, found, now)) <==> !RepeatsNew(before, found)
    ensures AddsNewUrls(before, found, Added(before, found, now))
  {
    hide FindSkill;
    if found != [] {
      var front, c := found[..|found| - 1], found[|found| - 1];
      AddedDistinct(before, front, now);
      assert front + [c] == found;
      hide RepeatsNew, DistinctUrls, Names, Lists;
      DistinctStep(Added(before, front, now), Skill(c.url, c.fields, now));
      RepeatsStep(before, front, c);
      NamesMore(front, c);
    }
  }

  /** A sync cannot be committed if and only if the discovery names a new URL twice. */
  lemma FailsExactlyOnRepeatedNew(before: seq<Skill>, found: seq<Candidate>, now: int)
    requires DistinctUrls(before)
    ensures Sync(before, found, now).None? <==> RepeatsNew(before, found)
  {
    OldRowsThenAdded(before, found, now);
    AddedDistinct(before, found, now);
    hide UpsertAll, Added, FindSkill, RepeatsNew, Names;
    var after, added := UpsertAll(before, found, now).skills, Added(before, found, now);
    forall i, j | 0 <= i < |before| <= j < |after| ensures after[i].url != after[j].url {
      assert after[j] == added[j - |before|];
      assert Lists(added, after[j].url);
      KnownUrl(before, i);
    }
    assert forall j :: |before| <= j < |after| ==> after[j] == added[j - |before|];
    assert forall j :: 0 <= j < |added| ==> added[j] == after[|before| + j];
  }

  lemma KnownUrl(before: seq<Skill>, i: nat)
    requires i < |before|
    ensures FindSkill(before, before[i].url) < |before|
  {
  }
}
