/** Sums of the values of a map, in no particular order. */
module Sums {

  ghost function Total<K>(m: map<K, real>): real {
    if m == map[] then 0.0
    else
      assert m.Keys != {};
      var k :| k in m.Keys;
      m[k] + Total(m - {k})
  }

  /** Any key may be counted first. */
  lemma {:induction false} TotalWith<K>(m: map<K, real>, k: K)
    requires k in m
    ensures Total(m) == m[k] + Total(m - {k})
    decreases |m|
  {
    assert m.Keys != {} && m != map[];
    var first :| first in m.Keys && Total(m) == m[first] + Total(m - {first});
    if first != k {
      TotalWith(m - {first}, k);
      TotalWith(m - {k}, first);
      assert m - {first} - {k} == m - {k} - {first};
    }
  }

  function ValueOf<K>(m: map<K, real>, k: K): real {
    if k in m then m[k] else 0.0
  }

  /** The values of the listed keys; a key that is missing counts nothing. */
  function SumOver<K>(m: map<K, real>, keys: seq<K>): real {
    if keys == [] then 0.0 else SumOver(m, keys[..|keys| - 1]) + ValueOf(m, keys[|keys| - 1])
  }

  predicate NoRepeats<K(==)>(keys: seq<K>) {
    forall i, j :: 0 <= i < j < |keys| ==> keys[i] != keys[j]
  }

  /** Listing every key of a map once sums the whole map. */
  lemma {:induction false} SumOverAll<K>(m: map<K, real>, keys: seq<K>)
    requires NoRepeats(keys) && forall k :: k in m ==> k in keys
    ensures SumOver(m, keys) == Total(m)
  {
    if keys == [] {
      assert m == map[];
    } else {
      var front, k := keys[..|keys| - 1], keys[|keys| - 1];
      var rest := m - {k};
      SumOverAll(rest, front);
      SumOverWithout(m, front, k);
      if k in m { TotalWith(m, k); } else { assert rest == m; }
    }
  }

  lemma {:induction false} SumOverWithout<K>(m: map<K, real>, keys: seq<K>, k: K)
    requires k !in keys
    ensures SumOver(m - {k}, keys) == SumOver(m, keys)
  {
    if keys != [] { SumOverWithout(m, keys[..|keys| - 1], k); }
  }
}
