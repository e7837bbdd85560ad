/** A JavaScript `Map`: key/value entries in insertion order, each key at most once.
    Iteration order matters to the source (strict-mode removals follow it), so the model
    keeps the entries as a sequence rather than a Dafny `map`. */
module OrderedMap {
  import opened Optional
  import opened Seqs

  predicate KeysDistinct<K(==), V>(m: seq<(K, V)>) {
    forall i, j :: 0 <= i < j < |m| ==> m[i].0 != m[j].0
  }

  type OMap<K(==), V> = m: seq<(K, V)> | KeysDistinct(m) witness []

  /** `Map.prototype.has`. */
  predicate Has<K(==), V>(m: seq<(K, V)>, k: K) {
    exists i :: 0 <= i < |m| && m[i].0 == k
  }

  /** The position of key `k` in iteration order. */
  function IndexOfKey<K(==), V>(m: seq<(K, V)>, k: K): (i: nat)
    requires Has(m, k)
    ensures i < |m| && m[i].0 == k
    ensures forall j :: 0 <= j < i ==> m[j].0 != k
    decreases |m|
  {
    if m[0].0 == k then 0
    else
      assert Has(m[1..], k) by {
        var j :| 0 <= j < |m| && m[j].0 == k;
        assert m[1..][j - 1].0 == k;
      }
      1 + IndexOfKey(m[1..], k)
  }

  /** `Map.prototype.get`: the value stored under `k`, `None` for `undefined`. */
  function Get<K(==), V>(m: OMap<K, V>, k: K): (r: Option<V>)
    ensures r.Some? <==> Has(m, k)
    ensures r.Some? ==> (k, r.value) in m
    ensures forall i :: 0 <= i < |m| && m[i].0 == k ==> r == Some(m[i].1)
  {
    if Has(m, k) then Some(m[IndexOfKey(m, k)].1) else None
  }

  /** `Map.prototype.set`: a present key keeps its position and takes the new value;
      an absent key is appended. */
  function Set<K(==), V>(m: OMap<K, V>, k: K, v: V): (r: OMap<K, V>)
    ensures Get(r, k) == Some(v)
    ensures |r| == if Has(m, k) then |m| else |m| + 1
    ensures forall i :: 0 <= i < |m| ==> r[i].0 == m[i].0 && (m[i].0 != k ==> r[i] == m[i])
    ensures !Has(m, k) ==> r[|m|] == (k, v)
  {
    if Has(m, k) then
      var i := IndexOfKey(m, k);
      var r := m[i := (k, v)];
      assert r[i].0 == k;
      r
    else
      var r := m + [(k, v)];
      assert r[|m|].0 == k;
      r
  }

  /** `map.set(k, v)` for each entry in turn; keys already present keep their positions. */
  function SetAll<K(==), V>(m: OMap<K, V>, entries: seq<(K, V)>): (r: OMap<K, V>)
    ensures |r| >= |m| && forall i :: 0 <= i < |m| ==> r[i].0 == m[i].0
    decreases |entries|
  {
    if |entries| == 0 then m else SetAll(Set(m, entries[0].0, entries[0].1), entries[1..])
  }

  /** After setting all entries, every entry's key is present. */
  lemma {:induction false} SetAllHas<K, V>(m: OMap<K, V>, entries: seq<(K, V)>, i: nat)
    requires i < |entries|
    ensures Has(SetAll(m, entries), entries[i].0)
    decreases |entries|
  {
    var m1 := Set(m, entries[0].0, entries[0].1);
    if i == 0 {
      var j := IndexOfKey(m1, entries[0].0);
      assert SetAll(m1, entries[1..])[j].0 == entries[0].0;
    } else {
      SetAllHas(m1, entries[1..], i - 1);
    }
  }

  /** No key appears that neither was present nor is set by an entry. */
  lemma {:induction false} SetAllOnly<K, V>(m: OMap<K, V>, entries: seq<(K, V)>, k: K)
    requires Has(SetAll(m, entries), k)
    ensures Has(m, k) || exists j :: 0 <= j < |entries| && entries[j].0 == k
    decreases |entries|
  {
    if |entries| > 0 {
      var m1 := Set(m, entries[0].0, entries[0].1);
      SetAllOnly(m1, entries[1..], k);
      if Has(m1, k) && k != entries[0].0 {
        var i := IndexOfKey(m1, k);
        assert i < |m| && m[i].0 == k;
      } else if !Has(m1, k) {
        var j :| 0 <= j < |entries[1..]| && entries[1..][j].0 == k;
        assert entries[j + 1].0 == k;
      }
    }
  }

  /** The last entry for a key decides its value. */
  lemma {:induction false} SetAllLastWins<K, V>(m: OMap<K, V>, entries: seq<(K, V)>, i: nat)
    requires i < |entries|
    requires forall j :: i < j < |entries| ==> entries[j].0 != entries[i].0
    ensures Get(SetAll(m, entries), entries[i].0) == Some(entries[i].1)
    decreases |entries|
  {
    var m1 := Set(m, entries[0].0, entries[0].1);
    if i == 0 {
      SetAllUntouched(m1, entries[1..], entries[0].0);
    } else {
      SetAllLastWins(m1, entries[1..], i - 1);
    }
  }

  /** A key no entry sets keeps its value. */
  lemma {:induction false} SetAllUntouched<K, V>(m: OMap<K, V>, entries: seq<(K, V)>, k: K)
    requires forall j :: 0 <= j < |entries| ==> entries[j].0 != k
    ensures Get(SetAll(m, entries), k) == Get(m, k)
    decreases |entries|
  {
    if |entries| > 0 {
      var m1 := Set(m, entries[0].0, entries[0].1);
      SetAllUntouched(m1, entries[1..], k);
      SetOther(m, entries[0].0, entries[0].1, k);
    }
  }

  /** Setting one key leaves every other key's lookup unchanged. */
  lemma SetOther<K, V>(m: OMap<K, V>, k: K, v: V, k2: K)
    requires k2 != k
    ensures Get(Set(m, k, v), k2) == Get(m, k2)
  {
    var r := Set(m, k, v);
    if Has(m, k2) {
      var i := IndexOfKey(m, k2);
      assert r[i] == m[i];
    }
  }

  /** Filtering keeps keys distinct. */
  lemma FilterKeepsDistinct<K, V>(m: seq<(K, V)>, p: ((K, V)) -> bool)
    requires KeysDistinct(m)
    ensures KeysDistinct(Filter(m, p))
  {
    FilterKeepsOrder(m, p);
  }

  /** The entries a filter keeps appear in the order the map iterates them. */
  lemma {:induction false} FilterKeepsOrder<K, V>(m: seq<(K, V)>, p: ((K, V)) -> bool)
    requires KeysDistinct(m)
    ensures forall i :: 0 <= i < |Filter(m, p)| ==> Has(m, Filter(m, p)[i].0)
    ensures forall i, j :: 0 <= i < j < |Filter(m, p)| ==>
              IndexOfKey(m, Filter(m, p)[i].0) < IndexOfKey(m, Filter(m, p)[j].0)
    decreases |m|
  {
    var f := Filter(m, p);
    forall i | 0 <= i < |f| ensures Has(m, f[i].0) {
      var x := f[i];
      assert x in m;
      var j :| 0 <= j < |m| && m[j] == x;
    }
    if |m| > 0 {
      var tail := m[1..];
      FilterKeepsOrder(tail, p);
      var ft := Filter(tail, p);
      assert f == (if p(m[0]) then [m[0]] else []) + ft;
      forall k | 0 <= k < |ft| ensures IndexOfKey(m, ft[k].0) == 1 + IndexOfKey(tail, ft[k].0) && m[0].0 != ft[k].0 {
        var j := IndexOfKey(tail, ft[k].0);
        assert m[j + 1].0 == ft[k].0;
      }
    }
  }
}
