/** Guava's multimaps (ArrayListMultimap, HashMultimap, LinkedListMultimap)
    with Integer keys, as association lists. The list order is the order in
    which the source iterates `asMap().entrySet()`: insertion order of the
    keys, a fixed choice where the source's hash order is unspecified. As
    in Guava, a key is present only while it has at least one value. */
module Multimaps {

  datatype Entry<V> = Entry(key: int, values: seq<V>)

  type Multimap<V> = seq<Entry<V>>

  /** Keys are distinct and every key carries at least one value. */
  ghost predicate Wf<V>(m: Multimap<V>)
  {
    && (forall i, j :: 0 <= i < j < |m| ==> m[i].key != m[j].key)
    && (forall i :: 0 <= i < |m| ==> m[i].values != [])
  }

  function Keys<V>(m: Multimap<V>): set<int>
  {
    set i | 0 <= i < |m| :: m[i].key
  }

  /** Position of key k in m, or -1 when k is absent. */
  function Find<V>(m: Multimap<V>, k: int): (i: int)
    ensures -1 <= i < |m|
    ensures 0 <= i ==> m[i].key == k
    ensures i < 0 <==> k !in Keys(m)
  {
    if m == [] then -1
    else if m[|m| - 1].key == k then |m| - 1
    else
      var i := Find(m[..|m| - 1], k);
      assert k in Keys(m) ==> k in Keys(m[..|m| - 1]) by {
        if k in Keys(m) {
          var j :| 0 <= j < |m| && m[j].key == k;
          assert j < |m| - 1 && m[..|m| - 1][j] == m[j];
        }
      }
      i
  }

  /** Multimap.get: the values under k, empty when k is absent. */
  function Get<V>(m: Multimap<V>, k: int): seq<V>
  {
    var i := Find(m, k);
    if 0 <= i then m[i].values else []
  }

  /** Multimap.putAll: appends vs to the values under k; a no-op when vs is
      empty, so an absent key stays absent. */
  function PutAll<V>(m: Multimap<V>, k: int, vs: seq<V>): Multimap<V>
  {
    if vs == [] then m
    else
      var i := Find(m, k);
      if 0 <= i then m[i := Entry(k, m[i].values + vs)] else m + [Entry(k, vs)]
  }

  /** Multimap.values(): all values, entry by entry. */
  function Values<V>(m: Multimap<V>): seq<V>
  {
    if m == [] then [] else Values(m[..|m| - 1]) + m[|m| - 1].values
  }

  /** In a well-formed multimap an entry's values are what `get` returns for
      its key. */
  lemma GetAt<V>(m: Multimap<V>, i: int)
    requires Wf(m) && 0 <= i < |m|
    ensures Get(m, m[i].key) == m[i].values
  {
    var j := Find(m, m[i].key);
    assert m[i].key in Keys(m);
  }

  /** Keys and `get` of a multimap whose first entry is e. */
  lemma GetCons<V>(e: Entry<V>, m: Multimap<V>, k: int)
    requires Wf([e] + m)
    ensures Keys([e] + m) == {e.key} + Keys(m)
    ensures Get([e] + m, k) == if k == e.key then e.values else Get(m, k)
  {
    var r := [e] + m;
    assert r[1..] == m;
    forall x | x in Keys(r) ensures x in {e.key} + Keys(m) {
      var i :| 0 <= i < |r| && r[i].key == x;
      if 0 < i { assert m[i - 1].key == x; }
    }
    forall x | x in Keys(m) ensures x in Keys(r) {
      var i :| 0 <= i < |m| && m[i].key == x;
      assert r[i + 1].key == x;
    }
    assert Wf(m) by {
      forall i, j | 0 <= i < j < |m| ensures m[i].key != m[j].key {
        assert r[i + 1] == m[i] && r[j + 1] == m[j];
      }
      forall i | 0 <= i < |m| ensures m[i].values != [] {
        assert r[i + 1] == m[i];
      }
    }
    if k == e.key {
      GetAt(r, 0);
    } else if k in Keys(m) {
      var i :| 0 <= i < |m| && m[i].key == k;
      GetAt(m, i);
      assert r[i + 1] == m[i];
      GetAt(r, i + 1);
    } else {
      assert k !in Keys(r);
    }
  }

  /** `get` is non-empty exactly on the keys. */
  lemma GetNonEmptyIffKey<V>(m: Multimap<V>, k: int)
    requires Wf(m)
    ensures Get(m, k) != [] <==> k in Keys(m)
  {
  }

  /** putAll keeps keys distinct and values non-empty. */
  lemma PutAllWf<V>(m: Multimap<V>, k: int, vs: seq<V>)
    requires Wf(m)
    ensures Wf(PutAll(m, k, vs))
  {
    if vs != [] && Find(m, k) < 0 {
      forall j | 0 <= j < |m| ensures m[j].key != k {
        assert m[j].key in Keys(m);
      }
    }
  }

  /** putAll adds k to the keys iff vs is non-empty. */
  lemma PutAllKeys<V>(m: Multimap<V>, k: int, vs: seq<V>)
    ensures Keys(PutAll(m, k, vs)) == Keys(m) + (if vs == [] then {} else {k})
  {
    if vs != [] {
      var r := PutAll(m, k, vs);
      var i := Find(m, k);
      forall x | x in Keys(r) ensures x in Keys(m) + {k} {
        var j :| 0 <= j < |r| && r[j].key == x;
        if j < |m| && j != i { assert m[j].key == x; }
      }
      forall x | x in Keys(m) ensures x in Keys(r) {
        var j :| 0 <= j < |m| && m[j].key == x;
        assert r[j].key == x;
      }
      if i < 0 {
        assert r[|m|].key == k;
      } else {
        assert r[i].key == k;
      }
    }
  }

  /** Each entry after putAll is an old entry, the old entry of k extended
      by vs, or a new last entry for k. */
  lemma PutAllEntry<V>(m: Multimap<V>, k: int, vs: seq<V>, i: int)
    requires 0 <= i < |PutAll(m, k, vs)|
    ensures || (i < |m| && PutAll(m, k, vs)[i] == m[i])
            || (i < |m| && m[i].key == k && PutAll(m, k, vs)[i] == Entry(k, m[i].values + vs))
            || (i == |m| && PutAll(m, k, vs)[i] == Entry(k, vs))
  {
  }

  /** putAll appends vs under k and leaves every other key alone. */
  lemma PutAllGet<V>(m: Multimap<V>, k: int, vs: seq<V>, k': int)
    requires Wf(m)
    ensures Get(PutAll(m, k, vs), k') == Get(m, k') + (if k' == k then vs else [])
  {
    if vs != [] {
      var r := PutAll(m, k, vs);
      PutAllWf(m, k, vs);
      PutAllKeys(m, k, vs);
      var i := Find(m, k);
      if k' == k {
        if 0 <= i {
          GetAt(r, i);
        } else {
          GetAt(r, |m|);
        }
      } else if k' in Keys(m) {
        var j := Find(m, k');
        assert j != i && j < |m|;
        assert r[j] == m[j];
        GetAt(r, j);
      } else {
        assert k' !in Keys(r);
      }
    }
  }

  /** Replacing one entry changes the multiset of all values by exactly the
      difference between the old and the new entry. */
  lemma {:induction false} ValuesUpdate<V>(m: Multimap<V>, i: int, e: Entry<V>)
    requires 0 <= i < |m|
    ensures multiset(Values(m[i := e])) + multiset(m[i].values) == multiset(Values(m)) + multiset(e.values)
  {
    var n := |m| - 1;
    var r := m[i := e];
    assert Values(r) == Values(r[..n]) + r[n].values;
    assert Values(m) == Values(m[..n]) + m[n].values;
    if i < n {
      assert r[..n] == m[..n][i := e];
      assert r[n] == m[n] && m[..n][i] == m[i];
      ValuesUpdate(m[..n], i, e);
      calc {
        multiset(Values(r)) + multiset(m[i].values);
        multiset(Values(m[..n][i := e])) + multiset(m[n].values) + multiset(m[i].values);
        multiset(Values(m[..n])) + multiset(e.values) + multiset(m[n].values);
      }
    } else {
      assert r[..n] == m[..n];
    }
  }

  /** putAll adds exactly vs to the multiset of all values. */
  lemma ValuesPutAll<V>(m: Multimap<V>, k: int, vs: seq<V>)
    ensures multiset(Values(PutAll(m, k, vs))) == multiset(Values(m)) + multiset(vs)
  {
    if vs != [] {
      var i := Find(m, k);
      if 0 <= i {
        var r := PutAll(m, k, vs);
        ValuesUpdate(m, i, Entry(k, m[i].values + vs));
        var lhs, rhs, c := multiset(Values(r)), multiset(Values(m)) + multiset(vs), multiset(m[i].values);
        assert lhs + c == rhs + c;
        assert forall x :: lhs[x] == (lhs + c)[x] - c[x] && rhs[x] == (rhs + c)[x] - c[x];
        assert lhs == rhs;
      } else {
        assert (m + [Entry(k, vs)])[..|m|] == m;
      }
    }
  }

  /** A value lies in values() iff some entry holds it. */
  lemma {:induction false} InValues<V>(m: Multimap<V>, x: V)
    ensures x in Values(m) <==> exists i :: 0 <= i < |m| && x in m[i].values
  {
    if m != [] {
      var n := |m| - 1;
      InValues(m[..n], x);
      if x in Values(m[..n]) {
        var i :| 0 <= i < n && x in m[..n][i].values;
        assert x in m[i].values;
      }
      if exists i :: 0 <= i < |m| && x in m[i].values {
        var i :| 0 <= i < |m| && x in m[i].values;
        if i < n {
          assert x in m[..n][i].values;
        }
      }
    }
  }
}
