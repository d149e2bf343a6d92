/** `BTreeMap` as a sequence of entries kept in strictly increasing key order, so that
    iteration order is the sequence order. */
module SortedMap {
  import opened Outcomes
  import opened Order

  predicate Sorted<K, V>(e: seq<(K, V)>, lt: (K, K) -> bool) {
    forall i, j :: 0 <= i < j < |e| ==> lt(e[i].0, e[j].0)
  }

  predicate HasKey<K(==), V>(e: seq<(K, V)>, k: K) {
    exists i :: 0 <= i < |e| && e[i].0 == k
  }

  function KeySet<K, V>(e: seq<(K, V)>): set<K> {
    set i | 0 <= i < |e| :: e[i].0
  }

  /** `map.get(k)`: the value of the first entry with key `k`. */
  function Get<K(==), V>(e: seq<(K, V)>, k: K): (r: Option<V>)
    ensures r.Some? <==> HasKey(e, k)
    ensures r.Some? ==> (k, r.value) in e
    decreases |e|
  {
    if |e| == 0 then None
    else if e[0].0 == k then Some(e[0].1)
    else
      var r := Get(e[1..], k);
      assert HasKey(e, k) ==> HasKey(e[1..], k) by {
        if HasKey(e, k) {
          var i :| 0 <= i < |e| && e[i].0 == k;
          assert i > 0 && e[1..][i - 1].0 == k;
        }
      }
      assert HasKey(e[1..], k) ==> HasKey(e, k) by {
        if HasKey(e[1..], k) {
          var i :| 0 <= i < |e[1..]| && e[1..][i].0 == k;
          assert e[i + 1].0 == k;
        }
      }
      r
  }

  /** `map.insert(k, v)`: replaces the value of an existing key `k`, otherwise adds the entry
      before the first larger key. */
  function Insert<K(==), V>(e: seq<(K, V)>, k: K, v: V, lt: (K, K) -> bool): seq<(K, V)>
    decreases |e|
  {
    if |e| == 0 then [(k, v)]
    else if e[0].0 == k then [(k, v)] + e[1..]
    else if lt(k, e[0].0) then [(k, v)] + e
    else [e[0]] + Insert(e[1..], k, v, lt)
  }

  /** Inserting adds exactly the new key. */
  lemma {:induction false} InsertKeys<K, V>(e: seq<(K, V)>, k: K, v: V, lt: (K, K) -> bool)
    ensures KeySet(Insert(e, k, v, lt)) == KeySet(e) + {k}
    ensures !HasKey(e, k) ==> |Insert(e, k, v, lt)| == |e| + 1
    decreases |e|
  {
    if |e| > 0 {
      assert KeySet(e) == {e[0].0} + KeySet(e[1..]) by {
        forall x | x in KeySet(e) ensures x in {e[0].0} + KeySet(e[1..]) {
          var i :| 0 <= i < |e| && e[i].0 == x;
          if i > 0 { assert e[1..][i - 1].0 == x; }
        }
        forall x | x in KeySet(e[1..]) ensures x in KeySet(e) {
          var i :| 0 <= i < |e[1..]| && e[1..][i].0 == x;
          assert e[i + 1].0 == x;
        }
      }
      assert HasKey(e, k) <==> e[0].0 == k || HasKey(e[1..], k) by {
        if HasKey(e[1..], k) {
          var i :| 0 <= i < |e[1..]| && e[1..][i].0 == k;
          assert e[i + 1].0 == k;
        }
        if HasKey(e, k) && e[0].0 != k {
          var i :| 0 <= i < |e| && e[i].0 == k;
          assert e[1..][i - 1].0 == k;
        }
      }
      if e[0].0 == k {
        var r := [(k, v)] + e[1..];
        assert KeySet(r) == {k} + KeySet(e[1..]) by {
          forall x | x in KeySet(r) ensures x in {k} + KeySet(e[1..]) {
            var i :| 0 <= i < |r| && r[i].0 == x;
            if i > 0 { assert e[1..][i - 1].0 == x; }
          }
          forall x | x in KeySet(e[1..]) ensures x in KeySet(r) {
            var i :| 0 <= i < |e[1..]| && e[1..][i].0 == x;
            assert r[i + 1].0 == x;
          }
          assert r[0].0 == k;
        }
      } else if lt(k, e[0].0) {
        var r := [(k, v)] + e;
        assert KeySet(r) == {k} + KeySet(e) by {
          forall x | x in KeySet(r) ensures x in {k} + KeySet(e) {
            var i :| 0 <= i < |r| && r[i].0 == x;
            if i > 0 { assert e[i - 1].0 == x; }
          }
          forall x | x in KeySet(e) ensures x in KeySet(r) {
            var i :| 0 <= i < |e| && e[i].0 == x;
            assert r[i + 1].0 == x;
          }
          assert r[0].0 == k;
        }
      } else {
        var t := Insert(e[1..], k, v, lt);
        InsertKeys(e[1..], k, v, lt);
        var r := [e[0]] + t;
        assert KeySet(r) == {e[0].0} + KeySet(t) by {
          forall x | x in KeySet(r) ensures x in {e[0].0} + KeySet(t) {
            var i :| 0 <= i < |r| && r[i].0 == x;
            if i > 0 { assert t[i - 1].0 == x; }
          }
          forall x | x in KeySet(t) ensures x in KeySet(r) {
            var i :| 0 <= i < |t| && t[i].0 == x;
            assert r[i + 1].0 == x;
          }
          assert r[0].0 == e[0].0;
        }
      }
    } else {
      assert Insert(e, k, v, lt)[0].0 == k;
    }
  }

  /** After inserting, `k` maps to `v` and every other key keeps its value. */
  lemma {:induction false} InsertGet<K, V>(e: seq<(K, V)>, k: K, v: V, lt: (K, K) -> bool, k': K)
    ensures Get(Insert(e, k, v, lt), k') == if k' == k then Some(v) else Get(e, k')
    decreases |e|
  {
    if |e| > 0 && e[0].0 != k && !lt(k, e[0].0) {
      InsertGet(e[1..], k, v, lt, k');
    }
  }

  /** Inserting into a sorted sequence keeps it sorted. */
  lemma {:induction false} InsertSorted<K(!new), V>(e: seq<(K, V)>, k: K, v: V, lt: (K, K) -> bool)
    requires StrictTotalOrder(lt)
    requires Sorted(e, lt)
    ensures Sorted(Insert(e, k, v, lt), lt)
    decreases |e|
  {
    if |e| > 0 {
      var r := Insert(e, k, v, lt);
      if e[0].0 == k {
        assert forall i :: 1 <= i < |r| ==> r[i] == e[i];
      } else if lt(k, e[0].0) {
        assert forall i :: 1 <= i < |r| ==> r[i] == e[i - 1];
      } else {
        assert lt(e[0].0, k);
        var t := Insert(e[1..], k, v, lt);
        InsertSorted(e[1..], k, v, lt);
        InsertKeys(e[1..], k, v, lt);
        forall j | 0 <= j < |t| ensures lt(e[0].0, t[j].0) {
          assert t[j].0 in KeySet(t);
          if t[j].0 != k {
            assert t[j].0 in KeySet(e[1..]);
            var i :| 0 <= i < |e[1..]| && e[1..][i].0 == t[j].0;
            assert e[i + 1].0 == t[j].0;
          }
        }
        assert r == [e[0]] + t;
      }
    }
  }

  /** No key occurs twice: there are as many keys as entries. */
  predicate DistinctKeys<K(==), V>(e: seq<(K, V)>) {
    |KeySet(e)| == |e|
  }

  lemma KeySetConcat<K, V>(a: seq<(K, V)>, b: seq<(K, V)>)
    ensures KeySet(a + b) == KeySet(a) + KeySet(b)
  {
    var ab := a + b;
    forall x | x in KeySet(ab) ensures x in KeySet(a) + KeySet(b) {
      var i :| 0 <= i < |ab| && ab[i].0 == x;
      if i >= |a| { assert b[i - |a|].0 == x; }
    }
    forall x | x in KeySet(b) ensures x in KeySet(ab) {
      var i :| 0 <= i < |b| && b[i].0 == x;
      assert ab[i + |a|].0 == x;
    }
    forall x | x in KeySet(a) ensures x in KeySet(ab) {
      var i :| 0 <= i < |a| && a[i].0 == x;
      assert ab[i].0 == x;
    }
  }

  lemma {:induction false} KeySetSize<K, V>(e: seq<(K, V)>)
    ensures |KeySet(e)| <= |e|
    decreases |e|
  {
    if |e| > 0 {
      KeySetConcat([e[0]], e[1..]);
      assert e == [e[0]] + e[1..];
      assert KeySet([e[0]]) == {e[0].0};
      KeySetSize(e[1..]);
    }
  }

  /** Distinct keys mean that no two positions hold the same key. */
  lemma {:induction false} DistinctKeysPairwise<K, V>(e: seq<(K, V)>)
    ensures DistinctKeys(e) <==> forall i, j :: 0 <= i < j < |e| ==> e[i].0 != e[j].0
    decreases |e|
  {
    if |e| > 0 {
      var t := e[1..];
      KeySetConcat([e[0]], t);
      assert e == [e[0]] + t;
      assert KeySet([e[0]]) == {e[0].0};
      KeySetSize(t);
      DistinctKeysPairwise(t);
      assert DistinctKeys(e) <==> e[0].0 !in KeySet(t) && DistinctKeys(t);
      if e[0].0 in KeySet(t) {
        var j :| 0 <= j < |t| && t[j].0 == e[0].0;
        assert e[j + 1].0 == e[0].0;
      }
      if forall i, j :: 0 <= i < j < |e| ==> e[i].0 != e[j].0 {
        assert forall i, j :: 0 <= i < j < |t| ==> t[i].0 != t[j].0 by {
          forall i, j | 0 <= i < j < |t| ensures t[i].0 != t[j].0 {
            assert e[i + 1].0 != e[j + 1].0;
          }
        }
      }
      if e[0].0 !in KeySet(t) && DistinctKeys(t) {
        forall i, j | 0 <= i < j < |e| ensures e[i].0 != e[j].0 {
          if i == 0 {
            assert t[j - 1].0 in KeySet(t);
          } else {
            assert t[i - 1].0 != t[j - 1].0;
          }
        }
      }
    }
  }

  /** A prefix of an entry list without repeated keys has none either, and when the whole
      list has distinct keys its two parts share none. */
  lemma DistinctKeysSplit<K, V>(a: seq<(K, V)>, b: seq<(K, V)>)
    ensures DistinctKeys(a + b) <==> DistinctKeys(a) && DistinctKeys(b) && KeySet(a) !! KeySet(b)
  {
    KeySetConcat(a, b);
    KeySetSize(a);
    KeySetSize(b);
    var A, B := KeySet(a), KeySet(b);
    assert |A + B| + |A * B| == |A| + |B|;
    if A !! B {
      assert A * B == {};
    } else {
      var x :| x in A && x in B;
      assert x in A * B;
    }
  }

  /** Lookup in a concatenation: the first part wins. */
  lemma {:induction false} GetConcat<K, V>(a: seq<(K, V)>, b: seq<(K, V)>, k: K)
    ensures Get(a + b, k) == if HasKey(a, k) then Get(a, k) else Get(b, k)
    decreases |a|
  {
    if |a| == 0 {
      assert a + b == b;
    } else {
      assert (a + b)[1..] == a[1..] + b;
      GetConcat(a[1..], b, k);
      if a[0].0 != k {
        assert HasKey(a, k) <==> HasKey(a[1..], k) by {
          if HasKey(a, k) {
            var i :| 0 <= i < |a| && a[i].0 == k;
            assert a[1..][i - 1].0 == k;
          }
          if HasKey(a[1..], k) {
            var i :| 0 <= i < |a[1..]| && a[1..][i].0 == k;
            assert a[i + 1].0 == k;
          }
        }
      }
    }
  }

  lemma HasKeyInKeySet<K, V>(e: seq<(K, V)>, k: K)
    ensures HasKey(e, k) <==> k in KeySet(e)
  {
    if k in KeySet(e) {
      var i :| 0 <= i < |e| && e[i].0 == k;
    }
  }

  /** Entries in strictly increasing key order never repeat a key. */
  lemma SortedDistinct<K(!new), V>(e: seq<(K, V)>, lt: (K, K) -> bool)
    requires StrictTotalOrder(lt)
    requires Sorted(e, lt)
    ensures DistinctKeys(e)
  {
    DistinctKeysPairwise(e);
  }

  lemma KeySetSingleton<K, V>(k: K, v: V)
    ensures KeySet([(k, v)]) == {k}
  {
    assert [(k, v)][0].0 == k;
  }
}
