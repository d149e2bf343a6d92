/** The accumulation at the heart of `do_render`: outputs produced one after another are
    inserted into an ordered map under their paths, and a path produced twice is an error. */
module Collect {
  import opened Outcomes
  import opened Order
  import opened SortedMap

  /** One output of a run: its map key, the text naming it in messages, and how producing
      it went. */
  datatype Job<K, V> = Job(key: K, name: string, result: Result<V>)

  /** Reference reading: the produced entries in production order, or the first failure. */
  function Outputs<K, V>(jobs: seq<Job<K, V>>): (r: Result<seq<(K, V)>>)
    decreases |jobs|
  {
    if |jobs| == 0 then Ok([])
    else
      var v :- jobs[0].result;
      var rest :- Outputs(jobs[1..]);
      Ok([(jobs[0].key, v)] + rest)
  }

  /** `Outputs` succeeds exactly when every job does, and then lists each job's key and
      value at the job's position. */
  lemma {:induction false} OutputsSpec<K, V>(jobs: seq<Job<K, V>>)
    ensures Outputs(jobs).Ok? <==> forall i :: 0 <= i < |jobs| ==> jobs[i].result.Ok?
    ensures Outputs(jobs).Ok? ==>
      && |Outputs(jobs).value| == |jobs|
      && forall i :: 0 <= i < |jobs| ==> Outputs(jobs).value[i] == (jobs[i].key, jobs[i].result.value)
    decreases |jobs|
  {
    if |jobs| > 0 {
      OutputsSpec(jobs[1..]);
      assert forall i :: 1 <= i < |jobs| ==> jobs[1..][i - 1] == jobs[i];
    }
  }

  /** Outputs of consecutive runs of jobs are concatenated. */
  lemma {:induction false} OutputsConcat<K, V>(a: seq<Job<K, V>>, b: seq<Job<K, V>>)
    ensures Outputs(a + b).Ok? <==> Outputs(a).Ok? && Outputs(b).Ok?
    ensures Outputs(a + b).Ok? ==> Outputs(a + b).value == Outputs(a).value + Outputs(b).value
    decreases |a|
  {
    if |a| == 0 {
      assert a + b == b;
    } else {
      assert (a + b)[1..] == a[1..] + b;
      OutputsConcat(a[1..], b);
    }
  }

  /** The loop of `do_render` over its jobs: insert each result under its key, failing with
      "multiple attempts to write to <name>" on a key already present. */
  function InsertAll<K(==), V>(jobs: seq<Job<K, V>>, acc: seq<(K, V)>, lt: (K, K) -> bool): Result<seq<(K, V)>>
    decreases |jobs|
  {
    if |jobs| == 0 then Ok(acc)
    else
      var v :- jobs[0].result;
      if HasKey(acc, jobs[0].key) then Fail("multiple attempts to write to " + jobs[0].name)
      else InsertAll(jobs[1..], Insert(acc, jobs[0].key, v, lt), lt)
  }

  /** Running two runs of jobs one after the other is running their concatenation. */
  lemma {:induction false} InsertAllConcat<K, V>(a: seq<Job<K, V>>, b: seq<Job<K, V>>, acc: seq<(K, V)>, lt: (K, K) -> bool)
    ensures InsertAll(a + b, acc, lt) ==
      match InsertAll(a, acc, lt)
      case Err(e) => Err(e)
      case Ok(acc') => InsertAll(b, acc', lt)
    decreases |a|
  {
    if |a| == 0 {
      assert a + b == b;
    } else {
      assert (a + b)[0] == a[0];
      assert (a + b)[1..] == a[1..] + b;
      if a[0].result.Ok? && !HasKey(acc, a[0].key) {
        InsertAllConcat(a[1..], b, Insert(acc, a[0].key, a[0].result.value, lt), lt);
      }
    }
  }

  /** One successful insertion step keeps the facts `InsertAllSpec` is about: the new map
      is sorted, and it has the keys, the size and the lookups of the old entries followed
      by the new one. */
  lemma InsertStep<K(!new), V>(acc: seq<(K, V)>, k: K, v: V, lt: (K, K) -> bool)
    requires StrictTotalOrder(lt) && Sorted(acc, lt) && !HasKey(acc, k)
    ensures Sorted(Insert(acc, k, v, lt), lt)
    ensures KeySet(Insert(acc, k, v, lt)) == KeySet(acc + [(k, v)])
    ensures |Insert(acc, k, v, lt)| == |acc + [(k, v)]|
    ensures forall k' :: Get(Insert(acc, k, v, lt), k') == Get(acc + [(k, v)], k')
  {
    InsertSorted(acc, k, v, lt);
    InsertKeys(acc, k, v, lt);
    KeySetConcat(acc, [(k, v)]);
    KeySetSingleton(k, v);
    forall k' ensures Get(Insert(acc, k, v, lt), k') == Get(acc + [(k, v)], k') {
      InsertGet(acc, k, v, lt, k');
      GetConcat(acc, [(k, v)], k');
    }
  }

  /** Two entry lists with the same keys, the same size and the same lookups stay alike when
      the same entries are appended. */
  lemma AppendAlike<K, V>(x: seq<(K, V)>, y: seq<(K, V)>, rest: seq<(K, V)>)
    requires KeySet(x) == KeySet(y) && |x| == |y|
    requires forall k :: Get(x, k) == Get(y, k)
    ensures KeySet(x + rest) == KeySet(y + rest) && |x + rest| == |y + rest|
    ensures forall k :: Get(x + rest, k) == Get(y + rest, k)
  {
    KeySetConcat(x, rest);
    KeySetConcat(y, rest);
    forall k ensures Get(x + rest, k) == Get(y + rest, k) {
      GetConcat(x, rest, k);
      GetConcat(y, rest, k);
      HasKeyInKeySet(x, k);
      HasKeyInKeySet(y, k);
    }
  }

  /** The loop agrees with the reference reading: it succeeds exactly when every job does
      and no key repeats, counting the keys already present; then the map is sorted, has
      one entry per key, and every lookup finds what the old entries followed by the
      produced ones hold. */
  lemma {:induction false} InsertAllSpec<K(!new), V>(jobs: seq<Job<K, V>>, acc: seq<(K, V)>, lt: (K, K) -> bool)
    requires StrictTotalOrder(lt) && Sorted(acc, lt)
    ensures var r := InsertAll(jobs, acc, lt);
      var out := Outputs(jobs);
      && (r.Ok? <==> out.Ok? && DistinctKeys(acc + out.value))
      && (r.Ok? ==> Sorted(r.value, lt))
      && (r.Ok? ==> KeySet(r.value) == KeySet(acc + out.value) && |r.value| == |acc + out.value|)
      && (r.Ok? ==> forall k :: Get(r.value, k) == Get(acc + out.value, k))
    decreases |jobs|
  {
    if |jobs| == 0 {
      assert acc + [] == acc;
      SortedDistinct(acc, lt);
    } else {
      var j := jobs[0];
      var rest := Outputs(jobs[1..]);
      if j.result.Ok? {
        var k, v := j.key, j.result.value;
        var out := Outputs(jobs);
        if HasKey(acc, k) {
          if out.Ok? {
            assert out.value == [(k, v)] + rest.value;
            assert acc + out.value == (acc + [(k, v)]) + rest.value;
            HasKeyInKeySet(acc, k);
            KeySetSingleton(k, v);
            DistinctKeysSplit(acc + [(k, v)], rest.value);
            DistinctKeysSplit(acc, [(k, v)]);
          }
        } else {
          var acc' := Insert(acc, k, v, lt);
          InsertStep(acc, k, v, lt);
          InsertAllSpec(jobs[1..], acc', lt);
          if rest.Ok? {
            assert out.value == [(k, v)] + rest.value;
            assert acc + out.value == (acc + [(k, v)]) + rest.value;
            AppendAlike(acc', acc + [(k, v)], rest.value);
          }
        }
      }
    }
  }

  /** The first repeated key names the error: when every job up to position `j` succeeds, the
      keys before `j` are new, and job `j`'s key was seen already, the loop fails on job `j`. */
  lemma {:induction false} InsertAllDuplicate<K, V>(jobs: seq<Job<K, V>>, acc: seq<(K, V)>, lt: (K, K) -> bool, j: nat)
    requires j < |jobs|
    requires forall i :: 0 <= i <= j ==> jobs[i].result.Ok?
    requires forall i :: 0 <= i < j ==> !HasKey(acc, jobs[i].key)
    requires forall i, i' :: 0 <= i < i' < j ==> jobs[i].key != jobs[i'].key
    requires HasKey(acc, jobs[j].key) || exists i :: 0 <= i < j && jobs[i].key == jobs[j].key
    ensures InsertAll(jobs, acc, lt) == Fail("multiple attempts to write to " + jobs[j].name)
    decreases j
  {
    if j > 0 {
      var k, v := jobs[0].key, jobs[0].result.value;
      var acc' := Insert(acc, k, v, lt);
      var t := jobs[1..];
      forall k' ensures HasKey(acc', k') <==> HasKey(acc, k') || k' == k {
        InsertKeys(acc, k, v, lt);
        HasKeyInKeySet(acc', k');
        HasKeyInKeySet(acc, k');
      }
      assert forall i :: 0 <= i < |t| ==> t[i] == jobs[i + 1];
      InsertAllDuplicate(t, acc', lt, j - 1);
    }
  }

  /** A failing job stops the loop with its own error when nothing before it failed or
      repeated a key. */
  lemma {:induction false} InsertAllJobError<K, V>(jobs: seq<Job<K, V>>, acc: seq<(K, V)>, lt: (K, K) -> bool, j: nat)
    requires j < |jobs|
    requires forall i :: 0 <= i < j ==> jobs[i].result.Ok?
    requires forall i :: 0 <= i < j ==> !HasKey(acc, jobs[i].key)
    requires forall i, i' :: 0 <= i < i' < j ==> jobs[i].key != jobs[i'].key
    requires jobs[j].result.Err?
    ensures InsertAll(jobs, acc, lt) == Err(jobs[j].result.error)
    decreases j
  {
    if j > 0 {
      var k, v := jobs[0].key, jobs[0].result.value;
      var acc' := Insert(acc, k, v, lt);
      var t := jobs[1..];
      forall k' ensures HasKey(acc', k') <==> HasKey(acc, k') || k' == k {
        InsertKeys(acc, k, v, lt);
        HasKeyInKeySet(acc', k');
        HasKeyInKeySet(acc, k');
      }
      assert forall i :: 0 <= i < |t| ==> t[i] == jobs[i + 1];
      InsertAllJobError(t, acc', lt, j - 1);
    }
  }
}
