/** Beam's `CombinePerKey(sum)`: group the (key, contribution) pairs and
    add up each key's contributions. The output collection has one entry
    per distinct key; its order is the grouping order, and `Totals`
    gives the order-free view that the runner's freedom to reorder and
    repartition must preserve. */
module Combining {
  import opened Grouping

  function Sum(vs: seq<nat>): nat
    decreases |vs|
  {
    if |vs| == 0 then 0 else vs[0] + Sum(vs[1..])
  }

  /** The sum of every contribution in the collection. */
  function Total<K>(kvs: seq<(K, nat)>): nat
    decreases |kvs|
  {
    if |kvs| == 0 then 0 else kvs[0].1 + Total(kvs[1..])
  }

  /** The sum of key `k`'s contributions. */
  function SumFor<K(==)>(kvs: seq<(K, nat)>, k: K): nat
    decreases |kvs|
  {
    if |kvs| == 0 then 0 else (if kvs[0].0 == k then kvs[0].1 else 0) + SumFor(kvs[1..], k)
  }

  lemma {:induction false} SumForCons<K>(kv: (K, nat), kvs: seq<(K, nat)>, k: K)
    ensures SumFor([kv] + kvs, k) == (if kv.0 == k then kv.1 else 0) + SumFor(kvs, k)
  {
    assert ([kv] + kvs)[1..] == kvs;
  }

  /** A key absent from the input has a per-key total of zero... */
  function Get<K>(m: map<K, nat>, k: K): nat {
    if k in m then m[k] else 0
  }

  /** ...which `Totals` states as a map: the order-free meaning of
      `CombinePerKey(sum)`. */
  function Totals<K(==)>(kvs: seq<(K, nat)>): map<K, nat> {
    map k | k in KeysOf(kvs) :: SumFor(kvs, k)
  }

  function SumGroups<K>(gs: seq<(K, seq<nat>)>): seq<(K, nat)>
    decreases |gs|
  {
    if |gs| == 0 then [] else [(gs[0].0, Sum(gs[0].1))] + SumGroups(gs[1..])
  }

  /** `CombinePerKey(sum)`: the output keys are exactly the distinct
      input keys, each once, and each carries the sum of its own
      contributions. */
  function SumPerKey<K(==)>(kvs: seq<(K, nat)>): (r: seq<(K, nat)>)
    ensures DistinctKeys(r)
    ensures KeysOf(r) == KeysOf(kvs)
    ensures forall i :: 0 <= i < |r| ==> r[i].1 == SumFor(kvs, r[i].0)
  {
    var gs := GroupBy(kvs);
    SumGroupsShape(gs);
    forall i | 0 <= i < |gs|
      ensures Sum(gs[i].1) == SumFor(kvs, gs[i].0)
    {
      SumValuesFor(kvs, gs[i].0);
    }
    SumGroups(gs)
  }

  lemma {:induction false} SumGroupsShape<K>(gs: seq<(K, seq<nat>)>)
    ensures |SumGroups(gs)| == |gs|
    ensures forall i :: 0 <= i < |gs| ==> SumGroups(gs)[i] == (gs[i].0, Sum(gs[i].1))
    ensures KeysOf(SumGroups(gs)) == KeysOf(gs)
    decreases |gs|
  {
    if |gs| > 0 {
      SumGroupsShape(gs[1..]);
      var r := SumGroups(gs);
      assert forall i :: 0 < i < |gs| ==> r[i] == SumGroups(gs[1..])[i - 1] && gs[i] == gs[1..][i - 1];
      assert forall x :: x in KeysOf(r) ==> x in KeysOf(gs);
      assert forall i :: 0 <= i < |gs| ==> r[i].0 == gs[i].0;
      assert forall x :: x in KeysOf(gs) ==> x in KeysOf(r);
    }
  }

  lemma {:induction false} SumValuesFor<K>(kvs: seq<(K, nat)>, k: K)
    ensures Sum(ValuesFor(kvs, k)) == SumFor(kvs, k)
    decreases |kvs|
  {
    if |kvs| > 0 {
      SumValuesFor(kvs[1..], k);
      var rest := ValuesFor(kvs[1..], k);
      if kvs[0].0 == k {
        assert ([kvs[0].1] + rest)[1..] == rest;
      } else {
        assert [] + rest == rest;
      }
    }
  }

  lemma {:induction false} SumForAppend<K>(a: seq<(K, nat)>, b: seq<(K, nat)>, k: K)
    ensures SumFor(a + b, k) == SumFor(a, k) + SumFor(b, k)
    decreases |a|
  {
    if |a| > 0 {
      assert (a + b)[1..] == a[1..] + b;
      SumForAppend(a[1..], b, k);
    } else {
      assert a + b == b;
    }
  }

  lemma {:induction false} TotalAppend<K>(a: seq<(K, nat)>, b: seq<(K, nat)>)
    ensures Total(a + b) == Total(a) + Total(b)
    decreases |a|
  {
    if |a| > 0 {
      assert (a + b)[1..] == a[1..] + b;
      TotalAppend(a[1..], b);
    } else {
      assert a + b == b;
    }
  }

  lemma {:induction false} SumForAbsent<K>(kvs: seq<(K, nat)>, k: K)
    requires k !in KeysOf(kvs)
    ensures SumFor(kvs, k) == 0
    decreases |kvs|
  {
    if |kvs| > 0 {
      assert kvs[0].0 in KeysOf(kvs);
      assert KeysOf(kvs[1..]) <= KeysOf(kvs) by {
        assert forall i :: 0 <= i < |kvs[1..]| ==> kvs[1..][i] == kvs[i + 1];
      }
      SumForAbsent(kvs[1..], k);
    }
  }

  /** A key's total is its own contributions plus nothing from others:
      splitting the collection into "key k" and "the rest". */
  lemma {:induction false} TotalSplit<K>(kvs: seq<(K, nat)>, k: K)
    ensures Total(kvs) == SumFor(kvs, k) + Total(Without(kvs, k))
    decreases |kvs|
  {
    if |kvs| > 0 {
      TotalSplit(kvs[1..], k);
      if kvs[0].0 != k {
        var w := Without(kvs[1..], k);
        assert ([kvs[0]] + w)[1..] == w;
      }
    }
  }

  /** Conservation: the totals `CombinePerKey(sum)` emits add up to the
      sum of all the contributions it was given. */
  lemma {:induction false} Conservation<K>(kvs: seq<(K, nat)>)
    ensures Total(SumPerKey(kvs)) == Total(kvs)
    decreases |kvs|
  {
    if |kvs| > 0 {
      var k := kvs[0].0;
      var w := Without(kvs[1..], k);
      var gs := GroupBy(kvs);
      assert gs == [(k, ValuesFor(kvs, k))] + GroupBy(w);
      assert gs[1..] == GroupBy(w);
      assert SumPerKey(kvs) == [(k, Sum(ValuesFor(kvs, k)))] + SumPerKey(w);
      assert (SumPerKey(kvs))[1..] == SumPerKey(w);
      Conservation(w);
      SumValuesFor(kvs, k);
      TotalSplit(kvs, k);
      assert Without(kvs, k) == w;
    }
  }

  lemma {:induction false} KeysOfAppend<K, V>(a: seq<(K, V)>, b: seq<(K, V)>)
    ensures KeysOf(a + b) == KeysOf(a) + KeysOf(b)
  {
    var ab := a + b;
    assert forall i :: 0 <= i < |a| ==> ab[i] == a[i];
    assert forall i :: 0 <= i < |b| ==> ab[|a| + i] == b[i];
    assert forall i :: |a| <= i < |ab| ==> ab[i] == b[i - |a|];
  }

  /** Removing the element at index `i`, for permutation arguments. */
  lemma {:induction false} SumForRemove<K>(kvs: seq<(K, nat)>, i: nat, k: K)
    requires i < |kvs|
    ensures SumFor(kvs, k) == SumFor([kvs[i]], k) + SumFor(kvs[..i] + kvs[i + 1..], k)
  {
    var pre, post := kvs[..i], kvs[i + 1..];
    SplitAt(kvs, i);
    SumForAppend(pre, [kvs[i]] + post, k);
    SumForAppend([kvs[i]], post, k);
    SumForAppend(pre, post, k);
  }

  lemma {:induction false} SplitAt<T>(s: seq<T>, i: nat)
    requires i < |s|
    ensures s == s[..i] + ([s[i]] + s[i + 1..])
    ensures multiset(s[..i] + s[i + 1..]) == multiset(s) - multiset{s[i]}
  {
    assert s == s[..i] + ([s[i]] + s[i + 1..]);
    assert multiset(s) == multiset(s[..i]) + multiset{s[i]} + multiset(s[i + 1..]);
  }

  /** Per-key sums do not depend on the order of the contributions. */
  lemma {:induction false} SumForPermutation<K>(a: seq<(K, nat)>, b: seq<(K, nat)>, k: K)
    requires multiset(a) == multiset(b)
    ensures SumFor(a, k) == SumFor(b, k)
    decreases |a|
  {
    if |a| > 0 {
      assert a[0] in multiset(b);
      var i :| 0 <= i < |b| && b[i] == a[0];
      PermutationRemove(a, b, i);
      SumForPermutation(a[1..], b[..i] + b[i + 1..], k);
      SumForRemove(b, i, k);
    }
  }

  /** Taking the same element out of two permutations of each other
      leaves permutations of each other. */
  lemma {:induction false} PermutationRemove<T>(a: seq<T>, b: seq<T>, i: nat)
    requires multiset(a) == multiset(b) && |a| > 0 && i < |b| && b[i] == a[0]
    ensures multiset(a[1..]) == multiset(b[..i] + b[i + 1..])
  {
    SplitAt(b, i);
    assert a == [a[0]] + a[1..];
    assert multiset(a) == multiset{a[0]} + multiset(a[1..]);
  }

  lemma {:induction false} KeysOfPermutation<K, V>(a: seq<(K, V)>, b: seq<(K, V)>)
    requires multiset(a) == multiset(b)
    ensures KeysOf(a) == KeysOf(b)
  {
    forall x | x in KeysOf(a) ensures x in KeysOf(b) {
      var i :| 0 <= i < |a| && a[i].0 == x;
      assert a[i] in multiset(b);
      var j :| 0 <= j < |b| && b[j] == a[i];
    }
    forall x | x in KeysOf(b) ensures x in KeysOf(a) {
      var j :| 0 <= j < |b| && b[j].0 == x;
      assert b[j] in multiset(a);
      var i :| 0 <= i < |a| && a[i] == b[j];
    }
  }

  /** Order independence: any rearrangement of the contributions (the
      runner's shuffle) yields the same per-key totals. */
  lemma {:induction false} TotalsPermutation<K>(a: seq<(K, nat)>, b: seq<(K, nat)>)
    requires multiset(a) == multiset(b)
    ensures Totals(a) == Totals(b)
  {
    KeysOfPermutation(a, b);
    forall k | k in KeysOf(a) ensures SumFor(a, k) == SumFor(b, k) {
      SumForPermutation(a, b, k);
    }
  }

  /** Adding two partial results key by key. */
  function Merge<K>(m1: map<K, nat>, m2: map<K, nat>): map<K, nat> {
    map k | k in m1.Keys + m2.Keys :: Get(m1, k) + Get(m2, k)
  }

  /** Summing two partitions separately and merging equals summing their
      concatenation: what lets workers combine partial sums. */
  lemma {:induction false} MergePartitions<K>(a: seq<(K, nat)>, b: seq<(K, nat)>)
    ensures Merge(Totals(a), Totals(b)) == Totals(a + b)
  {
    var m := Merge(Totals(a), Totals(b));
    var t := Totals(a + b);
    KeysOfAppend(a, b);
    assert m.Keys == t.Keys;
    forall k | k in t.Keys ensures m[k] == t[k] {
      MergeAt(a, b, k);
    }
  }

  lemma {:induction false} MergeAt<K>(a: seq<(K, nat)>, b: seq<(K, nat)>, k: K)
    ensures Get(Totals(a), k) + Get(Totals(b), k) == SumFor(a + b, k)
  {
    SumForAppend(a, b, k);
    if k !in KeysOf(a) { SumForAbsent(a, k); }
    if k !in KeysOf(b) { SumForAbsent(b, k); }
  }
}
