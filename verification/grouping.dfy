/** Beam's `GroupByKey` on a collection of key/value pairs. The runner
    gives no order; this model emits the groups in order of each key's
    first appearance and keeps every key's values in input order, which
    is one order a runner may produce. */
module Grouping {

  /** The keys that occur in a keyed collection. */
  function KeysOf<K, V>(kvs: seq<(K, V)>): set<K> {
    set i | 0 <= i < |kvs| :: kvs[i].0
  }

  lemma {:induction false} KeysOfCons<K, V>(kv: (K, V), kvs: seq<(K, V)>)
    ensures KeysOf([kv] + kvs) == {kv.0} + KeysOf(kvs)
  {
    var r := [kv] + kvs;
    assert forall i :: 0 < i < |r| ==> r[i] == kvs[i - 1];
    assert forall i :: 0 <= i < |kvs| ==> kvs[i] == r[i + 1];
    assert r[0] == kv;
  }

  /** No key occurs twice. */
  predicate DistinctKeys<K(==), V>(kvs: seq<(K, V)>) {
    forall i, j :: 0 <= i < j < |kvs| ==> kvs[i].0 != kvs[j].0
  }

  /** The values carried by key `k`, in input order. */
  function ValuesFor<K(==), V>(kvs: seq<(K, V)>, k: K): (vs: seq<V>)
    ensures |vs| <= |kvs|
    ensures k in KeysOf(kvs) <==> |vs| > 0
    decreases |kvs|
  {
    if |kvs| == 0 then []
    else
      var rest := ValuesFor(kvs[1..], k);
      assert KeysOf(kvs) == {kvs[0].0} + KeysOf(kvs[1..]) by {
        assert kvs == [kvs[0]] + kvs[1..];
        KeysOfCons(kvs[0], kvs[1..]);
      }
      (if kvs[0].0 == k then [kvs[0].1] else []) + rest
  }

  /** The collection with every pair of key `k` removed. */
  function Without<K(==), V>(kvs: seq<(K, V)>, k: K): (r: seq<(K, V)>)
    ensures |r| <= |kvs|
    ensures KeysOf(r) == KeysOf(kvs) - {k}
    decreases |kvs|
  {
    if |kvs| == 0 then []
    else
      var rest := Without(kvs[1..], k);
      assert KeysOf(kvs) == {kvs[0].0} + KeysOf(kvs[1..]) by {
        assert kvs == [kvs[0]] + kvs[1..];
        KeysOfCons(kvs[0], kvs[1..]);
      }
      if kvs[0].0 == k then rest
      else
        var r := [kvs[0]] + rest;
        assert r[1..] == rest;
        KeysOfCons(kvs[0], rest);
        r
  }

  /** Removing key `k` leaves every other key's values untouched. */
  lemma {:induction false} WithoutKeepsOthers<K, V>(kvs: seq<(K, V)>, k: K, k': K)
    requires k' != k
    ensures ValuesFor(Without(kvs, k), k') == ValuesFor(kvs, k')
    decreases |kvs|
  {
    if |kvs| > 0 {
      WithoutKeepsOthers(kvs[1..], k, k');
      if kvs[0].0 != k {
        assert ([kvs[0]] + Without(kvs[1..], k))[1..] == Without(kvs[1..], k);
      }
    }
  }

  /** The groups of `kvs` and of any rearrangement of it hold the same
      things: the properties `GroupBy` promises. */
  ghost predicate GroupsOf<K, V>(gs: seq<(K, seq<V>)>, kvs: seq<(K, V)>) {
    && DistinctKeys(gs)
    && KeysOf(gs) == KeysOf(kvs)
    && forall i :: 0 <= i < |gs| ==> gs[i].1 == ValuesFor(kvs, gs[i].0) && |gs[i].1| > 0
  }

  /** `GroupByKey`: one group per distinct key, each holding exactly that
      key's values in input order (hence never empty). */
  function GroupBy<K(==), V>(kvs: seq<(K, V)>): (gs: seq<(K, seq<V>)>)
    ensures GroupsOf(gs, kvs)
    decreases |kvs|
  {
    if |kvs| == 0 then []
    else
      var k := kvs[0].0;
      var rest := GroupBy(Without(kvs[1..], k));
      GroupStep(kvs, rest);
      [(k, ValuesFor(kvs, k))] + rest
  }

  /** Putting the first key's group in front of the groups of the rest. */
  lemma {:induction false} GroupStep<K, V>(kvs: seq<(K, V)>, rest: seq<(K, seq<V>)>)
    requires |kvs| > 0
    requires GroupsOf(rest, Without(kvs[1..], kvs[0].0))
    ensures GroupsOf([(kvs[0].0, ValuesFor(kvs, kvs[0].0))] + rest, kvs)
  {
    GroupStepKeys(kvs, rest);
    GroupStepDistinct(kvs, rest);
    GroupStepValues(kvs, rest);
  }

  lemma {:induction false} GroupStepKeys<K, V>(kvs: seq<(K, V)>, rest: seq<(K, seq<V>)>)
    requires |kvs| > 0
    requires KeysOf(rest) == KeysOf(Without(kvs[1..], kvs[0].0))
    ensures KeysOf([(kvs[0].0, ValuesFor(kvs, kvs[0].0))] + rest) == KeysOf(kvs)
  {
    assert kvs == [kvs[0]] + kvs[1..];
    KeysOfCons(kvs[0], kvs[1..]);
    KeysOfCons((kvs[0].0, ValuesFor(kvs, kvs[0].0)), rest);
  }

  lemma {:induction false} GroupStepDistinct<K, V>(kvs: seq<(K, V)>, rest: seq<(K, seq<V>)>)
    requires |kvs| > 0
    requires DistinctKeys(rest)
    requires KeysOf(rest) == KeysOf(Without(kvs[1..], kvs[0].0))
    ensures DistinctKeys([(kvs[0].0, ValuesFor(kvs, kvs[0].0))] + rest)
  {
    assert kvs[0].0 !in KeysOf(rest);
    DistinctKeysCons((kvs[0].0, ValuesFor(kvs, kvs[0].0)), rest);
  }

  lemma {:induction false} DistinctKeysCons<K, V>(kv: (K, V), rest: seq<(K, V)>)
    requires DistinctKeys(rest) && kv.0 !in KeysOf(rest)
    ensures DistinctKeys([kv] + rest)
  {
    var gs := [kv] + rest;
    forall i, j | 0 <= i < j < |gs| ensures gs[i].0 != gs[j].0 {
      assert gs[j] == rest[j - 1];
      if i == 0 {
        assert rest[j - 1].0 in KeysOf(rest);
      } else {
        assert gs[i] == rest[i - 1];
      }
    }
  }

  lemma {:induction false} GroupStepValues<K, V>(kvs: seq<(K, V)>, rest: seq<(K, seq<V>)>)
    requires |kvs| > 0
    requires GroupsOf(rest, Without(kvs[1..], kvs[0].0))
    ensures var gs := [(kvs[0].0, ValuesFor(kvs, kvs[0].0))] + rest;
      forall i :: 0 <= i < |gs| ==> gs[i].1 == ValuesFor(kvs, gs[i].0) && |gs[i].1| > 0
  {
    var k := kvs[0].0;
    var gs := [(k, ValuesFor(kvs, k))] + rest;
    forall i | 0 <= i < |gs|
      ensures gs[i].1 == ValuesFor(kvs, gs[i].0) && |gs[i].1| > 0
    {
      if i > 0 {
        assert gs[i] == rest[i - 1];
        assert rest[i - 1].0 in KeysOf(rest);
        WithoutKeepsOthers(kvs[1..], k, rest[i - 1].0);
      }
    }
  }

  /** Grouping keeps every value: a value sits in key `k`'s group exactly
      as often as the pair `(k, v)` occurs in the input. */
  lemma {:induction false} ValuesForCounts<K, V>(kvs: seq<(K, V)>, k: K, v: V)
    ensures multiset(ValuesFor(kvs, k))[v] == multiset(kvs)[(k, v)]
    decreases |kvs|
  {
    if |kvs| > 0 {
      var head := if kvs[0].0 == k then [kvs[0].1] else [];
      var rest := ValuesFor(kvs[1..], k);
      ValuesForCounts(kvs[1..], k, v);
      MultisetHead(kvs, (k, v));
      assert multiset(head + rest) == multiset(head) + multiset(rest);
    }
  }

  /** Counting an element of a sequence from its head. */
  lemma {:induction false} MultisetHead<T>(s: seq<T>, x: T)
    requires |s| > 0
    ensures multiset(s)[x] == (if s[0] == x then 1 else 0) + multiset(s[1..])[x]
  {
    assert s == [s[0]] + s[1..];
  }

  lemma {:induction false} DistinctKeysAtMostOnce<K, V>(kvs: seq<(K, V)>, e: (K, V))
    requires DistinctKeys(kvs)
    ensures multiset(kvs)[e] <= 1
    decreases |kvs|
  {
    if |kvs| > 0 {
      assert kvs == [kvs[0]] + kvs[1..];
      DistinctKeysAtMostOnce(kvs[1..], e);
      if kvs[0] == e {
        assert e !in kvs[1..] by {
          forall i | 0 <= i < |kvs[1..]| ensures kvs[1..][i] != e {
            assert kvs[1..][i] == kvs[i + 1];
          }
        }
      }
    }
  }

  /** Rearranging a collection keeps its keys distinct. */
  lemma {:induction false} DistinctKeysPermutation<K, V>(a: seq<(K, V)>, b: seq<(K, V)>)
    requires multiset(a) == multiset(b)
    requires DistinctKeys(a)
    ensures DistinctKeys(b)
  {
    forall i, j | 0 <= i < j < |b|
      ensures b[i].0 != b[j].0
    {
      if b[i] == b[j] {
        assert b == b[..j] + b[j..];
        assert b[i] in b[..j] && b[j] in b[j..];
        assert multiset(b)[b[i]] == multiset(b[..j])[b[i]] + multiset(b[j..])[b[i]];
        DistinctKeysAtMostOnce(a, b[i]);
      } else {
        assert b[i] in multiset(a) && b[j] in multiset(a);
        var i' :| 0 <= i' < |a| && a[i'] == b[i];
        var j' :| 0 <= j' < |a| && a[j'] == b[j];
        assert i' != j';
      }
    }
  }
}
