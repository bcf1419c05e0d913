/** `sort_wines_linked`: `sorted(entries, key=count, reverse=True)`.
    Python's sort is stable, also in reverse, so entries with equal
    counts keep their input order. Modelled as a stable insertion sort. */
module Ranking {

  /** Counts never increase along the sequence. */
  predicate NonIncreasing<T>(s: seq<(T, nat)>) {
    forall i, j :: 0 <= i < j < |s| ==> s[i].1 >= s[j].1
  }

  /** The entries whose count is `c`, in order. */
  function WithCount<T>(s: seq<(T, nat)>, c: nat): seq<(T, nat)>
    decreases |s|
  {
    if |s| == 0 then []
    else (if s[0].1 == c then [s[0]] else []) + WithCount(s[1..], c)
  }

  /** Puts `x` after every entry whose count is at least its own. */
  function Insert<T(==)>(s: seq<(T, nat)>, x: (T, nat)): (r: seq<(T, nat)>)
    requires NonIncreasing(s)
    ensures NonIncreasing(r)
    ensures multiset(r) == multiset(s) + multiset{x}
    ensures r[0] == x || r[0] == s[0]
    decreases |s|
  {
    if |s| == 0 then [x]
    else if s[0].1 >= x.1 then
      var rest := Insert(s[1..], x);
      InsertFront(s, x, rest);
      [s[0]] + rest
    else
      [x] + s
  }

  lemma {:induction false} InsertFront<T>(s: seq<(T, nat)>, x: (T, nat), rest: seq<(T, nat)>)
    requires NonIncreasing(s) && |s| > 0 && s[0].1 >= x.1
    requires NonIncreasing(rest) && multiset(rest) == multiset(s[1..]) + multiset{x}
    requires rest[0] == x || (|s| > 1 && rest[0] == s[1])
    ensures NonIncreasing([s[0]] + rest)
    ensures multiset([s[0]] + rest) == multiset(s) + multiset{x}
  {
    var r := [s[0]] + rest;
    assert forall j :: 0 < j < |r| ==> r[j] == rest[j - 1];
    assert forall j :: 0 <= j < |rest| ==> rest[j].1 <= rest[0].1;
    assert s == [s[0]] + s[1..];
  }

  /** `sorted(..., key=count, reverse=True)`: a permutation of the input
      with non-increasing counts. */
  function SortByCount<T(==)>(s: seq<(T, nat)>): (r: seq<(T, nat)>)
    ensures NonIncreasing(r)
    ensures multiset(r) == multiset(s)
    decreases |s|
  {
    if |s| == 0 then []
    else
      assert s == s[..|s| - 1] + [s[|s| - 1]];
      Insert(SortByCount(s[..|s| - 1]), s[|s| - 1])
  }

  lemma {:induction false} WithCountAppend<T>(a: seq<(T, nat)>, b: seq<(T, nat)>, c: nat)
    ensures WithCount(a + b, c) == WithCount(a, c) + WithCount(b, c)
    decreases |a|
  {
    if |a| > 0 {
      assert (a + b)[1..] == a[1..] + b;
      WithCountAppend(a[1..], b, c);
    } else {
      assert a + b == b;
    }
  }

  lemma {:induction false} WithCountNone<T>(s: seq<(T, nat)>, c: nat)
    requires forall i :: 0 <= i < |s| ==> s[i].1 != c
    ensures WithCount(s, c) == []
    decreases |s|
  {
    if |s| > 0 {
      WithCountNone(s[1..], c);
    }
  }

  lemma {:induction false} WithCountCons<T>(e: (T, nat), s: seq<(T, nat)>, c: nat)
    ensures WithCount([e] + s, c) == (if e.1 == c then [e] else []) + WithCount(s, c)
  {
    assert ([e] + s)[1..] == s;
  }

  lemma {:induction false} NonIncreasingTail<T>(s: seq<(T, nat)>)
    requires NonIncreasing(s) && |s| > 0
    ensures NonIncreasing(s[1..])
  {
    assert forall i :: 0 <= i < |s| - 1 ==> s[1..][i] == s[i + 1];
  }

  lemma {:induction false} InsertStable<T>(s: seq<(T, nat)>, x: (T, nat), c: nat)
    requires NonIncreasing(s)
    ensures WithCount(Insert(s, x), c) == WithCount(s, c) + (if x.1 == c then [x] else [])
    decreases |s|
  {
    if |s| > 0 {
      if s[0].1 >= x.1 {
        NonIncreasingTail(s);
        InsertStable(s[1..], x, c);
        assert s == [s[0]] + s[1..];
        StableCons(s[0], Insert(s[1..], x), s[1..], x, c);
      } else {
        WithCountCons(x, s, c);
        if x.1 == c {
          WithCountNone(s, c);
        }
      }
    } else {
      WithCountCons(x, [], c);
    }
  }

  lemma {:induction false} StableCons<T>(e: (T, nat), rest: seq<(T, nat)>, s: seq<(T, nat)>, x: (T, nat), c: nat)
    requires WithCount(rest, c) == WithCount(s, c) + (if x.1 == c then [x] else [])
    ensures WithCount([e] + rest, c) == WithCount([e] + s, c) + (if x.1 == c then [x] else [])
  {
    WithCountCons(e, rest, c);
    WithCountCons(e, s, c);
  }

  /** Stability: for every count, the entries with that count appear in
      the sorted list in the same order as in the input. */
  lemma {:induction false} SortStable<T>(s: seq<(T, nat)>, c: nat)
    ensures WithCount(SortByCount(s), c) == WithCount(s, c)
    decreases |s|
  {
    if |s| > 0 {
      var p := s[..|s| - 1];
      var x := s[|s| - 1];
      var sp := SortByCount(p);
      var tail := WithCount([x], c);
      assert tail == if x.1 == c then [x] else [] by {
        assert [x][1..] == [];
        assert WithCount([x], c) == (if x.1 == c then [x] else []) + WithCount([x][1..], c);
        assert WithCount([x][1..], c) == [];
      }
      calc {
        WithCount(SortByCount(s), c);
        { assert SortByCount(s) == Insert(sp, x); }
        WithCount(Insert(sp, x), c);
        { InsertStable(sp, x, c); }
        WithCount(sp, c) + tail;
        { SortStable(p, c); }
        WithCount(p, c) + tail;
        { WithCountAppend(p, [x], c); }
        WithCount(p + [x], c);
        { assert s == p + [x]; }
        WithCount(s, c);
      }
    }
  }
}
