/** `only_keep_best_wines`: from one wine's partner list, ranked by
    count, keep the partners tied at the best count. The "-1" sentinel
    partner ("bought alone") is `None` and is always skipped; when it
    heads the list the best count is read from the entry after it, and a
    list holding only the sentinel yields no partners and count 0. */
module BestLinks {
  import opened Results
  import opened Records
  import opened Ranking
  import opened Grouping

  type Partner = Option<WineId>

  /** One line of the purchased-together report. */
  datatype BestLink = BestLink(wine: WineId, partners: seq<WineId>, count: nat)

  /** The loop of `only_keep_best_wines`: skip sentinels, keep partners
      whose count is `n`, stop at the first real partner with another
      count. */
  function Collect(l: seq<(Partner, nat)>, n: nat): (r: seq<WineId>)
    ensures |r| <= |l|
    ensures forall p :: p in r ==> (Some(p), n) in l
    decreases |l|
  {
    if |l| == 0 then []
    else if l[0].0.None? then Collect(l[1..], n)
    else if l[0].1 == n then [l[0].0.value] + Collect(l[1..], n)
    else []
  }

  /** `only_keep_best_wines` on a wine's (non-empty) partner list: every
      returned partner is listed with exactly the returned count, and a
      list holding only the sentinel yields no partner and count 0. */
  function OnlyKeepBest(wine: WineId, l: seq<(Partner, nat)>): (r: BestLink)
    requires |l| > 0
    ensures r.wine == wine
    ensures forall p :: p in r.partners ==> (Some(p), r.count) in l
    ensures l == [(None, l[0].1)] ==> r.partners == [] && r.count == 0
  {
    if l[0].0.None? then
      if |l| == 1 then BestLink(wine, [], 0)
      else BestLink(wine, Collect(l, l[1].1), l[1].1)
    else BestLink(wine, Collect(l, l[0].1), l[0].1)
  }

  /** The real partners of a list, in order. */
  function RealIds(l: seq<(Partner, nat)>): seq<WineId>
    decreases |l|
  {
    if |l| == 0 then []
    else (if l[0].0.Some? then [l[0].0.value] else []) + RealIds(l[1..])
  }

  /** The real partners listed with count `c`, in list order. */
  function TiedAt(l: seq<(Partner, nat)>, c: nat): seq<WineId> {
    RealIds(WithCount(l, c))
  }

  /** The best count among real partners, 0 when there is none. */
  function MaxReal(l: seq<(Partner, nat)>): (r: nat)
    ensures forall e :: e in l && e.0.Some? ==> e.1 <= r
    ensures r > 0 ==> exists e :: e in l && e.0.Some? && e.1 == r
    decreases |l|
  {
    if |l| == 0 then 0
    else
      var m := MaxReal(l[1..]);
      assert forall e :: e in l[1..] ==> e in l;
      if l[0].0.Some? && l[0].1 > m then l[0].1 else m
  }

  /** A real partner is tied at `c` exactly when it is listed with count `c`. */
  lemma {:induction false} TiedAtMembers(l: seq<(Partner, nat)>, c: nat, m: WineId)
    ensures m in TiedAt(l, c) <==> (Some(m), c) in l
    decreases |l|
  {
    if |l| > 0 {
      TiedAtMembers(l[1..], c, m);
      var w := WithCount(l[1..], c);
      if l[0].1 == c {
        assert WithCount(l, c) == [l[0]] + w;
        assert ([l[0]] + w)[1..] == w;
      } else {
        assert WithCount(l, c) == w;
      }
      assert l == [l[0]] + l[1..];
    }
  }

  /** A list with one entry per partner ties each partner at most once. */
  lemma {:induction false} TiedAtDistinct(l: seq<(Partner, nat)>, c: nat)
    requires DistinctKeys(l)
    ensures forall i, j :: 0 <= i < j < |TiedAt(l, c)| ==> TiedAt(l, c)[i] != TiedAt(l, c)[j]
    decreases |l|
  {
    if |l| > 0 {
      var rest := TiedAt(l[1..], c);
      TiedAtDistinct(l[1..], c);
      var w := WithCount(l[1..], c);
      if l[0].1 == c && l[0].0.Some? {
        assert WithCount(l, c) == [l[0]] + w;
        assert ([l[0]] + w)[1..] == w;
        assert TiedAt(l, c) == [l[0].0.value] + rest;
        forall k | 0 <= k < |rest| ensures rest[k] != l[0].0.value {
          TiedAtMembers(l[1..], c, rest[k]);
          var d :| 0 <= d < |l[1..]| && l[1..][d] == (Some(rest[k]), c);
          assert l[d + 1] == l[1..][d];
        }
      } else if l[0].1 == c {
        assert WithCount(l, c) == [l[0]] + w;
        assert ([l[0]] + w)[1..] == w;
      } else {
        assert WithCount(l, c) == w;
      }
    }
  }

  /** A leading sentinel adds no tied partner. */
  lemma {:induction false} TiedAtSkipsSentinel(l: seq<(Partner, nat)>, c: nat)
    requires |l| > 0 && l[0].0.None?
    ensures TiedAt(l, c) == TiedAt(l[1..], c)
  {
    var w := WithCount(l[1..], c);
    if l[0].1 == c {
      assert WithCount(l, c) == [l[0]] + w;
      assert ([l[0]] + w)[1..] == w;
      assert RealIds([l[0]] + w) == RealIds(w);
    } else {
      assert WithCount(l, c) == w;
    }
  }

  /** On a ranked list the loop of `only_keep_best_wines` gathers exactly
      the real partners tied at `n`, provided nothing ranks above `n`. */
  lemma {:induction false} CollectRanked(l: seq<(Partner, nat)>, n: nat)
    requires NonIncreasing(l)
    requires |l| > 0 ==> l[0].1 <= n
    ensures Collect(l, n) == TiedAt(l, n)
    decreases |l|
  {
    if |l| > 0 {
      var w := WithCount(l[1..], n);
      if l[0].0.None? {
        TiedAtSkipsSentinel(l, n);
        CollectRanked(l[1..], n);
      } else if l[0].1 == n {
        CollectRanked(l[1..], n);
        assert WithCount(l, n) == [l[0]] + w;
        assert ([l[0]] + w)[1..] == w;
      } else {
        WithCountNone(l, n);
        assert TiedAt(l, n) == RealIds([]);
      }
    }
  }

  /** The count `v` is the best real count of `l`. */
  lemma {:induction false} MaxRealIs(l: seq<(Partner, nat)>, v: nat)
    requires forall e :: e in l && e.0.Some? ==> e.1 <= v
    requires v > 0 ==> exists e :: e in l && e.0.Some? && e.1 == v
    ensures MaxReal(l) == v
  {
  }

  /** The best real count does not depend on the order of the list. */
  lemma {:induction false} MaxRealPermutation(a: seq<(Partner, nat)>, b: seq<(Partner, nat)>)
    requires multiset(a) == multiset(b)
    ensures MaxReal(a) == MaxReal(b)
  {
    assert forall e :: e in a <==> e in b by {
      forall e ensures e in a <==> e in b {
        assert e in a <==> e in multiset(a);
        assert e in b <==> e in multiset(b);
      }
    }
    MaxRealIs(b, MaxReal(a));
  }

  /** The selection on a ranked list with one entry per partner: the
      count is the best real count (0 when the wine was only bought
      alone) and the partners are exactly the real partners tied at that
      count, in list order. */
  lemma {:induction false} BestOfRanked(wine: WineId, l: seq<(Partner, nat)>)
    requires |l| > 0
    requires NonIncreasing(l)
    requires DistinctKeys(l)
    ensures OnlyKeepBest(wine, l) == BestLink(wine, TiedAt(l, MaxReal(l)), MaxReal(l))
  {
    if l[0].0.None? {
      if |l| == 1 {
        MaxRealIs(l, 0);
        TiedAtSkipsSentinel(l, 0);
        assert l[1..] == [];
      } else {
        BestAfterSentinel(wine, l);
      }
    } else {
      assert forall e :: e in l ==> e.1 <= l[0].1;
      MaxRealIs(l, l[0].1);
      CollectRanked(l, l[0].1);
    }
  }

  /** A leading sentinel is skipped: the best count is the next entry's. */
  lemma {:induction false} BestAfterSentinel(wine: WineId, l: seq<(Partner, nat)>)
    requires |l| > 1 && l[0].0.None?
    requires NonIncreasing(l)
    requires DistinctKeys(l)
    ensures OnlyKeepBest(wine, l) == BestLink(wine, TiedAt(l, MaxReal(l)), MaxReal(l))
  {
    assert l[1].0.Some?;
    forall e | e in l && e.0.Some? ensures e.1 <= l[1].1 {
      var k :| 0 <= k < |l| && l[k] == e;
      assert k != 0;
    }
    MaxRealIs(l, l[1].1);
    CollectRanked(l[1..], l[1].1);
    TiedAtSkipsSentinel(l, l[1].1);
  }


  /** `sort_wines_linked` then `only_keep_best_wines`, on any list with
      one entry per partner: the result does not depend on how the list
      was ordered except through the order of tied partners, which is
      their order in the input (the sort is stable). */
  lemma {:induction false} BestOfGroup(wine: WineId, l: seq<(Partner, nat)>)
    requires |l| > 0
    requires DistinctKeys(l)
    ensures OnlyKeepBest(wine, SortByCount(l)) == BestLink(wine, TiedAt(l, MaxReal(l)), MaxReal(l))
  {
    var s := SortByCount(l);
    assert |s| == |l| by {
      assert |multiset(s)| == |multiset(l)|;
    }
    DistinctKeysPermutation(l, s);
    BestOfRanked(wine, s);
    MaxRealPermutation(l, s);
    SortStable(l, MaxReal(l));
  }

  /** `l` lists, with their counts, exactly the partners whose count is
      positive (and possibly sentinel entries, also with a positive count). */
  ghost predicate ListsCounts(l: seq<(Partner, nat)>, count: WineId -> nat) {
    && (forall i :: 0 <= i < |l| ==> l[i].1 > 0)
    && (forall m: WineId, c: nat :: (Some(m), c) in l <==> c > 0 && count(m) == c)
  }

  /** No partner has a count above the best real count. */
  lemma {:induction false} MaxRealBounds(l: seq<(Partner, nat)>, count: WineId -> nat)
    requires ListsCounts(l, count)
    ensures forall m: WineId :: count(m) <= MaxReal(l)
  {
    forall m: WineId ensures count(m) <= MaxReal(l) {
      if count(m) > 0 {
        assert (Some(m), count(m)) in l;
      }
    }
  }

  /** The partners tied at the best real count are exactly those whose
      count is that best count. */
  lemma {:induction false} TiedAtBest(l: seq<(Partner, nat)>, count: WineId -> nat)
    requires ListsCounts(l, count)
    ensures forall m: WineId :: m in TiedAt(l, MaxReal(l)) <==> MaxReal(l) > 0 && count(m) == MaxReal(l)
  {
    forall m: WineId ensures m in TiedAt(l, MaxReal(l)) <==> MaxReal(l) > 0 && count(m) == MaxReal(l) {
      TiedAtMembers(l, MaxReal(l), m);
    }
  }

  /** Nobody is tied exactly when the best real count is zero. */
  lemma {:induction false} NoneTiedIffZero(l: seq<(Partner, nat)>, count: WineId -> nat)
    requires ListsCounts(l, count)
    ensures MaxReal(l) == 0 <==> TiedAt(l, MaxReal(l)) == []
  {
    var M := MaxReal(l);
    if M > 0 {
      var e :| e in l && e.0.Some? && e.1 == M;
      TiedAtMembers(l, M, e.0.value);
    } else {
      WithCountNone(l, 0);
    }
  }

  /** `b` is the right answer for its wine when partners are counted by
      `count`: no partner has a count above `b.count`, the partners are
      exactly those whose count is `b.count`, each listed once, and the
      count is 0 exactly when there is no partner. */
  ghost predicate IsBestAmong(b: BestLink, count: WineId -> nat) {
    && (forall m: WineId :: count(m) <= b.count)
    && (forall m: WineId :: m in b.partners <==> b.count > 0 && count(m) == b.count)
    && (b.count == 0 <==> b.partners == [])
    && (forall i, j :: 0 <= i < j < |b.partners| ==> b.partners[i] != b.partners[j])
  }

  /** Sorting a wine's list of counted partners and keeping the best gives
      the right answer. */
  lemma {:induction false} SelectsBest(wine: WineId, l: seq<(Partner, nat)>, count: WineId -> nat)
    requires |l| > 0 && DistinctKeys(l) && ListsCounts(l, count)
    ensures IsBestAmong(OnlyKeepBest(wine, SortByCount(l)), count)
  {
    BestOfGroup(wine, l);
    MaxRealBounds(l, count);
    TiedAtBest(l, count);
    NoneTiedIffZero(l, count);
    TiedAtDistinct(l, MaxReal(l));
  }
}
