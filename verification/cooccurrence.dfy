/** The purchased-together report (`step2`): group wines by transaction,
    emit ordered partner pairs per transaction, count each pair, regroup
    the counts by the first wine, rank and select the best partners. */
module CoOccurrence {
  import opened Results
  import opened Records
  import opened Grouping
  import opened Combining
  import opened Ranking
  import opened BestLinks

  /** A (wine, partner) pair; partner `None` is the "-1" sentinel. */
  type Pair = (WineId, Partner)

  /** The inner loop for one wine `n`: `((n, m), 1)` for every `m` of the
      transaction that differs from `n`. */
  function LinkRow(n: WineId, g: seq<WineId>): (r: seq<(Pair, nat)>)
    ensures forall i :: 0 <= i < |r| ==>
      r[i].1 == 1 && r[i].0.0 == n && r[i].0.1.Some? && r[i].0.1.value != n && r[i].0.1.value in g
    decreases |g|
  {
    if |g| == 0 then []
    else (if n != g[0] then [((n, Some(g[0])), 1)] else []) + LinkRow(n, g[1..])
  }

  /** Both loops: the rows of every wine `n` in `ns`. */
  function LinkRows(ns: seq<WineId>, g: seq<WineId>): (r: seq<(Pair, nat)>)
    ensures forall i :: 0 <= i < |r| ==>
      r[i].1 == 1 && r[i].0.0 in ns && r[i].0.1.Some? && r[i].0.1.value != r[i].0.0 && r[i].0.1.value in g
    decreases |ns|
  {
    if |ns| == 0 then []
    else
      var head := LinkRow(ns[0], g);
      var rest := LinkRows(ns[1..], g);
      assert forall i :: |head| <= i < |head + rest| ==> (head + rest)[i] == rest[i - |head|];
      head + rest
  }

  /** `number_of_times_wines_have_been_linked` on one transaction's wines:
      a lone wine yields only its sentinel pair; otherwise every ordered
      pair of different wines is emitted, never the sentinel. */
  function Links(g: seq<WineId>): (r: seq<(Pair, nat)>)
    ensures |g| == 1 ==> r == [((g[0], None), 1)]
    ensures |g| != 1 ==> forall i :: 0 <= i < |r| ==> r[i].0.1.Some? && r[i].0.1.value != r[i].0.0
    ensures forall i :: 0 <= i < |r| ==> r[i].0.0 in g
    ensures UnitWeights(r)
  {
    var lone: seq<(Pair, nat)> := if |g| == 1 then [((g[0], None), 1)] else [];
    var rows := LinkRows(g, g);
    assert |g| == 1 ==> rows == [] by {
      if |g| == 1 {
        assert LinkRow(g[0], g[1..]) == [];
        assert LinkRows(g, g) == LinkRow(g[0], g) + LinkRows(g[1..], g);
      }
    }
    assert forall i :: |lone| <= i < |lone + rows| ==> (lone + rows)[i] == rows[i - |lone|];
    lone + rows
  }

  /** The `FlatMap` of `Links` over the transactions. */
  function AllLinks(txns: seq<(string, seq<WineId>)>): (r: seq<(Pair, nat)>)
    ensures UnitWeights(r)
    decreases |txns|
  {
    if |txns| == 0 then []
    else
      var head := Links(txns[0].1);
      var rest := AllLinks(txns[1..]);
      UnitWeightsAppend(head, rest);
      head + rest
  }

  /** Every emitted pair carries the count 1. */
  predicate UnitWeights(kvs: seq<(Pair, nat)>) {
    forall i :: 0 <= i < |kvs| ==> kvs[i].1 == 1
  }

  lemma {:induction false} UnitWeightsAppend(a: seq<(Pair, nat)>, b: seq<(Pair, nat)>)
    requires UnitWeights(a) && UnitWeights(b)
    ensures UnitWeights(a + b)
  {
    assert forall i :: |a| <= i < |a + b| ==> (a + b)[i] == b[i - |a|];
  }

  /** How often `n` and `m` were bought together: over all transactions,
      the occurrences of `n` times the occurrences of `m`. */
  function Together(txns: seq<(string, seq<WineId>)>, n: WineId, m: WineId): nat
    decreases |txns|
  {
    if |txns| == 0 then 0
    else
      (if n != m then multiset(txns[0].1)[n] * multiset(txns[0].1)[m] else 0) + Together(txns[1..], n, m)
  }

  /** How many transactions consist of `n` alone. */
  function Alone(txns: seq<(string, seq<WineId>)>, n: WineId): nat
    decreases |txns|
  {
    if |txns| == 0 then 0
    else (if txns[0].1 == [n] then 1 else 0) + Alone(txns[1..], n)
  }

  lemma {:induction false} LinkRowCount(a: WineId, g: seq<WineId>, n: WineId, m: WineId)
    ensures SumFor(LinkRow(a, g), (n, Some(m))) == if a == n && n != m then multiset(g)[m] else 0
    decreases |g|
  {
    if |g| > 0 {
      LinkRowCount(a, g[1..], n, m);
      MultisetHead(g, m);
      if a != g[0] {
        assert LinkRow(a, g) == [((a, Some(g[0])), 1)] + LinkRow(a, g[1..]);
        SumForCons(((a, Some(g[0])), 1), LinkRow(a, g[1..]), (n, Some(m)));
      } else {
        assert LinkRow(a, g) == [] + LinkRow(a, g[1..]);
        assert [] + LinkRow(a, g[1..]) == LinkRow(a, g[1..]);
      }
    }
  }

  lemma {:induction false} LinkRowsCount(ns: seq<WineId>, g: seq<WineId>, n: WineId, m: WineId)
    ensures SumFor(LinkRows(ns, g), (n, Some(m))) == if n != m then multiset(ns)[n] * multiset(g)[m] else 0
    decreases |ns|
  {
    if |ns| > 0 {
      var key: Pair := (n, Some(m));
      var k := multiset(ns[1..])[n];
      var c := multiset(g)[m];
      var row := SumFor(LinkRow(ns[0], g), key);
      var rows := SumFor(LinkRows(ns[1..], g), key);
      LinkRowCount(ns[0], g, n, m);
      LinkRowsCount(ns[1..], g, n, m);
      SumForAppend(LinkRow(ns[0], g), LinkRows(ns[1..], g), key);
      assert SumFor(LinkRows(ns, g), key) == row + rows;
      MultisetHead(ns, n);
      if n != m {
        if ns[0] == n {
          assert row == c && rows == k * c;
          MulSucc(k, c);
        } else {
          assert row == 0 && rows == k * c;
        }
      }
    }
  }

  lemma {:induction false} MulSucc(k: nat, c: nat)
    ensures (k + 1) * c == k * c + c
  {
  }

  /** One transaction adds occurrences(n) times occurrences(m) to the
      pair (n, m) when n differs from m: the same amount as to (m, n). */
  lemma {:induction false} LinksCount(g: seq<WineId>, n: WineId, m: WineId)
    ensures SumFor(Links(g), (n, Some(m))) == if n != m then multiset(g)[n] * multiset(g)[m] else 0
  {
    var lone: seq<(Pair, nat)> := if |g| == 1 then [((g[0], None), 1)] else [];
    LinkRowsCount(g, g, n, m);
    SumForAppend(lone, LinkRows(g, g), (n, Some(m)));
    if |g| == 1 {
      assert lone[1..] == [];
    }
  }

  /** One transaction adds 1 to the sentinel pair of `n` exactly when it
      consists of `n` alone. */
  lemma {:induction false} LinksAlone(g: seq<WineId>, n: WineId)
    ensures SumFor(Links(g), (n, None)) == if g == [n] then 1 else 0
  {
    if |g| == 1 {
      assert Links(g) == [((g[0], None), 1)];
      assert Links(g)[1..] == [];
      assert g == [g[0]];
    } else {
      var r := Links(g);
      assert (n, None) !in KeysOf(r) by {
        forall i | 0 <= i < |r| ensures r[i].0 != (n, None) {
          assert r[i].0.1.Some?;
        }
      }
      SumForAbsent(r, (n, None));
    }
  }

  /** Counting pairs over all transactions gives `Together` for real
      partners and `Alone` for the sentinel. */
  lemma {:induction false} AllLinksCount(txns: seq<(string, seq<WineId>)>, n: WineId, m: WineId)
    ensures SumFor(AllLinks(txns), (n, Some(m))) == Together(txns, n, m)
    ensures SumFor(AllLinks(txns), (n, None)) == Alone(txns, n)
    decreases |txns|
  {
    if |txns| > 0 {
      AllLinksCount(txns[1..], n, m);
      LinksCount(txns[0].1, n, m);
      LinksAlone(txns[0].1, n);
      SumForAppend(Links(txns[0].1), AllLinks(txns[1..]), (n, Some(m)));
      SumForAppend(Links(txns[0].1), AllLinks(txns[1..]), (n, None));
    }
  }

  lemma {:induction false} TogetherSymmetric(txns: seq<(string, seq<WineId>)>, n: WineId, m: WineId)
    ensures Together(txns, n, m) == Together(txns, m, n)
    decreases |txns|
  {
    if |txns| > 0 {
      TogetherSymmetric(txns[1..], n, m);
    }
  }

  /** The transactions: `GroupByKey` of (datetime, wine) entries. */
  function Transactions(entries: seq<(string, WineId)>): seq<(string, seq<WineId>)> {
    GroupBy(entries)
  }

  /** The pair counts: `CombinePerKey(sum)` of every emitted pair. */
  function PairCounts(entries: seq<(string, WineId)>): seq<(Pair, nat)> {
    SumPerKey(AllLinks(Transactions(entries)))
  }

  /** The count of pair (n, p), 0 when it was never emitted. */
  function PairCount(entries: seq<(string, WineId)>, n: WineId, p: Partner): nat {
    SumFor(AllLinks(Transactions(entries)), (n, p))
  }

  /** What the pair counts mean: (n, m) counts co-purchases of n and m,
      (n, sentinel) counts the transactions where n was bought alone. */
  lemma {:induction false} PairCountMeaning(entries: seq<(string, WineId)>, n: WineId, m: WineId)
    ensures PairCount(entries, n, Some(m)) == Together(Transactions(entries), n, m)
    ensures PairCount(entries, n, None) == Alone(Transactions(entries), n)
  {
    AllLinksCount(Transactions(entries), n, m);
  }

  /** Symmetry: `count(n, m) == count(m, n)`, so in particular each pair
      is emitted exactly when its reverse is. */
  lemma {:induction false} PairCountSymmetric(entries: seq<(string, WineId)>, n: WineId, m: WineId)
    ensures PairCount(entries, n, Some(m)) == PairCount(entries, m, Some(n))
    ensures (n, Some(m)) in KeysOf(PairCounts(entries)) <==> (m, Some(n)) in KeysOf(PairCounts(entries))
  {
    var all := AllLinks(Transactions(entries));
    AllLinksCount(Transactions(entries), n, m);
    AllLinksCount(Transactions(entries), m, n);
    TogetherSymmetric(Transactions(entries), n, m);
    EmittedIffCounted(all, (n, Some(m)));
    EmittedIffCounted(all, (m, Some(n)));
  }

  /** With unit weights a pair is emitted exactly when its count is positive. */
  lemma {:induction false} EmittedIffCounted(kvs: seq<(Pair, nat)>, p: Pair)
    requires forall i :: 0 <= i < |kvs| ==> kvs[i].1 == 1
    ensures p in KeysOf(kvs) <==> SumFor(kvs, p) > 0
    decreases |kvs|
  {
    if |kvs| > 0 {
      EmittedIffCounted(kvs[1..], p);
      assert kvs == [kvs[0]] + kvs[1..];
      KeysOfCons(kvs[0], kvs[1..]);
    }
  }

  /** `links_by_wine`: ((n, m), c) becomes (n, (m, c)). */
  function ByFirstWine(counts: seq<(Pair, nat)>): (r: seq<(WineId, (Partner, nat))>)
    ensures |r| == |counts|
    decreases |counts|
  {
    if |counts| == 0 then []
    else [(counts[0].0.0, (counts[0].0.1, counts[0].1))] + ByFirstWine(counts[1..])
  }

  /** The regrouped list of wine `w` holds exactly its counted pairs. */
  lemma {:induction false} ByFirstWineMembers(counts: seq<(Pair, nat)>, w: WineId, e: (Partner, nat))
    ensures e in ValuesFor(ByFirstWine(counts), w) <==> ((w, e.0), e.1) in counts
    decreases |counts|
  {
    if |counts| > 0 {
      ByFirstWineMembers(counts[1..], w, e);
      assert ByFirstWine(counts)[1..] == ByFirstWine(counts[1..]);
      assert counts == [counts[0]] + counts[1..];
    }
  }

  /** Distinct pairs give each wine's list one entry per partner. */
  lemma {:induction false} ByFirstWineDistinct(counts: seq<(Pair, nat)>, w: WineId)
    requires DistinctKeys(counts)
    ensures DistinctKeys(ValuesFor(ByFirstWine(counts), w))
    decreases |counts|
  {
    if |counts| > 0 {
      var rest := ValuesFor(ByFirstWine(counts[1..]), w);
      assert DistinctKeys(counts[1..]) by {
        assert forall i :: 0 <= i < |counts[1..]| ==> counts[1..][i] == counts[i + 1];
      }
      ByFirstWineDistinct(counts[1..], w);
      assert ByFirstWine(counts)[1..] == ByFirstWine(counts[1..]);
      if counts[0].0.0 == w {
        var l := [(counts[0].0.1, counts[0].1)] + rest;
        assert l == ValuesFor(ByFirstWine(counts), w);
        forall k | 0 <= k < |rest| ensures rest[k].0 != counts[0].0.1 {
          ByFirstWineMembers(counts[1..], w, rest[k]);
          assert rest[k] in rest;
          var d :| 0 <= d < |counts[1..]| && counts[1..][d] == ((w, rest[k].0), rest[k].1);
          assert counts[d + 1] == counts[1..][d];
        }
        assert forall k :: 0 < k < |l| ==> l[k] == rest[k - 1];
      }
    }
  }

  /** `sort_wines_linked` then `only_keep_best_wines` on one group. */
  function Best(group: (WineId, seq<(Partner, nat)>)): BestLink
    requires |group.1| > 0
  {
    OnlyKeepBest(group.0, SortByCount(group.1))
  }

  /** Select the best partners of every regrouped wine. */
  function BestOfAll(groups: seq<(WineId, seq<(Partner, nat)>)>): (r: seq<BestLink>)
    requires forall i :: 0 <= i < |groups| ==> |groups[i].1| > 0
    ensures |r| == |groups|
    ensures forall i :: 0 <= i < |r| ==> r[i] == Best(groups[i])
  {
    seq(|groups|, i requires 0 <= i < |groups| => Best(groups[i]))
  }

  /** The purchased-together pipeline after parsing. */
  function PurchasedTogether(entries: seq<(string, WineId)>): seq<BestLink> {
    BestOfAll(GroupBy(ByFirstWine(PairCounts(entries))))
  }

  /** The wines that head at least one counted pair. */
  function LinkedWines(entries: seq<(string, WineId)>): set<WineId> {
    set p | p in KeysOf(PairCounts(entries)) :: p.0
  }

  function WinesOf(out: seq<BestLink>): set<WineId> {
    set i | 0 <= i < |out| :: out[i].wine
  }

  /** A wine gets a line of the report exactly when it was bought alone
      at least once or together with some different wine. */
  lemma {:induction false} LinkedWinesMeaning(entries: seq<(string, WineId)>, w: WineId)
    ensures w in LinkedWines(entries)
        <==> Alone(Transactions(entries), w) > 0 || exists m :: Together(Transactions(entries), w, m) > 0
  {
    if w in LinkedWines(entries) {
      LinkedWineBought(entries, w);
    }
    if Alone(Transactions(entries), w) > 0 {
      BoughtWineLinked(entries, w, None);
    }
    if exists m :: Together(Transactions(entries), w, m) > 0 {
      var m: WineId :| Together(Transactions(entries), w, m) > 0;
      BoughtWineLinked(entries, w, Some(m));
    }
  }

  lemma {:induction false} LinkedWineBought(entries: seq<(string, WineId)>, w: WineId)
    requires w in LinkedWines(entries)
    ensures Alone(Transactions(entries), w) > 0 || exists m :: Together(Transactions(entries), w, m) > 0
  {
    var p :| p in KeysOf(PairCounts(entries)) && p.0 == w;
    EmittedIffCounted(AllLinks(Transactions(entries)), p);
    if p.1.Some? {
      PairCountMeaning(entries, w, p.1.value);
    } else {
      PairCountMeaning(entries, w, w);
    }
  }

  lemma {:induction false} BoughtWineLinked(entries: seq<(string, WineId)>, w: WineId, p: Partner)
    requires p.None? ==> Alone(Transactions(entries), w) > 0
    requires p.Some? ==> Together(Transactions(entries), w, p.value) > 0
    ensures w in LinkedWines(entries)
  {
    PairCountMeaning(entries, w, if p.Some? then p.value else w);
    EmittedIffCounted(AllLinks(Transactions(entries)), (w, p));
    assert (w, p) in KeysOf(PairCounts(entries));
  }


  /** How often each wine was bought together with `w`. */
  function PartnerCounts(entries: seq<(string, WineId)>, w: WineId): WineId -> nat {
    (m: WineId) => PairCount(entries, w, Some(m))
  }

  /** `b` is the right answer for its wine: see `IsBestAmong`, with the
      partners counted by `PairCount`. */
  ghost predicate IsBestFor(entries: seq<(string, WineId)>, b: BestLink) {
    IsBestAmong(b, PartnerCounts(entries, b.wine))
  }

  lemma {:induction false} CountedMembers(kvs: seq<(Pair, nat)>, p: Pair, c: nat)
    requires forall i :: 0 <= i < |kvs| ==> kvs[i].1 == 1
    ensures (p, c) in SumPerKey(kvs) <==> c > 0 && SumFor(kvs, p) == c
  {
    var r := SumPerKey(kvs);
    EmittedIffCounted(kvs, p);
    if c > 0 && SumFor(kvs, p) == c {
      assert p in KeysOf(r);
      var i :| 0 <= i < |r| && r[i].0 == p;
      assert r[i] == (p, c);
    }
    if (p, c) in r {
      var i :| 0 <= i < |r| && r[i] == (p, c);
      assert p in KeysOf(r);
    }
  }

  /** Wine `w`'s regrouped list holds (p, c) exactly when the pair (w, p)
      was counted c > 0 times. */
  lemma {:induction false} GroupMembers(entries: seq<(string, WineId)>, w: WineId, p: Partner, c: nat)
    ensures (p, c) in ValuesFor(ByFirstWine(PairCounts(entries)), w)
        <==> c > 0 && PairCount(entries, w, p) == c
  {
    ByFirstWineMembers(PairCounts(entries), w, (p, c));
    CountedMembers(AllLinks(Transactions(entries)), (w, p), c);
  }

  /** Selection on one wine's regrouped list gives the right answer. */
  lemma {:induction false} BestOfWine(entries: seq<(string, WineId)>, w: WineId)
    requires |ValuesFor(ByFirstWine(PairCounts(entries)), w)| > 0
    ensures IsBestFor(entries, OnlyKeepBest(w, SortByCount(ValuesFor(ByFirstWine(PairCounts(entries)), w))))
  {
    var l := ValuesFor(ByFirstWine(PairCounts(entries)), w);
    GroupListsCounts(entries, w);
    ByFirstWineDistinct(PairCounts(entries), w);
    SelectsBest(w, l, PartnerCounts(entries, w));
  }


  lemma {:induction false} GroupListsCounts(entries: seq<(string, WineId)>, w: WineId)
    ensures ListsCounts(ValuesFor(ByFirstWine(PairCounts(entries)), w), PartnerCounts(entries, w))
  {
    var l := ValuesFor(ByFirstWine(PairCounts(entries)), w);
    forall i | 0 <= i < |l| ensures l[i].1 > 0 {
      GroupMembers(entries, w, l[i].0, l[i].1);
    }
    forall m: WineId, c: nat ensures (Some(m), c) in l <==> c > 0 && PairCount(entries, w, Some(m)) == c {
      GroupMembers(entries, w, Some(m), c);
    }
  }


  lemma {:induction false} ByFirstWineKeys(counts: seq<(Pair, nat)>)
    ensures KeysOf(ByFirstWine(counts)) == set p | p in KeysOf(counts) :: p.0
  {
    var r := ByFirstWine(counts);
    ByFirstWineAt(counts);
    forall x | x in KeysOf(r) ensures x in set p | p in KeysOf(counts) :: p.0 {
      var i :| 0 <= i < |r| && r[i].0 == x;
      assert counts[i].0 in KeysOf(counts);
    }
    forall x | x in set p | p in KeysOf(counts) :: p.0 ensures x in KeysOf(r) {
      var p :| p in KeysOf(counts) && p.0 == x;
      var i :| 0 <= i < |counts| && counts[i].0 == p;
      assert r[i].0 == x;
    }
  }

  lemma {:induction false} ByFirstWineAt(counts: seq<(Pair, nat)>)
    ensures forall i :: 0 <= i < |counts| ==> ByFirstWine(counts)[i] == (counts[i].0.0, (counts[i].0.1, counts[i].1))
    decreases |counts|
  {
    if |counts| > 0 {
      ByFirstWineAt(counts[1..]);
      assert forall i :: 0 < i < |counts| ==> ByFirstWine(counts)[i] == ByFirstWine(counts[1..])[i - 1];
    }
  }

  /** The purchased-together report: one line per wine that heads a
      counted pair (bought alone at least once, or with a different
      wine), each wine once, each line the right answer for its wine. */
  lemma PurchasedTogetherCorrect(entries: seq<(string, WineId)>)
    ensures var out := PurchasedTogether(entries);
      && (forall i, j :: 0 <= i < j < |out| ==> out[i].wine != out[j].wine)
      && WinesOf(out) == LinkedWines(entries)
      && (forall i :: 0 <= i < |out| ==> IsBestFor(entries, out[i]))
  {
    PurchasedTogetherWines(entries);
    PurchasedTogetherLines(entries);
  }

  lemma {:induction false} PurchasedTogetherWines(entries: seq<(string, WineId)>)
    ensures var out := PurchasedTogether(entries);
      && (forall i, j :: 0 <= i < j < |out| ==> out[i].wine != out[j].wine)
      && WinesOf(out) == LinkedWines(entries)
  {
    var counts := PairCounts(entries);
    ByFirstWineKeys(counts);
    BestOfAllWines(GroupBy(ByFirstWine(counts)));
  }

  lemma {:induction false} BestOfAllWines(groups: seq<(WineId, seq<(Partner, nat)>)>)
    requires forall i :: 0 <= i < |groups| ==> |groups[i].1| > 0
    requires DistinctKeys(groups)
    ensures var out := BestOfAll(groups);
      && (forall i, j :: 0 <= i < j < |out| ==> out[i].wine != out[j].wine)
      && WinesOf(out) == KeysOf(groups)
  {
    var out := BestOfAll(groups);
    assert forall i :: 0 <= i < |out| ==> out[i].wine == groups[i].0;
    forall x ensures x in WinesOf(out) <==> x in KeysOf(groups) {
      if x in KeysOf(groups) {
        var i :| 0 <= i < |groups| && groups[i].0 == x;
        assert out[i].wine == x;
      }
    }
  }

  lemma {:induction false} PurchasedTogetherLines(entries: seq<(string, WineId)>)
    ensures var out := PurchasedTogether(entries);
      forall i :: 0 <= i < |out| ==> IsBestFor(entries, out[i])
  {
    var groups := GroupBy(ByFirstWine(PairCounts(entries)));
    var out := BestOfAll(groups);
    forall i | 0 <= i < |out| ensures IsBestFor(entries, out[i]) {
      assert out[i] == OnlyKeepBest(groups[i].0, SortByCount(groups[i].1));
      BestOfWine(entries, groups[i].0);
    }
  }
}
