/** The five pipelines end to end, from input lines to output lines. A
    Beam `Map` or `FlatMap` over the lines fails the whole run when any
    line raises; the model reports the first failing line's error. */
module Reports {
  import opened Results
  import opened Records
  import opened Grouping
  import opened Combining
  import opened BestLinks
  import opened CoOccurrence
  import opened Formatting

  /** `beam.Map(f)` whose every call must succeed. */
  function MapAll<A, B, E>(f: A -> Result<B, E>, xs: seq<A>): (r: Result<seq<B>, E>)
    ensures r.Ok? <==> forall i :: 0 <= i < |xs| ==> f(xs[i]).Ok?
    ensures r.Ok? ==> |r.value| == |xs| && forall i :: 0 <= i < |xs| ==> r.value[i] == f(xs[i]).value
    ensures r.Err? ==> exists i :: 0 <= i < |xs| && f(xs[i]) == Err(r.error)
    decreases |xs|
  {
    if |xs| == 0 then Ok([])
    else
      match f(xs[0])
      case Err(e) => Err(e)
      case Ok(y) =>
        match MapAll(f, xs[1..])
        case Err(e) =>
          assert forall i :: 0 <= i < |xs| - 1 ==> xs[1..][i] == xs[i + 1];
          Err(e)
        case Ok(ys) =>
          assert forall i :: 0 < i < |xs| ==> xs[i] == xs[1..][i - 1];
          Ok([y] + ys)
  }

  /** `beam.FlatMap(f)` where `f` yields at most one element and every call
      must succeed; the yielded elements in line order. */
  function FlatMapAll<A, B, E>(f: A -> Result<Option<B>, E>, xs: seq<A>): (r: Result<seq<B>, E>)
    ensures r.Ok? <==> forall i :: 0 <= i < |xs| ==> f(xs[i]).Ok?
    ensures r.Ok? ==> |r.value| <= |xs|
    ensures r.Err? ==> exists i :: 0 <= i < |xs| && f(xs[i]) == Err(r.error)
    decreases |xs|
  {
    if |xs| == 0 then Ok([])
    else
      match f(xs[0])
      case Err(e) => Err(e)
      case Ok(y) =>
        match FlatMapAll(f, xs[1..])
        case Err(e) =>
          assert forall i :: 0 <= i < |xs| - 1 ==> xs[1..][i] == xs[i + 1];
          Err(e)
        case Ok(ys) =>
          assert forall i :: 0 < i < |xs| ==> xs[i] == xs[1..][i - 1];
          Ok((if y.Some? then [y.value] else []) + ys)
  }

  lemma {:induction false} MapAllCons<A, B, E>(f: A -> Result<B, E>, x: A, xs: seq<A>)
    ensures MapAll(f, [x] + xs) ==
      if f(x).Err? then Err(f(x).error)
      else if MapAll(f, xs).Err? then Err(MapAll(f, xs).error)
      else Ok([f(x).value] + MapAll(f, xs).value)
  {
    assert ([x] + xs)[1..] == xs;
  }

  lemma {:induction false} FlatMapAllCons<A, B, E>(f: A -> Result<Option<B>, E>, x: A, xs: seq<A>)
    ensures FlatMapAll(f, [x] + xs) ==
      if f(x).Err? then Err(f(x).error)
      else if FlatMapAll(f, xs).Err? then Err(FlatMapAll(f, xs).error)
      else Ok((if f(x).value.Some? then [f(x).value.value] else []) + FlatMapAll(f, xs).value)
  {
    assert ([x] + xs)[1..] == xs;
  }

  /** `partition_csv` of the given report. */
  function Extractor(report: Report): string -> Result<(Key, nat), ParseError> {
    line => Extract(report, line)
  }

  /** `filter_using_variety` of the given report and variety. */
  function VarietyExtractor(report: Report, variety: string): string -> Result<Option<(Key, nat)>, ParseError> {
    line => ExtractIfVariety(report, variety, line)
  }

  /** `lines | beam.Map(partition_csv)`. */
  function Contributions(report: Report, lines: seq<string>): Result<seq<(Key, nat)>, ParseError> {
    MapAll(Extractor(report), lines)
  }

  /** `lines | beam.FlatMap(filter_using_variety, variety)`. */
  function VarietyContributions(report: Report, variety: string, lines: seq<string>): Result<seq<(Key, nat)>, ParseError> {
    FlatMapAll(VarietyExtractor(report, variety), lines)
  }

  /** The lines of the given variety, in order. */
  function Matching(variety: string, lines: seq<string>): (r: seq<string>)
    ensures forall i :: 0 <= i < |r| ==> HasVariety(r[i], variety) && r[i] in lines
    ensures forall i :: 0 <= i < |lines| && HasVariety(lines[i], variety) ==> lines[i] in r
    decreases |lines|
  {
    if |lines| == 0 then []
    else
      var rest := Matching(variety, lines[1..]);
      assert forall i :: 0 < i < |lines| ==> lines[i] == lines[1..][i - 1];
      (if HasVariety(lines[0], variety) then [lines[0]] else []) + rest
  }

  /** The winery column, when a winery report reads one, passes `str()`. */
  predicate WineryIsAscii(report: Report, line: string) {
    report.keyedBy == PerWinery && |Tokenize(line)| > WineryColumn ==> IsAscii(Tokenize(line)[WineryColumn])
  }

  /** The variety filter changes nothing but which lines are read, and that
      the winery must be ASCII text: where every line has a variety
      column, the filtered run succeeds exactly when the plain run over the
      matching lines does and their wineries are ASCII, and then its
      contributions are the plain contributions of the matching lines. */
  lemma {:induction false} VarietyIsPlainOnMatching(report: Report, variety: string, lines: seq<string>)
    requires forall i :: 0 <= i < |lines| ==> |Tokenize(lines[i])| > VarietyColumn
    ensures var matching := Matching(variety, lines);
      (VarietyContributions(report, variety, lines).Ok?
       <==> (Contributions(report, matching).Ok?
             && forall i :: 0 <= i < |matching| ==> WineryIsAscii(report, matching[i])))
    ensures VarietyContributions(report, variety, lines).Ok?
        ==> VarietyContributions(report, variety, lines).value == Contributions(report, Matching(variety, lines)).value
    decreases |lines|
  {
    if |lines| > 0 {
      var x, tail := lines[0], lines[1..];
      assert lines == [x] + tail;
      assert forall i :: 0 <= i < |tail| ==> tail[i] == lines[i + 1];
      VarietyIsPlainOnMatching(report, variety, tail);
      var f, g := VarietyExtractor(report, variety), Extractor(report);
      ExtractorsAgree(report, variety, x);
      var rest := Matching(variety, tail);
      if HasVariety(x, variety) {
        assert Matching(variety, lines) == [x] + rest;
        AllAsciiCons(report, x, rest);
        FlatMapKeeps(f, g, x, tail, rest, WineryIsAscii(report, x),
                     forall i :: 0 <= i < |rest| ==> WineryIsAscii(report, rest[i]));
      } else {
        assert Matching(variety, lines) == [] + rest;
        assert [] + rest == rest;
        FlatMapSkips(f, x, tail);
      }
    }
  }

  lemma {:induction false} AllAsciiCons(report: Report, x: string, rest: seq<string>)
    ensures (forall i :: 0 <= i < |[x] + rest| ==> WineryIsAscii(report, ([x] + rest)[i]))
        <==> WineryIsAscii(report, x) && forall i :: 0 <= i < |rest| ==> WineryIsAscii(report, rest[i])
  {
    var all := [x] + rest;
    assert all[0] == x;
    if forall i :: 0 <= i < |all| ==> WineryIsAscii(report, all[i]) {
      forall i | 0 <= i < |rest|
        ensures WineryIsAscii(report, rest[i])
      {
        assert rest[i] == all[i + 1];
      }
    }
    if WineryIsAscii(report, x) && forall i :: 0 <= i < |rest| ==> WineryIsAscii(report, rest[i]) {
      forall i | 0 < i < |all|
        ensures WineryIsAscii(report, all[i])
      {
        assert all[i] == rest[i - 1];
      }
    }
  }

  lemma {:induction false} ExtractorsAgree(report: Report, variety: string, line: string)
    requires |Tokenize(line)| > VarietyColumn
    ensures var f, g := VarietyExtractor(report, variety), Extractor(report);
      if HasVariety(line, variety) then
        f(line).Ok? == (g(line).Ok? && WineryIsAscii(report, line))
        && (f(line).Ok? ==> f(line).value == Some(g(line).value))
      else f(line) == Ok(None)
  {
  }

  /** The filtered run succeeds exactly when the plain run does and a side
      condition `ok` holds, and then both give the same output. */
  ghost predicate SameOutcomeWhen<T, E>(r1: Result<seq<T>, E>, r2: Result<seq<T>, E>, ok: bool) {
    r1.Ok? == (r2.Ok? && ok) && (r1.Ok? ==> r1.value == r2.value)
  }

  lemma {:induction false} FlatMapKeeps<A, B, E>(f: A -> Result<Option<B>, E>, g: A -> Result<B, E>, x: A, xs: seq<A>, ys: seq<A>,
                                                 okX: bool, okXs: bool)
    requires f(x).Ok? == (g(x).Ok? && okX) && (f(x).Ok? ==> f(x).value == Some(g(x).value))
    requires SameOutcomeWhen(FlatMapAll(f, xs), MapAll(g, ys), okXs)
    ensures SameOutcomeWhen(FlatMapAll(f, [x] + xs), MapAll(g, [x] + ys), okX && okXs)
  {
    FlatMapAllCons(f, x, xs);
    MapAllCons(g, x, ys);
  }

  lemma {:induction false} FlatMapSkips<A, B, E>(f: A -> Result<Option<B>, E>, x: A, xs: seq<A>)
    requires f(x) == Ok(None)
    ensures FlatMapAll(f, [x] + xs) == FlatMapAll(f, xs)
  {
    FlatMapAllCons(f, x, xs);
    if FlatMapAll(f, xs).Ok? {
      assert [] + FlatMapAll(f, xs).value == FlatMapAll(f, xs).value;
    }
  }

  /** `format` applied to every combined row. */
  function FormatTotals(rows: seq<(Key, nat)>): (out: seq<string>)
    ensures |out| == |rows|
    ensures forall i :: 0 <= i < |rows| ==> out[i] == FormatTotal(rows[i].0, rows[i].1)
    decreases |rows|
  {
    if |rows| == 0 then [] else [FormatTotal(rows[0].0, rows[0].1)] + FormatTotals(rows[1..])
  }

  /** `bottles_sold`, `dollars_sold`, `winery_bottles_sold`,
      `winery_dollars_sold`: parse, `CombinePerKey(sum)`, format. The run
      fails exactly when some line cannot be read. */
  function SalesReport(report: Report, lines: seq<string>): (r: Result<seq<string>, ParseError>)
    ensures r.Ok? <==> forall i :: 0 <= i < |lines| ==> Readable(report, Tokenize(lines[i]))
  {
    var kvs :- Contributions(report, lines);
    Ok(FormatTotals(SumPerKey(kvs)))
  }

  /** The four `variety_*` reports: the same with the variety filter. The
      run fails exactly when some line has no variety column, or is of the
      variety and cannot be read, its winery included. */
  function VarietyReport(report: Report, variety: string, lines: seq<string>): (r: Result<seq<string>, ParseError>)
    ensures r.Ok? <==> forall i :: 0 <= i < |lines| ==>
      |Tokenize(lines[i])| > VarietyColumn && (HasVariety(lines[i], variety) ==> ReadableInVariety(report, Tokenize(lines[i])))
  {
    var kvs :- VarietyContributions(report, variety, lines);
    Ok(FormatTotals(SumPerKey(kvs)))
  }

  /** Reads a sales report back line by line. */
  function ReadTotals(keyedBy: KeyedBy, out: seq<string>): (r: Option<seq<(Key, nat)>>)
    ensures r.Some? ==> |r.value| == |out|
    ensures r.Some? ==> forall i :: 0 <= i < |out| ==> ParseTotal(keyedBy, out[i]) == Some(r.value[i])
    decreases |out|
  {
    if |out| == 0 then Some([])
    else
      match ParseTotal(keyedBy, out[0])
      case None => None
      case Some(row) =>
        match ReadTotals(keyedBy, out[1..])
        case None => None
        case Some(rows) =>
          assert forall i :: 0 < i < |out| ==> out[i] == out[1..][i - 1];
          Some([row] + rows)
  }

  lemma {:induction false} ReadFormatTotals(keyedBy: KeyedBy, rows: seq<(Key, nat)>)
    requires forall i :: 0 <= i < |rows| ==> KindOf(rows[i].0) == keyedBy && Tab !in KeyText(rows[i].0)
    ensures ReadTotals(keyedBy, FormatTotals(rows)) == Some(rows)
    decreases |rows|
  {
    if |rows| > 0 {
      var line, out := FormatTotal(rows[0].0, rows[0].1), FormatTotals(rows[1..]);
      assert FormatTotals(rows) == [line] + out;
      ReadTotalsCons(keyedBy, line, out);
      ParseFormatTotal(rows[0].0, rows[0].1);
      ReadFormatTotals(keyedBy, rows[1..]);
      assert rows == [rows[0]] + rows[1..];
    }
  }

  lemma {:induction false} ReadTotalsCons(keyedBy: KeyedBy, line: string, out: seq<string>)
    ensures ReadTotals(keyedBy, [line] + out) ==
      if ParseTotal(keyedBy, line).None? || ReadTotals(keyedBy, out).None? then None
      else Some([ParseTotal(keyedBy, line).value] + ReadTotals(keyedBy, out).value)
  {
    assert ([line] + out)[1..] == out;
  }


  /** A winery column holds no tab, so a winery key reads back. */
  predicate TabFreeWineries(lines: seq<string>) {
    forall i :: 0 <= i < |lines| && |Tokenize(lines[i])| > WineryColumn ==> Tab !in Tokenize(lines[i])[WineryColumn]
  }

  lemma {:induction false} ContributionKeys(report: Report, lines: seq<string>)
    requires Contributions(report, lines).Ok?
    requires TabFreeWineries(lines)
    ensures var kvs := Contributions(report, lines).value;
      forall i :: 0 <= i < |kvs| ==> KindOf(kvs[i].0) == report.keyedBy && Tab !in KeyText(kvs[i].0)
  {
    var kvs := Contributions(report, lines).value;
    forall i | 0 <= i < |kvs| ensures KindOf(kvs[i].0) == report.keyedBy && Tab !in KeyText(kvs[i].0) {
      assert kvs[i] == Extract(report, lines[i]).value;
      if report.keyedBy == PerWine {
        ShowHasNoTab(kvs[i].0.id);
      }
    }
  }

  /** What a sales report says: reading the written lines back gives
      exactly the combined rows, so one row per distinct key of the
      contributions, each key once, with the sum of that key's
      contributions, and the rows add up to all the contributions. */
  lemma {:induction false} SalesReportMeaning(report: Report, lines: seq<string>)
    requires SalesReport(report, lines).Ok?
    requires TabFreeWineries(lines)
    ensures ReadTotals(report.keyedBy, SalesReport(report, lines).value) == Some(SumPerKey(Contributions(report, lines).value))
    ensures var kvs := Contributions(report, lines).value;
      var rows := SumPerKey(kvs);
      && DistinctKeys(rows)
      && KeysOf(rows) == KeysOf(kvs)
      && (forall i :: 0 <= i < |rows| ==> rows[i].1 == SumFor(kvs, rows[i].0))
      && Total(rows) == Total(kvs)
  {
    var kvs := Contributions(report, lines).value;
    ContributionKeys(report, lines);
    var rows := SumPerKey(kvs);
    assert forall i :: 0 <= i < |rows| ==> rows[i].0 in KeysOf(kvs);
    ReadFormatTotals(report.keyedBy, rows);
    Conservation(kvs);
  }

  /** Reads a purchased-together report back line by line. */
  function ReadLinks(out: seq<string>): (r: Option<seq<BestLink>>)
    ensures r.Some? ==> |r.value| == |out|
    ensures r.Some? ==> forall i :: 0 <= i < |out| ==> ParseLinks(out[i]) == Some(r.value[i])
    decreases |out|
  {
    if |out| == 0 then Some([])
    else
      match ParseLinks(out[0])
      case None => None
      case Some(b) =>
        match ReadLinks(out[1..])
        case None => None
        case Some(bs) =>
          assert forall i :: 0 < i < |out| ==> out[i] == out[1..][i - 1];
          Some([b] + bs)
  }

  /** `format_output` applied to every selected link. */
  function FormatAllLinks(bs: seq<BestLink>): (out: seq<string>)
    ensures |out| == |bs|
    ensures forall i :: 0 <= i < |bs| ==> out[i] == FormatLinks(bs[i])
    decreases |bs|
  {
    if |bs| == 0 then [] else [FormatLinks(bs[0])] + FormatAllLinks(bs[1..])
  }

  lemma {:induction false} ReadFormatAllLinks(bs: seq<BestLink>)
    ensures ReadLinks(FormatAllLinks(bs)) == Some(bs)
    decreases |bs|
  {
    if |bs| > 0 {
      var line, out := FormatLinks(bs[0]), FormatAllLinks(bs[1..]);
      assert FormatAllLinks(bs) == [line] + out;
      ReadLinksCons(line, out);
      ParseFormatLinks(bs[0]);
      ReadFormatAllLinks(bs[1..]);
      assert bs == [bs[0]] + bs[1..];
    }
  }

  lemma {:induction false} ReadLinksCons(line: string, out: seq<string>)
    ensures ReadLinks([line] + out) ==
      if ParseLinks(line).None? || ReadLinks(out).None? then None
      else Some([ParseLinks(line).value] + ReadLinks(out).value)
  {
    assert ([line] + out)[1..] == out;
  }


  /** `step2`: `mapping_using_time` over the lines, then the co-occurrence
      pipeline, then `format_output`. The run fails exactly when some line
      lacks a date-time column or has a non-numeral index. */
  function PurchasedTogetherReport(lines: seq<string>): (r: Result<seq<string>, ParseError>)
    ensures r.Ok? <==> forall i :: 0 <= i < |lines| ==> TransactionEntry(lines[i]).Ok?
  {
    var entries :- MapAll(TransactionEntry, lines);
    Ok(FormatAllLinks(PurchasedTogether(entries)))
  }

  /** What the purchased-together report says: reading the written lines
      back gives exactly the selected links, one line per linked wine,
      each wine once, each with the partners bought with it most often and
      that count. */
  lemma {:induction false} PurchasedTogetherReportMeaning(lines: seq<string>)
    requires PurchasedTogetherReport(lines).Ok?
    ensures ReadLinks(PurchasedTogetherReport(lines).value) == Some(PurchasedTogether(MapAll(TransactionEntry, lines).value))
    ensures var entries := MapAll(TransactionEntry, lines).value;
      var out := PurchasedTogether(entries);
      && (forall i, j :: 0 <= i < j < |out| ==> out[i].wine != out[j].wine)
      && WinesOf(out) == LinkedWines(entries)
      && (forall i :: 0 <= i < |out| ==> IsBestFor(entries, out[i]))
  {
    var entries := MapAll(TransactionEntry, lines).value;
    ReadFormatAllLinks(PurchasedTogether(entries));
    PurchasedTogetherCorrect(entries);
  }
}
