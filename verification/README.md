# Wine-sales pipeline model

A Dafny model of the aggregation logic in `pipeline/main.py`, an Apache Beam
program over a CSV of wine sales whose columns are
`Index,Country,Description,Designation,Points,Price,Province,Region_1,Region_2,Variety,Winery,Quantity,User,DateTime`.
The program has nine pipelines:

- four sales reports: bottles or dollars, keyed by wine index or by winery;
- the same four restricted to one grape variety;
- the "purchased together" report. For every wine it finds the wines bought
  most often in the same transaction, where a transaction is the set of
  records with the same date-time, and how often they were bought together.

Each pipeline is modelled as pure functions on sequences. A Beam
`PCollection` is a `seq`. `beam.Map` and `beam.FlatMap` map over it, and a
call that raises fails the whole run. `GroupByKey` groups by key, and
`CombinePerKey(sum)` groups and sums.

The modules follow the program's stages:

- `Quotes`: the quote stripping `re.sub('"(.*?)"', '', line)`.
- `Fields`: `split` and `join` on one separator.
- `Numerals`: `int()` on digit strings and `str()` of a non-negative integer.
- `Records`: the column extractors `partition_csv`, `filter_using_variety` and `mapping_using_time`, with their errors.
- `Grouping`: `GroupByKey`.
- `Combining`: `CombinePerKey(sum)`.
- `CoOccurrence`: pair emission, pair counting and regrouping by wine.
- `Ranking`: `sort_wines_linked`.
- `BestLinks`: `only_keep_best_wines`.
- `Formatting`: `format` and `format_output`.
- `Reports`: the whole pipelines.

`Results` holds the `Option` and `Result` types.

Each operation is proved against an independent definition:

- Formatters have readers that invert them.
- `CombinePerKey(sum)` has the per-key sum `SumFor` and the order-free map `Totals`.
- Pair counting has the co-purchase counts `Together` and `Alone`.
- Best-link selection has the specification `IsBestAmong`: all partners tied at the maximum count, and nothing else.

The sentinel partner `"-1"` is `None` in an `Option<WineId>`. Because the
model's numerals have no sign, no wine index it reads prints as `"-1"`. The
program itself accepts `int("-1")` as an index, and such a wine would
collide with the sentinel; see the `int()` line under "## Left out".

The program runs under Python 2.7, and the text reader hands each line over
as Unicode text. A model `char` is one code point of that text. Where the
program applies `str()` to a column (the winery in the variety reports, the
date-time in the purchased-together report), a character outside ASCII
raises, and the model returns the error `NotAscii` for that column. The
variety argument is a byte string, so one with a non-ASCII character
compares unequal to every column and selects no line.

## Model

| member | source | states |
|---|---|---|
| Quotes.ClosingQuote | pipeline/main.py:28 | The lazy `.*?` after an opening quote stops at the first later quote, provided no newline comes first. Otherwise the quote has no partner. |
| Quotes.StripQuoted | pipeline/main.py:28 | Stripping never lengthens a line. Its meaning is fixed by the lemmas below. |
| Quotes.StripOnlyDeletes | pipeline/main.py:28 | Every character left after stripping occurs in the line. |
| Quotes.StripKeepsPlainPrefix | pipeline/main.py:28 | Text before the first quote is kept unchanged in front of the stripped rest. |
| Quotes.StripDropsFirstSpan | pipeline/main.py:28 | The leftmost quote, the nearest later quote and everything between them disappear together. |
| Quotes.StripLeavesUnpaired | pipeline/main.py:28 | After stripping, no quote is left that could start another match. |
| Quotes.StripUnpairedIsIdentity | pipeline/main.py:28 | A line with no matchable quote is unchanged. |
| Quotes.StripIdempotent | pipeline/main.py:28 | Stripping twice equals stripping once. |
| Quotes.StripQuoteFree | pipeline/main.py:28 | A line without quotes is unchanged. |
| Quotes.StripLeavesAtMostOneQuote | pipeline/main.py:28 | On a line without newlines, at most one quote survives. |
| Fields.Split | pipeline/main.py:29 | `split` gives at least one field, no field contains the separator, and joining the fields restores the text. |
| Fields.SplitJoin | pipeline/main.py:29 | Splitting a join of separator-free fields gives the same fields back. |
| Numerals.Show | pipeline/main.py:34 | `str` of a non-negative integer is a canonical numeral: digits only, no leading zero unless it is "0". |
| Numerals.ParseShow | pipeline/main.py:30 | `int(str(n)) == n`. |
| Numerals.ShowParse | pipeline/main.py:262 | Every canonical numeral reads as a number whose `str` is that numeral. |
| Records.Tokenize | pipeline/main.py:28-29 | A stripped and split line has at least one field, no field holds a comma, and joining the fields with commas gives back the stripped line. |
| Records.QuotedSpanIgnored | pipeline/main.py:28-29 | A quoted span, commas included, before which no quote occurs leaves the columns exactly as if it were absent. |
| Records.Field | pipeline/main.py:30 | `t[c]` succeeds exactly when column `c` exists. Otherwise it is the index error for `c`. |
| Records.Text | pipeline/main.py:173 | `str(t[c])` on Unicode text succeeds exactly when column `c` exists and holds only ASCII characters, giving the column unchanged. A missing column and a non-ASCII one are distinct errors. |
| Records.Number | pipeline/main.py:30 | `int(t[c])` succeeds exactly when the column exists and is a numeral, giving its value. A missing column and a non-numeral are distinct errors. |
| Records.KeyOf | pipeline/main.py:70-74 | The key is `Wine(int(t[0]))`, or `Winery(t[10])` for winery reports. It is available exactly when that column exists and, for a wine key, is a numeral. When the winery goes through `str()`, as in the variety reports, it must also be ASCII, and otherwise the error names column 10. |
| Records.Amount | pipeline/main.py:48-52 | The contribution is quantity `t[11]`, times price `t[5]` for dollars. It succeeds exactly when the columns it reads exist and are numerals. |
| Records.KeyAndAmount | pipeline/main.py:92-96 | A record yields its key and contribution exactly when it is `Readable` for the report. With the variety reports' extractor it must be `ReadableInVariety`, which adds an ASCII winery for winery reports. |
| Records.Extract | pipeline/main.py:26-30 | `partition_csv` succeeds exactly when the line is readable for the report. A line of at most 11 fields always fails. |
| Records.ExtractIfVariety | pipeline/main.py:114-200 | With no variety column the line fails. A line of another variety yields nothing, not a zero entry. A line of the variety succeeds exactly when it is readable and, for the winery copies, its winery is ASCII text that `str()` accepts. It then yields what `partition_csv` yields. A non-ASCII winery fails with the error for column 10, where the plain winery reports succeed. The dollars copies read the price before the quantity, which changes only which column an error names when both are bad. |
| Records.TransactionEntry | pipeline/main.py:221-225 | `mapping_using_time` succeeds exactly when column 13 exists and is ASCII text, and column 0 is a numeral. It gives the date-time text and the wine index. On failure the error is the first one the source meets: a missing column 13, then a non-ASCII column 13, then a non-numeral column 0. |
| Grouping.ValuesFor | pipeline/main.py:266 | A key has values exactly when it occurs in the collection. |
| Grouping.Without | pipeline/main.py:266 | Removing a key leaves exactly the other keys. |
| Grouping.WithoutKeepsOthers | pipeline/main.py:266 | Removing one key does not change any other key's values. |
| Grouping.GroupBy | pipeline/main.py:266 | `GroupByKey` gives one group per distinct input key, each key once. Each group holds exactly that key's values in input order and is never empty. |
| Grouping.ValuesForCounts | pipeline/main.py:272 | Grouping loses and invents nothing: a value occurs in key `k`'s group as often as the pair `(k, v)` occurs in the input. |
| Grouping.DistinctKeysPermutation | pipeline/main.py:272 | Reordering a collection with distinct keys keeps them distinct. |
| Combining.SumPerKey | pipeline/main.py:38 | `CombinePerKey(sum)` outputs exactly the distinct input keys, each once, each with the sum of its own contributions. |
| Combining.Conservation | pipeline/main.py:60 | The per-key totals add up to the sum of all contributions. |
| Combining.TotalSplit | pipeline/main.py:60 | The grand total is one key's total plus the total of every other key. |
| Combining.SumForPermutation | pipeline/main.py:82 | A key's sum does not depend on the order of the contributions. |
| Combining.TotalsPermutation | pipeline/main.py:82 | Any rearrangement of the contributions, such as the runner's shuffle, gives the same per-key totals. |
| Combining.MergePartitions | pipeline/main.py:104 | Summing two partitions separately and adding the results key by key equals summing their concatenation. |
| CoOccurrence.LinkRow | pipeline/main.py:231-234 | For wine `n`, every emitted pair starts at `n`, has weight 1, and has a real partner that differs from `n` and is in the transaction. |
| CoOccurrence.LinkRows | pipeline/main.py:231-234 | Both loops emit only weight-1 pairs of two different wines of the transaction, never the sentinel. |
| CoOccurrence.Links | pipeline/main.py:227-234 | A one-wine transaction emits exactly `((g0, sentinel), 1)`. A larger one emits only real pairs of different wines, never the sentinel. Every pair has weight 1 and starts at a wine of the transaction. |
| CoOccurrence.AllLinks | pipeline/main.py:269 | Every pair emitted over all transactions has weight 1. |
| CoOccurrence.LinkRowCount | pipeline/main.py:231-234 | For a fixed `n`, the inner loop emits `(n, m)` once per occurrence of `m`, and never `(n, n)`. |
| CoOccurrence.LinkRowsCount | pipeline/main.py:231-234 | Both loops emit `(n, m)` occurrences(n) times occurrences(m) times when `n` differs from `m`. |
| CoOccurrence.LinksCount | pipeline/main.py:231-234 | One transaction adds occurrences(n) times occurrences(m) to pair `(n, m)` for `n` different from `m`, and nothing to `(n, n)`. |
| CoOccurrence.LinksAlone | pipeline/main.py:229-230 | One transaction adds 1 to `(n, sentinel)` exactly when it is `[n]`. |
| CoOccurrence.AllLinksCount | pipeline/main.py:269-270 | Summed over all transactions, `(n, m)` counts co-purchases of `n` and `m`, and `(n, sentinel)` counts transactions where `n` was bought alone. |
| CoOccurrence.TogetherSymmetric | pipeline/main.py:231-234 | The co-purchase count of `n` with `m` equals that of `m` with `n`. |
| CoOccurrence.PairCountMeaning | pipeline/main.py:264-270 | After parsing, grouping by transaction and `CombinePerKey(sum)`, pair `(n, m)` carries the co-purchase count and `(n, sentinel)` the count of lone purchases. |
| CoOccurrence.PairCountSymmetric | pipeline/main.py:270 | `count(n, m) == count(m, n)`, and a pair appears in the summed output exactly when its reverse does. |
| CoOccurrence.EmittedIffCounted | pipeline/main.py:270 | With unit weights, a pair is in the output exactly when its count is positive. |
| CoOccurrence.CountedMembers | pipeline/main.py:270 | The summed output holds `(p, c)` exactly when `c` is positive and is the count of `p`. |
| CoOccurrence.ByFirstWineMembers | pipeline/main.py:236-237 | After `links_by_wine` and grouping, wine `w`'s list holds `(p, c)` exactly when `((w, p), c)` was counted. |
| CoOccurrence.ByFirstWineDistinct | pipeline/main.py:236-237 | Distinct pairs give each wine a list with one entry per partner. |
| CoOccurrence.ByFirstWineKeys | pipeline/main.py:236-237 | The regrouped wines are exactly the first wines of the counted pairs. |
| CoOccurrence.GroupMembers | pipeline/main.py:270-272 | Wine `w`'s regrouped list holds `(p, c)` exactly when pair `(w, p)` was counted `c > 0` times. |
| CoOccurrence.LinkedWinesMeaning | pipeline/main.py:264-275 | A wine gets a report line exactly when it was bought alone at least once, or with some other wine. |
| CoOccurrence.BestOfWine | pipeline/main.py:239-259 | Sorting and selecting on a wine's regrouped list gives the partners with the largest co-purchase count, each once, and that count. |
| CoOccurrence.PurchasedTogetherCorrect | pipeline/main.py:264-275 | The purchased-together pipeline gives one line per linked wine, each wine once. Each line holds exactly that wine's best partners and their count. |
| Ranking.Insert | pipeline/main.py:240 | Inserting into a ranked list keeps it ranked and adds exactly the new entry. |
| Ranking.SortByCount | pipeline/main.py:239-241 | `sorted(key=count, reverse=True)` returns a permutation of its input with non-increasing counts. |
| Ranking.InsertStable | pipeline/main.py:240 | Insertion places the new entry after every entry of its own count. |
| Ranking.SortStable | pipeline/main.py:240 | The sort is stable: for every count, the entries with that count keep their input order. |
| BestLinks.Collect | pipeline/main.py:251-258 | The loop returns only partners listed with count `n`. |
| BestLinks.OnlyKeepBest | pipeline/main.py:243-259 | The result keeps the wine. Every returned partner is listed with the returned count. A list holding only the sentinel gives no partner and count 0. |
| BestLinks.MaxReal | pipeline/main.py:243-259 | The best count among real partners, 0 when there is none. No real partner is listed above it, and a positive value is attained. |
| BestLinks.TiedAtMembers | pipeline/main.py:251-258 | A real partner is among those tied at `c` exactly when it is listed with count `c`. |
| BestLinks.CollectRanked | pipeline/main.py:251-258 | On a ranked list the loop gathers exactly the real partners tied at `n`, skipping sentinels wherever they are, provided nothing ranks above `n`. |
| BestLinks.BestOfRanked | pipeline/main.py:243-259 | On a ranked list with one entry per partner, the count is the best real count (0 when only the sentinel is listed). The partners are exactly the real partners tied at it, in list order. |
| BestLinks.BestAfterSentinel | pipeline/main.py:247-251 | A leading sentinel is skipped, and the next entry's count is the best real count. |
| BestLinks.BestOfGroup | pipeline/main.py:239-259 | Sorting then selecting on any list with one entry per partner gives the partners tied at the best real count, in input order, and that count. |
| BestLinks.MaxRealPermutation | pipeline/main.py:239-241 | The best real count does not depend on the list's order. |
| BestLinks.SelectsBest | pipeline/main.py:239-259 | Selection gives the right answer, stated independently of the code. No partner has a higher count. The partners are exactly those with the returned count, each once. The count is 0 exactly when there is no partner. |
| BestLinks.NoneTiedIffZero | pipeline/main.py:243-259 | No partner is tied exactly when the best real count is 0. |
| Formatting.SplitFormatTotal | pipeline/main.py:32-34 | A sales line `'%s\t%s'` splits on tabs into the key text and the numeral, for a key without tabs. |
| Formatting.ParseFormatTotal | pipeline/main.py:32-34 | Reading a sales line gives back its key and total. |
| Formatting.FormatLinks | pipeline/main.py:261-262 | With no partner, `format_output` writes the wine, two tabs and the count. |
| Formatting.SplitFormatLinks | pipeline/main.py:261-262 | A purchased-together line splits into the wine, the partners (one empty field when there are none) and the count. |
| Formatting.ParseFormatLinks | pipeline/main.py:261-262 | Reading a purchased-together line gives back the wine, the partners in order and the count. |
| Reports.MapAll | pipeline/main.py:37 | `beam.Map` succeeds exactly when every call does, giving the results in order. A failure is the error of some line. |
| Reports.FlatMapAll | pipeline/main.py:129 | `beam.FlatMap` of an at-most-one-element function succeeds exactly when every call does. A failure is the error of some line. |
| Reports.Matching | pipeline/main.py:118 | The lines of the variety are kept and no others. |
| Reports.VarietyIsPlainOnMatching | pipeline/main.py:113-200 | Where every line has a variety column, the variety report's run succeeds exactly when the plain report's run on the matching lines succeeds and their wineries pass `str()`. Its contributions are then the plain report's on the matching lines. |
| Reports.SalesReport | pipeline/main.py:21-41 | A sales report run fails exactly when some line is not readable for it. |
| Reports.SalesReportMeaning | pipeline/main.py:36-39 | Reading the written lines back gives exactly the `CombinePerKey(sum)` rows of the contributions: each distinct key once, with the sum of its contributions. The rows add up to the sum of all contributions. |
| Reports.ReadFormatTotals | pipeline/main.py:39 | The written lines read back as the rows that were formatted, for keys without tabs. |
| Reports.VarietyReport | pipeline/main.py:109-215 | A variety report run fails exactly when some line has no variety column, or is of the variety and not readable, a non-ASCII winery included. |
| Reports.PurchasedTogetherReport | pipeline/main.py:217-277 | The purchased-together run fails exactly when some line lacks a date-time column, has a non-ASCII date-time, or has a non-numeral index. |
| Reports.ReadFormatAllLinks | pipeline/main.py:275 | The written lines read back as the selected links. |
| Reports.PurchasedTogetherReportMeaning | pipeline/main.py:264-275 | Reading the written lines back gives exactly the selected links: one line per linked wine, each wine once, each holding exactly the wines bought with it most often and that count. |

## Left out

- Beam plumbing: pipeline options, `ReadFromText`/`WriteToText`, runners, sharding and the distributed shuffle. The pipelines are functions from the input lines to the output lines. `Combining.TotalsPermutation` and `Combining.MergePartitions` cover the order independence the runner relies on.
- Command-line handling (`pipeline/main.py:310-352`) and the `run` dispatch (`pipeline/main.py:280-301`): configuration glue that picks one report. The variety choices list is not enforced; any variety text is accepted.
- The "largest to smallest" order promised by the help texts (`pipeline/main.py:322-325`): the code never sorts the sales reports, so none is modelled.
- Python's `int()` lexing: only ASCII digit strings are numerals. Signs, surrounding whitespace and other Unicode digits are treated as errors, so a negative quantity, price or wine index never occurs. The program accepts `int("-1")` as a wine index, and that wine would print as the sentinel `"-1"` (`pipeline/main.py:230`, `pipeline/main.py:247`, `pipeline/main.py:253`); the model cannot express that collision.
- The general regular-expression engine: only the one pattern `"(.*?)"` is modelled, including that `.` does not match a newline.
- `n is not m` (`pipeline/main.py:233`) compares object identity. Whether two equal wine indices in one transaction are the same object depends on CPython's small-integer cache. The model compares values. So a wine bought twice in one transaction is never paired with itself, and a transaction holding only copies of one wine emits nothing. Duplicates are not collapsed: they are kept, and they multiply the pair counts.
- The order in which `GroupByKey` emits groups is left to the runner. The model uses first appearance of the key. Output line order therefore stands for one legal execution. The proved properties are about line contents, except where a lemma states order independence.
- Equal-count partners appear in the order their pairs reach `GroupingWines`, which the runner does not fix. No secondary tie-break key exists in the code, and none is modelled.
- Which error a failed run reports: the model names the first failing line's error. A parallel runner may surface any failing line's.
- A lenient mode that skips malformed lines: the code has none.
- Formatting.ParseFormatTotal and Reports.SalesReportMeaning: only for winery names without a tab character, since a tab inside a winery name would split a written line differently.
- Quotes.StripLeavesAtMostOneQuote: only for lines without a newline, which is what a text reader delivers. Across a newline, several unpaired quotes can survive.
- Reports.FlatMapAll: its own contract does not state which elements are kept. That is stated for the variety reports by Reports.VarietyIsPlainOnMatching.
- Quotes.StripQuoted: its own contract only bounds the length. Its meaning is given by the lemmas in the table.
- Integer width: Python integers do not overflow, so the unbounded `nat` is exact.
- `appengine-guestbook-python/guestbook.py` is not part of this model. It holds web request handlers with no aggregation logic.
