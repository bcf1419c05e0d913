/** Record parsing shared by every report: strip quoted spans, split on
    ',', read fixed columns of the layout
    Index,Country,Description,Designation,Points,Price,Province,Region_1,
    Region_2,Variety,Winery,Quantity,User,DateTime. A missing column
    (Python's IndexError) or a non-numeral where a number is read
    (Python's ValueError) is an error that aborts the run. The lines are
    Unicode text, and where the program applies Python 2's `str()` to a
    column, a non-ASCII character in it (Python's UnicodeEncodeError) is an
    error too. */
module Records {
  import opened Results
  import opened Numerals
  import Quotes
  import Fields

  type WineId = nat

  const IndexColumn: nat := 0
  const PriceColumn: nat := 5
  const VarietyColumn: nat := 9
  const WineryColumn: nat := 10
  const QuantityColumn: nat := 11
  const DateTimeColumn: nat := 13

  datatype ParseError = MissingField(column: nat) | NotANumber(column: nat) | NotAscii(column: nat)

  /** `re.sub('"(.*?)"', '', line).split(",")`. */
  function Tokenize(line: string): (t: seq<string>)
    ensures |t| >= 1
    ensures forall i :: 0 <= i < |t| ==> ',' !in t[i]
    ensures Fields.Join(t, ',') == Quotes.StripQuoted(line)
  {
    Fields.Split(Quotes.StripQuoted(line), ',')
  }

  /** `t[column]`. */
  function Field(t: seq<string>, column: nat): (r: Result<string, ParseError>)
    ensures r.Ok? <==> column < |t|
    ensures r.Ok? ==> r.value == t[column]
    ensures r.Err? ==> r.error == MissingField(column)
  {
    if column < |t| then Ok(t[column]) else Err(MissingField(column))
  }

  /** Every character is in the 7-bit range Python 2's `str()` can encode. */
  predicate IsAscii(s: string) {
    forall i :: 0 <= i < |s| ==> s[i] as int < 128
  }

  /** `str(t[column])` on Unicode text: the column itself, or an error when
      it is missing or holds a character outside ASCII. */
  function Text(t: seq<string>, column: nat): (r: Result<string, ParseError>)
    ensures r.Ok? <==> column < |t| && IsAscii(t[column])
    ensures r.Ok? ==> r.value == t[column]
    ensures r.Err? ==> r.error == (if column < |t| then NotAscii(column) else MissingField(column))
  {
    var f :- Field(t, column);
    if IsAscii(f) then Ok(f) else Err(NotAscii(column))
  }

  /** `int(t[column])`. */
  function Number(t: seq<string>, column: nat): (r: Result<nat, ParseError>)
    ensures r.Ok? <==> column < |t| && IsNumeral(t[column])
    ensures r.Ok? ==> ParseNat(t[column]) == Some(r.value)
    ensures r.Err? ==> r.error == (if column < |t| then NotANumber(column) else MissingField(column))
  {
    var f :- Field(t, column);
    match ParseNat(f)
    case Some(v) => Ok(v)
    case None => Err(NotANumber(column))
  }

  /** A comma inside a quoted description does not shift the columns: the
      quoted span is dropped before splitting. */
  lemma {:induction false} QuotedSpanIgnored(before: string, body: string, after: string)
    requires '"' !in before
    requires Quotes.Plain(body)
    ensures Tokenize(before + ['"'] + body + ['"'] + after) == Tokenize(before + after)
  {
    var spanned := ['"'] + body + ['"'] + after;
    assert before + ['"'] + body + ['"'] + after == before + spanned;
    Quotes.StripKeepsPlainPrefix(before, spanned);
    Quotes.StripDropsFirstSpan(body, after);
    Quotes.StripKeepsPlainPrefix(before, after);
  }

  /** How a report keys its records. */
  datatype KeyedBy = PerWine | PerWinery

  /** What a report adds up. */
  datatype Measure = Bottles | Dollars

  datatype Report = Report(keyedBy: KeyedBy, measure: Measure)

  /** A report key: `int(t[0])` or the winery text `t[10]`. */
  datatype Key = Wine(id: WineId) | Winery(name: string)

  /** The columns a report reads all exist and hold numerals where a
      number is read. */
  predicate Readable(report: Report, t: seq<string>) {
    && |t| > QuantityColumn
    && (report.keyedBy == PerWine ==> IsNumeral(t[IndexColumn]))
    && IsNumeral(t[QuantityColumn])
    && (report.measure == Dollars ==> IsNumeral(t[PriceColumn]))
  }

  /** Like `Readable`, and for a winery key the winery text also passes
      through `str()`, as in the variety reports. */
  predicate ReadableInVariety(report: Report, t: seq<string>) {
    && Readable(report, t)
    && (report.keyedBy == PerWinery ==> IsAscii(t[WineryColumn]))
  }

  /** The key `int(t[0])`, or the winery `t[10]`; the variety reports take
      the winery as `str(t[10])`, so `viaStr` asks for ASCII text. */
  function KeyOf(keyedBy: KeyedBy, t: seq<string>, viaStr: bool): (r: Result<Key, ParseError>)
    ensures keyedBy == PerWine ==> (r.Ok? <==> |t| > IndexColumn && IsNumeral(t[IndexColumn]))
    ensures keyedBy == PerWinery ==> (r.Ok? <==> |t| > WineryColumn && (viaStr ==> IsAscii(t[WineryColumn])))
    ensures keyedBy == PerWinery && viaStr && |t| > WineryColumn && !IsAscii(t[WineryColumn])
      ==> r == Err(NotAscii(WineryColumn))
    ensures r.Ok? ==> r.value == (if keyedBy == PerWine then Wine(DigitsValue(t[IndexColumn]))
                                  else Winery(t[WineryColumn]))
  {
    match keyedBy
    case PerWine =>
      var id :- Number(t, IndexColumn);
      Ok(Wine(id))
    case PerWinery =>
      var name :- if viaStr then Text(t, WineryColumn) else Field(t, WineryColumn);
      Ok(Winery(name))
  }

  /** The contribution; for dollars `int(t[11])*int(t[5])` in the plain
      reports and `int(t[5])*int(t[11])` in the variety reports, which
      only changes which column is reported when both are bad. */
  function Amount(m: Measure, t: seq<string>, priceFirst: bool): (r: Result<nat, ParseError>)
    ensures r.Ok? <==> |t| > QuantityColumn && IsNumeral(t[QuantityColumn]) && (m == Dollars ==> IsNumeral(t[PriceColumn]))
    ensures r.Ok? ==> r.value == DigitsValue(t[QuantityColumn]) * (if m == Dollars then DigitsValue(t[PriceColumn]) else 1)
  {
    match m
    case Bottles => Number(t, QuantityColumn)
    case Dollars =>
      if priceFirst then
        var price :- Number(t, PriceColumn);
        var quantity :- Number(t, QuantityColumn);
        Ok(quantity * price)
      else
        var quantity :- Number(t, QuantityColumn);
        var price :- Number(t, PriceColumn);
        Ok(quantity * price)
  }

  /** The pair a record yields; `inVariety` selects the variety reports'
      extractor, which passes a winery through `str()` and reads the price
      before the quantity. */
  function KeyAndAmount(report: Report, t: seq<string>, inVariety: bool): (r: Result<(Key, nat), ParseError>)
    ensures r.Ok? <==> if inVariety then ReadableInVariety(report, t) else Readable(report, t)
    ensures inVariety && report.keyedBy == PerWinery && |t| > WineryColumn && !IsAscii(t[WineryColumn])
      ==> r == Err(NotAscii(WineryColumn))
    ensures r.Ok? ==> r.value.0 == (if report.keyedBy == PerWine then Wine(DigitsValue(t[IndexColumn]))
                                     else Winery(t[WineryColumn]))
    ensures r.Ok? ==> r.value.1 == DigitsValue(t[QuantityColumn])
                                   * (if report.measure == Dollars then DigitsValue(t[PriceColumn]) else 1)
  {
    var key :- KeyOf(report.keyedBy, t, inVariety);
    var amount :- Amount(report.measure, t, inVariety);
    Ok((key, amount))
  }

  /** `partition_csv` of the four plain reports: a line yields its key and
      contribution, or fails when a column it reads is missing or not a
      numeral (in particular whenever there are fewer than 12 columns). */
  function Extract(report: Report, line: string): (r: Result<(Key, nat), ParseError>)
    ensures r.Ok? <==> Readable(report, Tokenize(line))
    ensures |Tokenize(line)| <= QuantityColumn ==> r.Err?
  {
    KeyAndAmount(report, Tokenize(line), false)
  }

  /** `t[9] == variety`: the variety argument is a Python 2 byte string
      and the column is Unicode text, so a non-ASCII argument equals no
      column; an ASCII one equals exactly the same text. */
  predicate VarietyMatches(column: string, variety: string) {
    IsAscii(variety) && column == variety
  }

  /** The line's variety column matches `variety`. */
  predicate HasVariety(line: string, variety: string) {
    |Tokenize(line)| > VarietyColumn && VarietyMatches(Tokenize(line)[VarietyColumn], variety)
  }

  /** `filter_using_variety` of the four variety reports: a line of
      another variety yields nothing at all (not a zero contribution); a
      line of the requested variety yields what the plain report's
      extractor yields, except that a winery must be ASCII text to pass
      `str()`; a line without a variety column is an error. */
  function ExtractIfVariety(report: Report, variety: string, line: string): (r: Result<Option<(Key, nat)>, ParseError>)
    ensures |Tokenize(line)| <= VarietyColumn ==> r == Err(MissingField(VarietyColumn))
    ensures |Tokenize(line)| > VarietyColumn && !HasVariety(line, variety) ==> r == Ok(None)
    ensures HasVariety(line, variety) ==> (r.Ok? <==> ReadableInVariety(report, Tokenize(line)))
    ensures HasVariety(line, variety) && r.Ok? ==> r.value == Some(Extract(report, line).value)
    ensures (HasVariety(line, variety) && report.keyedBy == PerWinery && |Tokenize(line)| > WineryColumn
             && !IsAscii(Tokenize(line)[WineryColumn])) ==> r == Err(NotAscii(WineryColumn))
  {
    var t := Tokenize(line);
    var v :- Field(t, VarietyColumn);
    if VarietyMatches(v, variety) then
      var e :- KeyAndAmount(report, t, true);
      Ok(Some(e))
    else
      Ok(None)
  }

  /** `mapping_using_time`: the transaction key `str(t[13])` and the wine
      `int(t[0])`, read in that order. */
  function TransactionEntry(line: string): (r: Result<(string, WineId), ParseError>)
    ensures r.Ok? <==> |Tokenize(line)| > DateTimeColumn && IsAscii(Tokenize(line)[DateTimeColumn])
                       && IsNumeral(Tokenize(line)[IndexColumn])
    ensures r.Ok? ==> r.value == (Tokenize(line)[DateTimeColumn], DigitsValue(Tokenize(line)[IndexColumn]))
    ensures r.Err? ==> r.error == (if |Tokenize(line)| <= DateTimeColumn then MissingField(DateTimeColumn)
                                   else if !IsAscii(Tokenize(line)[DateTimeColumn]) then NotAscii(DateTimeColumn)
                                   else NotANumber(IndexColumn))
  {
    var t := Tokenize(line);
    var time :- Text(t, DateTimeColumn);
    var id :- Number(t, IndexColumn);
    Ok((time, id))
  }
}
