/** The text lines the reports write: `'%s\t%s' % (key, total)` for the
    four sales reports and `wine + "\t" + "\t".join(partners) + "\t" +
    str(count)` for the purchased-together report. Each formatter has a
    reader that recovers what was formatted. */
module Formatting {
  import opened Results
  import opened Numerals
  import opened Records
  import opened BestLinks
  import Fields

  const Tab: char := '\t'

  /** `'%s' % key`: a wine index in decimal, a winery name as it is. */
  function KeyText(k: Key): string {
    match k
    case Wine(id) => Show(id)
    case Winery(name) => name
  }

  /** A decimal numeral holds no tab, so it never splits a line. */
  lemma {:induction false} ShowHasNoTab(n: nat)
    ensures Tab !in Show(n)
  {
  }

  /** `format` of the sales reports. */
  function FormatTotal(k: Key, total: nat): string {
    KeyText(k) + [Tab] + Show(total)
  }

  /** A sales line splits into the key text and the numeral. */
  lemma {:induction false} SplitFormatTotal(k: Key, total: nat)
    requires Tab !in KeyText(k)
    ensures Fields.Split(FormatTotal(k, total), Tab) == [KeyText(k), Show(total)]
  {
    ShowHasNoTab(total);
    Fields.SplitJoin([KeyText(k), Show(total)], Tab);
  }

  /** The kind of report a key belongs to. */
  function KindOf(k: Key): KeyedBy {
    if k.Wine? then PerWine else PerWinery
  }

  /** Reads a sales-report line back: exactly two tab-separated fields, a
      key of the report's kind and a numeral. */
  function ParseTotal(keyedBy: KeyedBy, line: string): (r: Option<(Key, nat)>)
    ensures r.Some? ==> |Fields.Split(line, Tab)| == 2 && KindOf(r.value.0) == keyedBy
    ensures r.Some? ==> ParseNat(Fields.Split(line, Tab)[1]) == Some(r.value.1)
    ensures r.Some? && keyedBy == PerWinery ==> r.value.0 == Winery(Fields.Split(line, Tab)[0])
  {
    var parts := Fields.Split(line, Tab);
    if |parts| != 2 then None
    else
      match ParseNat(parts[1])
      case None => None
      case Some(total) =>
        match keyedBy
        case PerWinery => Some((Winery(parts[0]), total))
        case PerWine =>
          match ParseNat(parts[0])
          case None => None
          case Some(id) => Some((Wine(id), total))
  }

  /** Reading a formatted total gives back the key and the total, provided
      a winery name holds no tab. */
  lemma {:induction false} ParseFormatTotal(k: Key, total: nat)
    requires Tab !in KeyText(k)
    ensures ParseTotal(KindOf(k), FormatTotal(k, total)) == Some((k, total))
  {
    SplitFormatTotal(k, total);
    ParseShow(total);
    if k.Wine? {
      ParseShow(k.id);
    }
  }

  function ShowAll(ids: seq<WineId>): (r: seq<string>)
    ensures |r| == |ids|
    ensures forall i :: 0 <= i < |ids| ==> r[i] == Show(ids[i])
    decreases |ids|
  {
    if |ids| == 0 then [] else [Show(ids[0])] + ShowAll(ids[1..])
  }

  /** The tab-separated fields of a purchased-together line: the middle
      field is empty when there is no partner. */
  function LinkFields(b: BestLink): seq<string> {
    [Show(b.wine)] + (if b.partners == [] then [""] else ShowAll(b.partners)) + [Show(b.count)]
  }

  /** `format_output`. With no partner the line is the wine, two tabs and
      the count. */
  function FormatLinks(b: BestLink): (line: string)
    ensures b.partners == [] ==> line == Show(b.wine) + [Tab, Tab] + Show(b.count)
  {
    Show(b.wine) + [Tab] + Fields.Join(ShowAll(b.partners), Tab) + [Tab] + Show(b.count)
  }

  /** A purchased-together line splits into the wine, the partners (one
      empty field when there are none) and the count. */
  lemma {:induction false} SplitFormatLinks(b: BestLink)
    ensures Fields.Split(FormatLinks(b), Tab) == LinkFields(b)
  {
    LinkLineIsJoin(b);
    LinkFieldsTabFree(b);
    Fields.SplitJoin(LinkFields(b), Tab);
  }

  lemma {:induction false} LinkFieldsTabFree(b: BestLink)
    ensures forall i :: 0 <= i < |LinkFields(b)| ==> Tab !in LinkFields(b)[i]
  {
    var f := LinkFields(b);
    forall i | 0 <= i < |f| ensures Tab !in f[i] {
      if i == 0 {
        ShowHasNoTab(b.wine);
      } else if i == |f| - 1 {
        ShowHasNoTab(b.count);
      } else if b.partners != [] {
        ShowHasNoTab(b.partners[i - 1]);
      }
    }
  }

  lemma {:induction false} LinkLineIsJoin(b: BestLink)
    ensures Show(b.wine) + [Tab] + Fields.Join(ShowAll(b.partners), Tab) + [Tab] + Show(b.count)
         == Fields.Join(LinkFields(b), Tab)
  {
    var mid := if b.partners == [] then [""] else ShowAll(b.partners);
    assert Fields.Join(mid, Tab) == Fields.Join(ShowAll(b.partners), Tab);
    JoinAround(Show(b.wine), mid, Show(b.count), Tab);
  }

  /** Joining with a first and a last field adds one separator on each side. */
  lemma {:induction false} JoinAround(a: string, mid: seq<string>, z: string, sep: char)
    requires |mid| >= 1
    ensures Fields.Join([a] + mid + [z], sep) == a + [sep] + Fields.Join(mid, sep) + [sep] + z
  {
    assert ([a] + mid + [z])[1..] == mid + [z];
    JoinSnoc(mid, z, sep);
  }

  lemma {:induction false} JoinSnoc(parts: seq<string>, z: string, sep: char)
    requires |parts| >= 1
    ensures Fields.Join(parts + [z], sep) == Fields.Join(parts, sep) + [sep] + z
    decreases |parts|
  {
    assert (parts + [z])[1..] == parts[1..] + [z];
    if |parts| > 1 {
      JoinSnoc(parts[1..], z, sep);
    } else {
      assert parts[1..] + [z] == [z];
    }
  }

  /** Reads numerals, failing on the first field that is not one. */
  function ParseAll(fields: seq<string>): (r: Option<seq<WineId>>)
    ensures r.Some? ==> |r.value| == |fields|
    ensures r.Some? ==> forall i :: 0 <= i < |fields| ==> ParseNat(fields[i]) == Some(r.value[i])
    ensures r.None? ==> exists i :: 0 <= i < |fields| && ParseNat(fields[i]).None?
    decreases |fields|
  {
    if |fields| == 0 then Some([])
    else
      match ParseNat(fields[0])
      case None => None
      case Some(n) =>
        match ParseAll(fields[1..])
        case None => None
        case Some(ns) => Some([n] + ns)
  }

  /** Reads a purchased-together line back: the wine, the partners (none
      when the middle field is empty) and the count. */
  function ParseLinks(line: string): (r: Option<BestLink>)
    ensures r.Some? ==> |Fields.Split(line, Tab)| >= 3
    ensures r.Some? ==> ParseNat(Fields.Split(line, Tab)[0]) == Some(r.value.wine)
  {
    var parts := Fields.Split(line, Tab);
    if |parts| < 3 then None
    else
      var mid := parts[1..|parts| - 1];
      var wine := ParseNat(parts[0]);
      var count := ParseNat(parts[|parts| - 1]);
      if wine.None? || count.None? then None
      else if mid == [""] then Some(BestLink(wine.value, [], count.value))
      else
        match ParseAll(mid)
        case None => None
        case Some(partners) => Some(BestLink(wine.value, partners, count.value))
  }

  lemma {:induction false} ParseShowAll(ids: seq<WineId>)
    ensures ParseAll(ShowAll(ids)) == Some(ids)
    decreases |ids|
  {
    if |ids| > 0 {
      var fields := ShowAll(ids);
      ParseShow(ids[0]);
      assert fields[0] == Show(ids[0]);
      assert fields[1..] == ShowAll(ids[1..]);
      ParseShowAll(ids[1..]);
      assert ParseAll(fields) == Some([ids[0]] + ids[1..]);
      assert ids == [ids[0]] + ids[1..];
    }
  }

  /** Reading a formatted purchased-together line gives the link back. */
  lemma {:induction false} ParseFormatLinks(b: BestLink)
    ensures ParseLinks(FormatLinks(b)) == Some(b)
  {
    var parts := LinkFields(b);
    SplitFormatLinks(b);
    ParseShow(b.wine);
    ParseShow(b.count);
    assert parts[0] == Show(b.wine) && parts[|parts| - 1] == Show(b.count);
    var mid := parts[1..|parts| - 1];
    if b.partners == [] {
      assert mid == [""];
    } else {
      assert mid == ShowAll(b.partners);
      assert |Show(b.partners[0])| > 0;
      assert mid != [""];
      ParseShowAll(b.partners);
    }
  }
}
