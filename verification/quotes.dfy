/** The quote stripping every record parser applies before splitting:
    `re.sub('"(.*?)"', '', line)`. The pattern deletes, scanning left to
    right, each quote together with the nearest following quote and
    everything in between; `.` does not match a newline, so a quote
    whose partner lies beyond a newline is left alone. */
module Quotes {
  import opened Results

  /** No character of `s` could end or break the lazy `.*?`. */
  predicate Plain(s: string) {
    forall i :: 0 <= i < |s| ==> s[i] != '"' && s[i] != '\n'
  }

  /** Where the lazy `.*?` stops: the index of the first quote of `s`,
      provided no newline comes before it. */
  function ClosingQuote(s: string): (r: Option<nat>)
    ensures r.Some? ==> r.value < |s| && s[r.value] == '"' && Plain(s[..r.value])
    ensures r.None? ==> forall i :: 0 <= i < |s| && s[i] == '"' ==> !Plain(s[..i])
    decreases |s|
  {
    if |s| == 0 then None
    else if s[0] == '"' then Some(0)
    else if s[0] == '\n' then None
    else
      match ClosingQuote(s[1..])
      case Some(j) =>
        assert s[..j + 1] == [s[0]] + s[1..][..j];
        Some(j + 1)
      case None =>
        assert forall i :: 0 <= i < |s| && s[i] == '"' ==> !Plain(s[..i]) by {
          forall i | 0 <= i < |s| && s[i] == '"'
            ensures !Plain(s[..i])
          {
            assert i > 0 && s[1..][i - 1] == '"';
            var tail := s[1..][..i - 1];
            assert !Plain(tail);
            var j :| 0 <= j < |tail| && (tail[j] == '"' || tail[j] == '\n');
            assert s[..i][j + 1] == tail[j];
          }
        }
        None
  }

  /** No quote of `s` starts a match of the pattern. */
  predicate Unpaired(s: string) {
    forall i :: 0 <= i < |s| && s[i] == '"' ==> ClosingQuote(s[i + 1..]).None?
  }

  /** `re.sub('"(.*?)"', '', line)`. */
  function StripQuoted(line: string): (r: string)
    ensures |r| <= |line|
    decreases |line|
  {
    if |line| == 0 then ""
    else if line[0] == '"' && ClosingQuote(line[1..]).Some? then
      StripQuoted(line[ClosingQuote(line[1..]).value + 2..])
    else
      [line[0]] + StripQuoted(line[1..])
  }

  /** Stripping only deletes: every character left was in the line. */
  lemma {:induction false} StripOnlyDeletes(line: string)
    ensures forall i :: 0 <= i < |StripQuoted(line)| ==> StripQuoted(line)[i] in line
    decreases |line|
  {
    if |line| > 0 {
      if line[0] == '"' && ClosingQuote(line[1..]).Some? {
        var rest := line[ClosingQuote(line[1..]).value + 2..];
        StripOnlyDeletes(rest);
        assert forall c :: c in rest ==> c in line;
      } else {
        StripOnlyDeletes(line[1..]);
        assert forall c :: c in line[1..] ==> c in line;
      }
    }
  }

  /** Text before the first quote is kept as it is. */
  lemma {:induction false} StripKeepsPlainPrefix(p: string, rest: string)
    requires '"' !in p
    ensures StripQuoted(p + rest) == p + StripQuoted(rest)
    decreases |p|
  {
    if |p| > 0 {
      assert p == [p[0]] + p[1..];
      assert p[0] != '"' && '"' !in p[1..];
      assert p + rest == [p[0]] + (p[1..] + rest);
      StripKeepsOther(p[0], p[1..] + rest);
      StripKeepsPlainPrefix(p[1..], rest);
      assert p + StripQuoted(rest) == [p[0]] + (p[1..] + StripQuoted(rest));
    } else {
      assert p + rest == rest;
    }
  }

  /** A character other than a quote is copied to the output. */
  lemma {:induction false} StripKeepsOther(c: char, s: string)
    requires c != '"'
    ensures StripQuoted([c] + s) == [c] + StripQuoted(s)
  {
    assert ([c] + s)[1..] == s;
  }

  /** The leftmost quote pairs with the nearest later quote and the whole
      span, body included, disappears. */
  lemma {:induction false} StripDropsFirstSpan(body: string, rest: string)
    requires Plain(body)
    ensures StripQuoted(['"'] + body + ['"'] + rest) == StripQuoted(rest)
  {
    var line := ['"'] + body + ['"'] + rest;
    var tail := body + ['"'] + rest;
    assert line[1..] == tail;
    assert tail[|body|] == '"' && tail[..|body|] == body;
    ClosingQuoteFirst(tail, |body|);
    assert line[|body| + 2..] == rest;
  }

  lemma {:induction false} ClosingQuoteFirst(s: string, k: nat)
    requires k < |s| && s[k] == '"' && Plain(s[..k])
    ensures ClosingQuote(s) == Some(k)
    decreases k
  {
    if k > 0 {
      assert s[0] == s[..k][0];
      assert s[1..][..k - 1] == s[..k][1..];
      ClosingQuoteFirst(s[1..], k - 1);
    }
  }

  /** A quote with no partner before the next newline survives, and so
      does the absence of a partner. */
  lemma {:induction false} StripKeepsUnmatched(s: string)
    requires ClosingQuote(s).None?
    ensures ClosingQuote(StripQuoted(s)).None?
    decreases |s|
  {
    if |s| > 0 {
      assert s[0] != '"';
      if s[0] != '\n' {
        StripKeepsUnmatched(s[1..]);
        assert ([s[0]] + StripQuoted(s[1..]))[1..] == StripQuoted(s[1..]);
      }
    }
  }

  /** Putting a character in front of an unpaired text keeps it unpaired,
      unless the character is a quote that finds a partner. */
  lemma {:induction false} UnpairedCons(c: char, r: string)
    requires Unpaired(r)
    requires c == '"' ==> ClosingQuote(r).None?
    ensures Unpaired([c] + r)
  {
    var full := [c] + r;
    forall i | 0 <= i < |full| && full[i] == '"'
      ensures ClosingQuote(full[i + 1..]).None?
    {
      if i == 0 {
        assert full[1..] == r;
      } else {
        assert full[i + 1..] == r[i..];
        assert r[i - 1] == '"';
      }
    }
  }

  /** After stripping, no quote is left that the pattern could match. */
  lemma {:induction false} StripLeavesUnpaired(line: string)
    ensures Unpaired(StripQuoted(line))
    decreases |line|
  {
    if |line| > 0 {
      if line[0] == '"' && ClosingQuote(line[1..]).Some? {
        StripLeavesUnpaired(line[ClosingQuote(line[1..]).value + 2..]);
      } else {
        StripLeavesUnpaired(line[1..]);
        if line[0] == '"' {
          StripKeepsUnmatched(line[1..]);
        }
        UnpairedCons(line[0], StripQuoted(line[1..]));
      }
    }
  }

  /** Stripping a line without a matchable quote changes nothing. */
  lemma {:induction false} StripUnpairedIsIdentity(s: string)
    requires Unpaired(s)
    ensures StripQuoted(s) == s
    decreases |s|
  {
    if |s| > 0 {
      assert Unpaired(s[1..]) by {
        forall i | 0 <= i < |s[1..]| && s[1..][i] == '"'
          ensures ClosingQuote(s[1..][i + 1..]).None?
        {
          assert s[1..][i + 1..] == s[i + 2..];
        }
      }
      StripUnpairedIsIdentity(s[1..]);
    }
  }

  /** Stripping twice is stripping once. */
  lemma {:induction false} StripIdempotent(line: string)
    ensures StripQuoted(StripQuoted(line)) == StripQuoted(line)
  {
    StripLeavesUnpaired(line);
    StripUnpairedIsIdentity(StripQuoted(line));
  }

  /** A line without quotes is unchanged. */
  lemma {:induction false} StripQuoteFree(line: string)
    requires '"' !in line
    ensures StripQuoted(line) == line
  {
    StripKeepsPlainPrefix(line, "");
    assert line + "" == line;
  }

  /** On a single input line (no newline) at most one quote survives. */
  lemma {:induction false} StripLeavesAtMostOneQuote(line: string)
    requires '\n' !in line
    ensures forall i, j ::
      0 <= i < j < |StripQuoted(line)| && StripQuoted(line)[i] == '"' ==> StripQuoted(line)[j] != '"'
  {
    var r := StripQuoted(line);
    StripLeavesUnpaired(line);
    StripOnlyDeletes(line);
    forall i, j | 0 <= i < j < |r| && r[i] == '"'
      ensures r[j] != '"'
    {
      var s := r[i + 1..];
      assert ClosingQuote(s).None?;
      assert s[j - i - 1] == r[j];
      if r[j] == '"' {
        assert !Plain(s[..j - i - 1]);
        var k :| 0 <= k < j - i - 1 && (s[..j - i - 1][k] == '"' || s[..j - i - 1][k] == '\n');
        assert s[k] == r[i + 1 + k] && r[i + 1 + k] in line;
        ClosingQuoteFirstOf(s, k);
      }
    }
  }

  /** If some quote of `s` has no newline before it, the lazy match succeeds. */
  lemma {:induction false} ClosingQuoteFirstOf(s: string, k: nat)
    requires k < |s| && s[k] == '"'
    requires forall i :: 0 <= i < k ==> s[i] != '\n'
    ensures ClosingQuote(s).Some?
    decreases k
  {
    if k > 0 && s[0] != '"' {
      ClosingQuoteFirstOf(s[1..], k - 1);
    }
  }
}
