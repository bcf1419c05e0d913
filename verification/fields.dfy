/** Python's `str.split(sep)` with an explicit one-character separator
    and `sep.join(parts)`: the record parser splits on ',' and the
    purchased-together formatter joins on a tab. */
module Fields {

  /** `sep.join(parts)`; joining nothing gives the empty text. */
  function Join(parts: seq<string>, sep: char): string
    decreases |parts|
  {
    if |parts| == 0 then ""
    else if |parts| == 1 then parts[0]
    else parts[0] + [sep] + Join(parts[1..], sep)
  }

  /** `s.split(sep)`: always at least one field, fields never contain the
      separator, and joining them back restores `s`. */
  function Split(s: string, sep: char): (r: seq<string>)
    ensures |r| >= 1
    ensures forall i :: 0 <= i < |r| ==> sep !in r[i]
    ensures Join(r, sep) == s
    decreases |s|
  {
    if |s| == 0 then [""]
    else
      var rest := Split(s[1..], sep);
      if s[0] == sep then
        assert s == [sep] + s[1..];
        [""] + rest
      else
        var r := [[s[0]] + rest[0]] + rest[1..];
        assert r[1..] == rest[1..];
        assert s == [s[0]] + s[1..];
        r
  }

  /** Splitting a joined list of separator-free fields gives the fields back. */
  lemma {:induction false} SplitJoin(parts: seq<string>, sep: char)
    requires |parts| >= 1
    requires forall i :: 0 <= i < |parts| ==> sep !in parts[i]
    ensures Split(Join(parts, sep), sep) == parts
    decreases |parts|, |parts[0]|
  {
    var p0 := parts[0];
    if |p0| > 0 {
      var shorter := [p0[1..]] + parts[1..];
      assert shorter[1..] == parts[1..];
      JoinFirstChar(parts, sep);
      SplitJoin(shorter, sep);
      SplitCons(p0[0], Join(shorter, sep), sep);
      assert [p0[0]] + p0[1..] == p0;
      assert parts == [p0] + parts[1..];
    } else if |parts| > 1 {
      assert Join(parts, sep) == [sep] + Join(parts[1..], sep);
      SplitJoin(parts[1..], sep);
      SplitCons(sep, Join(parts[1..], sep), sep);
      assert parts == [""] + parts[1..];
    }
  }

  lemma {:induction false} JoinFirstChar(parts: seq<string>, sep: char)
    requires |parts| >= 1 && |parts[0]| > 0
    ensures Join(parts, sep) == [parts[0][0]] + Join([parts[0][1..]] + parts[1..], sep)
  {
    var shorter := [parts[0][1..]] + parts[1..];
    assert shorter[1..] == parts[1..];
    assert parts[0] == [parts[0][0]] + parts[0][1..];
  }

  lemma {:induction false} SplitCons(c: char, s: string, sep: char)
    ensures Split([c] + s, sep) ==
      if c == sep then [""] + Split(s, sep) else [[c] + Split(s, sep)[0]] + Split(s, sep)[1..]
  {
    assert ([c] + s)[1..] == s;
  }
}
