/** The Python string built-ins the note codec relies on: `in`, `split(sep, 1)`,
    `startswith`, `lstrip(chars)` and `strip()`. Strings are sequences of
    Unicode code points, as Python's `str` is. */
module PyStr {
  import opened Wrappers

  /** The blank line that separates a stored note's title from its content. */
  const Separator: string := "\n\n"

  /** Python's `str.isspace()` on one code point: the characters CPython
      classifies as whitespace (bidirectional class WS, B or S, or category Zs). */
  predicate IsSpace(c: char) {
    || ('\t' <= c <= '\r')
    || ('\U{1C}' <= c <= '\U{1F}')
    || c == ' '
    || c == '\U{85}'
    || c == '\U{A0}'
    || c == '\U{1680}'
    || ('\U{2000}' <= c <= '\U{200A}')
    || c == '\U{2028}'
    || c == '\U{2029}'
    || c == '\U{202F}'
    || c == '\U{205F}'
    || c == '\U{3000}'
  }

  predicate AllSpace(s: string) {
    forall i :: 0 <= i < |s| ==> IsSpace(s[i])
  }

  /** `s.startswith(c)` for a one-character prefix. */
  predicate StartsWith(s: string, c: char) {
    |s| > 0 && s[0] == c
  }

  /** `s.lstrip(c)`: every leading `c` removed, and nothing else. */
  function LStrip(s: string, c: char): (r: string)
    ensures |r| <= |s| && r == s[|s| - |r|..]
    ensures forall i :: 0 <= i < |s| - |r| ==> s[i] == c
    ensures !StartsWith(r, c)
  {
    if StartsWith(s, c) then LStrip(s[1..], c) else s
  }

  /** `s.lstrip()`: leading whitespace removed. */
  function LStripSpace(s: string): (r: string)
    ensures |r| <= |s| && r == s[|s| - |r|..]
    ensures AllSpace(s[..|s| - |r|])
    ensures r == [] || !IsSpace(r[0])
  {
    if |s| > 0 && IsSpace(s[0]) then
      var r := LStripSpace(s[1..]);
      assert r == s[1..][|s| - 1 - |r|..] == s[|s| - |r|..];
      AllSpaceCons(s, |s| - |r|);
      r
    else
      s
  }

  /** `s.rstrip()`: trailing whitespace removed. */
  function RStripSpace(s: string): (r: string)
    ensures |r| <= |s| && r == s[..|r|]
    ensures AllSpace(s[|r|..])
    ensures r == [] || !IsSpace(r[|r| - 1])
  {
    if |s| > 0 && IsSpace(s[|s| - 1]) then
      var r := RStripSpace(s[..|s| - 1]);
      AllSpaceSnoc(s, |r|);
      r
    else
      s
  }

  /** A whitespace character in front of a whitespace run. */
  lemma AllSpaceCons(s: string, n: nat)
    requires 0 < n <= |s| && IsSpace(s[0]) && AllSpace(s[1..][..n - 1])
    ensures AllSpace(s[..n])
  {
    forall i | 0 <= i < n ensures IsSpace(s[..n][i]) {
      if i > 0 {
        assert s[..n][i] == s[1..][..n - 1][i - 1];
      }
    }
  }

  /** A whitespace run followed by one more whitespace character. */
  lemma AllSpaceSnoc(s: string, n: nat)
    requires n < |s| && IsSpace(s[|s| - 1]) && AllSpace(s[..|s| - 1][n..])
    ensures AllSpace(s[n..])
  {
    forall i | 0 <= i < |s| - n ensures IsSpace(s[n..][i]) {
      if i < |s| - 1 - n {
        assert s[n..][i] == s[..|s| - 1][n..][i];
      }
    }
  }

  /** `r` sits in `s` at offset `i` with only whitespace around it. */
  predicate SpacePadded(s: string, i: int, r: string) {
    && 0 <= i && i + |r| <= |s|
    && s[i..i + |r|] == r
    && AllSpace(s[..i])
    && AllSpace(s[i + |r|..])
  }

  /** `s.strip()`: the part of `s` between its leading and its trailing
      whitespace. */
  function Strip(s: string): (r: string)
    ensures |r| <= |s|
    ensures r == [] || (!IsSpace(r[0]) && !IsSpace(r[|r| - 1]))
    ensures exists i :: SpacePadded(s, i, r)
  {
    var l := LStripSpace(s);
    var r := RStripSpace(l);
    StripPadded(s, l, r);
    r
  }

  /** Trimming the left and then the right side leaves the middle of `s`,
      with whitespace on both sides. */
  lemma StripPadded(s: string, l: string, r: string)
    requires |l| <= |s| && l == s[|s| - |l|..] && AllSpace(s[..|s| - |l|])
    requires |r| <= |l| && r == l[..|r|] && AllSpace(l[|r|..])
    ensures SpacePadded(s, |s| - |l|, r)
  {
    var i := |s| - |l|;
    assert s[i..i + |r|] == l[..|r|];
    assert s[i + |r|..] == l[|r|..];
  }

  /** A string whose first character is not whitespace keeps that character
      first after `strip()`. */
  lemma StripKeepsHead(s: string)
    ensures |s| > 0 && !IsSpace(s[0]) ==> |Strip(s)| > 0 && Strip(s)[0] == s[0]
  {
  }

  /** A blank line starts at position `i` of `s`. */
  predicate SepAt(s: string, i: int) {
    0 <= i && i + 1 < |s| && s[i] == '\n' && s[i + 1] == '\n'
  }

  /** Python's `"\n\n" in s`. */
  predicate ContainsSep(s: string) {
    exists i :: 0 <= i < |s| && SepAt(s, i)
  }

  /** The first position at or after `from` where a blank line starts. */
  function FindSepFrom(s: string, from: nat): (r: Option<nat>)
    requires from <= |s|
    ensures r.Some? ==> from <= r.value && SepAt(s, r.value)
    ensures r.Some? ==> forall i :: from <= i < r.value ==> !SepAt(s, i)
    ensures r.None? ==> forall i :: from <= i ==> !SepAt(s, i)
    decreases |s| - from
  {
    if from + 1 >= |s| then None
    else if s[from] == '\n' && s[from + 1] == '\n' then Some(from)
    else FindSepFrom(s, from + 1)
  }

  /** Python's `s.split("\n\n", 1)` guarded by `"\n\n" in s`: the text before
      the FIRST blank line and the text after it. The part before, followed by
      one newline, holds no blank line, which is what makes the split the first
      one. */
  function SplitAtFirstSep(s: string): (r: Option<(string, string)>)
    ensures r.None? <==> !ContainsSep(s)
    ensures r.Some? ==> s == r.value.0 + Separator + r.value.1
    ensures r.Some? ==> !ContainsSep(r.value.0 + "\n")
  {
    match FindSepFrom(s, 0)
    case None => None
    case Some(k) =>
      var before, after := s[..k], s[k + 2..];
      assert s == before + Separator + after;
      forall i | SepAt(before + "\n", i) ensures false {
        assert SepAt(s, i);
      }
      Some((before, after))
  }

  /** The text before the first blank line is determined by the string: two
      ways of writing `s` as `a + "\n\n" + b` with `a + "\n"` free of blank
      lines agree. */
  lemma FirstSplitUnique(s: string, a: string, b: string, a': string, b': string)
    requires s == a + Separator + b && !ContainsSep(a + "\n")
    requires s == a' + Separator + b' && !ContainsSep(a' + "\n")
    ensures a == a' && b == b'
  {
    assert a == s[..|a|] && a' == s[..|a'|];
    if |a| < |a'| {
      LongerPrefixSeesSep(s, a, b, a');
    } else if |a'| < |a| {
      LongerPrefixSeesSep(s, a', b', a);
    }
    assert b == s[|a| + 2..] && b' == s[|a'| + 2..];
  }

  /** A prefix of `a + "\n\n" + b` that is longer than `a` holds, once a
      newline is appended, the blank line that follows `a`. */
  lemma LongerPrefixSeesSep(s: string, a: string, b: string, p: string)
    requires s == a + Separator + b
    requires |a| < |p| <= |s| && p == s[..|p|]
    ensures SepAt(p + "\n", |a|)
  {
  }
}
