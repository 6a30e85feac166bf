/** The .NET string operations the importer relies on: `Trim`,
    `ToLowerInvariant`, `Replace(c, "")`, `string.Join` and `Split` on the
    three line separators. */
module Text {
  import Seqs

  /** `Char.IsWhiteSpace`: the Unicode space separators, the line and
      paragraph separators, and the control characters U+0009-U+000D,
      U+0085 and U+00A0. */
  predicate IsWhiteSpace(c: char) {
    || '\U{0009}' <= c <= '\U{000D}'
    || c == ' ' || c == '\U{0085}' || c == '\U{00A0}' || c == '\U{1680}'
    || '\U{2000}' <= c <= '\U{200A}'
    || c == '\U{2028}' || c == '\U{2029}' || c == '\U{202F}' || c == '\U{205F}'
    || c == '\U{3000}'
  }

  function TrimStart(s: string): (r: string)
    ensures |r| <= |s| && r == s[|s| - |r|..]
    ensures r == [] || !IsWhiteSpace(r[0])
    ensures forall i :: 0 <= i < |s| - |r| ==> IsWhiteSpace(s[i])
  {
    if s != [] && IsWhiteSpace(s[0]) then TrimStart(s[1..]) else s
  }

  function TrimEnd(s: string): (r: string)
    ensures |r| <= |s| && r == s[..|r|]
    ensures r == [] || !IsWhiteSpace(r[|r| - 1])
    ensures forall i :: |r| <= i < |s| ==> IsWhiteSpace(s[i])
  {
    if s != [] && IsWhiteSpace(s[|s| - 1]) then TrimEnd(s[..|s| - 1]) else s
  }

  /** Every character of s is white space. */
  predicate IsBlank(s: string) {
    forall i :: 0 <= i < |s| ==> IsWhiteSpace(s[i])
  }

  /** `string.Trim()`: drops leading and trailing white space, and nothing
      else: the result is the middle of the input between two blank ends. */
  function Trim(s: string): (r: string)
    ensures |r| <= |s|
    ensures r == [] || (!IsWhiteSpace(r[0]) && !IsWhiteSpace(r[|r| - 1]))
    ensures r == [] <==> IsBlank(s)
  {
    var t := TrimStart(s);
    assert t != [] ==> s[|s| - |t|] == t[0];
    TrimEnd(t)
  }

  /** What `Trim` leaves is the middle of its input, between a blank front
      and a blank back: nothing inside is changed or dropped. */
  lemma {:induction false} TrimIsMiddle(s: string)
    ensures exists lead, tail :: IsBlank(lead) && IsBlank(tail) && s == lead + Trim(s) + tail
  {
    var t := TrimStart(s);
    TrimSplits(s, t, TrimEnd(t));
  }

  /** Cutting a blank front and then a blank back leaves s as the middle of
      two blank ends. */
  lemma {:induction false} TrimSplits(s: string, t: string, r: string)
    requires |t| <= |s| && t == s[|s| - |t|..] && forall i :: 0 <= i < |s| - |t| ==> IsWhiteSpace(s[i])
    requires |r| <= |t| && r == t[..|r|] && forall i :: |r| <= i < |t| ==> IsWhiteSpace(t[i])
    ensures exists lead, tail :: IsBlank(lead) && IsBlank(tail) && s == lead + r + tail
  {
    var lead, tail := s[..|s| - |t|], t[|r|..];
    assert IsBlank(lead);
    assert IsBlank(tail) by {
      forall i | 0 <= i < |tail|
        ensures IsWhiteSpace(tail[i])
      {
        assert tail[i] == t[|r| + i];
      }
    }
    assert s == lead + t;
    assert t == r + tail;
  }

  /** A string with no white space at either end is its own trim. */
  lemma {:induction false} TrimUnchanged(s: string)
    requires s != [] && !IsWhiteSpace(s[0]) && !IsWhiteSpace(s[|s| - 1])
    ensures Trim(s) == s
  {
    assert TrimStart(s) == s;
    assert TrimEnd(s) == s;
  }

  /** One trailing space is trimmed away. */
  lemma {:induction false} TrimTrailingSpace(s: string)
    requires s != [] && !IsWhiteSpace(s[0]) && !IsWhiteSpace(s[|s| - 1])
    ensures Trim(s + " ") == s
  {
    assert TrimStart(s + " ") == s + " ";
    assert (s + " ")[..|s + " "| - 1] == s;
    assert TrimEnd(s) == s;
  }

  /** `Char.ToLowerInvariant`, on the ASCII letters. */
  function LowerChar(c: char): char {
    if 'A' <= c <= 'Z' then (c as int + 32) as char else c
  }

  /** `ToLowerInvariant()`, letter by letter. */
  function ToLower(s: string): (r: string)
    ensures |r| == |s|
    ensures forall i :: 0 <= i < |s| ==> r[i] == LowerChar(s[i])
  {
    seq(|s|, i requires 0 <= i < |s| => LowerChar(s[i]))
  }

  predicate IsLower(s: string) {
    forall i :: 0 <= i < |s| ==> !('A' <= s[i] <= 'Z')
  }

  lemma {:induction false} ToLowerIsLower(s: string)
    ensures IsLower(ToLower(s)) && ToLower(ToLower(s)) == ToLower(s)
  {
  }

  /** `Replace(c.ToString(), "")`: every occurrence of c removed, every
      other character kept as often as it occurs. */
  function Without(s: string, c: char): (r: string)
    ensures c !in r
    ensures forall d :: d in r <==> d in s && d != c
    ensures multiset(r) == multiset(s)[c := 0]
  {
    var other := (d: char) => d != c;
    var r := Seqs.Filter(other, s);
    assert multiset(r) == multiset(s)[c := 0] by {
      forall d
        ensures multiset(r)[d] == multiset(s)[c := 0][d]
      {
        if d != c {
          Seqs.FilterCount(other, s, d);
        } else {
          assert d !in r;
        }
      }
    }
    r
  }

  /** The removal works piece by piece, so the kept characters stay in
      their order. */
  lemma {:induction false} WithoutConcat(a: string, b: string, c: char)
    ensures Without(a + b, c) == Without(a, c) + Without(b, c)
  {
    Seqs.FilterConcat((d: char) => d != c, a, b);
  }

  /** The lengths of the parts, added up. */
  function TotalLength(parts: seq<string>): nat {
    if parts == [] then 0 else |parts[0]| + TotalLength(parts[1..])
  }

  /** `string.Join(sep, parts)`: the parts, in order, with one separator
      between each two. */
  function Join(parts: seq<string>, sep: string): (r: string)
    ensures parts == [] ==> r == []
    ensures parts != [] ==> |r| == TotalLength(parts) + (|parts| - 1) * |sep|
    ensures parts != [] ==> |parts[0]| <= |r| && r[..|parts[0]|] == parts[0]
  {
    if |parts| == 0 then ""
    else if |parts| == 1 then parts[0]
    else
      var rest := Join(parts[1..], sep);
      assert (|parts| - 1) * |sep| == |sep| + (|parts| - 2) * |sep|;
      parts[0] + sep + rest
  }

  /** t occurs in s as a contiguous piece. */
  ghost predicate Contains(s: string, t: string) {
    exists i :: 0 <= i <= |s| - |t| && OccursAt(s, t, i)
  }

  /** t occurs in s starting at position i. */
  predicate OccursAt(s: string, t: string, i: int)
    requires 0 <= i <= |s| - |t|
  {
    s[i..i + |t|] == t
  }

  /** Every character of an occurring piece occurs in the whole. */
  lemma {:induction false} ContainsChar(s: string, t: string, k: nat)
    requires Contains(s, t) && k < |t|
    ensures t[k] in s
  {
    var i :| 0 <= i <= |s| - |t| && OccursAt(s, t, i);
    assert s[i + k] == s[i..i + |t|][k];
  }

  /** A piece that begins an occurring piece occurs too. */
  lemma {:induction false} ContainsPrefix(s: string, t: string, u: string)
    requires Contains(s, t + u)
    ensures Contains(s, t)
  {
    var i :| 0 <= i <= |s| - |t + u| && OccursAt(s, t + u, i);
    assert s[i..i + |t|] == (t + u)[..|t|];
    assert OccursAt(s, t, i);
  }

  /** A piece that ends an occurring piece occurs too. */
  lemma {:induction false} ContainsSuffix(s: string, t: string, u: string)
    requires Contains(s, t + u)
    ensures Contains(s, u)
  {
    var i :| 0 <= i <= |s| - |t + u| && OccursAt(s, t + u, i);
    assert s[i + |t|..i + |t| + |u|] == (t + u)[|t|..];
    assert OccursAt(s, u, i + |t|);
  }

  predicate IsLineBreak(c: char) {
    c == '\r' || c == '\n'
  }

  predicate NoLineBreak(s: string) {
    forall i :: 0 <= i < |s| ==> !IsLineBreak(s[i])
  }

  /** `Split(["\r\n", "\r", "\n"])`: at each position the separators are
      tried in that order, so "\r\n" is one break and a lone "\r" another. */
  function SplitLines(s: string): (r: seq<string>)
    ensures |r| >= 1
    ensures forall k :: 0 <= k < |r| ==> NoLineBreak(r[k])
    decreases |s|
  {
    if s == [] then [""]
    else if s[0] == '\r' && |s| > 1 && s[1] == '\n' then [""] + SplitLines(s[2..])
    else if IsLineBreak(s[0]) then [""] + SplitLines(s[1..])
    else
      var rest := SplitLines(s[1..]);
      [[s[0]] + rest[0]] + rest[1..]
  }

  /** The text with every "\r\n" and every lone "\r" written as "\n". */
  function NormaliseLineBreaks(s: string): (r: string)
    ensures '\r' !in r
    decreases |s|
  {
    if s == [] then ""
    else if s[0] == '\r' && |s| > 1 && s[1] == '\n' then "\n" + NormaliseLineBreaks(s[2..])
    else if IsLineBreak(s[0]) then "\n" + NormaliseLineBreaks(s[1..])
    else [s[0]] + NormaliseLineBreaks(s[1..])
  }

  lemma {:induction false} JoinConsHead(c: char, parts: seq<string>, sep: string)
    requires |parts| >= 1
    ensures Join([[c] + parts[0]] + parts[1..], sep) == [c] + Join(parts, sep)
  {
    var q := [[c] + parts[0]] + parts[1..];
    assert q[1..] == parts[1..];
  }

  /** Joining the split pieces with "\n" gives the text back, up to the
      spelling of its line breaks: nothing but the separators is lost. */
  lemma {:induction false} SplitLinesRoundTrip(s: string)
    ensures Join(SplitLines(s), "\n") == NormaliseLineBreaks(s)
    decreases |s|
  {
    if s == [] {
    } else if s[0] == '\r' && |s| > 1 && s[1] == '\n' {
      SplitLinesRoundTrip(s[2..]);
      var r := [""] + SplitLines(s[2..]);
      assert r[1..] == SplitLines(s[2..]);
    } else if IsLineBreak(s[0]) {
      SplitLinesRoundTrip(s[1..]);
      var r := [""] + SplitLines(s[1..]);
      assert r[1..] == SplitLines(s[1..]);
    } else {
      SplitLinesRoundTrip(s[1..]);
      JoinConsHead(s[0], SplitLines(s[1..]), "\n");
    }
  }

  /** Text whose only breaks are "\n" is restored exactly. */
  lemma {:induction false} SplitLinesJoinExact(s: string)
    requires '\r' !in s
    ensures Join(SplitLines(s), "\n") == s
    decreases |s|
  {
    SplitLinesRoundTrip(s);
    NormaliseIdentity(s);
  }

  lemma {:induction false} NormaliseIdentity(s: string)
    requires '\r' !in s
    ensures NormaliseLineBreaks(s) == s
    decreases |s|
  {
    if s != [] {
      assert '\r' !in s[1..] by { assert forall c :: c in s[1..] ==> c in s; }
      NormaliseIdentity(s[1..]);
      assert s == [s[0]] + s[1..];
    }
  }

  /** Text free of breaks runs on into the first piece of what follows. */
  lemma {:induction false} SplitLinesPrefix(a: string, t: string)
    requires NoLineBreak(a)
    ensures SplitLines(a + t) == [a + SplitLines(t)[0]] + SplitLines(t)[1..]
    decreases |a|
  {
    if a != [] {
      assert (a + t)[1..] == a[1..] + t;
      assert (a + t)[0] == a[0];
      SplitLinesPrefix(a[1..], t);
      assert [a[0]] + (a[1..] + SplitLines(t)[0]) == a + SplitLines(t)[0];
    } else {
      var r := SplitLines(t);
      assert a + t == t && a + r[0] == r[0];
      assert r == [r[0]] + r[1..];
    }
  }

  /** Splitting break-free lines joined with "\n" gives the lines back. */
  lemma {:induction false} SplitLinesOfJoin(lines: seq<string>)
    requires |lines| >= 1
    requires forall k :: 0 <= k < |lines| ==> NoLineBreak(lines[k])
    ensures SplitLines(Join(lines, "\n")) == lines
    decreases |lines|
  {
    if |lines| == 1 {
      SplitLinesPrefix(lines[0], "");
      assert lines[0] + "" == lines[0];
    } else {
      var rest := Join(lines[1..], "\n");
      assert Join(lines, "\n") == lines[0] + ("\n" + rest);
      SplitLinesPrefix(lines[0], "\n" + rest);
      assert ("\n" + rest)[1..] == rest;
      SplitLinesOfJoin(lines[1..]);
      assert SplitLines("\n" + rest) == [""] + lines[1..];
      assert lines[0] + "" == lines[0];
    }
  }
}
