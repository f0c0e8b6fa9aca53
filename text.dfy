/**
 * Character classes and string helpers of the JavaScript runtime that the
 * generator relies on: the `\s` class and `String.prototype.trim` (which use
 * the same set of characters), the line terminators that `.` refuses to
 * match, and `Array.prototype.join`.
 */
module Text {
  import opened Seqs

  /** ECMAScript LineTerminator: LF, CR, LINE SEPARATOR, PARAGRAPH SEPARATOR. */
  predicate IsLineTerminator(c: char) {
    c == '\n' || c == '\r' || c == '\U{2028}' || c == '\U{2029}'
  }

  /** ECMAScript WhiteSpace or LineTerminator: what `\s` matches and what `trim` removes. */
  predicate IsSpace(c: char) {
    c == '\t' || c == '\n' || c == '\U{B}' || c == '\U{C}' || c == '\r' || c == ' '
    || c == '\U{A0}' || c == '\U{1680}' || ('\U{2000}' <= c <= '\U{200A}')
    || c == '\U{2028}' || c == '\U{2029}' || c == '\U{202F}' || c == '\U{205F}'
    || c == '\U{3000}' || c == '\U{FEFF}'
  }

  predicate AllSpace(s: string) {
    forall i :: 0 <= i < |s| ==> IsSpace(s[i])
  }

  predicate NoLineTerminator(s: string) {
    forall i :: 0 <= i < |s| ==> !IsLineTerminator(s[i])
  }

  /** The length of the longest all-whitespace prefix of `s` (what a greedy `\s*` consumes). */
  function LeadingSpaces(s: string): (n: nat)
    ensures n <= |s|
    ensures AllSpace(s[..n])
    ensures n == |s| || !IsSpace(s[n])
  {
    if s == [] || !IsSpace(s[0]) then 0
    else
      var n := 1 + LeadingSpaces(s[1..]);
      assert s[..n] == [s[0]] + s[1..][..n - 1];
      n
  }

  /** The length of the longest all-whitespace suffix of `s`. */
  function TrailingSpaces(s: string): (n: nat)
    ensures n <= |s|
    ensures AllSpace(s[|s| - n..])
    ensures n == |s| || !IsSpace(s[|s| - n - 1])
  {
    if s == [] || !IsSpace(s[|s| - 1]) then 0
    else
      var t := s[..|s| - 1];
      var n := 1 + TrailingSpaces(t);
      assert s[|s| - n..] == t[|t| - (n - 1)..] + [s[|s| - 1]];
      n
  }

  /** `s` with its whitespace prefix removed. */
  function TrimStart(s: string): (r: string)
    ensures |r| <= |s|
    ensures s == s[..|s| - |r|] + r
    ensures AllSpace(s[..|s| - |r|])
    ensures r == [] || !IsSpace(r[0])
  {
    var n := LeadingSpaces(s);
    assert s == s[..n] + s[n..];
    s[n..]
  }

  /** `s` with its whitespace suffix removed. */
  function TrimEnd(s: string): (r: string)
    ensures |r| <= |s|
    ensures s == r + s[|r|..]
    ensures AllSpace(s[|r|..])
    ensures r == [] || !IsSpace(r[|r| - 1])
  {
    var n := TrailingSpaces(s);
    assert s == s[..|s| - n] + s[|s| - n..];
    s[..|s| - n]
  }

  /** `String.prototype.trim`: `s` without its leading and trailing whitespace. */
  function Trim(s: string): (r: string)
    ensures |r| <= |s|
    ensures r == [] || (!IsSpace(r[0]) && !IsSpace(r[|r| - 1]))
  {
    var t := TrimStart(s);
    var r := TrimEnd(t);
    assert r != [] ==> r[0] == t[0];
    r
  }

  /** What `trim` removes is whitespace on both sides of its result. */
  lemma TrimSurroundings(s: string)
    ensures var r := Trim(s); var a := s[..|s| - |TrimStart(s)|];
      s == a + r + s[|a| + |r|..] && AllSpace(a) && AllSpace(s[|a| + |r|..])
  {
    var t := TrimStart(s);
    var r := TrimEnd(t);
    var a := s[..|s| - |t|];
    SplitInThree(s, a, t, r, t[|r|..]);
  }

  /** Sequences that consist of whitespace only and those that do not start with whitespace split uniquely. */
  lemma {:induction false} LeadingSpacesOf(a: string, r: string)
    requires AllSpace(a)
    requires r == [] || !IsSpace(r[0])
    ensures LeadingSpaces(a + r) == |a|
  {
    if a != [] {
      assert (a + r)[1..] == a[1..] + r;
      LeadingSpacesOf(a[1..], r);
    }
  }

  lemma {:induction false} TrailingSpacesOf(r: string, b: string)
    requires AllSpace(b)
    requires r == [] || !IsSpace(r[|r| - 1])
    ensures TrailingSpaces(r + b) == |b|
  {
    if b != [] {
      assert (r + b)[..|r + b| - 1] == r + b[..|b| - 1];
      TrailingSpacesOf(r, b[..|b| - 1]);
    }
  }

  /** `TrimStart` removes exactly a whitespace prefix in front of a non-whitespace character. */
  lemma TrimStartOf(a: string, r: string)
    requires AllSpace(a)
    requires r == [] || !IsSpace(r[0])
    ensures TrimStart(a + r) == r
  {
    LeadingSpacesOf(a, r);
    assert (a + r)[|a|..] == r;
  }

  /**
   * `trim` is characterised by its result: whatever whitespace surrounds a
   * string that neither starts nor ends with whitespace, trimming gives back
   * that string.
   */
  lemma TrimOf(a: string, r: string, b: string)
    requires AllSpace(a) && AllSpace(b)
    requires r == [] || (!IsSpace(r[0]) && !IsSpace(r[|r| - 1]))
    ensures Trim(a + r + b) == r
  {
    var s := a + r + b;
    if r == [] {
      assert s == a + b;
      AllSpaceAppend(a, b);
      AllSpaceTrim(s);
    } else {
      LeadingSpacesOf(a, r + b);
      assert s == a + (r + b);
      assert s[|a|..] == r + b;
      TrailingSpacesOf(r, b);
    }
  }

  lemma AllSpaceAppend(a: string, b: string)
    requires AllSpace(a) && AllSpace(b)
    ensures AllSpace(a + b)
  {
    assert forall i :: 0 <= i < |a + b| ==> (a + b)[i] == if i < |a| then a[i] else b[i - |a|];
  }

  /** The end of a string without line terminators has none either. */
  lemma NoLineTerminatorSuffix(w: string, r: string)
    requires NoLineTerminator(w + r)
    ensures NoLineTerminator(r)
  {
    forall k | 0 <= k < |r| ensures !IsLineTerminator(r[k]) {
      assert r[k] == (w + r)[|w| + k];
    }
  }

  /** A string trims to the empty string exactly when it is all whitespace. */
  lemma AllSpaceTrim(s: string)
    ensures Trim(s) == [] <==> AllSpace(s)
  {
    var i := LeadingSpaces(s);
    if AllSpace(s) {
      assert i == |s|;
    }
    if Trim(s) == [] {
      assert s == s[..i] + s[i..];
      AllSpaceAppend(s[..i], s[i..]);
    }
  }

  /** `Array.prototype.join`: the parts with `sep` between each neighbouring pair. */
  function Join(parts: seq<string>, sep: string): string
  {
    if |parts| == 0 then ""
    else if |parts| == 1 then parts[0]
    else parts[0] + sep + Join(parts[1..], sep)
  }

  /** Joining two non-empty lists of parts puts one separator at the seam. */
  lemma {:induction false} JoinAppend(a: seq<string>, b: seq<string>, sep: string)
    requires a != [] && b != []
    ensures Join(a + b, sep) == Join(a, sep) + sep + Join(b, sep)
  {
    if |a| == 1 {
      assert (a + b)[1..] == b;
    } else {
      assert (a + b)[1..] == a[1..] + b;
      JoinAppend(a[1..], b, sep);
    }
  }

  /** Joining three non-empty lists of parts puts one separator at each seam. */
  lemma JoinAround(pre: seq<string>, mid: seq<string>, post: seq<string>, sep: string)
    requires pre != [] && mid != [] && post != []
    ensures Join(pre + mid + post, sep) == Join(pre, sep) + sep + Join(mid, sep) + sep + Join(post, sep)
  {
    JoinAppend(pre, mid + post, sep);
    JoinAppend(mid, post, sep);
    assert pre + mid + post == pre + (mid + post);
  }

  lemma JoinTwo(a: string, b: string, sep: string)
    ensures Join([a, b], sep) == a + sep + b
  {
    assert [a, b][1..] == [b];
  }

  lemma JoinThree(a: string, b: string, c: string, sep: string)
    ensures Join([a, b, c], sep) == a + sep + b + sep + c
  {
    assert [a, b, c][1..] == [b, c];
    JoinTwo(b, c, sep);
  }

  lemma JoinCons(x: string, rest: seq<string>, sep: string)
    requires rest != []
    ensures Join([x] + rest, sep) == x + sep + Join(rest, sep)
  {
    assert ([x] + rest)[1..] == rest;
  }

  lemma JoinSeven(a: string, b: string, c: string, d: string, e: string, f: string, g: string, sep: string)
    ensures Join([a, b, c, d, e, f, g], sep) == a + sep + b + sep + c + sep + d + sep + e + sep + f + sep + g
  {
    JoinTwo(f, g, sep);
    JoinCons(e, [f, g], sep);
    assert [e] + [f, g] == [e, f, g];
    JoinCons(d, [e, f, g], sep);
    assert [d] + [e, f, g] == [d, e, f, g];
    JoinCons(c, [d, e, f, g], sep);
    assert [c] + [d, e, f, g] == [c, d, e, f, g];
    JoinCons(b, [c, d, e, f, g], sep);
    assert [b] + [c, d, e, f, g] == [b, c, d, e, f, g];
    JoinCons(a, [b, c, d, e, f, g], sep);
    assert [a] + [b, c, d, e, f, g] == [a, b, c, d, e, f, g];
  }

  /** Every part with the same text put in front of it. */
  function Prefixed(pre: string, parts: seq<string>): (r: seq<string>)
    ensures |r| == |parts|
  {
    seq(|parts|, k requires 0 <= k < |parts| => pre + parts[k])
  }

  /**
   * Prefixing every part and joining is the same as prefixing once and
   * joining with the prefix added to the separator.
   */
  lemma {:induction false} JoinPrefixed(pre: string, parts: seq<string>, sep: string)
    requires parts != []
    ensures Join(Prefixed(pre, parts), sep) == pre + Join(parts, sep + pre)
  {
    if |parts| > 1 {
      var rest := parts[1..];
      assert Prefixed(pre, parts)[1..] == Prefixed(pre, rest);
      JoinPrefixed(pre, rest, sep);
      assert Prefixed(pre, parts)[0] == pre + parts[0];
      PrefixRegrouped(pre, parts[0], sep, Join(rest, sep + pre));
    }
  }

  /** Regrouping stated over plain variables; at the call site, over `Join` terms, it is costly for the solver. */
  lemma PrefixRegrouped(pre: string, p: string, sep: string, j: string)
    ensures (pre + p) + sep + (pre + j) == pre + (p + (sep + pre) + j)
  {
  }

  // ---------------------------------------------------------------------
  // Lines

  /** A string that holds no newline character. */
  predicate OneLine(s: string) {
    forall i :: 0 <= i < |s| ==> s[i] != '\n'
  }

  predicate AllOneLine(lines: seq<string>) {
    forall k :: 0 <= k < |lines| ==> OneLine(lines[k])
  }

  /** The position of the first newline in `s`, or `|s|` when there is none. */
  function NewlineIndex(s: string): (i: nat)
    ensures i <= |s|
    ensures OneLine(s[..i])
    ensures i < |s| ==> s[i] == '\n'
  {
    if s == [] || s[0] == '\n' then 0
    else
      var i := 1 + NewlineIndex(s[1..]);
      assert s[..i] == [s[0]] + s[1..][..i - 1];
      i
  }

  /** The lines of a text: the pieces between its newline characters (`split('\n')`). */
  function SplitLines(s: string): (r: seq<string>)
    ensures r != []
    decreases |s|
  {
    var i := NewlineIndex(s);
    if i == |s| then [s] else [s[..i]] + SplitLines(s[i + 1..])
  }

  /** The first newline after a single line is the first newline of what follows it. */
  lemma {:induction false} NewlineIndexOf(a: string, rest: string)
    requires OneLine(a)
    ensures NewlineIndex(a + rest) == |a| + NewlineIndex(rest)
  {
    if a != [] {
      ConsAppend(a, rest);
      NewlineIndexOf(a[1..], rest);
    } else {
      assert a + rest == rest;
    }
  }

  /** Splitting lines joined by newlines gives the lines back, when none of them holds a newline. */
  lemma {:induction false} SplitLinesOfJoin(lines: seq<string>)
    requires lines != [] && AllOneLine(lines)
    ensures SplitLines(Join(lines, "\n")) == lines
  {
    if |lines| == 1 {
      NewlineIndexOf(lines[0], "");
      assert lines[0] + "" == lines[0];
    } else {
      var rest := lines[1..];
      var tail := Join(rest, "\n");
      HeadTail(lines);
      JoinCons(lines[0], rest, "\n");
      ThreeParts(lines[0], "\n", tail);
      NewlineIndexOf(lines[0], "\n" + tail);
      assert forall k :: 0 <= k < |rest| ==> rest[k] == lines[k + 1];
      SplitLinesOfJoin(rest);
    }
  }

  /** A string without line terminators holds no newline in particular, and neither do its two halves. */
  lemma NoLineTerminatorOneLine(a: string, b: string)
    requires NoLineTerminator(a + b)
    ensures OneLine(a) && OneLine(b)
  {
    forall i | 0 <= i < |a| ensures a[i] != '\n' {
      assert a[i] == (a + b)[i];
    }
    forall i | 0 <= i < |b| ensures b[i] != '\n' {
      assert b[i] == (a + b)[|a| + i];
    }
  }

  lemma OneLineAppend(a: string, b: string)
    requires OneLine(a) && OneLine(b)
    ensures OneLine(a + b)
  {
    forall i | 0 <= i < |a + b| ensures (a + b)[i] != '\n' {
      if i < |a| { assert (a + b)[i] == a[i]; } else { assert (a + b)[i] == b[i - |a|]; }
    }
  }

  /** Parts and a separator without newlines join into a single line. */
  lemma {:induction false} OneLineJoin(parts: seq<string>, sep: string)
    requires AllOneLine(parts) && OneLine(sep)
    ensures OneLine(Join(parts, sep))
  {
    if |parts| > 1 {
      assert forall k :: 0 <= k < |parts[1..]| ==> parts[1..][k] == parts[k + 1];
      OneLineJoin(parts[1..], sep);
      OneLineAppend(parts[0], sep);
      OneLineAppend(parts[0] + sep, Join(parts[1..], sep));
    }
  }

  lemma AllOneLineAppend(a: seq<string>, b: seq<string>)
    requires AllOneLine(a) && AllOneLine(b)
    ensures AllOneLine(a + b)
  {
    forall k | 0 <= k < |a + b| ensures OneLine((a + b)[k]) {
      if k < |a| { assert (a + b)[k] == a[k]; } else { assert (a + b)[k] == b[k - |a|]; }
    }
  }

  lemma AllOneLinePrefixed(pre: string, parts: seq<string>)
    requires OneLine(pre) && AllOneLine(parts)
    ensures AllOneLine(Prefixed(pre, parts))
  {
    forall k | 0 <= k < |parts| ensures OneLine(Prefixed(pre, parts)[k]) {
      OneLineAppend(pre, parts[k]);
    }
  }
}
