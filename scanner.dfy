/**
 * The directive scanner of `tjs_parseSourceFile`: each line of a source file
 * is matched against `^\s*\/\/%\s+(.*)$` (no flags), and the text captured by
 * the group of every matching line is appended to a running payload.
 */
module Scanner {
  import opened Wrappers
  import opened Text
  import opened Seqs

  /** The marker that opens a directive comment. */
  const Sigil: string := "//%"

  /**
   * The capture of the line regex, or `None` when the line does not match.
   * The leading `\s*` and the `\s+` after the sigil are greedy, so the
   * capture never starts with whitespace; `.*` followed by `$` (end of the
   * line, since there is no `m` flag) admits no line terminator.
   */
  function ScanLine(line: string): (m: Option<string>)
    ensures m.Some? ==> |m.value| + |Sigil| + 1 <= |line|
    ensures m.Some? ==> line[|line| - |m.value|..] == m.value
    ensures m.Some? ==> NoLineTerminator(m.value)
    ensures m.Some? ==> m.value == [] || !IsSpace(m.value[0])
  {
    var i := LeadingSpaces(line);
    if |line| - i >= |Sigil| && line[i..i + |Sigil|] == Sigil then
      var rest := line[i + |Sigil|..];
      var j := LeadingSpaces(rest);
      if j > 0 && NoLineTerminator(rest[j..]) then
        assert rest[j..] == line[|line| - (|rest| - j)..];
        Some(rest[j..])
      else None
    else None
  }

  /**
   * The shape the line regex recognises, for a line split as
   * `lead + Sigil + gap + rest`: `lead` is `\s*`, `gap` is `\s+`, and
   * `rest` is what `(.*)$` is left with.
   */
  ghost predicate DirectiveShape(lead: string, gap: string, rest: string) {
    AllSpace(lead) && gap != [] && AllSpace(gap) && NoLineTerminator(rest)
  }

  /** Any split of the recognised shape makes the line match, and the capture is `rest` minus its leading whitespace. */
  lemma ScanLineMatches(lead: string, gap: string, rest: string)
    requires DirectiveShape(lead, gap, rest)
    ensures ScanLine(lead + Sigil + gap + rest) == Some(TrimStart(rest))
  {
    var line := lead + Sigil + gap + rest;
    var tail := gap + rest;
    AppendAssoc(lead + Sigil, gap, rest);
    ThreeParts(lead, Sigil, tail);
    assert (Sigil + tail)[0] == '/';
    LeadingSpacesOf(lead, Sigil + tail);
    var r := TrimStart(rest);
    var w := rest[..|rest| - |r|];
    AppendAssoc(gap, w, r);
    AllSpaceAppend(gap, w);
    LeadingSpacesOf(gap + w, r);
    Suffix(gap + w, r);
    NoLineTerminatorSuffix(w, r);
  }

  /** Conversely, a line matches only when it has the recognised shape, with the capture as its remainder. */
  lemma ScanLineShape(line: string)
    requires ScanLine(line).Some?
    ensures exists lead, gap ::
      line == lead + Sigil + gap + ScanLine(line).value && DirectiveShape(lead, gap, ScanLine(line).value)
  {
    var i := LeadingSpaces(line);
    var rest := line[i + |Sigil|..];
    var j := LeadingSpaces(rest);
    var lead, gap, v := line[..i], rest[..j], rest[j..];
    CutInThree(line, i, |Sigil|);
    SplitJoin(rest, j);
    AppendAssoc(lead + Sigil, gap, v);
  }

  /** A sigil with no whitespace after it is not a directive: `//%foo` is ignored. */
  lemma SigilNeedsWhitespace(lead: string, rest: string)
    requires AllSpace(lead)
    requires rest == [] || !IsSpace(rest[0])
    ensures ScanLine(lead + Sigil + rest) == None
  {
    var line := lead + Sigil + rest;
    assert line == lead + (Sigil + rest);
    LeadingSpacesOf(lead, Sigil + rest);
    var after := line[|lead| + |Sigil|..];
    assert after == rest;
  }

  /** The text a line contributes to the payload: its capture, or nothing. */
  function Capture(line: string): string {
    match ScanLine(line)
    case Some(r) => r
    case None => ""
  }

  /**
   * The payload after the given lines have been read: the captures of the
   * matching lines, in line order, with nothing between them.
   */
  function Payload(lines: seq<string>): (cfg: string)
    ensures NoLineTerminator(cfg)
  {
    if lines == [] then ""
    else
      var before := Payload(lines[..|lines| - 1]);
      var c := Capture(lines[|lines| - 1]);
      NoLineTerminatorAppend(before, c);
      before + c
  }

  lemma NoLineTerminatorAppend(a: string, b: string)
    requires NoLineTerminator(a) && NoLineTerminator(b)
    ensures NoLineTerminator(a + b)
  {
    assert forall k :: 0 <= k < |a + b| ==> (a + b)[k] == if k < |a| then a[k] else b[k - |a|];
  }

  /** The payload of consecutive chunks of a file is the concatenation of their payloads. */
  lemma {:induction false} PayloadAppend(a: seq<string>, b: seq<string>)
    ensures Payload(a + b) == Payload(a) + Payload(b)
  {
    if b == [] {
      assert a + b == a;
    } else {
      var b', l := b[..|b| - 1], b[|b| - 1];
      AppendSnoc(a, b);
      PayloadSnoc(a + b', l);
      PayloadAppend(a, b');
      PayloadSnoc(b', l);
      AppendAssoc(Payload(a), Payload(b'), Capture(l));
    }
  }

  /** Reading one more line appends its capture. */
  lemma PayloadSnoc(lines: seq<string>, line: string)
    ensures Payload(lines + [line]) == Payload(lines) + Capture(line)
  {
    var s := lines + [line];
    assert s[..|s| - 1] == lines;
    assert s[|s| - 1] == line;
  }

  /** Lines that are not directives contribute nothing to the payload. */
  lemma {:induction false} PayloadWithoutDirectives(lines: seq<string>)
    requires forall k :: 0 <= k < |lines| ==> ScanLine(lines[k]).None?
    ensures Payload(lines) == ""
  {
    if lines != [] {
      PayloadWithoutDirectives(lines[..|lines| - 1]);
    }
  }

  lemma ScanNoGap()
    ensures ScanLine("//%foo") == None
  {
    assert "//%foo" == "" + Sigil + "foo";
    SigilNeedsWhitespace("", "foo");
  }

  lemma ScanEmptyDirective()
    ensures ScanLine("  //%   ") == Some("")
  {
    assert "  //%   " == "  " + Sigil + "   " + "";
    ScanLineMatches("  ", "   ", "");
    TrimStartOf("", "");
  }
}
