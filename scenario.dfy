/**
 * An example run: `foo.js` holds the directive line
 * `//% clean |> minify(true)` and `bar.js` holds no directive; the script
 * declares one task, for `foo.js`, piping `clean()` and then `minify(true)`,
 * and the default and watch tasks name `foo.js` alone.
 */
module Scenario {
  import opened Wrappers
  import opened Text
  import opened Scanner
  import opened Compiler
  import opened GulpRender
  import opened Tjs
  import opened Seqs

  /** The two steps of the directive, in the order written. */
  const CleanMinify: seq<Step> := [Step("clean", "()"), Step("minify", "(true)")]

  /**
   * The directive text is written as its two `|>`-separated parts, `x` and
   * `y`, so that `x + "|>" + y` is `clean |> minify(true)`. As in the
   * compiler's examples, the texts are parameters pinned by `requires` so
   * that the solver never re-associates string literals.
   */
  lemma EndToEnd(foo: SourceFile, bar: SourceFile, x: string, y: string)
    requires x == "clean " && y == " minify(true)"
    requires foo.lines == ["//% " + (x + "|>" + y)]
    requires forall k :: 0 <= k < |bar.lines| ==> ScanLine(bar.lines[k]).None?
    ensures Run([foo, bar]) == Success(Script([FileResult(foo.path, CleanMinify)]))
  {
    var f := FileResult(foo.path, CleanMinify);
    var b := FileResult(bar.path, []);
    FooParses(foo, x, y);
    NoDirectivesNoSteps(bar);
    RunOfTwo(foo, bar, f, b);
  }

  /** A run over a file with steps and one without: the script is that of the first alone. */
  lemma RunOfTwo(foo: SourceFile, bar: SourceFile, f: FileResult, b: FileResult)
    requires ParseFile(foo) == Success(f) && ParseFile(bar) == Success(b)
    requires f.transforms != [] && b.transforms == []
    ensures Run([foo, bar]) == Success(Script([f]))
  {
    CollectOfTwo(foo, bar, f, b);
    KeepTwo(f, b);
  }

  lemma CollectOfTwo(foo: SourceFile, bar: SourceFile, f: FileResult, b: FileResult)
    requires ParseFile(foo) == Success(f) && ParseFile(bar) == Success(b)
    ensures Collect(Parses([foo, bar])) == Success([f, b])
  {
    var ps := Parses([foo, bar]);
    SeqOfTwo(ps);
    assert ps[0] == Success(f) && ps[1] == Success(b);
    CollectTwo(Success(f), Success(b));
  }

  lemma CollectTwo(p: Result<FileResult, CompileError>, q: Result<FileResult, CompileError>)
    requires p.Success? && q.Success?
    ensures Collect([p, q]) == Success([p.value, q.value])
  {
    assert [p, q][0] == p && [p, q][1..] == [q];
    CollectOne(q);
    assert [p.value] + [q.value] == [p.value, q.value];
  }

  lemma FooParses(foo: SourceFile, x: string, y: string)
    requires x == "clean " && y == " minify(true)"
    requires foo.lines == ["//% " + (x + "|>" + y)]
    ensures ParseFile(foo) == Success(FileResult(foo.path, CleanMinify))
  {
    FooPayload(foo.lines, x, y);
    CompileCleanMinify(x, y);
  }

  /** The payload of the single directive line is the text after the sigil and its space. */
  lemma FooPayload(lines: seq<string>, x: string, y: string)
    requires x == "clean " && y == " minify(true)"
    requires lines == ["//% " + (x + "|>" + y)]
    ensures Payload(lines) == x + "|>" + y
  {
    var rest := x + "|>" + y;
    assert NoLineTerminator(rest) by {
      PlainText(x);
      PlainText("|>");
      PlainText(y);
      NoLineTerminatorAppend(x, "|>");
      NoLineTerminatorAppend(x + "|>", y);
    }
    assert rest[0] == x[0];
    assert "//% " == "" + Sigil + " ";
    ScanLineMatches("", " ", rest);
    TrimStartOf("", rest);
    assert "" + rest == rest;
    assert lines[..0] == [];
  }

  /** The characters of the scenario's directive are all below U+2000 and none is CR or LF. */
  lemma PlainText(t: string)
    requires t == "clean " || t == "|>" || t == " minify(true)"
    ensures NoLineTerminator(t)
  {
    forall k | 0 <= k < |t| ensures !IsLineTerminator(t[k]) {
      assert t[k] != '\n' && t[k] != '\r' && t[k] < '\U{2000}';
    }
  }

  /** `clean |> minify(true)` compiles to `clean()` then `minify(true)`. */
  lemma CompileCleanMinify(x: string, y: string)
    requires x == "clean " && y == " minify(true)"
    ensures Compile(x + "|>" + y) == Success(CleanMinify)
  {
    CompileClean(x);
    CompileMinify(y);
    CompileTwo(x, y, Step("clean", "()"), Step("minify", "(true)"));
  }

  /** Two one-step pieces joined by a separator compile to their steps in order. */
  lemma CompileTwo(x: string, y: string, a: Step, b: Step)
    requires Compile(x) == Success([a]) && Compile(y) == Success([b])
    ensures Compile(x + "|>" + y) == Success([a, b])
  {
    CompileAppend(x, y);
    assert [a] + [b] == [a, b];
  }

  lemma CompileClean(x: string)
    requires x == "clean "
    ensures Compile(x) == Success([Step("clean", "()")])
  {
    assert x == "" + "clean" + "" + " ";
    assert !HasSeparator(x) by {
      forall j | 0 <= j < |x| ensures !SeparatorAt(x, j) {}
    }
    CompileOneStep("", "clean", "", " ");
  }

  lemma CompileMinify(y: string)
    requires y == " minify(true)"
    ensures Compile(y) == Success([Step("minify", "(true)")])
  {
    var args := "(true)";
    assert y == " " + "minify" + args + "";
    assert !HasSeparator(y) by {
      forall j | 0 <= j < |y| ensures !SeparatorAt(y, j) {}
    }
    assert NoLineTerminator(args) by {
      forall j | 0 <= j < |args| ensures !IsLineTerminator(args[j]) {}
    }
    CompileOneStep(" ", "minify", args, "");
  }

  lemma KeepTwo(f: FileResult, b: FileResult)
    requires f.transforms != [] && b.transforms == []
    ensures Keep([f, b]) == [f]
  {
    assert [f, b][1..] == [b];
    assert [b][1..] == [];
  }
}
