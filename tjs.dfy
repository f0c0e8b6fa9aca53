/**
 * The command itself: every discovered file is read line by line into a
 * directive payload and compiled into a step list (`tjs_parseSourceFile`),
 * the files without steps are dropped, and the gulp script for the rest is
 * assembled (`main`).
 */
module Tjs {
  import opened Wrappers
  import opened Text
  import opened Scanner
  import opened Compiler
  import opened GulpRender
  import opened Seqs

  /** A discovered file: its path and its text split into lines. */
  datatype SourceFile = SourceFile(path: string, lines: seq<string>)

  // ---------------------------------------------------------------------
  // One file

  /**
   * What parsing one file comes to: its record with the compiled steps, or
   * the error the `close` handler raises.
   */
  function ParseFile(src: SourceFile): Result<FileResult, CompileError> {
    match Compile(Payload(src.lines))
    case Success(steps) => Success(FileResult(src.path, steps))
    case Failure(e) => Failure(e)
  }

  /**
   * `tjs_parseSourceFile`: the `line` events build `cfg`, and the `close`
   * event compiles it into the file's record.
   */
  method ParseSourceFile(src: SourceFile) returns (r: Result<FileResult, CompileError>)
    ensures r == ParseFile(src)
  {
    var cfg := ReadDirectives(src.lines);
    r := Close(src.path, cfg);
  }

  /** The `line` handler: each line's capture, when the line matches, is appended to `cfg`. */
  method ReadDirectives(lines: seq<string>) returns (cfg: string)
    ensures cfg == Payload(lines)
  {
    cfg := "";
    var i := 0;
    while i < |lines|
      invariant 0 <= i <= |lines|
      invariant cfg == Payload(lines[..i])
    {
      var m := ScanLine(lines[i]);
      if m.Some? {
        cfg := cfg + m.value;
      }
      PrefixSnoc(lines, i);
      PayloadSnoc(lines[..i], lines[i]);
      i := i + 1;
    }
    WholePrefix(lines);
  }

  /** The `close` handler: the record of the file with the steps compiled from `cfg`, or the error. */
  method Close(path: string, cfg: string) returns (r: Result<FileResult, CompileError>)
    ensures r.Success? <==> Compile(cfg).Success?
    ensures r.Success? ==> r.value == FileResult(path, Compile(cfg).value)
    ensures r.Failure? ==> r.error == Compile(cfg).error
  {
    var steps := Compile(cfg);
    if steps.Failure? {
      r := Failure(steps.error);
    } else {
      r := Success(FileResult(path, steps.value));
    }
  }

  /**
   * A file parses exactly when every segment of its payload has a match;
   * then its record keeps the file's path, and its steps spell out the
   * segments in order.
   */
  lemma ParseFileSteps(src: SourceFile)
    ensures ParseFile(src).Success? <==>
      forall k :: 0 <= k < |Segments(Payload(src.lines))| ==> Segments(Payload(src.lines))[k][0] != '('
    ensures ParseFile(src).Success? ==>
      ParseFile(src).value.file == src.path && StepTexts(ParseFile(src).value.transforms) == Segments(Payload(src.lines))
  {
    var p := Payload(src.lines);
    CompileSteps(p);
    ParseFileOf(src, p);
  }

  lemma ParseFileOf(src: SourceFile, p: string)
    requires p == Payload(src.lines)
    ensures ParseFile(src).Success? == Compile(p).Success?
    ensures ParseFile(src).Success? ==> ParseFile(src).value == FileResult(src.path, Compile(p).value)
  {
  }

  /** A file without directive lines parses to a record with no steps. */
  lemma NoDirectivesNoSteps(src: SourceFile)
    requires forall k :: 0 <= k < |src.lines| ==> ScanLine(src.lines[k]).None?
    ensures ParseFile(src) == Success(FileResult(src.path, []))
  {
    PayloadWithoutDirectives(src.lines);
    CompileToNothing("");
    assert SplitPipes("") == [""] by {
      SplitPipesOfJoin([""]);
    }
    assert AllSpace("");
  }

  // ---------------------------------------------------------------------
  // All files

  /** The outcome of parsing each discovered file, in discovery order. */
  function Parses(sources: seq<SourceFile>): (r: seq<Result<FileResult, CompileError>>)
    ensures |r| == |sources|
  {
    seq(|sources|, k requires 0 <= k < |sources| => ParseFile(sources[k]))
  }

  /**
   * Waiting for every file's parse: the records in discovery order, whatever
   * order the reads finish in. A file whose directive does not compile stops
   * the run; the first such file in discovery order is the one reported.
   */
  function Collect(results: seq<Result<FileResult, CompileError>>): Result<seq<FileResult>, CompileError> {
    Traverse(Awaited, results)
  }

  /**
   * The identity: a settled parse promise hands the generator its record, or
   * raises its error there, unchanged. It exists only so that `Collect` is an
   * instance of `Traverse`.
   */
  function Awaited(r: Result<FileResult, CompileError>): Result<FileResult, CompileError> {
    r
  }

  /**
   * Collecting succeeds exactly when every parse does, and then the k-th
   * record is the k-th parse's; otherwise the error is the first failing
   * parse's.
   */
  lemma CollectSpec(results: seq<Result<FileResult, CompileError>>)
    ensures Collect(results).Success? <==> forall k :: 0 <= k < |results| ==> results[k].Success?
    ensures Collect(results).Success? ==> |Collect(results).value| == |results|
    ensures Collect(results).Success? ==> forall k :: 0 <= k < |results| ==> Collect(results).value[k] == results[k].value
    ensures Collect(results).Failure? ==> exists k :: (0 <= k < |results| && results[k] == Failure(Collect(results).error)
                                             && forall j :: 0 <= j < k ==> results[j].Success?)
  {
    TraverseSpec(Awaited, results);
  }

  /** Collecting two consecutive groups of parses is collecting each group after the other. */
  lemma CollectAppend(a: seq<Result<FileResult, CompileError>>, b: seq<Result<FileResult, CompileError>>)
    ensures Collect(a).Failure? ==> Collect(a + b) == Collect(a)
    ensures Collect(a).Success? && Collect(b).Failure? ==> Collect(a + b) == Collect(b)
    ensures Collect(a).Success? && Collect(b).Success? ==> Collect(a + b) == Success(Collect(a).value + Collect(b).value)
  {
    TraverseAppend(Awaited, a, b);
  }

  lemma CollectOne(r: Result<FileResult, CompileError>)
    ensures Collect([r]) == match r case Failure(e) => Failure(e) case Success(f) => Success([f])
  {
    TraverseOne(Awaited, r);
  }

  // ---------------------------------------------------------------------
  // The filter (`files.filter(f => f != null && f.transforms.length > 0)`)

  /**
   * The records with at least one step, in their original order. Every
   * record is a value, so the `null` test never removes anything.
   */
  function Keep(files: seq<FileResult>): (r: seq<FileResult>)
    ensures |r| <= |files|
  {
    if files == [] then []
    else (if files[0].transforms != [] then [files[0]] else []) + Keep(files[1..])
  }

  /** A record survives the filter exactly when it has at least one step. */
  lemma {:induction false} KeepMembers(files: seq<FileResult>)
    ensures forall f :: f in Keep(files) <==> f in files && f.transforms != []
  {
    if files != [] {
      KeepMembers(files[1..]);
      assert forall f :: f in files <==> f == files[0] || f in files[1..];
    }
  }

  /** Filtering consecutive parts of the list one after the other keeps their order. */
  lemma {:induction false} KeepAppend(a: seq<FileResult>, b: seq<FileResult>)
    ensures Keep(a + b) == Keep(a) + Keep(b)
  {
    if a == [] {
      assert a + b == b;
    } else {
      ConsAppend(a, b);
      KeepAppend(a[1..], b);
    }
  }

  /** The filter leaves a list of records that all have steps as it is, so filtering twice changes nothing. */
  lemma {:induction false} KeepKeepsStepped(files: seq<FileResult>)
    requires forall k :: 0 <= k < |files| ==> files[k].transforms != []
    ensures Keep(files) == files
  {
    if files != [] {
      KeepKeepsStepped(files[1..]);
      assert files == [files[0]] + files[1..];
    }
  }

  lemma KeepIdempotent(files: seq<FileResult>)
    ensures Keep(Keep(files)) == Keep(files)
  {
    KeepMembers(files);
    forall k | 0 <= k < |Keep(files)| ensures Keep(files)[k].transforms != [] {
      assert Keep(files)[k] in Keep(files);
    }
    KeepKeepsStepped(Keep(files));
  }

  // ---------------------------------------------------------------------
  // The run (`main`)

  /** What a run prints: the script for the files that have steps, or the error that stops it. */
  function Run(sources: seq<SourceFile>): Result<string, CompileError> {
    match Collect(Parses(sources))
    case Failure(e) => Failure(e)
    case Success(files) => Success(Script(Keep(files)))
  }

  /**
   * A run stops exactly when some file's directive does not compile, and the
   * error it reports is that of the first such file in discovery order.
   */
  lemma RunFails(sources: seq<SourceFile>)
    ensures Run(sources).Failure? <==> exists k :: 0 <= k < |sources| && ParseFile(sources[k]).Failure?
    ensures Run(sources).Failure? ==> exists k :: 0 <= k < |sources| && ParseFile(sources[k]) == Failure(Run(sources).error)
                                        && forall j :: 0 <= j < k ==> ParseFile(sources[j]).Success?
  {
    var ps := Parses(sources);
    CollectSpec(ps);
    assert forall k :: 0 <= k < |sources| ==> ps[k] == ParseFile(sources[k]);
  }

  /**
   * When every file compiles, the script is built from the records in
   * discovery order, the k-th for the k-th discovered path, whatever order
   * the reads finish in.
   */
  lemma RunInDiscoveryOrder(sources: seq<SourceFile>)
    requires forall k :: 0 <= k < |sources| ==> ParseFile(sources[k]).Success?
    ensures Collect(Parses(sources)).Success?
    ensures |Collect(Parses(sources)).value| == |sources|
    ensures forall k :: 0 <= k < |sources| ==> Collect(Parses(sources)).value[k] == ParseFile(sources[k]).value
    ensures forall k :: 0 <= k < |sources| ==> Collect(Parses(sources)).value[k].file == sources[k].path
    ensures Run(sources) == Success(Script(Keep(Collect(Parses(sources)).value)))
  {
    var ps := Parses(sources);
    assert forall k :: 0 <= k < |sources| ==> ps[k] == ParseFile(sources[k]);
    CollectSpec(ps);
    forall k | 0 <= k < |sources| ensures ParseFile(sources[k]).value.file == sources[k].path {
      ParseFileKeepsPath(sources[k]);
    }
  }

  /**
   * When no discovered path holds a newline, splitting the printed script at
   * its newlines gives back the script's line view: the header, one task per
   * kept file in discovery order, and the footer.
   */
  lemma RunLines(sources: seq<SourceFile>)
    requires forall k :: 0 <= k < |sources| ==> OneLine(sources[k].path)
    requires Run(sources).Success?
    ensures Collect(Parses(sources)).Success?
    ensures SplitLines(Run(sources).value) == ScriptLines(Keep(Collect(Parses(sources)).value))
  {
    RunFails(sources);
    RunInDiscoveryOrder(sources);
    var files := Collect(Parses(sources)).value;
    forall k | 0 <= k < |files| ensures OneLineRecord(files[k]) {
      ParseFileOneLine(sources[k]);
    }
    KeepOneLine(files);
    ScriptLinesSplit(Keep(files));
  }

  lemma ParseFileOneLine(src: SourceFile)
    requires OneLine(src.path) && ParseFile(src).Success?
    ensures OneLineRecord(ParseFile(src).value)
  {
    var p := Payload(src.lines);
    ParseFileOf(src, p);
    CompileOneLine(p);
  }

  lemma KeepOneLine(files: seq<FileResult>)
    requires OneLineRecords(files)
    ensures OneLineRecords(Keep(files))
  {
    KeepMembers(files);
    forall k | 0 <= k < |Keep(files)| ensures OneLineRecord(Keep(files)[k]) {
      assert Keep(files)[k] in files;
    }
  }

  lemma ParseFileKeepsPath(src: SourceFile)
    requires ParseFile(src).Success?
    ensures ParseFile(src).value.file == src.path
  {
  }

  /**
   * `main`, after discovery: parse every file in discovery order, keep the
   * files with steps, and build the script from the header, the tasks and
   * the footer.
   */
  method Generate(sources: seq<SourceFile>) returns (r: Result<string, CompileError>)
    ensures r == Run(sources)
  {
    var parsed := ParseAll(sources);
    if parsed.Failure? {
      return Failure(parsed.error);
    }
    var s := Assemble(parsed.value);
    r := Success(s);
  }

  /** Waiting for the parse of every discovered file, in discovery order. */
  method ParseAll(sources: seq<SourceFile>) returns (r: Result<seq<FileResult>, CompileError>)
    ensures r == Collect(Parses(sources))
  {
    var files: seq<FileResult> := [];
    var i := 0;
    while i < |sources|
      invariant 0 <= i <= |sources|
      invariant Collect(Parses(sources)[..i]) == Success(files)
    {
      var parsed := ParseNext(sources, i, files);
      if parsed.Failure? {
        return Failure(parsed.error);
      }
      files := files + [parsed.value];
      i := i + 1;
    }
    WholePrefix(Parses(sources));
    r := Success(files);
  }

  /**
   * Waiting for the next file's parse: its record extends the ones
   * collected so far, or its error is the outcome of the whole collection.
   */
  method ParseNext(sources: seq<SourceFile>, i: nat, files: seq<FileResult>) returns (parsed: Result<FileResult, CompileError>)
    requires i < |sources| && Collect(Parses(sources)[..i]) == Success(files)
    ensures parsed.Success? ==> Collect(Parses(sources)[..i + 1]) == Success(files + [parsed.value])
    ensures parsed.Failure? ==> Collect(Parses(sources)) == Failure(parsed.error)
  {
    parsed := ParseSourceFile(sources[i]);
    NextParse(sources, i, parsed);
    CollectSnoc(Parses(sources)[..i], files, parsed);
    if parsed.Failure? {
      EarlyFailure(Parses(sources), i + 1, parsed.error);
    }
  }

  /** The filter and the assembly of the script: header, tasks, footer. */
  method Assemble(parsed: seq<FileResult>) returns (s: string)
    ensures s == Script(Keep(parsed))
  {
    var files := Keep(parsed);
    s := Header();
    s := s + Join(Tasks(files), "\n\n");
    s := s + Footer(files);
  }

  /** The parses of the first i + 1 files are those of the first i followed by the next file's. */
  lemma NextParse(sources: seq<SourceFile>, i: nat, parsed: Result<FileResult, CompileError>)
    requires i < |sources| && parsed == ParseFile(sources[i])
    ensures Parses(sources)[..i + 1] == Parses(sources)[..i] + [parsed]
  {
    PrefixSnoc(Parses(sources), i);
  }

  /** A failure among the first parses is the failure of the whole collection. */
  lemma EarlyFailure(ps: seq<Result<FileResult, CompileError>>, n: nat, e: CompileError)
    requires n <= |ps| && Collect(ps[..n]) == Failure(e)
    ensures Collect(ps) == Failure(e)
  {
    CollectAppend(ps[..n], ps[n..]);
    SplitJoin(ps, n);
  }

  /** One more parse after successful ones either adds its record at the end or is the error. */
  lemma CollectSnoc(ps: seq<Result<FileResult, CompileError>>, files: seq<FileResult>, p: Result<FileResult, CompileError>)
    requires Collect(ps) == Success(files)
    ensures p.Success? ==> Collect(ps + [p]) == Success(files + [p.value])
    ensures p.Failure? ==> Collect(ps + [p]) == Failure(p.error)
  {
    CollectAppend(ps, [p]);
    CollectOne(p);
  }
}
