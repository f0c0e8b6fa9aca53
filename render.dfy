/**
 * The gulp script the tool prints: a fixed header, one task per file that
 * pipes the file through its steps, and a footer with the `default`,
 * `watch` and `clean` tasks. Everything here is template text over
 * `map(...).join(...)`; the line views below say what the text holds line by
 * line.
 */
module GulpRender {
  import opened Text
  import opened Compiler
  import opened Seqs

  /** The record a parsed source file yields: its path and its steps. */
  datatype FileResult = FileResult(file: string, transforms: seq<Step>)

  // ---------------------------------------------------------------------
  // The per-file task (`tjs_gulp_transformFile`)

  /** The statement that sends the stream through one step. */
  function PipeStatement(t: Step): string {
    "pipe = pipe.pipe(__t." + t.name + t.argsTuple + ")"
  }

  function PipeStatements(ts: seq<Step>): (r: seq<string>)
    ensures |r| == |ts|
  {
    seq(|ts|, k requires 0 <= k < |ts| => PipeStatement(ts[k]))
  }

  /** The task for one file, as the template literal spells it, one template line at a time. */
  function TransformFile(f: FileResult): string {
    "gulp.task('" + f.file + "', function() {" + "\n"
    + "\tlet __t = require('./transform.js')" + "\n"
    + "\tlet pipe = gulp.src('" + f.file + "', { base: __dirname })" + "\n"
    + "\t" + Join(PipeStatements(f.transforms), "\n\t") + "\n"
    + "\treturn pipe.pipe(gulp.dest('./.tjs/'))" + "\n"
    + "})"
  }

  /**
   * The lines of a step list inside a task: one tab-indented pipe statement
   * per step, or a lone tab when there are no steps.
   */
  function BodyLines(stmts: seq<string>): (r: seq<string>)
    ensures r != []
  {
    if stmts == [] then ["\t"] else Prefixed("\t", stmts)
  }

  /** The task for one file, line by line. */
  function TaskLines(f: FileResult): (r: seq<string>)
    ensures r != []
  {
    ["gulp.task('" + f.file + "', function() {",
     "\tlet __t = require('./transform.js')",
     "\tlet pipe = gulp.src('" + f.file + "', { base: __dirname })"]
    + BodyLines(PipeStatements(f.transforms))
    + ["\treturn pipe.pipe(gulp.dest('./.tjs/'))", "})"]
  }

  /** A tab and the step statements joined by a newline and a tab are the body lines joined by newlines. */
  lemma BodyLinesJoin(stmts: seq<string>)
    ensures Join(BodyLines(stmts), "\n") == "\t" + Join(stmts, "\n\t")
  {
    if stmts != [] {
      JoinPrefixed("\t", stmts, "\n");
      assert "\n" + "\t" == "\n\t";
    }
  }

  /**
   * The task text is its lines joined by newlines: a `gulp.task` line named
   * by the path, the two set-up lines, one pipe statement per step in step
   * order, the `gulp.dest` line and the closing line.
   */
  lemma TransformFileLines(f: FileResult)
    ensures TransformFile(f) == Join(TaskLines(f), "\n")
  {
    var a := "gulp.task('" + f.file + "', function() {";
    var b := "\tlet __t = require('./transform.js')";
    var c := "\tlet pipe = gulp.src('" + f.file + "', { base: __dirname })";
    var stmts := PipeStatements(f.transforms);
    var d, e := "\treturn pipe.pipe(gulp.dest('./.tjs/'))", "})";
    assert TaskLines(f) == [a, b, c] + BodyLines(stmts) + [d, e];
    TransformFileText(f, a, b, c, d, e);
    JoinAround([a, b, c], BodyLines(stmts), [d, e], "\n");
    JoinThree(a, b, c, "\n");
    JoinTwo(d, e, "\n");
    BodyLinesJoin(stmts);
    TaskRegrouped(a, b, c, "\t", Join(stmts, "\n\t"), d, e, "\n");
  }

  lemma TransformFileText(f: FileResult, a: string, b: string, c: string, d: string, e: string)
    requires a == "gulp.task('" + f.file + "', function() {"
    requires b == "\tlet __t = require('./transform.js')"
    requires c == "\tlet pipe = gulp.src('" + f.file + "', { base: __dirname })"
    requires d == "\treturn pipe.pipe(gulp.dest('./.tjs/'))" && e == "})"
    ensures TransformFile(f) == a + "\n" + b + "\n" + c + "\n" + "\t" + Join(PipeStatements(f.transforms), "\n\t") + "\n" + d + "\n" + e
  {
  }

  /**
   * Regrouping the task text into its head, its body and its tail. Like the
   * other regrouping lemmas here, it is stated over plain variables because
   * the same step at the call site, over the template terms, runs out of
   * resource.
   */
  lemma TaskRegrouped(a: string, b: string, c: string, t: string, j: string, d: string, e: string, nl: string)
    ensures a + nl + b + nl + c + nl + t + j + nl + d + nl + e
      == (a + nl + b + nl + c) + nl + (t + j) + nl + (d + nl + e)
  {
  }

  // ---------------------------------------------------------------------
  // The whole script (`main`)

  /** The fixed text the script starts with. */
  function Header(): string {
    "'use strict'" + "\n"
    + "const gulp = require('gulp')" + "\n"
    + "const rimraf = require('rimraf')" + "\n"
    + "\n"
  }

  /** A path in single quotes, as the `default` task lists it. */
  function QuotedPath(f: FileResult): string {
    "'" + f.file + "'"
  }

  function QuotedPaths(files: seq<FileResult>): (r: seq<string>)
    ensures |r| == |files|
  {
    seq(|files|, k requires 0 <= k < |files| => QuotedPath(files[k]))
  }

  /** The statement that re-runs a file's task when the file changes. */
  function WatchStatement(f: FileResult): string {
    "gulp.watch('" + f.file + "', [ '" + f.file + "' ])"
  }

  function WatchStatements(files: seq<FileResult>): (r: seq<string>)
    ensures |r| == |files|
  {
    seq(|files|, k requires 0 <= k < |files| => WatchStatement(files[k]))
  }

  /**
   * The `default` task, which depends on every file's task; the template
   * turns the array of quoted paths into a string, which joins it with `,`.
   */
  function DefaultTask(files: seq<FileResult>): string {
    "gulp.task('default', [ " + Join(QuotedPaths(files), ",") + " ])"
  }

  /**
   * The line that opens the `watch` task, which depends on `default`. It is
   * written as two literals because the solver cannot show that a single
   * literal this long holds no newline; `WatchTaskOneLine` proves it piecewise.
   */
  const WatchTask: string := "gulp.task('watch', [ 'default' ], " + "function() {"

  /** The text after the per-file tasks, one template line at a time. */
  function Footer(files: seq<FileResult>): string {
    "\n"
    + "\n"
    + DefaultTask(files) + "\n"
    + "\n"
    + WatchTask + "\n"
    + ("\t" + Join(WatchStatements(files), "\n\t")) + "\n"
    + "})" + "\n"
    + "\n"
    + "gulp.task('clean', function(cb) {" + "\n"
    + "\trimraf.sync('./.tjs/')" + "\n"
    + "\tcb()" + "\n"
    + "})" + "\n"
  }

  /** The per-file tasks, in file order. */
  function Tasks(files: seq<FileResult>): (r: seq<string>)
    ensures |r| == |files|
  {
    if files == [] then [] else [TransformFile(files[0])] + Tasks(files[1..])
  }

  /** The script the tool prints for the kept files (without the newline `console.log` adds). */
  function Script(files: seq<FileResult>): string {
    Header() + Join(Tasks(files), "\n\n") + Footer(files)
  }

  // ---------------------------------------------------------------------
  // The script, line by line

  const HeaderLines: seq<string> := ["'use strict'", "const gulp = require('gulp')", "const rimraf = require('rimraf')", ""]

  /** The tasks of the kept files, one after another, with an empty line between two tasks. */
  function TaskSection(files: seq<FileResult>): (r: seq<string>)
    requires files != []
    ensures r != []
  {
    if |files| == 1 then TaskLines(files[0])
    else TaskLines(files[0]) + [""] + TaskSection(files[1..])
  }

  /**
   * The `default` task naming every kept file in order, the `watch` task
   * with one watch statement per kept file (a lone tab when there is none),
   * and the `clean` task; the text ends with a newline, hence the final
   * empty line.
   */
  function FooterLines(files: seq<FileResult>): seq<string> {
    [DefaultTask(files), "", WatchTask]
    + BodyLines(WatchStatements(files))
    + ["})", "", "gulp.task('clean', function(cb) {", "\trimraf.sync('./.tjs/')", "\tcb()", "})", ""]
  }

  /**
   * The lines between the header and the footer: the task section and an
   * empty line, or two empty lines when no file is kept.
   */
  function MiddleLines(files: seq<FileResult>): (r: seq<string>)
    ensures r != []
  {
    if files == [] then ["", ""] else TaskSection(files) + [""]
  }

  /** The header, the tasks and the footer, line by line. */
  function ScriptLines(files: seq<FileResult>): seq<string> {
    HeaderLines + MiddleLines(files) + FooterLines(files)
  }

  /** The script text is exactly its lines joined by newlines. */
  lemma ScriptLinesJoin(files: seq<FileResult>)
    ensures Script(files) == Join(ScriptLines(files), "\n")
  {
    var h, f := Join(HeaderLines, "\n"), Join(FooterLines(files), "\n");
    HeaderJoin();
    FooterJoin(files);
    JoinAround(HeaderLines, MiddleLines(files), FooterLines(files), "\n");
    if files == [] {
      assert Join(Tasks(files), "\n\n") == "";
      JoinTwo("", "", "\n");
      ScriptRegrouped(h, "", f, "");
    } else {
      var t := Join(TaskSection(files), "\n");
      TasksJoin(files);
      JoinAppend(TaskSection(files), [""], "\n");
      ScriptRegrouped(h, t, f, t);
    }
  }

  /** Gluing the header, the tasks and the footer at their newlines (over plain variables, as above). */
  lemma ScriptRegrouped(h: string, tasks: string, f: string, t: string)
    requires t == tasks
    ensures (h + "\n") + tasks + ("\n" + "\n" + f) == h + "\n" + (t + "\n" + "") + "\n" + f
  {
  }

  lemma HeaderJoin()
    ensures Header() == Join(HeaderLines, "\n") + "\n"
  {
    var a, b, c := "'use strict'", "const gulp = require('gulp')", "const rimraf = require('rimraf')";
    assert HeaderLines == [a, b, c] + [""];
    JoinAppend([a, b, c], [""], "\n");
    JoinThree(a, b, c, "\n");
  }

  /** The tasks joined by blank lines are the task section's lines joined by newlines. */
  lemma {:induction false} TasksJoin(files: seq<FileResult>)
    requires files != []
    ensures Join(Tasks(files), "\n\n") == Join(TaskSection(files), "\n")
  {
    TransformFileLines(files[0]);
    if |files| > 1 {
      var rest := files[1..];
      JoinAppend([TransformFile(files[0])], Tasks(rest), "\n\n");
      TasksJoin(rest);
      JoinAround(TaskLines(files[0]), [""], TaskSection(rest), "\n");
      BlankLineBetween(TransformFile(files[0]), Join(Tasks(rest), "\n\n"));
    }
  }

  /** Two newlines in a row leave an empty line between the texts around them (over plain variables, as above). */
  lemma BlankLineBetween(x: string, y: string)
    ensures x + "\n\n" + y == x + "\n" + "" + "\n" + y
  {
    assert "\n\n" == "\n" + "" + "\n";
  }

  lemma FooterJoin(files: seq<FileResult>)
    ensures Footer(files) == "\n" + "\n" + Join(FooterLines(files), "\n")
  {
    var d, w := DefaultTask(files), WatchTask;
    var e, c1, c2, c3 := "})", "gulp.task('clean', function(cb) {", "\trimraf.sync('./.tjs/')", "\tcb()";
    var watch := WatchStatements(files);
    var tail := [e, "", c1, c2, c3, e, ""];
    assert FooterLines(files) == [d, "", w] + BodyLines(watch) + tail;
    JoinAround([d, "", w], BodyLines(watch), tail, "\n");
    JoinThree(d, "", w, "\n");
    BodyLinesJoin(watch);
    JoinSeven(e, "", c1, c2, c3, e, "", "\n");
    FooterRegrouped("\n", d, w, "\t" + Join(watch, "\n\t"), e, c1, c2, c3);
  }

  /** Gluing the footer's lines at their newlines (over plain variables, as above, in two halves). */
  lemma FooterRegrouped(n: string, d: string, w: string, body: string, e: string, c1: string, c2: string, c3: string)
    ensures n + n + d + n + n + w + n + body + n + e + n + n + c1 + n + c2 + n + c3 + n + e + n
      == n + n + ((d + n + "" + n + w) + n + body + n + (e + n + "" + n + c1 + n + c2 + n + c3 + n + e + n + ""))
  {
    var head := n + n + d + n + n + w + n + body + n;
    FooterTailRegrouped(head, n, e, c1, c2, c3);
    FooterHeadRegrouped(n, d, w, body, e + n + n + c1 + n + c2 + n + c3 + n + e + n);
    assert d + n + "" + n + w == d + n + n + w;
    assert e + n + "" + n + c1 + n + c2 + n + c3 + n + e + n + "" == e + n + n + c1 + n + c2 + n + c3 + n + e + n;
  }

  lemma FooterTailRegrouped(head: string, n: string, e: string, c1: string, c2: string, c3: string)
    ensures head + e + n + n + c1 + n + c2 + n + c3 + n + e + n == head + (e + n + n + c1 + n + c2 + n + c3 + n + e + n)
  {
  }

  lemma FooterHeadRegrouped(n: string, d: string, w: string, body: string, rest: string)
    ensures n + n + d + n + n + w + n + body + n + rest == n + n + ((d + n + n + w) + n + body + n + rest)
  {
  }

  /**
   * A task names its file on its first and third lines, then has one
   * tab-indented pipe statement per step, in step order (a lone tab when
   * there are none), then its two closing lines.
   */
  lemma TaskLinesInStepOrder(f: FileResult)
    ensures |TaskLines(f)| == 5 + if f.transforms == [] then 1 else |f.transforms|
    ensures TaskLines(f)[0] == "gulp.task('" + f.file + "', function() {"
    ensures TaskLines(f)[2] == "\tlet pipe = gulp.src('" + f.file + "', { base: __dirname })"
    ensures forall k :: 0 <= k < |f.transforms| ==> TaskLines(f)[3 + k] == "\t" + PipeStatement(f.transforms[k])
    ensures f.transforms == [] ==> TaskLines(f)[3] == "\t"
  {
    var head := ["gulp.task('" + f.file + "', function() {",
                 "\tlet __t = require('./transform.js')",
                 "\tlet pipe = gulp.src('" + f.file + "', { base: __dirname })"];
    var body := BodyLines(PipeStatements(f.transforms));
    var tail := ["\treturn pipe.pipe(gulp.dest('./.tjs/'))", "})"];
    assert TaskLines(f) == head + body + tail;
    forall k | 0 <= k < |body| ensures TaskLines(f)[3 + k] == body[k] {
      assert (head + body + tail)[3 + k] == body[k];
    }
  }

  /**
   * The footer starts with the `default` task and has one tab-indented
   * watch statement per file, in file order, on the lines after the
   * opening of the `watch` task.
   */
  lemma FooterLinesInFileOrder(files: seq<FileResult>)
    ensures |FooterLines(files)| == 10 + if files == [] then 1 else |files|
    ensures FooterLines(files)[0] == DefaultTask(files) && FooterLines(files)[2] == WatchTask
    ensures forall k :: 0 <= k < |files| ==> FooterLines(files)[3 + k] == "\t" + WatchStatement(files[k])
  {
    var head := [DefaultTask(files), "", WatchTask];
    var body := BodyLines(WatchStatements(files));
    var tail := ["})", "", "gulp.task('clean', function(cb) {", "\trimraf.sync('./.tjs/')", "\tcb()", "})", ""];
    assert FooterLines(files) == head + body + tail;
    forall k | 0 <= k < |body| ensures FooterLines(files)[3 + k] == body[k] {
      assert (head + body + tail)[3 + k] == body[k];
    }
  }

  /** The tasks of consecutive file lists follow one another, with an empty line between them. */
  lemma {:induction false} TaskSectionAppend(a: seq<FileResult>, b: seq<FileResult>)
    requires a != [] && b != []
    ensures TaskSection(a + b) == TaskSection(a) + [""] + TaskSection(b)
  {
    ConsAppend(a, b);
    if |a| == 1 {
      assert (a + b)[1..] == b;
    } else {
      TaskSectionAppend(a[1..], b);
      var t := TaskLines(a[0]) + [""];
      AppendAssoc(t, TaskSection(a[1..]) + [""], TaskSection(b));
      AppendAssoc(t, TaskSection(a[1..]), [""]);
    }
  }

  // ---------------------------------------------------------------------
  // Reading the script back line by line

  /** A record none of whose texts (the path, the step names, the argument tuples) holds a newline. */
  predicate OneLineRecord(f: FileResult) {
    OneLine(f.file)
    && forall j :: 0 <= j < |f.transforms| ==> OneLine(f.transforms[j].name) && OneLine(f.transforms[j].argsTuple)
  }

  predicate OneLineRecords(files: seq<FileResult>) {
    forall k :: 0 <= k < |files| ==> OneLineRecord(files[k])
  }

  /**
   * Splitting the printed script at its newlines gives back exactly its line
   * view, provided no path and no step text holds a newline of its own.
   */
  lemma ScriptLinesSplit(files: seq<FileResult>)
    requires OneLineRecords(files)
    ensures SplitLines(Script(files)) == ScriptLines(files)
  {
    ScriptLinesJoin(files);
    ScriptLinesOneLine(files);
    SplitLinesOfJoin(ScriptLines(files));
  }

  lemma ScriptLinesOneLine(files: seq<FileResult>)
    requires OneLineRecords(files)
    ensures AllOneLine(ScriptLines(files))
  {
    HeaderLinesOneLine();
    FooterLinesOneLine(files);
    if files == [] {
      assert AllOneLine(MiddleLines(files));
    } else {
      TaskSectionOneLine(files);
      AllOneLineAppend(TaskSection(files), [""]);
    }
    AllOneLineAppend(HeaderLines, MiddleLines(files));
    AllOneLineAppend(HeaderLines + MiddleLines(files), FooterLines(files));
  }

  lemma HeaderLinesOneLine()
    ensures AllOneLine(HeaderLines)
  {
    UseStrictOneLine();
    RequiresOneLine();
  }

  // The fixed template lines hold no newline. Each literal gets a lemma of its
  // own: one obligation over many long literals at once, or over a literal
  // longer than about 44 characters, is beyond what the solver can decide here.

  lemma UseStrictOneLine()
    ensures OneLine("'use strict'") && OneLine("")
  {
  }

  lemma RequiresOneLine()
    ensures OneLine("const gulp = require('gulp')")
    ensures OneLine("const rimraf = require('rimraf')")
  {
  }

  lemma WatchTaskOneLine()
    ensures OneLine(WatchTask) && OneLine("})")
  {
    OneLineAppend("gulp.task('watch', [ 'default' ], ", "function() {");
  }

  lemma CleanTaskOneLine()
    ensures OneLine("gulp.task('clean', function(cb) {")
    ensures OneLine("\trimraf.sync('./.tjs/')") && OneLine("\tcb()")
  {
  }

  lemma {:induction false} TaskSectionOneLine(files: seq<FileResult>)
    requires files != [] && OneLineRecords(files)
    ensures AllOneLine(TaskSection(files))
  {
    TaskLinesOneLine(files[0]);
    if |files| > 1 {
      var rest := files[1..];
      assert forall k :: 0 <= k < |rest| ==> rest[k] == files[k + 1];
      TaskSectionOneLine(rest);
      AllOneLineAppend(TaskLines(files[0]), [""]);
      AllOneLineAppend(TaskLines(files[0]) + [""], TaskSection(rest));
    }
  }

  lemma TaskLinesOneLine(f: FileResult)
    requires OneLineRecord(f)
    ensures AllOneLine(TaskLines(f))
  {
    var a := "gulp.task('" + f.file + "', function() {";
    var b := "\tlet __t = require('./transform.js')";
    var c := "\tlet pipe = gulp.src('" + f.file + "', { base: __dirname })";
    var d, e := "\treturn pipe.pipe(gulp.dest('./.tjs/'))", "})";
    TaskTextOneLine(f.file);
    PipeStatementsOneLine(f.transforms);
    BodyLinesOneLine(PipeStatements(f.transforms));
    assert AllOneLine([a, b, c]);
    assert AllOneLine([d, e]);
    AllOneLineAppend([a, b, c], BodyLines(PipeStatements(f.transforms)));
    AllOneLineAppend([a, b, c] + BodyLines(PipeStatements(f.transforms)), [d, e]);
  }

  lemma TaskTextOneLine(path: string)
    requires OneLine(path)
    ensures OneLine("gulp.task('" + path + "', function() {")
    ensures OneLine("\tlet pipe = gulp.src('" + path + "', { base: __dirname })")
    ensures OneLine("\tlet __t = require('./transform.js')")
    ensures OneLine("\treturn pipe.pipe(gulp.dest('./.tjs/'))") && OneLine("})")
  {
    TaskHeadOneLine();
    Enclosed("gulp.task('", path, "', function() {");
    SourceLineOneLine();
    Enclosed("\tlet pipe = gulp.src('", path, "', { base: __dirname })");
    TaskFixedOneLine();
  }

  lemma TaskHeadOneLine()
    ensures OneLine("gulp.task('") && OneLine("', function() {")
  {
  }

  lemma SourceLineOneLine()
    ensures OneLine("\tlet pipe = gulp.src('") && OneLine("', { base: __dirname })")
  {
  }

  lemma TaskFixedOneLine()
    ensures OneLine("\tlet __t = require('./transform.js')")
    ensures OneLine("\treturn pipe.pipe(gulp.dest('./.tjs/'))") && OneLine("})")
  {
  }

  /** A one-line text between two one-line texts stays on one line. */
  lemma Enclosed(pre: string, s: string, post: string)
    requires OneLine(pre) && OneLine(s) && OneLine(post)
    ensures OneLine(pre + s + post)
  {
    OneLineAppend(pre, s);
    OneLineAppend(pre + s, post);
  }

  lemma PipeStatementsOneLine(ts: seq<Step>)
    requires forall j :: 0 <= j < |ts| ==> OneLine(ts[j].name) && OneLine(ts[j].argsTuple)
    ensures AllOneLine(PipeStatements(ts))
  {
    forall k | 0 <= k < |ts| ensures OneLine(PipeStatements(ts)[k]) {
      var t := ts[k];
      OneLineAppend(t.name, t.argsTuple);
      assert PipeStatement(t) == "pipe = pipe.pipe(__t." + (t.name + t.argsTuple) + ")";
      Enclosed("pipe = pipe.pipe(__t.", t.name + t.argsTuple, ")");
    }
  }

  lemma BodyLinesOneLine(stmts: seq<string>)
    requires AllOneLine(stmts)
    ensures AllOneLine(BodyLines(stmts))
  {
    if stmts != [] {
      AllOneLinePrefixed("\t", stmts);
    }
  }

  lemma FooterLinesOneLine(files: seq<FileResult>)
    requires OneLineRecords(files)
    ensures AllOneLine(FooterLines(files))
  {
    var d, w := DefaultTask(files), WatchTask;
    var e, c1, c2, c3 := "})", "gulp.task('clean', function(cb) {", "\trimraf.sync('./.tjs/')", "\tcb()";
    var watch := WatchStatements(files);
    DefaultTaskOneLine(files);
    WatchStatementsOneLine(files);
    BodyLinesOneLine(watch);
    WatchTaskOneLine();
    CleanTaskOneLine();
    assert AllOneLine([d, "", w]);
    assert AllOneLine([e, "", c1, c2, c3, e, ""]);
    AllOneLineAppend([d, "", w], BodyLines(watch));
    AllOneLineAppend([d, "", w] + BodyLines(watch), [e, "", c1, c2, c3, e, ""]);
  }

  lemma DefaultTaskOneLine(files: seq<FileResult>)
    requires OneLineRecords(files)
    ensures OneLine(DefaultTask(files))
  {
    forall k | 0 <= k < |files| ensures OneLine(QuotedPaths(files)[k]) {
      Enclosed("'", files[k].file, "'");
    }
    OneLineJoin(QuotedPaths(files), ",");
    Enclosed("gulp.task('default', [ ", Join(QuotedPaths(files), ","), " ])");
  }

  lemma WatchStatementsOneLine(files: seq<FileResult>)
    requires OneLineRecords(files)
    ensures AllOneLine(WatchStatements(files))
  {
    forall k | 0 <= k < |files| ensures OneLine(WatchStatements(files)[k]) {
      var p := files[k].file;
      Enclosed("gulp.watch('", p, "', [ '");
      Enclosed("gulp.watch('" + p + "', [ '", p, "' ])");
    }
  }
}
