# tjs: directive comments to a gulp script, in Dafny

`tjs` (the `cli/tjs.js` command of transform.js) scans the project's source
files for directive comments such as

    //% clean |> minify(true)

and prints a gulp script. The script has one task per file that pipes the
file through the named transforms, in the order written. It also has a
`default` task over all those tasks, a `watch` task and a `clean` task.

This project models the command's core and proves properties of it:

- **Scanner** (`scanner.dfy`). The line regex `^\s*\/\/%\s+(.*)$` and the
  payload the `line` events accumulate. `\s` is the exact ECMAScript set of
  WhiteSpace and LineTerminator characters (`text.dfy`). `.` is any
  character except a line terminator.
- **Compiler** (`compiler.dfy`). The `close` handler's chain over the
  payload:
  - split on `|>`;
  - `trim`;
  - drop empty segments;
  - append `()` when a segment does not end in `)`;
  - match `/^([^\(]+)(.*)$/m` to get `{ name, argsTuple }`.

  A segment the regex cannot match (one that starts with `(`) makes
  `parts[1]` throw. It is modelled as the error `MalformedStep(segment)`.
- **Per-file parse and the run** (`tjs.dfy`). `tjs_parseSourceFile` is a
  loop over the file's lines (`ReadDirectives`) followed by the close step
  (`Close`). `main` is a loop that parses the files in discovery order
  (`ParseAll`), then the filter `f.transforms.length > 0`, then the
  `s += ...` assembly (`Assemble`). `Run` is the reference function these
  methods are proved against. Parsing stops at the first file, in
  discovery order, whose directive does not compile.
- **Renderer** (`render.dfy`). `tjs_gulp_transformFile` and the
  header/tasks/footer template text, exactly as written, with a line view
  of each. The fact tying the two views together is that the printed text
  is the line view joined by newlines. Conversely, splitting the text at
  newlines gives the line view back, unless a path or a step text itself
  holds a newline.
- **Scenario** (`scenario.dfy`). An example run: `foo.js` with
  `//% clean |> minify(true)` and `bar.js` without directives. The run
  prints exactly the script for `foo.js` with the steps `clean()` and
  `minify(true)`.
- `wrappers.dfy` holds `Option`, `Result` and `Traverse` (a map that
  stops at the first failure). `seqs.dfy` holds generic sequence lemmas.

## Behaviour of the code worth noting

- A directive needs at least one whitespace character after `//%`.
  `//%foo` is not a directive.
- Only `//%` line comments are directives. A block comment such as
  `/*% ... */` is not recognised.
- A file whose directive yields no steps (`//% |>` or `//%   `) is dropped
  from the script like a file without a directive.
- `argsTuple` can be empty. For the segment `foo)`, which already ends in
  `)`, the name is `foo)` and `argsTuple` is empty.
- A file that cannot be read makes its read stream emit an error that
  nothing handles.
- A segment starting with `(` has no match for the step regex, so the
  `close` handler throws.

## Model

In the table, *the separator* is the two characters `|>`.

| member | source | states |
|---|---|---|
| Scanner.ScanLine | cli/tjs.js:20 | A matching line's capture is a suffix of the line after the sigil and at least one more character. The capture holds no line terminator and does not start with whitespace. |
| Scanner.ScanLineMatches | cli/tjs.js:20 | Every line of the shape whitespace, `//%`, at least one whitespace character, then a rest without line terminators matches. The capture is the rest without its leading whitespace. |
| Scanner.ScanLineShape | cli/tjs.js:20 | Conversely, every matching line has that shape, with the capture as its rest. |
| Scanner.SigilNeedsWhitespace | cli/tjs.js:20 | `//%` followed directly by a non-whitespace character, or by nothing, is not a directive. |
| Scanner.Capture | cli/tjs.js:20-22 | What one `line` event adds to `cfg`: the capture `m[1]` of a matching line, or nothing. Its properties are those of `ScanLine`. |
| Scanner.ScanNoGap | cli/tjs.js:20 | `//%foo` is ignored. |
| Scanner.ScanEmptyDirective | cli/tjs.js:20 | `  //%   ` captures the empty string. |
| Scanner.Payload | cli/tjs.js:14-22 | The accumulated payload holds no line terminator. |
| Scanner.PayloadSnoc | cli/tjs.js:19-22 | Reading one more line appends exactly that line's capture, or nothing when the line does not match. |
| Scanner.PayloadAppend | cli/tjs.js:14-22 | The payload of two consecutive runs of lines is the concatenation of their payloads, with nothing between them. |
| Scanner.PayloadWithoutDirectives | cli/tjs.js:19-22 | Lines that do not match leave the payload empty. |
| Tjs.ReadDirectives | cli/tjs.js:14-32 | The loop over the lines ends with `cfg` equal to the in-order concatenation of all captures. |
| Tjs.Close | cli/tjs.js:33-48 | The close step yields the file's path with the compiled steps, or the compile error, and succeeds exactly when compiling succeeds. |
| Tjs.ParseFile | cli/tjs.js:13-48 | The outcome of `tjs_parseSourceFile`: the path with the steps compiled from the file's payload, or the compile error. `ParseFileSteps` and `ParseSourceFile` state what it yields. |
| Tjs.ParseSourceFile | cli/tjs.js:13-49 | Parsing a file is the line loop followed by the close step. Its outcome is `ParseFile`. |
| Tjs.ParseFileSteps | cli/tjs.js:13-48 | A file parses exactly when no normalised segment of its payload starts with `(`. Its record then keeps the path, and the step texts are the segments in order. |
| Tjs.NoDirectivesNoSteps | cli/tjs.js:13-48 | A file without directive lines parses to a record with no steps. |
| Text.Trim | cli/tjs.js:35 | The trimmed segment is empty, or starts and ends with a non-whitespace character. |
| Text.TrimOf | cli/tjs.js:35 | Trimming whitespace + r + whitespace gives exactly r, when r has no whitespace at either end. |
| Text.AllSpaceTrim | cli/tjs.js:35-36 | A segment trims to the empty string exactly when it is all whitespace. |
| Text.IsSpace | cli/tjs.js:20-35 | The characters `\s` matches and `trim` removes: the ECMAScript white space and line terminators. `SigilNeedsWhitespace` and `AllSpaceTrim` state what the directive match and the trim make of them. |
| Text.Join | cli/tjs.js:58-104 | `Array.prototype.join`: the parts with the separator between two neighbours. `JoinAppend` states that joining two lists is joining their joins, and `SplitLinesOfJoin` that splitting a newline join of one-line parts gives the parts back. |
| Compiler.TrimAll | cli/tjs.js:35 | `.map(t => t.trim())`: every piece trimmed, in order. `TrimAllAppend` shows that it keeps the order of consecutive parts. |
| Compiler.SplitPipes | cli/tjs.js:34 | The pieces hold no separator, joining them with the separator gives the payload back, and they keep the payload's freedom from line terminators. |
| Compiler.SplitPipesOfJoin | cli/tjs.js:34 | Splitting pieces joined by the separator gives the pieces back, when none holds the separator. |
| Compiler.SplitPipesAppend | cli/tjs.js:34 | The pieces of a, the separator, b are those of `a` followed by those of `b`. |
| Compiler.DropEmpty | cli/tjs.js:36 | `.filter(t => t != '')`. Keeps at most as many segments, all non-empty. `DropEmptySpec` and `DropEmptyAppend` state which ones, and in what order. |
| Compiler.DropEmptySpec | cli/tjs.js:36 | The filter keeps exactly the non-empty segments, and nothing it keeps is new. |
| Compiler.AddParens | cli/tjs.js:37 | The result ends with `)`: the segment with exactly `()` appended when it does not already end with `)`, and the segment unchanged when it does. |
| Compiler.AddParensAll | cli/tjs.js:37 | The `.map` of the paren step over the kept segments: one result per segment, each non-empty and ending with `)`. `AddParensAllAppend` states that it maps each segment on its own, in order. |
| Compiler.SegmentsSpec | cli/tjs.js:34-37 | There are at most as many normalised segments as separator-delimited pieces. Each is non-empty, trimmed, ends with `)` and holds no separator. None holds a line terminator when the payload holds none. |
| Compiler.Segments | cli/tjs.js:34-37 | The normalised segments: split, trimmed, empty ones dropped, `()` added where needed. `SegmentsSpec`, `SegmentsAppend` and `SegmentsToNothing` state their properties. |
| Compiler.SegmentsToNothing | cli/tjs.js:34-37 | No segment survives exactly when every separator-delimited piece is blank. |
| Compiler.CompileToNothing | cli/tjs.js:34-44 | A payload compiles to zero steps exactly when every separator-delimited piece is blank, as in three blanks or two separators in a row. |
| Compiler.MatchStep | cli/tjs.js:40 | The multiline step regex fails exactly when no line start of the segment is followed by a character other than `(`. A match has a non-empty name without `(`, and argument text that is empty or starts with `(`. |
| Compiler.MatchStepSplits | cli/tjs.js:40-42 | On a segment without line terminators, the match fails exactly when the segment starts with `(`. Otherwise name followed by argument text is the segment. |
| Compiler.MatchStepAt | cli/tjs.js:40-42 | A name without `(` followed by text starting with `(` matches as that name and that text, verbatim. |
| Compiler.MatchStepWhole | cli/tjs.js:40-42 | A segment without `(` matches as a name with empty argument text. |
| Compiler.StepOfSegment | cli/tjs.js:40-43 | A step's name and argument text together are its segment. The argument text is empty exactly when the segment holds no `(`, and otherwise ends with `)`. |
| Compiler.MatchSegment | cli/tjs.js:38-44 | The last `.map` callback: the step the regex yields, or the error raised by `parts[1]` when the regex finds no match. |
| Compiler.MatchAll | cli/tjs.js:38-44 | Runs the step match over the segments in order, with one step per segment on success. The first segment without a match raises (`MatchAllSpec`). |
| Compiler.Compile | cli/tjs.js:34-44 | The whole close-handler chain from payload to steps. `CompileSteps`, `CompileAppend`, `CompileRejoined` and `CompileToNothing` state what it yields. |
| Compiler.MatchAllSpec | cli/tjs.js:38-44 | Matching every segment succeeds exactly when each segment matches, with one step per segment in order. A failure reports a segment that does not match, and every segment before it matches. |
| Compiler.CompileWellFormed | cli/tjs.js:34-44 | There are at most as many steps as separator-delimited pieces, and every step is well formed. |
| Compiler.CompileSteps | cli/tjs.js:34-44 | On a scanner payload, compiling fails exactly when some segment starts with `(`. Otherwise the step texts are the segments in order, and a step has empty arguments exactly when its segment holds no `(`. |
| Compiler.CompileLeadingParen | cli/tjs.js:40-41 | A segment starting with `(` makes compiling fail with that segment. |
| Compiler.CompileStrayParen | cli/tjs.js:37-43 | A segment like `foo)` without `(` compiles to the name `foo)` with empty argument text. |
| Compiler.CompileOneStep | cli/tjs.js:34-43 | One step surrounded by whitespace compiles to its name with its argument text. The text is `()` when none was written: `foo` gives `foo` and `()`. |
| Compiler.CompileAppend | cli/tjs.js:34-44 | The steps of a, the separator, b are those of `a` followed by those of `b`, and the first failure from the left is reported. |
| Compiler.CompileInOrder | cli/tjs.js:34-44 | Three one-step pieces joined by the separator give their three steps in the written order. |
| Compiler.CompileThreeSteps | cli/tjs.js:34-44 | The directive text of `a`, ` b(1) `, ` c` joined by the separator gives `a()`, `b(1)`, `c()` in that order. |
| Compiler.CompileRejoined | cli/tjs.js:34-44 | Compiling is idempotent: joining the compiled steps with the separator and a blank on either side and compiling again gives the same steps. |
| Compiler.CompileOneLine | cli/tjs.js:34-44 | Steps compiled from a scanner payload have names and argument texts without newlines. |
| Wrappers.TraverseSpec | cli/tjs.js:79 | Awaiting every result succeeds exactly when each succeeds, with the values in input order. Otherwise the error is that of the first failure. |
| Tjs.CollectSpec | cli/tjs.js:79 | The collected records are the parses in discovery order, whatever order they finish in. The first failing file in discovery order stops the run. |
| Tjs.CollectAppend | cli/tjs.js:79 | Collecting consecutive groups of files is collecting each group in turn. |
| Tjs.Collect | cli/tjs.js:79 | `yield files.map(tjs_parseSourceFile)`: the records in discovery order, or the first error. `CollectSpec` states this. |
| Tjs.Parses | cli/tjs.js:79 | `files.map(tjs_parseSourceFile)`: one outcome per discovered file, in discovery order. `CollectSpec` and `RunInDiscoveryOrder` state what is made of them. |
| Tjs.ParseAll | cli/tjs.js:79 | The loop over the files ends with the collected records, or with the first error. |
| Tjs.ParseNext | cli/tjs.js:79 | Each file's parse extends the records collected so far, or its error is the outcome of the whole collection. |
| Tjs.KeepMembers | cli/tjs.js:80 | A record survives the filter exactly when it is in the list and has at least one step. |
| Tjs.Keep | cli/tjs.js:80 | `files.filter(f => f != null && f.transforms.length > 0)`. Keeps at most as many records. `KeepMembers`, `KeepAppend` and `KeepIdempotent` state which ones, and in what order. |
| Tjs.KeepAppend | cli/tjs.js:80 | Filtering preserves order: the filter of `a + b` is that of `a` followed by that of `b`. |
| Tjs.KeepKeepsStepped | cli/tjs.js:80 | A list of records that all have steps passes the filter unchanged. |
| Tjs.KeepIdempotent | cli/tjs.js:80 | Filtering twice is filtering once. |
| Tjs.RunFails | cli/tjs.js:79-80 | A run fails exactly when some file's directive does not compile. The error reported is that of the first such file in discovery order. |
| Tjs.RunInDiscoveryOrder | cli/tjs.js:79-111 | When every file compiles, the k-th record is the k-th file's, with its path, and the script is built from the kept records. |
| Tjs.Run | cli/tjs.js:79-111 | What `main` prints after discovery: the script for the kept records, or the first error. `RunFails`, `RunInDiscoveryOrder` and `RunLines` state its properties. `Generate` is proved equal to it. |
| Tjs.Assemble | cli/tjs.js:85-111 | Header, tasks of the kept files joined by a blank line, and footer, built by `+=`. |
| Tjs.Generate | cli/tjs.js:79-111 | The whole command after discovery yields `Run(sources)`: the script for the kept files, or the first error. |
| Tjs.RunLines | cli/tjs.js:79-111 | When no path holds a newline, splitting the printed script at newlines gives its line view for the kept files. |
| GulpRender.TransformFileLines | cli/tjs.js:54-61 | A task's text is its lines joined by newlines. |
| GulpRender.TaskLinesInStepOrder | cli/tjs.js:55-60 | A task names its file on lines 1 and 3, then has one tab-indented `pipe = pipe.pipe(__t.<name><argsTuple>)` per step in step order (a lone tab when there are none), then its two closing lines. |
| GulpRender.BodyLinesJoin | cli/tjs.js:58 | A tab followed by the pipe statements joined by `"\n\t"` is the tab-indented statements joined by newlines. |
| GulpRender.HeaderJoin | cli/tjs.js:85-89 | The header is its three lines and an empty line, joined by newlines, with a final newline. |
| GulpRender.TasksJoin | cli/tjs.js:94 | The tasks joined by `"\n\n"` are the task section's lines, with an empty line between two tasks. |
| GulpRender.TaskSectionAppend | cli/tjs.js:94 | The tasks of consecutive file lists follow one another in order. |
| GulpRender.Tasks | cli/tjs.js:94 | One task per kept file, in file order. `TasksJoin` and `TaskSectionAppend` state the lines they make once joined. |
| GulpRender.FooterJoin | cli/tjs.js:99-111 | The footer is two newlines followed by its lines joined by newlines. |
| GulpRender.FooterLinesInFileOrder | cli/tjs.js:101-104 | The footer opens with the `default` task over the quoted paths joined by `,`. Then comes one tab-indented `gulp.watch` line per file, in file order, after the opening of the `watch` task. |
| GulpRender.ScriptLinesJoin | cli/tjs.js:85-111 | The script is its line view (header, task section, footer) joined by newlines. |
| GulpRender.ScriptLinesSplit | cli/tjs.js:85-111 | Splitting the script at newlines gives the line view back, when no path or step text holds a newline. |
| GulpRender.PipeStatement | cli/tjs.js:58 | `pipe = pipe.pipe(__t.<name><argsTuple>)` for one step. `TaskLinesInStepOrder` places one per step in the task, in order. |
| GulpRender.PipeStatements | cli/tjs.js:58 | One pipe statement per step, in step order. `TaskLinesInStepOrder` and `PipeStatementsOneLine` state their place in the task and that each is one line. |
| GulpRender.TransformFile | cli/tjs.js:54-61 | `tjs_gulp_transformFile`, character for character. `TransformFileLines` and `TaskLinesInStepOrder` state its lines. |
| GulpRender.Header | cli/tjs.js:85-89 | The fixed header text. `HeaderJoin` states its lines. |
| GulpRender.QuotedPath | cli/tjs.js:101 | `"'" + f.file + "'"`, one entry of the `default` task's array. |
| GulpRender.QuotedPaths | cli/tjs.js:101 | One quoted path per kept file, in file order, the array the `default` task depends on. `DefaultTaskOneLine` states that the joined array stays on one line. |
| GulpRender.DefaultTask | cli/tjs.js:101 | The `default` task, with the quoted paths turned into a string by the array's `,` join. `FooterLinesInFileOrder` places it first in the footer. |
| GulpRender.WatchStatement | cli/tjs.js:104 | The `gulp.watch` line for one file, re-running that file's task. `FooterLinesInFileOrder` places one per file, in order. |
| GulpRender.WatchStatements | cli/tjs.js:104 | One `gulp.watch` line per kept file, in file order. `FooterLinesInFileOrder` and `WatchStatementsOneLine` state their place in the footer and that each is one line. |
| GulpRender.Footer | cli/tjs.js:99-111 | The footer template text. `FooterJoin` and `FooterLinesInFileOrder` state its lines. |
| GulpRender.Script | cli/tjs.js:85-111 | The header, the tasks joined by `"\n\n"`, and the footer. `ScriptLinesJoin` and `ScriptLinesSplit` tie it to its line view. |
| Scenario.EndToEnd | cli/tjs.js:13-111 | `foo.js` with the directive line of `clean `, the separator and ` minify(true)` and a file without directives produce exactly the script for `foo.js` alone, with steps `clean()` then `minify(true)`. |
| Scenario.CompileCleanMinify | cli/tjs.js:34-44 | `clean `, the separator and ` minify(true)` compile to `clean` with `()` and `minify` with `(true)`. |

## Left out

- File discovery with `globby` and its include/exclude patterns: the discovered paths are an input sequence (`SourceFile` values, in discovery order).
- `fs.createReadStream`, `readline` and `process.cwd()`: a file is its path and its lines, already split. An unreadable file (whose stream error the code does not handle) is not modelled.
- `co`, the Promises and the concurrent reads: the parses are a sequential map in discovery order, which is the order `yield files.map(...)` delivers them in. With several malformed files, the one that crashes first depends on completion order. The model reports the first in discovery order.
- The uncaught `TypeError` from the `close` handler: it is thrown inside an event callback, so no script is printed. The model returns `Failure(MalformedStep(segment))` instead; the process crash and its stack trace are not modelled.
- `console.log`, its trailing newline, and the `try`/`catch` with `console.error`: `Script` is the string handed to `console.log`.
- Executing the generated gulp script (`rimraf`, `gulp.dest`, `./transform.js`).
- The commented-out early-exit code in the `line` handler (not executed by the program).
- Strings are sequences of characters, not of UTF-16 code units. A character outside the Basic Multilingual Plane is one element here, where JavaScript sees two.
- Tjs.RunLines: shown only for paths without a newline, because a newline inside a path splits the printed task line.
